/** Submitting, copying and cancelling keep the invariant; neither ever waits for the completion queue. */
module RestoreSubmissions {
  import opened Collections
  import opened Octets
  import opened RestoreModel
  import opened RestoreInvariant
  import opened RestoreParts
  import opened RestorePrimitives
  import opened RestoreSteps
  import opened RestoreCompletions
  import opened RestoreQueue
  import opened RestoreAdmissions
  import B = DirectBuffers
  import D = DirectDescriptors

  // ---------------------------------------------------------------- submitting a read

  lemma LinkedRetires(tickets: map<nat, Ticket>, d: D.Descriptors, after: D.Descriptors)
    requires Linked(tickets, d) && D.OnlyRetires(d, after, {})
    ensures Linked(tickets, after)
  {
    hide D.SlotOf, D.GenerationOf, D.IsCancel, Uses;
    forall id | id in tickets ensures TokensFit(after, id, tickets[id]) {
      assert TokensFit(d, id, tickets[id]);
    }
    forall i | 0 <= i < |after.slots| && after.slots[i].entry.Some?
      ensures var id := after.slots[i].entry.value.binding.operation; id in tickets && Uses(tickets[id], i)
    {
      assert d.slots[i].entry == after.slots[i].entry;
    }
  }

  function Submitted(ticket: Ticket, token: D.Token): Ticket {
    ticket.(originalPending := true, originalToken := Some(token), hash := HashReserved, state := ReadSubmitted)
  }

  lemma SubmitLinks(t: Table, id: nat, d: D.Descriptors, token: D.Token)
    requires Accounts(t) && id in t.tickets && t.tickets[id].buffer.Some?
    requires !t.tickets[id].originalPending && !t.tickets[id].cancelPending
    requires D.Found(t.descriptors, BindingOf(id, t.tickets[id].buffer.value), d, Ok(token))
    ensures Linked(t.tickets[id := Submitted(t.tickets[id], token)], d)
    ensures D.SlotOf(token) < |t.descriptors.slots| && t.descriptors.slots[D.SlotOf(token)].entry.None?
  {
    hide Sized, Held, Asked, Billed, AllWaiters, TicketsFit, Counted, D.SlotOf, D.GenerationOf, D.IsCancel, D.TableFits;
    NoTokens(t, id);
    NoDescriptor(t.tickets, t.descriptors, id);
    var ticket, k := Submitted(t.tickets[id], token), D.SlotOf(token);
    assert Uses(ticket, k);
    LinkedChanges(t.tickets, t.descriptors, id, ticket, d, k);
  }

  lemma SubmitAccounts(t: Table, id: nat, d: D.Descriptors, token: D.Token, slot: B.Slot, w: Table)
    requires Accounts(t) && id in t.tickets && t.tickets[id].buffer.Some?
    requires !t.tickets[id].originalPending && !t.tickets[id].cancelPending && t.tickets[id].hash.NoHash?
    requires D.Found(t.descriptors, BindingOf(id, t.tickets[id].buffer.value), d, Ok(token))
    requires t.hashJobs + 1 <= t.config.maxHashJobs && t.tickets[id].buffer.value.slot < |t.buffers.slots|
    requires slot.generation == t.tickets[id].buffer.value.generation && |slot.bytes| == B.BUFFER_BYTES
    requires w == t.(tickets := t.tickets[id := Submitted(t.tickets[id], token)], descriptors := d,
                     buffers := t.buffers.(slots := t.buffers.slots[t.tickets[id].buffer.value.slot := slot]),
                     cq := t.cq.(original := t.cq.original + 1), hashJobs := t.hashJobs + 1)
    ensures Accounts(w) && Apart(t, w, id)
  {
    hide Held, Linked, Asked, Billed, Sum, AllWaiters, Originals, Cancels, HashHolders, Lengths, TicketsFit, Apart, D.TableFits;
    hide B.PoolFits, Sized, D.SlotOf;
    var ticket := Submitted(t.tickets[id], token);
    SubmitLinks(t, id, d, token);
    BufferMoves(t, id, slot);
    var u := t.(buffers := w.buffers);
    HeldPut(t.tickets, w.buffers, id, ticket);
    AskedPut(t.tickets, t.requests, id, ticket);
    CountsPut(t, id, ticket);
    TicketFits(t, id);
    TicketsPut(t, id, ticket);
    SizedPut(u, id, ticket);
    SizedSubmits(Put(u, id, ticket), d, w);
    ApartPut(u, w, id, ticket);
    ApartIsTransitive(t, u, w, id);
  }

  lemma SizedSubmits(t: Table, d: D.Descriptors, w: Table)
    requires Sized(t) && D.TableFits(d) && |d.slots| == |t.descriptors.slots|
    requires w == t.(descriptors := d, cq := t.cq.(original := t.cq.original + 1), hashJobs := t.hashJobs + 1)
    ensures Sized(w)
  {
  }

  predicate MaySubmit(t: Table, id: nat) {
    && !t.retired && (t.workers.Some? ==> !t.workers.value.failed)
    && id in t.tickets && t.tickets[id].state.BufferReserved?
    && t.hashJobs < t.config.maxHashJobs
  }

  lemma RetiredDescriptorsKeep(t: Table, d: D.Descriptors)
    requires Invariant(t) && D.TableFits(d) && D.OnlyRetires(t.descriptors, d, {})
    ensures Invariant(t.(descriptors := d))
  {
    hide Held, Linked, Asked, Billed, Sum, AllWaiters, Originals, Cancels, HashHolders, Lengths, TicketsFit, B.PoolFits, D.TableFits, StateFits;
    LinkedRetires(t.tickets, t.descriptors, d);
  }

  /** A submission that may proceed fails only when no descriptor has a generation left. It never
      waits for the completion queue. */
  lemma SubmitKeeps(t: Table, id: nat)
    requires Invariant(t)
    ensures var o := SubmitRead(t, id);
            && Invariant(o.table) && o.result != Err(CqWait)
            && (o.result.Ok? <==> MaySubmit(t, id) && exists i :: 0 <= i < |t.descriptors.slots| && D.Usable(t.descriptors.slots[i]))
            && (o.result.Ok? ==>
                  && Apart(t, o.table, id) && id in o.table.tickets && o.table.tickets[id].originalToken.Some?
                  && o.table.tickets[id] == Submitted(t.tickets[id], o.table.tickets[id].originalToken.value)
                  && D.Allocate(t.descriptors, BindingOf(id, t.tickets[id].buffer.value)) ==
                       (o.table.descriptors, Ok(o.table.tickets[id].originalToken.value)))
            && (o.result.Err? ==>
                  && o.table == t.(descriptors := o.table.descriptors)
                  && (o.table == t || exists binding :: o.table.descriptors == D.Allocate(t.descriptors, binding).0))
  {
    hide Invariant, D.Allocate, D.Found, D.TableFits, B.PoolFits, Accounts, Apart, D.Complete;
    if MaySubmit(t, id) {
      Fitting(t, id);
      var ticket := t.tickets[id];
      BufferOf(t, id);
      SizesOf(t);
      JobsFit(t);
      IdIsPositive(t, id);
      var binding := BindingOf(id, ticket.buffer.value);
      D.AllocateOutcome(t.descriptors, binding);
      var (d, granted) := D.Allocate(t.descriptors, binding);
      if granted.Ok? {
        SubmitLinks(t, id, d, granted.value);
        RoomForOriginal(t, D.SlotOf(granted.value));
        var slot := B.Moved(t.buffers.slots[ticket.buffer.value.slot], B.ReadInflight);
        var w := SubmitRead(t, id).table;
        SubmitAccounts(t, id, d, granted.value, slot, w);
        Restores(t, w, id);
      } else {
        NoneAllocated(t.descriptors, binding, d, granted.error);
        RetiredDescriptorsKeep(t, d);
      }
    } else if id in t.tickets && t.tickets[id].state.BufferReserved? {
      Fitting(t, id);
      JobsFit(t);
    }
  }

  lemma IdIsPositive(t: Table, id: nat)
    requires Accounts(t) && id in t.tickets
    ensures id > 0
  {
  }

  lemma JobsFit(t: Table)
    requires Accounts(t)
    ensures t.config.maxHashJobs <= MAX_U32
  {
  }

  lemma NoneAllocated(d: D.Descriptors, binding: D.Binding, after: D.Descriptors, e: D.DescriptorError)
    requires D.Found(d, binding, after, Err(e))
    ensures D.TableFits(after) && D.OnlyRetires(d, after, {})
  {
  }

  // ---------------------------------------------------------------- bytes arrive

  lemma CopyKeeps(t: Table, id: nat, offset: nat, source: Bytes)
    requires Invariant(t)
    ensures var o := CopyIntoDestination(t, id, offset, source);
            && Invariant(o.table) && Apart(t, o.table, id) && o.table == t.(buffers := o.table.buffers)
            && (o.result.Ok? ==> id in t.tickets && t.tickets[id].state.ReadSubmitted?)
            && (o.result.Err? ==> o.table == t)
            && Quiet(t, o.table, id)
  {
    hide Invariant, Accounts, Apart;
    ApartFromItself(t, id);
    AlwaysQuiet(t, id);
    if id in t.tickets && t.tickets[id].state.ReadSubmitted? {
      Fitting(t, id);
      BufferOf(t, id);
      LengthFits(t, id);
      var buffer := t.tickets[id].buffer.value;
      var slot := t.buffers.slots[buffer.slot];
      if offset + |source| <= t.tickets[id].record.length {
        var written := slot.(bytes := slot.bytes[..offset] + source + slot.bytes[offset + |source|..]);
        BufferMoves(t, id, written);
        var u := t.(buffers := t.buffers.(slots := t.buffers.slots[buffer.slot := written]));
        Restores(t, u, id);
      }
    }
  }

  lemma LengthFits(t: Table, id: nat)
    requires Accounts(t) && id in t.tickets
    ensures t.tickets[id].record.length <= B.BUFFER_BYTES
  {
    assert WaitersFit(t.config, t.tickets[id]);
  }
}
