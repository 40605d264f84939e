/** Completions, failures and endings keep the invariant. */
module RestoreSteps {
  import opened Collections
  import opened Octets
  import opened RestoreModel
  import opened RestoreInvariant
  import opened RestoreParts
  import opened RestorePrimitives
  import B = DirectBuffers
  import D = DirectDescriptors

  // ---------------------------------------------------------------- failing a ticket

  lemma ReleasesAnyHash(t: Table, id: nat)
    requires Accounts(t) && id in t.tickets
    ensures var o := ReleaseHash(t, id);
            && o.result == Ok(())
            && o.table == Put(t, id, t.tickets[id].(hash := NoHash)).(hashJobs := o.table.hashJobs)
            && Accounts(o.table) && Apart(t, o.table, id)
  {
    hide Accounts, Apart;
    if t.tickets[id].hash.NoHash? {
      assert t.tickets[id := t.tickets[id].(hash := NoHash)] == t.tickets;
      ApartFromItself(t, id);
    } else {
      ReleasesHash(t, id);
    }
  }

  lemma ApartFromItself(t: Table, id: nat)
    ensures Apart(t, t, id)
  {
  }

  lemma Quarantines(t: Table, id: nat)
    requires Accounts(t) && id in t.tickets && t.tickets[id].buffer.Some?
    requires BufferStateOf(t.buffers, t.tickets[id]).Some? && B.Active(BufferStateOf(t.buffers, t.tickets[id]).value)
    ensures var o := QuarantineBuffer(t, t.tickets[id].buffer.value);
            && o.result == Ok(()) && o.table == t.(buffers := o.table.buffers)
            && Accounts(o.table) && Apart(t, o.table, id)
            && BufferStateOf(o.table.buffers, t.tickets[id]) == Some(B.Quarantined)
  {
    hide Accounts, Apart, MoveBuffer;
    BufferOf(t, id);
    Moves(t, id, B.BufferFailed);
    var u := MoveBuffer(t, t.tickets[id].buffer.value, B.BufferFailed).table;
    Moves(u, id, B.Quarantined);
    ApartIsTransitive(t, u, MoveBuffer(u, t.tickets[id].buffer.value, B.Quarantined).table, id);
  }

  /** The ticket as failing leaves it. */
  function FailedTicket(ticket: Ticket): Ticket {
    ticket.(hash := NoHash, waiters := map[], state := Failed)
  }

  /** Failing a ticket quarantines its buffer, ends its job and lets its waiters go. It stays only
      for completions that are still pending. */
  lemma Fails(t: Table, id: nat)
    requires Accounts(t) && id in t.tickets && t.tickets[id].buffer.Some?
    requires BufferStateOf(t.buffers, t.tickets[id]).Some? && B.Active(BufferStateOf(t.buffers, t.tickets[id]).value)
    ensures var o, pending := FailTicket(t, id), t.tickets[id].originalPending || t.tickets[id].cancelPending;
            && o.result == Ok(()) && Accounts(o.table) && Apart(t, o.table, id) && o.table.descriptors == t.descriptors
            && (pending ==>
                  && id in o.table.tickets && o.table.tickets[id] == FailedTicket(t.tickets[id])
                  && BufferStateOf(o.table.buffers, o.table.tickets[id]) == Some(B.Quarantined))
            && (!pending ==> id !in o.table.tickets)
  {
    hide Accounts, Apart, QuarantineBuffer, ReleaseHash, ClearWaiters, RemoveTicket, B.Active;
    var ticket := t.tickets[id];
    Quarantines(t, id);
    var u := QuarantineBuffer(t, ticket.buffer.value).table;
    ReleasesAnyHash(u, id);
    var v := ReleaseHash(u, id).table;
    Clears(v, id);
    var w := ClearWaiters(v, id).table;
    var failed := FailedTicket(ticket);
    PutKeepsAccounts(w, id, failed);
    var x := Put(w, id, failed);
    ApartIsTransitive(t, u, v, id);
    ApartIsTransitive(t, v, w, id);
    ApartIsTransitive(t, w, x, id);
    if !ticket.originalPending && !ticket.cancelPending {
      QuarantinedIsInactive();
      Removes(x, id);
      ApartIsTransitive(t, x, RemoveTicket(x, id).table, id);
    }
  }

  lemma QuarantinedIsInactive()
    ensures !B.Active(B.Quarantined) && !B.Active(B.Free)
  {
  }

  /** Failing a ticket keeps the invariant; its read is lost if it is still in flight. */
  lemma FailKeepsInvariant(t: Table, u: Table, id: nat)
    requires Invariant(t) && Apart(t, u, id) && Accounts(u) && id in u.tickets && u.tickets[id].buffer.Some?
    requires BufferStateOf(u.buffers, u.tickets[id]).Some? && B.Active(BufferStateOf(u.buffers, u.tickets[id]).value)
    ensures var o := FailTicket(u, id);
            && o.result == Ok(()) && Invariant(o.table) && Apart(t, o.table, id) && o.table.descriptors == u.descriptors
            && (id in o.table.tickets ==> o.table.tickets[id] == FailedTicket(u.tickets[id]))
  {
    hide Accounts, Apart, FailTicket, B.Active, Invariant;
    Fails(u, id);
    ApartIsTransitive(t, u, FailTicket(u, id).table, id);
    Restores(t, FailTicket(u, id).table, id);
  }

  // ---------------------------------------------------------------- abandoned and delivered tickets

  lemma Finishes(t: Table, u: Table, id: nat)
    requires Invariant(t) && Apart(t, u, id) && Accounts(u) && id in u.tickets && u.tickets[id].state.Abandoned?
    requires u.tickets[id].waiters == map[] && u.tickets[id].hash.HashReserved?
    requires BufferStateOf(u.buffers, u.tickets[id]) == Some(B.ReadInflight)
    ensures var o := FinishAbandoned(u, id);
            && o.result == Ok(()) && Invariant(o.table) && Apart(t, o.table, id) && o.table.descriptors == u.descriptors
            && (u.tickets[id].originalPending || u.tickets[id].cancelPending || id !in o.table.tickets)
            && (id in o.table.tickets ==> o.table == u)
  {
    hide Accounts, Apart, ReleaseHash, RemoveTicket, Invariant, Zeros;
    if u.tickets[id].originalPending || u.tickets[id].cancelPending {
      Restores(t, u, id);
    } else {
      ReleasesAnyHash(u, id);
      var v := ReleaseHash(u, id).table;
      Abandons(v, id);
      var w := v.(buffers := B.ReleaseAbandoned(v.buffers, u.tickets[id].buffer.value).value);
      QuarantinedIsInactive();
      Removes(w, id);
      var x := RemoveTicket(w, id).table;
      ApartIsTransitive(t, u, v, id);
      ApartIsTransitive(t, v, w, id);
      ApartIsTransitive(t, w, x, id);
      Restores(t, x, id);
    }
  }

  /** Freeing the buffer and removing the ticket. */
  lemma Releases(t: Table, u: Table, id: nat)
    requires Invariant(t) && Apart(t, u, id) && Accounts(u) && id in u.tickets && u.tickets[id].buffer.Some?
    requires BufferStateOf(u.buffers, u.tickets[id]).Some? && B.LegalMove(BufferStateOf(u.buffers, u.tickets[id]).value, B.Free)
    requires !u.tickets[id].originalPending && !u.tickets[id].cancelPending && u.tickets[id].hash.NoHash?
    ensures var o := ReleaseTicket(u, id, u.tickets[id].buffer);
            && o.result == Ok(()) && Invariant(o.table) && Apart(t, o.table, id) && id !in o.table.tickets
            && o.table.descriptors == u.descriptors
  {
    hide Accounts, Apart, MoveBuffer, RemoveTicket, Invariant, B.LegalMove;
    Moves(u, id, B.Free);
    var v := MoveBuffer(u, u.tickets[id].buffer.value, B.Free).table;
    QuarantinedIsInactive();
    Removes(v, id);
    var x := RemoveTicket(v, id).table;
    ApartIsTransitive(t, u, v, id);
    ApartIsTransitive(t, v, x, id);
    Restores(t, x, id);
  }

  // ---------------------------------------------------------------- reaping completions

  /** The ticket with one completion gone. */
  function Reaped(ticket: Ticket, kind: CqKind): Ticket {
    if kind.OriginalCqe? then ticket.(originalPending := false, originalToken := None)
    else ticket.(cancelPending := false, cancelToken := None)
  }

  function TokenOf(ticket: Ticket, kind: CqKind): Option<D.Token> {
    if kind.OriginalCqe? then ticket.originalToken else ticket.cancelToken
  }

  lemma ReapLinks(tickets: map<nat, Ticket>, d: D.Descriptors, id: nat, kind: CqKind)
    requires Linked(tickets, d) && id in tickets && !kind.FsyncCqe? && TokenOf(tickets[id], kind).Some?
    requires kind.OriginalCqe? ==> tickets[id].originalPending
    requires kind.CancelCqe? ==> tickets[id].cancelPending
    ensures tickets[id].buffer.Some?
    ensures var token := TokenOf(tickets[id], kind).value;
            && D.Resolve(d, token) == Ok(BindingOf(id, tickets[id].buffer.value))
            && D.Complete(d, token).Ok?
            && Linked(tickets[id := Reaped(tickets[id], kind)], D.Complete(d, token).value)
  {
    hide D.SlotOf, D.GenerationOf, D.IsCancel, Uses;
    var ticket := tickets[id];
    var token, reaped := TokenOf(ticket, kind).value, Reaped(ticket, kind);
    var k := D.SlotOf(token);
    assert TokensFit(d, id, ticket);
    UsesToken(ticket, kind);
    OneDescriptor(tickets, d, id, k);
    var after := D.Complete(d, token).value;
    ReapedTokens(d, id, ticket, kind, after);
    LinkedChanges(tickets, d, id, reaped, after, k);
  }

  lemma UsesToken(ticket: Ticket, kind: CqKind)
    requires TokenOf(ticket, kind).Some?
    ensures Uses(ticket, D.SlotOf(TokenOf(ticket, kind).value))
  {
  }

  lemma ReapedTokens(d: D.Descriptors, id: nat, ticket: Ticket, kind: CqKind, after: D.Descriptors)
    requires TokensFit(d, id, ticket) && !kind.FsyncCqe? && TokenOf(ticket, kind).Some?
    requires D.Complete(d, TokenOf(ticket, kind).value) == Ok(after)
    ensures TokensFit(after, id, Reaped(ticket, kind))
    ensures after.slots[D.SlotOf(TokenOf(ticket, kind).value)].entry.Some? ==>
              Uses(Reaped(ticket, kind), D.SlotOf(TokenOf(ticket, kind).value))
  {
    hide D.SlotOf, D.GenerationOf, D.IsCancel;
  }

  /** Reaping a pending completion succeeds and takes it off every account. */
  lemma Reaps(t: Table, id: nat, kind: CqKind)
    requires Accounts(t) && id in t.tickets && !kind.FsyncCqe?
    requires if kind.OriginalCqe? then t.tickets[id].originalPending else t.tickets[id].cancelPending
    ensures var o := ReapToken(t, id, TokenOf(t.tickets[id], kind), kind);
            && o.result == Ok(()) && o.table == t.(descriptors := o.table.descriptors, cq := o.table.cq)
            && TokenOf(t.tickets[id], kind).Some?
            && D.Complete(t.descriptors, TokenOf(t.tickets[id], kind).value) == Ok(o.table.descriptors)
            && var v := Put(o.table, id, Reaped(t.tickets[id], kind));
            && Accounts(v) && Apart(t, v, id)
  {
    hide Held, Linked, Asked, Billed, Sum, AllWaiters, Originals, Cancels, HashHolders, Lengths, TicketsFit, Apart;
    hide D.Complete, D.Resolve, D.TableFits, B.PoolFits;
    var ticket := Reaped(t.tickets[id], kind);
    NoTokens(t, id);
    ReapLinks(t.tickets, t.descriptors, id, kind);
    CountsPut(t, id, ticket);
    PendingCounts(t, id);
    CompleteFits(t.descriptors, TokenOf(t.tickets[id], kind).value);
    HeldPut(t.tickets, t.buffers, id, ticket);
    AskedPut(t.tickets, t.requests, id, ticket);
    TicketFits(t, id);
    TicketsPut(t, id, ticket);
    var v := Put(ReapToken(t, id, TokenOf(t.tickets[id], kind), kind).table, id, ticket);
    ApartPut(t, v, id, ticket);
    assert v.tickets.Keys == t.tickets.Keys;
    assert |v.tickets| == |t.tickets|;
  }

  lemma CompleteFits(d: D.Descriptors, token: D.Token)
    requires D.TableFits(d) && D.Complete(d, token).Ok?
    ensures D.TableFits(D.Complete(d, token).value) && |D.Complete(d, token).value.slots| == |d.slots|
  {
    D.StepFits(d, D.Completes(token));
  }

  lemma PendingCounts(t: Table, id: nat)
    requires Counted(t) && id in t.tickets
    ensures t.tickets[id].originalPending ==> t.cq.original > 0
    ensures t.tickets[id].cancelPending ==> t.cq.cancel > 0
    ensures !t.tickets[id].hash.NoHash? ==> t.hashJobs > 0
  {
    assert t.tickets[id].originalPending ==> id in Originals(t.tickets);
    assert t.tickets[id].cancelPending ==> id in Cancels(t.tickets);
    assert !t.tickets[id].hash.NoHash? ==> id in HashHolders(t.tickets);
  }
}
