/** The building blocks of the operations keep the accounts, and touch one ticket. */
module RestorePrimitives {
  import opened Collections
  import opened Octets
  import opened RestoreModel
  import opened RestoreInvariant
  import opened RestoreParts
  import B = DirectBuffers

  // ---------------------------------------------------------------- counters

  lemma SetsPut(tickets: map<nat, Ticket>, id: nat, ticket: Ticket)
    ensures HashHolders(tickets[id := ticket]) ==
            if ticket.hash.NoHash? then HashHolders(tickets) - {id} else HashHolders(tickets) + {id}
    ensures Originals(tickets[id := ticket]) ==
            if ticket.originalPending then Originals(tickets) + {id} else Originals(tickets) - {id}
    ensures Cancels(tickets[id := ticket]) ==
            if ticket.cancelPending then Cancels(tickets) + {id} else Cancels(tickets) - {id}
    ensures Lengths(tickets[id := ticket]) == Lengths(tickets)[id := ticket.record.length]
  {
  }

  lemma SetsRemove(tickets: map<nat, Ticket>, id: nat)
    ensures HashHolders(tickets - {id}) == HashHolders(tickets) - {id}
    ensures Originals(tickets - {id}) == Originals(tickets) - {id}
    ensures Cancels(tickets - {id}) == Cancels(tickets) - {id}
    ensures Lengths(tickets - {id}) == Lengths(tickets) - {id}
  {
  }

  /** Changing a ticket moves each counter by what changes in that ticket. */
  lemma CountsPut(t: Table, id: nat, ticket: Ticket)
    requires Counted(t) && id in t.tickets && ticket.record == t.tickets[id].record
    ensures var u, old_ := t.tickets[id := ticket], t.tickets[id];
            && Sum(Lengths(u)) == t.physical
            && |HashHolders(u)| == t.hashJobs - (if old_.hash.NoHash? then 0 else 1) + (if ticket.hash.NoHash? then 0 else 1)
            && |Originals(u)| == t.cq.original - (if old_.originalPending then 1 else 0) + (if ticket.originalPending then 1 else 0)
            && |Cancels(u)| == t.cq.cancel - (if old_.cancelPending then 1 else 0) + (if ticket.cancelPending then 1 else 0)
  {
    hide Sum;
    SetsPut(t.tickets, id, ticket);
    SumUpdates(Lengths(t.tickets), id, ticket.record.length);
    assert id in HashHolders(t.tickets) <==> !t.tickets[id].hash.NoHash?;
    assert id in Originals(t.tickets) <==> t.tickets[id].originalPending;
    assert id in Cancels(t.tickets) <==> t.tickets[id].cancelPending;
  }

  lemma SizedPut(t: Table, id: nat, ticket: Ticket)
    requires Sized(t) && id in t.tickets
    ensures Sized(Put(t, id, ticket))
  {
    assert t.tickets[id := ticket].Keys == t.tickets.Keys;
    assert |t.tickets[id := ticket]| == |t.tickets|;
  }

  lemma TicketsPut(t: Table, id: nat, ticket: Ticket)
    requires TicketsFit(t.config, t.tickets) && WaitersFit(t.config, ticket)
    ensures TicketsFit(t.config, t.tickets[id := ticket])
  {
  }

  lemma TicketsRemove(t: Table, id: nat)
    requires TicketsFit(t.config, t.tickets)
    ensures TicketsFit(t.config, t.tickets - {id})
  {
  }

  lemma ApartRemoves(t: Table, u: Table, id: nat)
    requires u.config == t.config && u.nextTicket == t.nextTicket && u.workers == t.workers && u.retired == t.retired
    requires u.buffers == t.buffers && u.tickets == t.tickets - {id}
    ensures Apart(t, u, id)
  {
  }

  lemma TicketFits(t: Table, id: nat)
    requires TicketsFit(t.config, t.tickets) && id in t.tickets
    ensures WaitersFit(t.config, t.tickets[id])
  {
  }

  lemma ApartPut(t: Table, u: Table, id: nat, ticket: Ticket)
    requires u.config == t.config && u.nextTicket == t.nextTicket && u.workers == t.workers && u.retired == t.retired
    requires u.buffers == t.buffers && u.tickets == t.tickets[id := ticket]
    ensures Apart(t, u, id)
  {
  }

  // ---------------------------------------------------------------- a ticket changes its state

  /** The change leaves what the accounts look at. */
  predicate SameAccounts(x: Ticket, y: Ticket) {
    && x.record == y.record && x.epoch == y.epoch && x.catalog == y.catalog && x.buffer == y.buffer && x.waiters == y.waiters
    && x.originalPending == y.originalPending && x.cancelPending == y.cancelPending
    && x.originalToken == y.originalToken && x.cancelToken == y.cancelToken
    && (x.hash.NoHash? <==> y.hash.NoHash?)
  }

  lemma PutKeepsAccounts(t: Table, id: nat, ticket: Ticket)
    requires Accounts(t) && id in t.tickets && SameAccounts(t.tickets[id], ticket)
    ensures Accounts(Put(t, id, ticket)) && Apart(t, Put(t, id, ticket), id)
  {
    hide Sized, Held, Linked, Asked, Billed, Sum, AllWaiters, Originals, Cancels, HashHolders, Lengths, TicketsFit, Apart;
    TicketFits(t, id);
    TicketsPut(t, id, ticket);
    ApartPut(t, Put(t, id, ticket), id, ticket);
    SizedPut(t, id, ticket);
    HeldPut(t.tickets, t.buffers, id, ticket);
    LinkedPut(t.tickets, t.descriptors, id, ticket);
    AskedPut(t.tickets, t.requests, id, ticket);
    CountsPut(t, id, ticket);
  }

  // ---------------------------------------------------------------- a buffer moves

  lemma BufferMoves(t: Table, id: nat, slot: B.Slot)
    requires Accounts(t) && id in t.tickets && t.tickets[id].buffer.Some?
    requires slot.generation == t.tickets[id].buffer.value.generation && |slot.bytes| == B.BUFFER_BYTES
    ensures t.tickets[id].buffer.value.slot < |t.buffers.slots|
    ensures var u := t.(buffers := t.buffers.(slots := t.buffers.slots[t.tickets[id].buffer.value.slot := slot]));
            Accounts(u) && Apart(t, u, id)
  {
    hide Linked, Asked, Billed, Sum, AllWaiters, Originals, Cancels, HashHolders, Lengths;
    HeldMoves(t.tickets, t.buffers, id, slot);
  }

  lemma Moves(t: Table, id: nat, next: B.BufferState)
    requires Accounts(t) && id in t.tickets && t.tickets[id].buffer.Some?
    requires BufferStateOf(t.buffers, t.tickets[id]).Some? ==> B.LegalMove(BufferStateOf(t.buffers, t.tickets[id]).value, next)
    ensures var o := MoveBuffer(t, t.tickets[id].buffer.value, next);
            && o.result == Ok(()) && o.table == t.(buffers := o.table.buffers)
            && Accounts(o.table) && Apart(t, o.table, id)
            && BufferStateOf(o.table.buffers, t.tickets[id]) == Some(next)
            && (!next.Free? ==> o.table.buffers.slots[t.tickets[id].buffer.value.slot].bytes
                                  == t.buffers.slots[t.tickets[id].buffer.value.slot].bytes)
  {
    hide Accounts, B.LegalMove, Zeros, Apart;
    BufferOf(t, id);
    var buffer := t.tickets[id].buffer.value;
    BufferMoves(t, id, B.Moved(t.buffers.slots[buffer.slot], next));
  }

  /** The buffer of a ticket resolves. */
  lemma BufferOf(t: Table, id: nat)
    requires Accounts(t) && id in t.tickets && t.tickets[id].buffer.Some?
    ensures var b := t.tickets[id].buffer.value;
            && B.Find(t.buffers, b).Ok? && |t.buffers.slots[b.slot].bytes| == B.BUFFER_BYTES
            && BufferStateOf(t.buffers, t.tickets[id]) == Some(t.buffers.slots[b.slot].state)
  {
    hide Linked, Asked, Billed, Counted, AllWaiters;
  }

  lemma Abandons(t: Table, id: nat)
    requires Accounts(t) && id in t.tickets && BufferStateOf(t.buffers, t.tickets[id]) == Some(B.ReadInflight)
    ensures var o := B.ReleaseAbandoned(t.buffers, t.tickets[id].buffer.value);
            && o.Ok? && Accounts(t.(buffers := o.value)) && Apart(t, t.(buffers := o.value), id)
            && BufferStateOf(o.value, t.tickets[id]) == Some(B.Free)
  {
    hide Accounts, Zeros, Apart;
    BufferOf(t, id);
    BufferMoves(t, id, B.Moved(t.buffers.slots[t.tickets[id].buffer.value.slot], B.Free));
  }

  // ---------------------------------------------------------------- a checksum job ends

  lemma ReleasesHash(t: Table, id: nat)
    requires Accounts(t) && id in t.tickets && !t.tickets[id].hash.NoHash?
    ensures var o := ReleaseHash(t, id);
            && o.result == Ok(())
            && o.table == Put(t, id, t.tickets[id].(hash := NoHash)).(hashJobs := t.hashJobs - 1)
            && Accounts(o.table) && Apart(t, o.table, id)
  {
    hide Sized, Held, Linked, Asked, Billed, Sum, AllWaiters, Originals, Cancels, HashHolders, Lengths, TicketsFit, Apart;
    var ticket := t.tickets[id].(hash := NoHash);
    TicketFits(t, id);
    TicketsPut(t, id, ticket);
    ApartPut(t, Put(t, id, ticket).(hashJobs := if t.hashJobs > 0 then t.hashJobs - 1 else 0), id, ticket);
    SizedPut(t, id, ticket);
    SizedHash(Put(t, id, ticket), t.hashJobs - 1);
    HeldPut(t.tickets, t.buffers, id, ticket);
    LinkedPut(t.tickets, t.descriptors, id, ticket);
    AskedPut(t.tickets, t.requests, id, ticket);
    CountsPut(t, id, ticket);
  }

  lemma SizedHash(t: Table, jobs: int)
    requires Sized(t)
    ensures jobs >= 0 ==> Sized(t.(hashJobs := jobs))
  {
  }

  // ---------------------------------------------------------------- a ticket ends

  lemma AskedRemoves(tickets: map<nat, Ticket>, requests: map<nat, nat>, id: nat)
    requires Asked(tickets, requests) && id in tickets
    ensures var gone := tickets[id].waiters.Keys;
            Asked(tickets - {id}, requests - gone) && AllWaiters(tickets - {id}, requests - gone) == AllWaiters(tickets, requests) - gone
  {
    var gone := tickets[id].waiters.Keys;
    forall r | r in requests - gone ensures requests[r] in tickets - {id} && r in (tickets - {id})[requests[r]].waiters {
      assert requests[r] in tickets && r in tickets[requests[r]].waiters;
    }
    forall k, r | k in tickets && k != id && r in tickets[k].waiters ensures r in requests - gone {
      OneOwner(tickets, requests, k, id, r);
    }
    var x, y := AllWaiters(tickets - {id}, requests - gone), AllWaiters(tickets, requests) - gone;
    assert x.Keys == y.Keys;
  }

  lemma OneOwner(tickets: map<nat, Ticket>, requests: map<nat, nat>, k: nat, id: nat, r: nat)
    requires Asked(tickets, requests) && k in tickets && id in tickets && k != id && r in tickets[k].waiters
    ensures r in requests && requests[r] == k && r !in tickets[id].waiters
  {
  }

  /** A ticket without waiters does not matter to the requests. */
  lemma AskedAddsEmpty(tickets: map<nat, Ticket>, requests: map<nat, nat>, id: nat, ticket: Ticket)
    requires Asked(tickets, requests) && id !in tickets && ticket.waiters == map[]
    ensures Asked(tickets[id := ticket], requests)
    ensures AllWaiters(tickets[id := ticket], requests) == AllWaiters(tickets, requests)
  {
    var now := tickets[id := ticket];
    assert forall r | r in requests :: requests[r] in tickets && r in tickets[requests[r]].waiters;
    forall r | r in requests ensures requests[r] != id && now[requests[r]] == tickets[requests[r]] {
    }
    forall k, r | k in now && r in now[k].waiters ensures r in requests && requests[r] == k {
      assert k != id;
    }
    var x, y := AllWaiters(now, requests), AllWaiters(tickets, requests);
    assert x.Keys == requests.Keys == y.Keys;
  }

  lemma AskedEmpties(tickets: map<nat, Ticket>, requests: map<nat, nat>, id: nat)
    requires Asked(tickets, requests) && id in tickets
    ensures var gone, now := tickets[id].waiters.Keys, tickets[id := tickets[id].(waiters := map[])];
            Asked(now, requests - gone) && AllWaiters(now, requests - gone) == AllWaiters(tickets, requests) - gone
  {
    hide Asked, AllWaiters;
    var gone, emptied := tickets[id].waiters.Keys, tickets[id].(waiters := map[]);
    AskedRemoves(tickets, requests, id);
    AskedAddsEmpty(tickets - {id}, requests - gone, id, emptied);
    assert (tickets - {id})[id := emptied] == tickets[id := emptied];
  }

  lemma AskedKnows(tickets: map<nat, Ticket>, requests: map<nat, nat>, id: nat)
    requires Asked(tickets, requests) && id in tickets
    ensures forall r | r in tickets[id].waiters ::
              r in AllWaiters(tickets, requests) && AllWaiters(tickets, requests)[r] == tickets[id].waiters[r]
  {
  }

  /** Letting all waiters of a ticket go succeeds. */
  lemma ReleasesAll(t: Table, u: Table, id: nat, first: bool)
    requires Accounts(t) && id in t.tickets && u.charges == t.charges && u.requests == t.requests
    ensures var ids := Sorted(t.tickets[id].waiters.Keys);
            var o := ReleaseWaiters(u, t.tickets[id].waiters, ids, |ids|, first);
            var gone := t.tickets[id].waiters.Keys;
            && o.result == Ok(()) && o.table == u.(charges := o.table.charges, requests := t.requests - gone)
            && Billed(AllWaiters(t.tickets, t.requests) - gone, o.table.charges, t.config.maxLogical)
  {
    hide Sized, Held, Linked, Billed, Counted, AllWaiters, ReleaseWaiters, Sorted, Asked, TicketsFit;
    AskedKnows(t.tickets, t.requests, id);
    var ids := Sorted(t.tickets[id].waiters.Keys);
    ReleasesWaiters(u, AllWaiters(t.tickets, t.requests), t.config.maxLogical, t.tickets[id].waiters, ids, |ids|, first);
    assert ids[..|ids|] == ids;
    assert Members(ids) == t.tickets[id].waiters.Keys;
  }

  lemma Clears(t: Table, id: nat)
    requires Accounts(t) && id in t.tickets
    ensures var o := ClearWaiters(t, id);
            && o.result == Ok(())
            && o.table == Put(t, id, t.tickets[id].(waiters := map[]))
                            .(charges := o.table.charges, requests := t.requests - t.tickets[id].waiters.Keys)
            && Accounts(o.table) && Apart(t, o.table, id)
  {
    hide Sized, Held, Linked, Asked, Billed, Sum, AllWaiters, Originals, Cancels, HashHolders, Lengths, ReleaseWaiters, Sorted, TicketsFit, Apart;
    var ticket := t.tickets[id].(waiters := map[]);
    TicketFits(t, id);
    TicketsPut(t, id, ticket);
    ReleasesAll(t, t, id, false);
    ApartPut(t, ClearWaiters(t, id).table, id, ticket);
    SizedPut(t, id, ticket);
    SizedMoney(Put(t, id, ticket), ClearWaiters(t, id).table.charges, t.requests - t.tickets[id].waiters.Keys);
    HeldPut(t.tickets, t.buffers, id, ticket);
    LinkedPut(t.tickets, t.descriptors, id, ticket);
    CountsPut(t, id, ticket);
    AskedEmpties(t.tickets, t.requests, id);
  }

  lemma SizedMoney(t: Table, charges: map<nat, nat>, requests: map<nat, nat>)
    requires Sized(t)
    ensures Sized(t.(charges := charges, requests := requests))
  {
  }

  /** A ticket with nothing pending and no active buffer can be removed. */
  lemma Removes(t: Table, id: nat)
    requires Accounts(t) && id in t.tickets
    requires !t.tickets[id].originalPending && !t.tickets[id].cancelPending && t.tickets[id].hash.NoHash?
    requires BufferStateOf(t.buffers, t.tickets[id]).Some? ==> !B.Active(BufferStateOf(t.buffers, t.tickets[id]).value)
    ensures var o := RemoveTicket(t, id);
            && o.result == Ok(())
            && o.table == t.(tickets := t.tickets - {id}, charges := o.table.charges, physical := o.table.physical,
                             requests := t.requests - t.tickets[id].waiters.Keys)
            && Accounts(o.table) && Apart(t, o.table, id)
  {
    hide Sized, Held, Linked, Asked, Billed, Sum, AllWaiters, Originals, Cancels, HashHolders, Lengths, ReleaseWaiters, Sorted, B.Active;
    hide TicketsFit, Apart;
    NoTokens(t, id);
    TicketsRemove(t, id);
    ReleasesAll(t, t.(tickets := t.tickets - {id}), id, true);
    AskedRemoves(t.tickets, t.requests, id);
    BufferIfAny(t, id);
    HeldRemoves(t.tickets, t.buffers, id);
    LinkedRemoves(t.tickets, t.descriptors, id);
    RemovalCounts(t, id);
    ApartRemoves(t, RemoveTicket(t, id).table, id);
    SizedRemoves(t, id, RemoveTicket(t, id).table);
  }

  lemma NoTokens(t: Table, id: nat)
    requires Accounts(t) && id in t.tickets
    ensures t.tickets[id].originalPending <==> t.tickets[id].originalToken.Some?
    ensures t.tickets[id].cancelPending <==> t.tickets[id].cancelToken.Some?
  {
    hide Sized, Held, Asked, Billed, Counted, AllWaiters;
    assert TokensFit(t.descriptors, id, t.tickets[id]);
  }

  lemma BufferIfAny(t: Table, id: nat)
    requires Accounts(t) && id in t.tickets
    ensures t.tickets[id].buffer.Some? ==>
              && t.tickets[id].buffer.value.slot < |t.buffers.slots|
              && BufferStateOf(t.buffers, t.tickets[id]) == Some(t.buffers.slots[t.tickets[id].buffer.value.slot].state)
  {
    hide Accounts;
    if t.tickets[id].buffer.Some? {
      BufferOf(t, id);
    }
  }

  lemma RemovalCounts(t: Table, id: nat)
    requires Counted(t) && id in t.tickets
    requires !t.tickets[id].originalPending && !t.tickets[id].cancelPending && t.tickets[id].hash.NoHash?
    ensures t.tickets[id].record.length <= t.physical
    ensures Sum(Lengths(t.tickets - {id})) == t.physical - t.tickets[id].record.length
    ensures HashHolders(t.tickets - {id}) == HashHolders(t.tickets)
    ensures Originals(t.tickets - {id}) == Originals(t.tickets) && Cancels(t.tickets - {id}) == Cancels(t.tickets)
  {
    hide Sum;
    SetsRemove(t.tickets, id);
    SumRemoves(Lengths(t.tickets), id);
  }

  lemma SizedRemoves(t: Table, id: nat, u: Table)
    requires Sized(t) && id in t.tickets
    requires u == t.(tickets := t.tickets - {id}, charges := u.charges, physical := u.physical, requests := u.requests)
    ensures Sized(u)
  {
    assert (t.tickets - {id}).Keys == t.tickets.Keys - {id};
    assert |t.tickets - {id}| == |t.tickets.Keys - {id}|;
  }
}
