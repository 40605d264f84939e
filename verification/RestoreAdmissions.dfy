/** Planning, reserving, submitting, copying and cancelling keep the invariant. */
module RestoreAdmissions {
  import opened Collections
  import opened Octets
  import opened RestoreModel
  import opened RestoreInvariant
  import opened RestoreParts
  import opened RestorePrimitives
  import opened RestoreSteps
  import opened RestoreCompletions
  import B = DirectBuffers
  import D = DirectDescriptors

  // ---------------------------------------------------------------- planning

  /** A new waiter on a ticket, old or new. */
  lemma AskedAdds(tickets: map<nat, Ticket>, requests: map<nat, nat>, id: nat, ticket: Ticket, r: nat, w: Waiter)
    requires Asked(tickets, requests) && r !in requests
    requires ticket.waiters == (if id in tickets then tickets[id].waiters else map[])[r := w]
    ensures Asked(tickets[id := ticket], requests[r := id])
    ensures AllWaiters(tickets[id := ticket], requests[r := id]) == AllWaiters(tickets, requests)[r := w]
    ensures r !in AllWaiters(tickets, requests)
  {
    var now, asked := tickets[id := ticket], requests[r := id];
    forall q | q in asked ensures asked[q] in now && q in now[asked[q]].waiters {
      assert q != r ==> requests[q] in tickets && q in tickets[requests[q]].waiters;
    }
    forall k, q | k in now && q in now[k].waiters ensures q in asked && asked[q] == k {
    }
    AllAdds(tickets, requests, id, ticket, r, w);
  }

  lemma AllAdds(tickets: map<nat, Ticket>, requests: map<nat, nat>, id: nat, ticket: Ticket, r: nat, w: Waiter)
    requires Asked(tickets, requests) && r !in requests
    requires ticket.waiters == (if id in tickets then tickets[id].waiters else map[])[r := w]
    ensures AllWaiters(tickets[id := ticket], requests[r := id]) == AllWaiters(tickets, requests)[r := w]
    ensures r !in AllWaiters(tickets, requests)
  {
    var now, asked := tickets[id := ticket], requests[r := id];
    var x, y := AllWaiters(now, asked), AllWaiters(tickets, requests)[r := w];
    forall q | q in asked ensures q in x && q in y && x[q] == y[q] {
      if q != r {
        var k := requests[q];
        assert k in tickets && q in tickets[k].waiters;
        assert now[k].waiters[q] == tickets[k].waiters[q];
      }
    }
    assert x.Keys == asked.Keys && y.Keys == asked.Keys;
  }

  function JoinedTicket(ticket: Ticket, request: Request): Ticket {
    ticket.(waiters := ticket.waiters[request.id := Waiter(request.tenant, request.required)])
  }

  function JoinedTable(t: Table, request: Request, id: nat): Table
    requires id in t.tickets
  {
    Put(Charged(t, request.tenant, LogicalBytes(request.required)), id, JoinedTicket(t.tickets[id], request))
      .(requests := t.requests[request.id := id])
  }

  lemma JoinAccounts(t: Table, request: Request, id: nat)
    requires Accounts(t) && request.id != 0 && request.tenant != 0 && request.id !in t.requests
    requires id in t.tickets && Satisfies(t.tickets[id].record.capability, request.required)
    requires |t.tickets[id].waiters| < t.config.maxWaiters
    requires ChargeOf(t, request.tenant) + LogicalBytes(request.required) <= t.config.maxLogical
    ensures Accounts(JoinedTable(t, request, id)) && Apart(t, JoinedTable(t, request, id), id)
  {
    hide Sized, Held, Linked, Asked, Billed, Sum, AllWaiters, Originals, Cancels, HashHolders, Lengths, TicketsFit, Apart, LogicalBytes;
    hide WaitersFit, Satisfies;
    var w, joined, u := Waiter(request.tenant, request.required), JoinedTicket(t.tickets[id], request), JoinedTable(t, request, id);
    SizedPut(t, id, joined);
    SizedMoney(Put(t, id, joined), u.charges, u.requests);
    HeldPut(t.tickets, t.buffers, id, joined);
    LinkedPut(t.tickets, t.descriptors, id, joined);
    AskedAdds(t.tickets, t.requests, id, joined, request.id, w);
    BilledAdds(AllWaiters(t.tickets, t.requests), t.charges, t.config.maxLogical, request.id, w);
    CountsPut(t, id, joined);
    TicketFits(t, id);
    JoinedFits(t.config, t.tickets[id], request.id, w);
    TicketsPut(t, id, joined);
    ApartPut(t, u, id, joined);
  }

  lemma JoinKeeps(t: Table, request: Request, id: nat)
    requires Invariant(t) && request.id != 0 && request.tenant != 0 && request.id !in t.requests
    requires id in t.tickets && Satisfies(t.tickets[id].record.capability, request.required)
    requires !Ended(t.tickets[id]) && |t.tickets[id].waiters| < t.config.maxWaiters
    requires ChargeOf(t, request.tenant) + LogicalBytes(request.required) <= t.config.maxLogical
    ensures Invariant(JoinedTable(t, request, id)) && Apart(t, JoinedTable(t, request, id), id)
  {
    hide Accounts, Apart, Invariant, Satisfies, LogicalBytes;
    Fitting(t, id);
    JoinAccounts(t, request, id);
    assert request.id in JoinedTicket(t.tickets[id], request).waiters;
    Restores(t, JoinedTable(t, request, id), id);
  }

  lemma JoinedFits(c: Config, ticket: Ticket, r: nat, w: Waiter)
    requires WaitersFit(c, ticket) && r != 0 && w.tenant != 0 && Satisfies(ticket.record.capability, w.required)
    requires |ticket.waiters| < c.maxWaiters
    ensures WaitersFit(c, ticket.(waiters := ticket.waiters[r := w]))
  {
    assert ticket.waiters[r := w].Keys == ticket.waiters.Keys + {r};
    assert |ticket.waiters[r := w]| == |ticket.waiters[r := w].Keys|;
  }

  lemma CreateCounts(t: Table, id: nat, ticket: Ticket)
    requires Counted(t) && id !in t.tickets && !ticket.originalPending && !ticket.cancelPending && ticket.hash.NoHash?
    ensures Sum(Lengths(t.tickets[id := ticket])) == t.physical + ticket.record.length
    ensures HashHolders(t.tickets[id := ticket]) == HashHolders(t.tickets)
    ensures Originals(t.tickets[id := ticket]) == Originals(t.tickets) && Cancels(t.tickets[id := ticket]) == Cancels(t.tickets)
  {
    hide Sum, HashHolders, Originals, Cancels, Lengths;
    SetsPut(t.tickets, id, ticket);
    NowhereYet(t.tickets, id);
    SumUpdates(Lengths(t.tickets), id, ticket.record.length);
  }

  lemma NowhereYet(tickets: map<nat, Ticket>, id: nat)
    requires id !in tickets
    ensures id !in HashHolders(tickets) && id !in Originals(tickets) && id !in Cancels(tickets) && id !in Lengths(tickets)
  {
  }

  lemma SizedCreates(t: Table, id: nat, ticket: Ticket, u: Table)
    requires Sized(t) && id == t.nextTicket && id + 1 <= MAX_U64 && |t.tickets| < t.config.maxTickets
    requires u == t.(tickets := t.tickets[id := ticket], nextTicket := id + 1, charges := u.charges, requests := u.requests, physical := u.physical)
    ensures Sized(u)
  {
    assert u.tickets.Keys == t.tickets.Keys + {id};
    assert |u.tickets| == |u.tickets.Keys|;
  }

  function CreatedTable(t: Table, request: Request, record: ExtentRecord, epoch: nat, catalog: nat): Table {
    Put(Charged(t, request.tenant, LogicalBytes(request.required)), t.nextTicket, NewTicket(record, epoch, catalog, request))
      .(nextTicket := t.nextTicket + 1, requests := t.requests[request.id := t.nextTicket], physical := t.physical + record.length)
  }

  lemma CreateAccounts(t: Table, request: Request, record: ExtentRecord, epoch: nat, catalog: nat)
    requires Accounts(t) && request.id != 0 && request.tenant != 0 && request.id !in t.requests
    requires Validates(record) && epoch != 0 && catalog != 0 && Satisfies(record.capability, request.required)
    requires ChargeOf(t, request.tenant) + LogicalBytes(request.required) <= t.config.maxLogical
    requires |t.tickets| < t.config.maxTickets && t.physical + record.length <= t.config.maxPhysical && t.nextTicket + 1 <= MAX_U64
    ensures Accounts(CreatedTable(t, request, record, epoch, catalog)) && t.nextTicket !in t.tickets
  {
    hide Sized, Held, Linked, Asked, Billed, Sum, AllWaiters, Originals, Cancels, HashHolders, Lengths, TicketsFit, LogicalBytes, WaitersFit;
    var id, ticket := t.nextTicket, NewTicket(record, epoch, catalog, request);
    FreshId(t);
    SizedCreates(t, id, ticket, CreatedTable(t, request, record, epoch, catalog));
    HeldPut(t.tickets, t.buffers, id, ticket);
    LinkedPut(t.tickets, t.descriptors, id, ticket);
    AskedAdds(t.tickets, t.requests, id, ticket, request.id, Waiter(request.tenant, request.required));
    BilledAdds(AllWaiters(t.tickets, t.requests), t.charges, t.config.maxLogical, request.id, Waiter(request.tenant, request.required));
    CreateCounts(t, id, ticket);
    NewFits(t.config, record, epoch, catalog, request);
    ConfigOf(t);
    TicketsPut(t, id, ticket);
  }

  lemma CreateKeeps(t: Table, request: Request, record: ExtentRecord, epoch: nat, catalog: nat)
    requires Invariant(t) && request.id != 0 && request.tenant != 0 && request.id !in t.requests
    requires Validates(record) && epoch != 0 && catalog != 0 && Satisfies(record.capability, request.required)
    requires ChargeOf(t, request.tenant) + LogicalBytes(request.required) <= t.config.maxLogical
    requires |t.tickets| < t.config.maxTickets && t.physical + record.length <= t.config.maxPhysical && t.nextTicket + 1 <= MAX_U64
    ensures Invariant(CreatedTable(t, request, record, epoch, catalog)) && t.nextTicket !in t.tickets
  {
    hide Accounts, LogicalBytes, Satisfies, Validates, ChargeOf;
    CreateAccounts(t, request, record, epoch, catalog);
    assert request.id in NewTicket(record, epoch, catalog, request).waiters;
  }

  lemma FreshId(t: Table)
    requires Sized(t)
    ensures t.nextTicket !in t.tickets
  {
  }

  lemma ConfigOf(t: Table)
    requires Sized(t)
    ensures ConfigFits(t.config)
  {
  }

  lemma NewFits(c: Config, record: ExtentRecord, epoch: nat, catalog: nat, request: Request)
    requires Validates(record) && epoch != 0 && catalog != 0 && request.id != 0 && request.tenant != 0
    requires Satisfies(record.capability, request.required)
    ensures c.maxWaiters > 0 ==> WaitersFit(c, NewTicket(record, epoch, catalog, request))
  {
    var w := NewTicket(record, epoch, catalog, request).waiters;
    assert w.Keys == {request.id};
    assert |w| == |w.Keys|;
  }

  lemma PlanKeeps(t: Table, request: Request, record: ExtentRecord, epoch: nat, catalog: nat)
    requires Invariant(t)
    ensures var o := Plan(t, request, record, epoch, catalog);
            && Invariant(o.table)
            && (o.result.Err? ==> o.table == t)
            && (o.result.Ok? ==>
                  && var id := o.result.value.ticket;
                  && Apart(t, o.table, id) && Quiet(t, o.table, id) && o.table.descriptors == t.descriptors
                  && (id in t.tickets ==> !Ended(t.tickets[id])))
  {
    hide Invariant, LogicalBytes, Least, Accounts, ChargeOf;
    var o := Plan(t, request, record, epoch, catalog);
    if o.result.Ok? {
      if o.result.value.Joined? {
        var id := o.result.value.ticket;
        assert o.table == JoinedTable(t, request, id);
        JoinKeeps(t, request, id);
        Fitting(t, id);
        JoinIsQuiet(t, request, id);
      } else {
        assert o.table == CreatedTable(t, request, record, epoch, catalog);
        CreateKeeps(t, request, record, epoch, catalog);
        CreateIsQuiet(t, o.table, NewTicket(record, epoch, catalog, request));
      }
    }
  }

  lemma JoinIsQuiet(t: Table, request: Request, id: nat)
    requires id in t.tickets && StateFits(t.buffers, t.tickets[id])
    ensures Quiet(t, JoinedTable(t, request, id), id) && JoinedTable(t, request, id).descriptors == t.descriptors
  {
  }

  lemma CreateIsQuiet(t: Table, u: Table, ticket: Ticket)
    requires u == t.(tickets := t.tickets[t.nextTicket := ticket], nextTicket := t.nextTicket + 1, charges := u.charges,
                     requests := u.requests, physical := u.physical)
    requires ticket.state.Planned? && ticket.hash.NoHash? && t.nextTicket !in t.tickets
    ensures Apart(t, u, t.nextTicket) && Quiet(t, u, t.nextTicket)
  {
  }

  // ---------------------------------------------------------------- reserving a buffer

  lemma HeldNotFree(t: Table)
    requires Invariant(t)
    ensures forall k | k in t.tickets && t.tickets[k].buffer.Some? ::
              t.tickets[k].buffer.value.slot < |t.buffers.slots| && !t.buffers.slots[t.tickets[k].buffer.value.slot].state.Free?
  {
    hide Linked, Asked, Billed, AllWaiters, Counted, TicketsFit;
    forall k | k in t.tickets && t.tickets[k].buffer.Some?
      ensures t.tickets[k].buffer.value.slot < |t.buffers.slots| && !t.buffers.slots[t.tickets[k].buffer.value.slot].state.Free?
    {
      assert StateFits(t.buffers, t.tickets[k]);
    }
  }

  lemma HeldRetires(tickets: map<nat, Ticket>, pool: B.Pool, after: B.Pool)
    requires Held(tickets, pool) && B.OnlyRetires(pool, after, {})
    requires forall k | k in tickets && tickets[k].buffer.Some? :: !pool.slots[tickets[k].buffer.value.slot].state.Free?
    ensures Held(tickets, after)
    ensures forall k | k in tickets :: HeldSlot(after, tickets[k]) == HeldSlot(pool, tickets[k])
  {
    forall i | 0 <= i < |after.slots| && B.Active(after.slots[i].state)
      ensures exists id :: id in tickets && Owns(tickets[id], i)
    {
      assert after.slots[i] == pool.slots[i];
    }
  }

  lemma RetiringAccounts(t: Table, pool: B.Pool)
    requires Accounts(t) && B.PoolFits(pool) && |pool.slots| == |t.buffers.slots| && Held(t.tickets, pool)
    ensures Accounts(t.(buffers := pool))
  {
    hide Sized, Held, Linked, Asked, Billed, AllWaiters, TicketsFit, Sum, Originals, Cancels, HashHolders, Lengths, B.PoolFits;
    SizedBuffers(t, pool);
  }

  /** A search that finds nothing only retires exhausted free slots. */
  lemma RetiringKeeps(t: Table, pool: B.Pool)
    requires Invariant(t) && B.PoolFits(pool) && B.OnlyRetires(t.buffers, pool, {})
    ensures Invariant(t.(buffers := pool))
    ensures forall k | k in t.tickets :: HeldSlot(pool, t.tickets[k]) == HeldSlot(t.buffers, t.tickets[k])
  {
    hide Accounts, Held, B.PoolFits, HeldSlot;
    HeldNotFree(t);
    HeldOf(t);
    HeldRetires(t.tickets, t.buffers, pool);
    RetiringAccounts(t, pool);
    forall k | k in t.tickets ensures StateFits(pool, t.tickets[k]) {
      assert StateFits(t.buffers, t.tickets[k]);
    }
  }

  lemma SizedBuffers(t: Table, pool: B.Pool)
    requires Sized(t) && B.PoolFits(pool) && |pool.slots| == |t.buffers.slots|
    ensures Sized(t.(buffers := pool))
  {
  }

  function ReservedTable(t: Table, id: nat, pool: B.Pool, found: B.BufferId): Table
    requires id in t.tickets
  {
    Put(t.(buffers := pool), id, t.tickets[id].(buffer := Some(found), state := BufferReserved))
  }

  lemma ReservedAccounts(t: Table, id: nat, pool: B.Pool, found: B.BufferId)
    requires Accounts(t) && id in t.tickets && t.tickets[id].buffer.None?
    requires !t.tickets[id].originalPending && !t.tickets[id].cancelPending
    requires Held(t.tickets[id := t.tickets[id].(buffer := Some(found), state := BufferReserved)], pool)
    requires B.PoolFits(pool) && |pool.slots| == |t.buffers.slots|
    ensures Accounts(ReservedTable(t, id, pool, found))
  {
    hide Sized, Held, Linked, Asked, Billed, AllWaiters, TicketsFit, Sum, Originals, Cancels, HashHolders, Lengths, B.PoolFits, WaitersFit;
    var ticket := t.tickets[id].(buffer := Some(found), state := BufferReserved);
    NoTokens(t, id);
    LinkedRebuffers(t.tickets, t.descriptors, id, ticket);
    AskedPut(t.tickets, t.requests, id, ticket);
    CountsPut(t, id, ticket);
    TicketFits(t, id);
    SameWaiters(t.config, t.tickets[id], ticket);
    TicketsPut(t, id, ticket);
    SizedBuffers(t, pool);
    SizedPut(t.(buffers := pool), id, ticket);
  }

  lemma SameWaiters(c: Config, x: Ticket, y: Ticket)
    requires WaitersFit(c, x) && y == x.(buffer := y.buffer, state := y.state)
    ensures WaitersFit(c, y)
  {
  }

  lemma ReservedKeeps(t: Table, id: nat, pool: B.Pool, found: B.BufferId)
    requires Invariant(t) && id in t.tickets && t.tickets[id].state.Planned?
    requires B.Found(t.buffers, B.CpuRead, pool, Ok(found))
    ensures Invariant(ReservedTable(t, id, pool, found)) && Apart(t, ReservedTable(t, id, pool, found), id)
  {
    hide Accounts, Held, B.PoolFits, Zeros, Invariant, B.OnlyRetires;
    Fitting(t, id);
    HeldNotFree(t);
    SizesOf(t);
    HeldOf(t);
    var ticket := t.tickets[id].(buffer := Some(found), state := BufferReserved);
    HeldReserves(t.tickets, t.buffers, id, ticket, pool, found);
    ReservedAccounts(t, id, pool, found);
    Restores(t, ReservedTable(t, id, pool, found), id);
  }

  lemma HeldOf(t: Table)
    requires Accounts(t)
    ensures Held(t.tickets, t.buffers)
  {
  }

  /** Reserving fails only for a wrong ticket or when no buffer has a generation left. */
  lemma ReserveKeeps(t: Table, id: nat)
    requires Invariant(t)
    ensures Invariant(ReserveBuffer(t, id).table)
    ensures Apart(t, ReserveBuffer(t, id).table, id) && Quiet(t, ReserveBuffer(t, id).table, id)
    ensures ReserveBuffer(t, id).table.descriptors == t.descriptors
    ensures id in t.tickets && Ended(t.tickets[id]) ==> ReserveBuffer(t, id).table == t
    ensures ReserveBuffer(t, id).result.Ok? <==>
              id in t.tickets && t.tickets[id].state.Planned? && exists i :: 0 <= i < |t.buffers.slots| && B.Available(t.buffers.slots[i])
  {
    hide Invariant, B.Reserve, B.Found, Accounts;
    ApartFromItself(t, id);
    AlwaysQuiet(t, id);
    SizesOf(t);
    B.ReserveOutcome(t.buffers, B.CpuRead);
    var (pool, found) := B.Reserve(t.buffers, B.CpuRead);
    if id in t.tickets && t.tickets[id].state.Planned? {
      Fitting(t, id);
      if found.Ok? {
        assert ReserveBuffer(t, id).table == ReservedTable(t, id, pool, found.value);
        ReservedKeeps(t, id, pool, found.value);
      } else {
        NothingFound(t.buffers, pool, found.error);
        RetiringKeeps(t, pool);
        assert Apart(t, t.(buffers := pool), id);
      }
    }
  }

  lemma AlwaysQuiet(t: Table, id: nat)
    requires Invariant(t)
    ensures Quiet(t, t, id)
  {
    hide Accounts;
    if id in t.tickets {
      assert StateFits(t.buffers, t.tickets[id]);
    }
  }

  lemma NothingFound(p: B.Pool, q: B.Pool, e: B.BufferError)
    requires B.Found(p, B.CpuRead, q, Err(e))
    ensures B.PoolFits(q) && B.OnlyRetires(p, q, {})
  {
  }

  lemma SizesOf(t: Table)
    requires Invariant(t)
    ensures B.PoolFits(t.buffers) && D.TableFits(t.descriptors)
  {
  }
}
