/** Cancelling a waiter keeps the invariant, and a supported asynchronous cancel is always submitted. */
module RestoreCancellations {
  import opened Collections
  import opened RestoreModel
  import opened RestoreInvariant
  import opened RestoreParts
  import opened RestorePrimitives
  import opened RestoreSteps
  import opened RestoreCompletions
  import opened RestoreQueue
  import B = DirectBuffers
  import D = DirectDescriptors

  function Left(ticket: Ticket, request: nat): Ticket {
    ticket.(waiters := ticket.waiters - {request})
  }

  lemma AskedLeaves(tickets: map<nat, Ticket>, requests: map<nat, nat>, id: nat, r: nat)
    requires Asked(tickets, requests) && id in tickets && r in tickets[id].waiters
    ensures Asked(tickets[id := Left(tickets[id], r)], requests - {r})
  {
    var now, asked := tickets[id := Left(tickets[id], r)], requests - {r};
    forall q | q in asked ensures asked[q] in now && q in now[asked[q]].waiters {
      assert requests[q] in tickets && q in tickets[requests[q]].waiters;
    }
    forall k, q | k in now && q in now[k].waiters ensures q in asked && asked[q] == k {
      assert q in tickets[k].waiters;
      assert q in requests && requests[q] == k;
    }
  }

  lemma WaitersLeave(tickets: map<nat, Ticket>, requests: map<nat, nat>, id: nat, r: nat)
    requires Asked(tickets, requests) && id in tickets && r in tickets[id].waiters
    ensures AllWaiters(tickets[id := Left(tickets[id], r)], requests - {r}) == AllWaiters(tickets, requests) - {r}
    ensures r in AllWaiters(tickets, requests) && AllWaiters(tickets, requests)[r] == tickets[id].waiters[r]
  {
    var now, asked := tickets[id := Left(tickets[id], r)], requests - {r};
    var x, all := AllWaiters(now, asked), AllWaiters(tickets, requests);
    assert all.Keys == requests.Keys;
    forall q ensures q in x <==> q in requests && q != r {
      if q in asked {
        assert q in all;
      }
    }
    assert x.Keys == (all - {r}).Keys;
  }

  /** The table once the waiter is gone. */
  function WithoutWaiter(t: Table, id: nat, request: nat): Table
    requires id in t.tickets && request in t.tickets[id].waiters
  {
    var w := t.tickets[id].waiters[request];
    Put(Uncharge(t, w.tenant, LogicalBytes(w.required)).table, id, Left(t.tickets[id], request))
      .(requests := t.requests - {request})
  }

  lemma Leaves(t: Table, id: nat, request: nat)
    requires Accounts(t) && id in t.tickets && request in t.tickets[id].waiters
    ensures Uncharge(t, t.tickets[id].waiters[request].tenant, LogicalBytes(t.tickets[id].waiters[request].required)).result == Ok(())
    ensures var u := WithoutWaiter(t, id, request);
            && Accounts(u) && Apart(t, u, id) && u.buffers == t.buffers
            && u == t.(tickets := t.tickets[id := Left(t.tickets[id], request)], charges := u.charges, requests := t.requests - {request})
  {
    hide Sized, Held, Linked, Asked, Billed, Sum, AllWaiters, Originals, Cancels, HashHolders, Lengths, TicketsFit, Apart, LogicalBytes, Uncharge, WaitersFit;
    var ticket, u := Left(t.tickets[id], request), WithoutWaiter(t, id, request);
    AskedLeaves(t.tickets, t.requests, id, request);
    WaitersLeave(t.tickets, t.requests, id, request);
    BilledRemoves(t, AllWaiters(t.tickets, t.requests), t.config.maxLogical, request);
    SizedPut(t, id, ticket);
    SizedMoney(Put(t, id, ticket), u.charges, u.requests);
    HeldPut(t.tickets, t.buffers, id, ticket);
    LinkedPut(t.tickets, t.descriptors, id, ticket);
    CountsPut(t, id, ticket);
    TicketFits(t, id);
    LeftFits(t.config, t.tickets[id], request);
    TicketsPut(t, id, ticket);
    ApartPut(t, u, id, ticket);
  }

  lemma LeftFits(c: Config, ticket: Ticket, r: nat)
    requires WaitersFit(c, ticket)
    ensures WaitersFit(c, Left(ticket, r))
  {
    var left := ticket.waiters - {r};
    assert left.Keys <= ticket.waiters.Keys;
    assert |left.Keys| <= |ticket.waiters.Keys| by {
      SubsetSize(left.Keys, ticket.waiters.Keys);
    }
    assert |left| == |left.Keys| && |ticket.waiters| == |ticket.waiters.Keys|;
  }

  // ---------------------------------------------------------------- abandoning a read

  function Cancelling(ticket: Ticket): Ticket
    requires ticket.originalToken.Some?
  {
    ticket.(cancelPending := true, cancelToken := Some(D.CancelOf(ticket.originalToken.value)))
  }

  lemma CancelLinks(t: Table, id: nat)
    requires Accounts(t) && id in t.tickets && t.tickets[id].originalPending && !t.tickets[id].cancelPending
    ensures t.tickets[id].originalToken.Some?
    ensures var issued := D.IssueCancel(t.descriptors, t.tickets[id].originalToken.value);
            && issued.Ok? && D.TableFits(issued.value) && |issued.value.slots| == |t.descriptors.slots|
            && Linked(t.tickets[id := Cancelling(t.tickets[id])], issued.value)
  {
    hide Held, Asked, Billed, AllWaiters, TicketsFit, Counted, D.SlotOf, D.GenerationOf, D.IsCancel, B.PoolFits, D.TableFits, D.CancelOf;
    assert TokensFit(t.descriptors, id, t.tickets[id]);
    var token := t.tickets[id].originalToken.value;
    var k, ticket := D.SlotOf(token), Cancelling(t.tickets[id]);
    CancelToken(t.descriptors, token);
    assert Uses(t.tickets[id], k);
    OneDescriptor(t.tickets, t.descriptors, id, k);
    var after := D.IssueCancel(t.descriptors, token).value;
    D.StepFits(t.descriptors, D.Issues(token));
    assert Uses(ticket, k);
    assert TokensFit(after, id, ticket);
    LinkedChanges(t.tickets, t.descriptors, id, ticket, after, k);
  }

  lemma CancelToken(d: D.Descriptors, token: D.Token)
    ensures D.SlotOf(D.CancelOf(token)) == D.SlotOf(token) && D.GenerationOf(D.CancelOf(token)) == D.GenerationOf(token)
    ensures D.IsCancel(D.CancelOf(token))
  {
    D.PackRoundTrips(D.SlotOf(token), D.GenerationOf(token), true);
  }

  lemma CancelAccounts(t: Table, id: nat, w: Table)
    requires Accounts(t) && id in t.tickets && t.tickets[id].originalPending && !t.tickets[id].cancelPending && t.tickets[id].originalToken.Some?
    requires D.IssueCancel(t.descriptors, t.tickets[id].originalToken.value).Ok?
    requires w == t.(tickets := t.tickets[id := Cancelling(t.tickets[id])], cq := t.cq.(cancel := t.cq.cancel + 1),
                     descriptors := D.IssueCancel(t.descriptors, t.tickets[id].originalToken.value).value)
    ensures Accounts(w) && Apart(t, w, id)
  {
    hide Held, Linked, Asked, Billed, Sum, AllWaiters, Originals, Cancels, HashHolders, Lengths, TicketsFit, Apart, D.TableFits;
    hide B.PoolFits, Sized, D.IssueCancel;
    var ticket := Cancelling(t.tickets[id]);
    CancelLinks(t, id);
    HeldPut(t.tickets, t.buffers, id, ticket);
    AskedPut(t.tickets, t.requests, id, ticket);
    CountsPut(t, id, ticket);
    TicketFits(t, id);
    TicketsPut(t, id, ticket);
    SizedPut(t, id, ticket);
    SizedCancels(Put(t, id, ticket), w.descriptors, w);
    ApartPut(t, w, id, ticket);
  }

  lemma SizedCancels(t: Table, d: D.Descriptors, w: Table)
    requires Sized(t) && D.TableFits(d) && |d.slots| == |t.descriptors.slots|
    requires w == t.(descriptors := d, cq := t.cq.(cancel := t.cq.cancel + 1))
    ensures Sized(w)
  {
  }

  lemma AbandonKeeps(t: Table, u: Table, id: nat, async: bool)
    requires Invariant(t) && Apart(t, u, id) && Accounts(u) && id in u.tickets && u.tickets[id].state.ReadSubmitted?
    requires u.tickets[id].waiters == map[] && BufferStateOf(u.buffers, u.tickets[id]) == Some(B.ReadInflight)
    requires u.tickets[id].originalPending && !u.tickets[id].cancelPending && u.tickets[id].hash.HashReserved?
    ensures var o := AbandonRead(u, id, async);
            && o.result == Ok(if async then AsyncCancelSubmitted else AbandonedWithoutAsyncCancel)
            && Invariant(o.table) && Apart(t, o.table, id)
            && o.table.buffers == u.buffers && id in o.table.tickets && o.table.tickets[id].state.Abandoned?
            && (!async ==> o.table.descriptors == u.descriptors)
            && (async ==> u.tickets[id].originalToken.Some?
                          && D.IssueCancel(u.descriptors, u.tickets[id].originalToken.value) == Ok(o.table.descriptors))
            && o.table.tickets[id].hash == u.tickets[id].hash && o.table.tickets[id].buffer == u.tickets[id].buffer
            && o.table.tickets[id].record == u.tickets[id].record
  {
    hide Invariant, Accounts, Apart, TrySubmit, D.IssueCancel, D.CancelOf;
    var abandoned := u.tickets[id].(state := Abandoned);
    PutKeepsAccounts(u, id, abandoned);
    var v := Put(u, id, abandoned);
    ApartIsTransitive(t, u, v, id);
    if async {
      RoomForCancel(v, id);
      CancelLinks(v, id);
      var w := AbandonRead(u, id, async).table;
      CancelAccounts(v, id, w);
      ApartIsTransitive(t, v, w, id);
      Restores(t, w, id);
    } else {
      Restores(t, v, id);
    }
  }

  // ---------------------------------------------------------------- cancelling

  /** What the last waiter of a ticket is told. */
  function Answer(state: TicketState, async: bool): Cancellation {
    match state
    case Planned => ReleasedBeforeSubmission
    case BufferReserved => ReleasedBeforeSubmission
    case ReadSubmitted => if async then AsyncCancelSubmitted else AbandonedWithoutAsyncCancel
    case DataReady => WaitingForHash
    case HashVerified => ReleasedAfterVerification
    case _ => WaiterRemoved
  }

  /** Cancelling a known request always succeeds; only its last waiter ends or abandons a ticket, and
      an asynchronous cancel that is supported is always submitted. */
  lemma CancelKeeps(t: Table, request: nat, async: bool)
    requires Invariant(t)
    ensures var o := CancelWaiter(t, request, async);
            && Invariant(o.table)
            && (request !in t.requests ==> o.result == Err(MissingRequest) && o.table == t)
            && (request in t.requests ==>
                  var id := t.requests[request];
                  && id in t.tickets && request in t.tickets[id].waiters && Apart(t, o.table, id) && Quiet(t, o.table, id)
                  && !Ended(t.tickets[id])
                  && (o.table.descriptors == t.descriptors ||
                      (&& t.tickets[id].state.ReadSubmitted? && t.tickets[id].originalToken.Some?
                       && D.IssueCancel(t.descriptors, t.tickets[id].originalToken.value) == Ok(o.table.descriptors)))
                  && o.result == Ok(if t.tickets[id].waiters.Keys == {request} then Answer(t.tickets[id].state, async) else WaiterRemoved))
  {
    hide Invariant, Accounts, Apart, RemoveTicket, ReleaseTicket, AbandonRead, Uncharge, LogicalBytes, D.IssueCancel;
    if request in t.requests {
      var id := t.requests[request];
      KnownRequest(t, request);
      Fitting(t, id);
      var ticket := t.tickets[id];
      Leaves(t, id, request);
      LastWaiter(ticket.waiters, request);
      var v := WithoutWaiter(t, id, request);
      if v.tickets[id].waiters != map[] {
        Restores(t, v, id);
      } else {
        LastLeaves(t, v, id, async);
      }
    }
  }

  lemma KnownRequest(t: Table, request: nat)
    requires Invariant(t) && request in t.requests
    ensures t.requests[request] in t.tickets && request in t.tickets[t.requests[request]].waiters
  {
  }

  lemma LastWaiter(waiters: map<nat, Waiter>, request: nat)
    requires request in waiters
    ensures waiters - {request} == map[] <==> waiters.Keys == {request}
  {
    assert (waiters - {request}).Keys == waiters.Keys - {request};
    assert waiters - {request} == map[] <==> (waiters - {request}).Keys == {};
  }

  /** The last waiter of ticket `id` has just left. */
  lemma LastLeaves(t: Table, v: Table, id: nat, async: bool)
    requires Invariant(t) && Apart(t, v, id) && Accounts(v) && v.buffers == t.buffers && id in t.tickets && id in v.tickets
    requires v.descriptors == t.descriptors
    requires StateFits(t.buffers, t.tickets[id]) && t.tickets[id].waiters != map[]
    requires v.tickets[id] == t.tickets[id].(waiters := map[])
    ensures var ticket := v.tickets[id];
            var o := match ticket.state
                     case Planned => Returning(RemoveTicket(v, id), ReleasedBeforeSubmission)
                     case BufferReserved => Returning(ReleaseTicket(v, id, ticket.buffer), ReleasedBeforeSubmission)
                     case ReadSubmitted => AbandonRead(v, id, async)
                     case DataReady => Outcome(Put(v, id, ticket.(state := Abandoned)), Ok(WaitingForHash))
                     case HashVerified => Returning(ReleaseTicket(v, id, ticket.buffer), ReleasedAfterVerification)
                     case _ => Fail(v, WrongState);
            && Invariant(o.table) && Apart(t, o.table, id) && o.result == Ok(Answer(ticket.state, async)) && Quiet(t, o.table, id)
            && (o.table.descriptors == v.descriptors ||
                (&& ticket.state.ReadSubmitted? && ticket.originalToken.Some?
                 && D.IssueCancel(v.descriptors, ticket.originalToken.value) == Ok(o.table.descriptors)))
  {
    hide Invariant, Accounts, Apart, RemoveTicket, ReleaseTicket, AbandonRead, D.IssueCancel;
    var ticket := v.tickets[id];
    match ticket.state {
      case Planned =>
        Removes(v, id);
        ApartIsTransitive(t, v, RemoveTicket(v, id).table, id);
        Restores(t, RemoveTicket(v, id).table, id);
      case BufferReserved =>
        Releases(t, v, id);
      case ReadSubmitted =>
        AbandonKeeps(t, v, id, async);
      case DataReady =>
        var abandoned := ticket.(state := Abandoned);
        PutKeepsAccounts(v, id, abandoned);
        ApartIsTransitive(t, v, Put(v, id, abandoned), id);
        Restores(t, Put(v, id, abandoned), id);
      case HashVerified =>
        Releases(t, v, id);
      case _ =>
    }
  }
}
