/** Every request gets the extent it asked for: what tickets and requests remember through every run. */
module RestoreRequests {
  import opened Collections
  import opened Octets
  import opened RestoreModel
  import opened RestoreInvariant
  import opened RestoreSystem
  import opened RestoreRuns
  import opened RestoreTheorems
  import B = DirectBuffers
  import D = DirectDescriptors

  // ---------------------------------------------------------------- what planning decides

  /** The ticket restores this very extent under this catalogue entry and still serves waiters. */
  predicate Restores(ticket: Ticket, record: ExtentRecord, epoch: nat, catalog: nat) {
    && ticket.record == record && ticket.epoch == epoch && ticket.catalog == catalog
    && ticket.state != TicketState.Abandoned && ticket.state != TicketState.Failed
  }

  /** A request that may be planned: it is named, its record is the size of its capability and offers what
      is required, its number is not waiting anywhere, and its tenant can pay. */
  ghost predicate Plannable(t: Table, request: Request, record: ExtentRecord, epoch: nat, catalog: nat) {
    && request.id > 0 && request.tenant > 0 && epoch > 0 && catalog > 0
    && record.identity != 0 && record.length == (if record.capability.Mtp? then 2_052_096 else 2_019_328)
    && (request.required.Mtp? ==> record.capability.Mtp?)
    && (forall k | k in t.tickets :: request.id !in t.tickets[k].waiters)
    && var bytes := if request.required.Mtp? then 2_046_464 else 2_014_464;
       ChargeOf(t, request.tenant) + bytes <= t.config.maxLogical
  }

  lemma PlannableExactly(t: Table, request: Request, record: ExtentRecord, epoch: nat, catalog: nat)
    requires Invariant(t)
    ensures CheckRequest(t, request, record, epoch, catalog).Ok? <==> Plannable(t, request, record, epoch, catalog)
  {
    hide Sized, Held, Linked, Billed, Counted, TicketsFit, StateFits, ChargeOf;
    LimitsFit(t);
    if request.id in t.requests {
      assert request.id in t.tickets[t.requests[request.id]].waiters;
    }
  }

  lemma LimitsFit(t: Table)
    requires Invariant(t)
    ensures t.config.maxLogical <= MAX_U64 && t.config.maxPhysical <= MAX_U64
  {
    hide Held, Linked, Asked, Billed, AllWaiters, Counted, TicketsFit, StateFits;
  }

  /** A request joins exactly the first ticket that restores its extent under its catalogue entry; it gets
      a ticket of its own exactly when there is none and there is room. */
  lemma PlansExactly(t: Table, request: Request, record: ExtentRecord, epoch: nat, catalog: nat)
    requires Invariant(t)
    ensures var r := Plan(t, request, record, epoch, catalog).result;
            && (forall id :: r == Ok(Joined(id)) <==>
                  && Plannable(t, request, record, epoch, catalog)
                  && id in t.tickets && Restores(t.tickets[id], record, epoch, catalog)
                  && (forall k | k in t.tickets && k < id :: !Restores(t.tickets[k], record, epoch, catalog))
                  && |t.tickets[id].waiters| < t.config.maxWaiters)
            && (forall id :: r == Ok(Created(id)) <==>
                  && Plannable(t, request, record, epoch, catalog) && id == t.nextTicket
                  && (forall k | k in t.tickets :: !Restores(t.tickets[k], record, epoch, catalog))
                  && |t.tickets| < t.config.maxTickets && t.nextTicket < MAX_U64
                  && t.physical + record.length <= t.config.maxPhysical)
  {
    hide Invariant, CheckRequest, Plannable, Charged, LogicalBytes;
    PlannableExactly(t, request, record, epoch, catalog);
    LimitsFit(t);
    if Plannable(t, request, record, epoch, catalog) {
      var found := Matches(t, record, epoch, catalog, request.required);
      MatchesRestore(t, request, record, epoch, catalog);
    }
  }

  /** A planned request waits at its ticket and nowhere else; a new ticket is for what was asked. */
  lemma PlanTakes(t: Table, request: Request, record: ExtentRecord, epoch: nat, catalog: nat)
    ensures var o, waiter := Plan(t, request, record, epoch, catalog), Waiter(request.tenant, request.required);
            && (o.result.Err? ==> o.table == t)
            && (o.result.Ok? ==>
                  var id := o.result.value.ticket;
                  && o.table.requests == t.requests[request.id := id]
                  && (o.result.value.Joined? ==>
                        id in t.tickets && o.table.tickets == t.tickets[id := t.tickets[id].(waiters := t.tickets[id].waiters[request.id := waiter])])
                  && (o.result.value.Created? ==>
                        o.table.tickets == t.tickets[id := Ticket(record, epoch, catalog, Planned, None, map[request.id := waiter],
                                                                  false, false, None, None, NoHash)]))
  {
    hide CheckRequest, LogicalBytes;
  }

  lemma MatchesRestore(t: Table, request: Request, record: ExtentRecord, epoch: nat, catalog: nat)
    requires Plannable(t, request, record, epoch, catalog)
    ensures forall id :: id in Matches(t, record, epoch, catalog, request.required) <==>
              id in t.tickets && Restores(t.tickets[id], record, epoch, catalog)
  {
  }

  // ---------------------------------------------------------------- what the others keep

  /** Tickets and requests may end, but none is new, and none changes what it is for. */
  ghost predicate OnlyForgets(t: Table, u: Table) {
    && (forall k | k in u.tickets ::
          && k in t.tickets && u.tickets[k].record == t.tickets[k].record
          && u.tickets[k].epoch == t.tickets[k].epoch && u.tickets[k].catalog == t.tickets[k].catalog)
    && (forall r | r in u.requests :: r in t.requests && u.requests[r] == t.requests[r])
  }

  lemma ForgetsMore(t: Table, u: Table, v: Table)
    requires OnlyForgets(t, u) && OnlyForgets(u, v)
    ensures OnlyForgets(t, v)
  {
  }

  lemma {:induction false} WaitersForget(t: Table, waiters: map<nat, Waiter>, ids: seq<nat>, n: nat, requestFirst: bool)
    requires n <= |ids| && forall i | i in ids :: i in waiters
    ensures OnlyForgets(t, ReleaseWaiters(t, waiters, ids, n, requestFirst).table)
  {
    if n > 0 {
      WaitersForget(t, waiters, ids, n - 1, requestFirst);
    }
  }

  lemma RemovalForgets(t: Table, id: nat)
    ensures OnlyForgets(t, RemoveTicket(t, id).table)
  {
    hide ReleaseWaiters, Sorted, OnlyForgets;
    ForgetsNothing(t);
    if id in t.tickets {
      var ids := Sorted(t.tickets[id].waiters.Keys);
      var u := t.(tickets := t.tickets - {id});
      TicketForgotten(t, id);
      WaitersForget(u, t.tickets[id].waiters, ids, |ids|, true);
      var v := ReleaseWaiters(u, t.tickets[id].waiters, ids, |ids|, true).table;
      ForgetsMore(t, u, v);
      if RemoveTicket(t, id).table != t {
        SameBooks(v, RemoveTicket(t, id).table);
        ForgetsMore(t, v, RemoveTicket(t, id).table);
      }
    }
  }

  lemma TicketForgotten(t: Table, id: nat)
    ensures OnlyForgets(t, t.(tickets := t.tickets - {id}))
  {
  }

  lemma ClearingForgets(t: Table, id: nat)
    ensures OnlyForgets(t, ClearWaiters(t, id).table)
  {
    hide ReleaseWaiters, Sorted;
    if id in t.tickets {
      var ids := Sorted(t.tickets[id].waiters.Keys);
      WaitersForget(t, t.tickets[id].waiters, ids, |ids|, false);
    }
  }

  lemma MovesForget(t: Table, id: nat, buffer: B.BufferId, next: B.BufferState)
    ensures OnlyForgets(t, MoveBuffer(t, buffer, next).table) && OnlyForgets(t, QuarantineBuffer(t, buffer).table)
    ensures OnlyForgets(t, ReleaseHash(t, id).table)
    ensures MoveBuffer(t, buffer, next).table.tickets == t.tickets && QuarantineBuffer(t, buffer).table.tickets == t.tickets
  {
    hide B.Transition, B.Find, OnlyForgets;
    ForgetsNothing(t);
    SameBooks(t, MoveBuffer(t, buffer, next).table);
    SameBooks(t, QuarantineBuffer(t, buffer).table);
    if id in t.tickets {
      OneTicket(t, ReleaseHash(t, id).table, id, t.tickets[id].(hash := NoHash));
    }
  }

  lemma OneTicket(t: Table, u: Table, id: nat, ticket: Ticket)
    requires id in t.tickets && ticket.record == t.tickets[id].record && ticket.epoch == t.tickets[id].epoch
    requires ticket.catalog == t.tickets[id].catalog
    requires u.requests == t.requests && (u.tickets == t.tickets || u.tickets == t.tickets[id := ticket])
    ensures OnlyForgets(t, u)
  {
  }

  lemma FailingForgets(t: Table, id: nat)
    ensures OnlyForgets(t, FailTicket(t, id).table)
  {
    hide QuarantineBuffer, ReleaseHash, ClearWaiters, RemoveTicket, OnlyForgets;
    ForgetsNothing(t);
    if id in t.tickets && t.tickets[id].buffer.Some? {
      var u := QuarantineBuffer(t, t.tickets[id].buffer.value).table;
      MovesForget(t, id, t.tickets[id].buffer.value, B.Free);
      MovesForget(u, id, t.tickets[id].buffer.value, B.Free);
      var v := ReleaseHash(u, id).table;
      ForgetsMore(t, u, v);
      ClearingForgets(v, id);
      var w := ClearWaiters(v, id).table;
      ForgetsMore(t, v, w);
      if id in w.tickets {
        var x := Put(w, id, w.tickets[id].(state := Failed));
        ForgetsState(w, id, w.tickets[id].(state := Failed));
        ForgetsMore(t, w, x);
        RemovalForgets(x, id);
        ForgetsMore(t, x, RemoveTicket(x, id).table);
      }
    }
  }

  lemma ForgetsNothing(t: Table)
    ensures OnlyForgets(t, t)
  {
  }

  lemma ForgetsState(t: Table, id: nat, ticket: Ticket)
    requires id in t.tickets && ticket.record == t.tickets[id].record && ticket.epoch == t.tickets[id].epoch
    requires ticket.catalog == t.tickets[id].catalog
    ensures OnlyForgets(t, Put(t, id, ticket))
  {
  }

  lemma {:induction false} FailuresForget(t: Table, ids: seq<nat>, n: nat)
    requires n <= |ids|
    ensures OnlyForgets(t, FailTickets(t, ids, n).table)
  {
    hide FailTicket, OnlyForgets;
    if n == 0 {
      ForgetsNothing(t);
    } else {
      FailuresForget(t, ids, n - 1);
      var u := FailTickets(t, ids, n - 1).table;
      FailingForgets(u, ids[n - 1]);
      ForgetsMore(t, u, FailTicket(u, ids[n - 1]).table);
    }
  }

  lemma PoolFailureForgets(t: Table)
    ensures OnlyForgets(t, FailPool(t).table)
  {
    hide FailTickets, Sorted;
    if t.workers.Some? {
      var ids := Sorted(HashHolders(t.tickets));
      FailuresForget(t.(workers := Some(t.workers.value.(failed := true))), ids, |ids|);
    }
  }

  lemma EndingForgets(t: Table, id: nat, buffer: Option<B.BufferId>)
    ensures OnlyForgets(t, FinishAbandoned(t, id).table) && OnlyForgets(t, ReleaseTicket(t, id, buffer).table)
  {
    hide ReleaseHash, RemoveTicket, MoveBuffer, OnlyForgets, B.ReleaseAbandoned;
    ForgetsNothing(t);
    if id in t.tickets && t.tickets[id].buffer.Some? {
      MovesForget(t, id, t.tickets[id].buffer.value, B.Free);
      var u := ReleaseHash(t, id).table;
      var released := B.ReleaseAbandoned(u.buffers, t.tickets[id].buffer.value);
      if released.Ok? {
        var v := u.(buffers := released.value);
        SameBooks(u, v);
        ForgetsMore(t, u, v);
        RemovalForgets(v, id);
        ForgetsMore(t, v, RemoveTicket(v, id).table);
      }
    }
    if buffer.Some? {
      MovesForget(t, id, buffer.value, B.Free);
      var u := MoveBuffer(t, buffer.value, B.Free).table;
      RemovalForgets(u, id);
      ForgetsMore(t, u, RemoveTicket(u, id).table);
    }
  }

  lemma SameBooks(t: Table, u: Table)
    requires u.tickets == t.tickets && u.requests == t.requests
    ensures OnlyForgets(t, u)
  {
  }

  lemma ReserveForgets(t: Table, id: nat)
    ensures OnlyForgets(t, ReserveBuffer(t, id).table)
  {
    hide B.Reserve, OnlyForgets;
    ForgetsNothing(t);
    if id in t.tickets {
      var u := ReserveBuffer(t, id).table;
      OneTicket(t, u, id, u.tickets[id]);
    }
  }

  lemma SubmitForgets(t: Table, id: nat)
    ensures OnlyForgets(t, SubmitRead(t, id).table)
  {
    hide D.Allocate, B.Transition, TrySubmit, D.Complete, CompleteCqe, OnlyForgets;
    ForgetsNothing(t);
    if id in t.tickets {
      var u := SubmitRead(t, id).table;
      OneTicket(t, u, id, u.tickets[id]);
    }
  }

  lemma CopyForgets(t: Table, id: nat, offset: nat, source: Bytes)
    ensures OnlyForgets(t, CopyIntoDestination(t, id, offset, source).table)
  {
    hide B.Write, OnlyForgets;
    SameBooks(t, CopyIntoDestination(t, id, offset, source).table);
  }

  lemma CancelForgets(t: Table, request: nat, async: bool)
    ensures OnlyForgets(t, CancelWaiter(t, request, async).table)
  {
    hide RemoveTicket, ReleaseTicket, AbandonRead, LogicalBytes, OnlyForgets;
    ForgetsNothing(t);
    if request in t.requests && t.requests[request] in t.tickets && request in t.tickets[t.requests[request]].waiters {
      var id := t.requests[request];
      var waiter := t.tickets[id].waiters[request];
      var u := Uncharge(t, waiter.tenant, LogicalBytes(waiter.required)).table;
      var ticket := t.tickets[id].(waiters := t.tickets[id].waiters - {request});
      var v := Put(u, id, ticket).(requests := t.requests - {request});
      WaiterForgets(t, u, id, request, ticket);
      RemovalForgets(v, id);
      EndingForgets(v, id, ticket.buffer);
      AbandonForgets(v, id, async);
      ForgetsState(v, id, ticket.(state := Abandoned));
      ForgetsMore(t, v, RemoveTicket(v, id).table);
      ForgetsMore(t, v, ReleaseTicket(v, id, ticket.buffer).table);
      ForgetsMore(t, v, AbandonRead(v, id, async).table);
      ForgetsMore(t, v, Put(v, id, ticket.(state := Abandoned)));
    }
  }

  lemma WaiterForgets(t: Table, u: Table, id: nat, request: nat, ticket: Ticket)
    requires id in t.tickets && u.tickets == t.tickets && ticket == t.tickets[id].(waiters := ticket.waiters)
    ensures OnlyForgets(t, Put(u, id, ticket).(requests := t.requests - {request}))
  {
  }

  lemma AbandonForgets(t: Table, id: nat, async: bool)
    requires id in t.tickets
    ensures OnlyForgets(t, AbandonRead(t, id, async).table)
  {
    hide TrySubmit, D.IssueCancel, CompleteCqe, D.CancelOf, OnlyForgets;
    var u := AbandonRead(t, id, async).table;
    OneTicket(t, u, id, u.tickets[id]);
  }

  lemma ReapForgets(t: Table, id: nat, token: Option<D.Token>, kind: CqKind)
    requires id in t.tickets
    ensures ReapToken(t, id, token, kind).table.tickets == t.tickets && ReapToken(t, id, token, kind).table.requests == t.requests
  {
    hide D.Resolve, D.Complete, CompleteCqe;
  }

  lemma CompletionForgets(t: Table, id: nat, completion: ReadCompletion)
    ensures OnlyForgets(t, CompleteOriginal(t, id, completion).table)
  {
    hide ReapToken, FailTicket, FinishAbandoned, MoveBuffer, OnlyForgets;
    ForgetsNothing(t);
    if id in t.tickets {
      var ticket := t.tickets[id];
      ReapForgets(t, id, ticket.originalToken, OriginalCqe);
      var u := ReapToken(t, id, ticket.originalToken, OriginalCqe).table;
      SameBooks(t, u);
      var next := ticket.(originalPending := false, originalToken := None);
      var v := Put(u, id, next);
      ForgetsState(u, id, next);
      ForgetsMore(t, u, v);
      FailingForgets(v, id);
      EndingForgets(v, id, None);
      ForgetsMore(t, v, FailTicket(v, id).table);
      ForgetsMore(t, v, FinishAbandoned(v, id).table);
      if ticket.buffer.Some? {
        MovesForget(v, id, ticket.buffer.value, B.HashingForRead);
        var w := MoveBuffer(v, ticket.buffer.value, B.HashingForRead).table;
        ForgetsMore(t, v, w);
        ForgetsState(w, id, w.tickets[id].(hash := HashQueued, state := DataReady));
        ForgetsMore(t, w, Put(w, id, w.tickets[id].(hash := HashQueued, state := DataReady)));
      }
    }
  }

  lemma CancelledForgets(t: Table, id: nat)
    ensures OnlyForgets(t, CompleteCancel(t, id).table)
  {
    hide ReapToken, FinishAbandoned, RemoveTicket, OnlyForgets;
    ForgetsNothing(t);
    if id in t.tickets {
      var ticket := t.tickets[id];
      ReapForgets(t, id, ticket.cancelToken, CancelCqe);
      var u := ReapToken(t, id, ticket.cancelToken, CancelCqe).table;
      SameBooks(t, u);
      var next := ticket.(cancelPending := false, cancelToken := None);
      var v := Put(u, id, next);
      ForgetsState(u, id, next);
      ForgetsMore(t, u, v);
      EndingForgets(v, id, None);
      RemovalForgets(v, id);
      ForgetsMore(t, v, FinishAbandoned(v, id).table);
      ForgetsMore(t, v, RemoveTicket(v, id).table);
    }
  }

  lemma ResultForgets(t: Table, result: HashResult)
    ensures OnlyForgets(t, CompleteHash(t, result).table)
  {
    hide FailTicket, MoveBuffer, ReleaseHash, ReleaseTicket, OnlyForgets;
    ForgetsNothing(t);
    var id := result.job.ticket;
    if id in t.tickets {
      FailingForgets(t, id);
      MovesForget(t, id, result.job.buffer, B.HostReady);
      var u := MoveBuffer(t, result.job.buffer, B.HostReady).table;
      MovesForget(u, id, result.job.buffer, B.HostReady);
      var v := ReleaseHash(u, id).table;
      ForgetsMore(t, u, v);
      EndingForgets(v, id, Some(result.job.buffer));
      ForgetsMore(t, v, ReleaseTicket(v, id, Some(result.job.buffer)).table);
      if id in v.tickets {
        ForgetsState(v, id, v.tickets[id].(state := HashVerified));
        ForgetsMore(t, v, Put(v, id, v.tickets[id].(state := HashVerified)));
      }
    }
  }

  lemma DeliveryForgets(t: Table, id: nat)
    ensures OnlyForgets(t, FinishDelivery(t, id).table)
  {
    hide ReleaseTicket, OnlyForgets, Sorted;
    ForgetsNothing(t);
    if id in t.tickets {
      EndingForgets(t, id, t.tickets[id].buffer);
    }
  }

  lemma JobsForget(t: Table, count: nat)
    ensures OnlyForgets(t, NextHashJob(t).table) && OnlyForgets(t, StartWorkers(t, count).table)
    ensures OnlyForgets(t, ShutdownWorkers(t).table)
  {
    hide Least, OnlyForgets;
    SameBooks(t, StartWorkers(t, count).table);
    SameBooks(t, ShutdownWorkers(t).table);
    ForgetsNothing(t);
    if QueuedTickets(t) != {} {
      var id := Least(QueuedTickets(t));
      OneTicket(t, NextHashJob(t).table, id, t.tickets[id].(hash := HashRunning));
    }
  }

  lemma DispatchForgets(t: Table)
    ensures OnlyForgets(t, DispatchChecksum(t).table)
  {
    hide FailPool, Least, B.HashBuffer, OnlyForgets;
    ForgetsNothing(t);
    PoolFailureForgets(t);
    if t.workers.Some? && !t.workers.value.failed && QueuedTickets(t) != {} {
      var id := Least(QueuedTickets(t));
      var u := DispatchChecksum(t).table;
      if u != FailPool(t).table {
        OneTicket(t, u, id, t.tickets[id].(hash := HashRunning));
      }
    }
  }

  lemma PollForgets(t: Table)
    ensures OnlyForgets(t, PollChecksum(t).table)
  {
    hide FailPool, OnlyForgets;
    ForgetsNothing(t);
    PoolFailureForgets(t);
    if t.workers.Some? && t.workers.value.completions != [] {
      var u := t.(workers := Some(t.workers.value.(completions := t.workers.value.completions[1..])));
      SameBooks(t, u);
      PoolFailureForgets(u);
      ForgetsMore(t, u, FailPool(u).table);
    }
  }

  lemma WorkersForget(decode: (ExtentRecord, Bytes) -> bool, t: Table, i: nat, panics: bool)
    ensures OnlyForgets(t, WorkerTakes(t, i)) && OnlyForgets(t, WorkerVerifies(decode, t, i, panics)) && OnlyForgets(t, WorkerSends(t, i))
  {
    hide Decodes;
  }

  /** Only planning makes tickets and requests. */
  lemma StepForgets(decode: (ExtentRecord, Bytes) -> bool, s: System, op: Operation)
    requires !op.Plans?
    ensures OnlyForgets(s.table, Apply(decode, s, op).table)
  {
    hide OnlyForgets, ReserveBuffer, SubmitRead, CopyIntoDestination, CancelWaiter, CompleteOriginal, CompleteCancel, StartWorkers;
    hide DispatchChecksum, PollChecksum, ShutdownWorkers, NextHashJob, RunHashJob, CompleteHash, FinishDelivery, WorkerTakes, WorkerVerifies, WorkerSends, Spends;
    var t := s.table;
    ForgetsNothing(t);
    match op {
      case Reserves(id) => ReserveForgets(t, id);
      case Submits(id) => SubmitForgets(t, id);
      case Copies(id, offset, source) => CopyForgets(t, id, offset, source);
      case CancelsWaiter(waiter, async) => CancelForgets(t, waiter, async);
      case CompletesRead(id, completion) => CompletionForgets(t, id, completion);
      case CompletesCancel(id) => CancelledForgets(t, id);
      case Starts(count) => JobsForget(t, count);
      case Dispatches => DispatchForgets(t);
      case Polls => PollForgets(t);
      case ShutsDown => JobsForget(t, 0);
      case TakesJob => JobsForget(t, 0);
      case RunsJob(_) =>
      case CompletesHash(result) => ResultForgets(t, result);
      case Delivers(id) => DeliveryForgets(t, id);
      case WorkerTake(i) => WorkersForget(decode, t, i, false);
      case WorkerVerify(i, panics) => WorkersForget(decode, t, i, panics);
      case WorkerSend(i) => WorkersForget(decode, t, i, false);
    }
  }

  // ---------------------------------------------------------------- requests through runs

  /** What a request was last planned with. */
  datatype Ask = Ask(record: ExtentRecord, epoch: nat, catalog: nat)

  function AskedAfter(asks: map<nat, Ask>, t: Table, op: Operation): map<nat, Ask> {
    if op.Plans? && Plan(t, op.request, op.record, op.epoch, op.catalog).result.Ok?
    then asks[op.request.id := Ask(op.record, op.epoch, op.catalog)] else asks
  }

  /** The requests of a run and what they asked for. */
  function Asks(decode: (ExtentRecord, Bytes) -> bool, s: System, ops: seq<Operation>): map<nat, Ask> {
    if ops == [] then map[]
    else
      var front := ops[..|ops| - 1];
      AskedAfter(Asks(decode, s, front), Run(decode, s, front).table, ops[|ops| - 1])
  }

  /** Every waiting request has a ticket for exactly what it asked for. */
  ghost predicate Faithful(t: Table, asks: map<nat, Ask>) {
    forall r | r in t.requests ::
      && r in asks && t.requests[r] in t.tickets
      && var ticket := t.tickets[t.requests[r]];
      asks[r] == Ask(ticket.record, ticket.epoch, ticket.catalog)
  }

  lemma PlanIsFaithful(t: Table, asks: map<nat, Ask>, request: Request, record: ExtentRecord, epoch: nat, catalog: nat)
    requires Invariant(t) && Faithful(t, asks)
    ensures var u := Plan(t, request, record, epoch, catalog).table;
            Faithful(u, AskedAfter(asks, t, Plans(request, record, epoch, catalog)))
  {
    hide Invariant, Plan, Plannable;
    PlansExactly(t, request, record, epoch, catalog);
    PlanTakes(t, request, record, epoch, catalog);
    NextIsNew(t);
    var o := Plan(t, request, record, epoch, catalog);
    if o.result.Ok? {
      match o.result.value {
        case Joined(id) => AddsRequest(t, o.table, asks, request.id, id, Ask(record, epoch, catalog));
        case Created(id) => AddsRequest(t, o.table, asks, request.id, id, Ask(record, epoch, catalog));
      }
    }
  }

  lemma AddsRequest(t: Table, u: Table, asks: map<nat, Ask>, request: nat, id: nat, ask: Ask)
    requires Faithful(t, asks) && u.requests == t.requests[request := id] && id in u.tickets
    requires ask == Ask(u.tickets[id].record, u.tickets[id].epoch, u.tickets[id].catalog)
    requires forall k | k in t.tickets ::
               k in u.tickets && u.tickets[k].record == t.tickets[k].record && u.tickets[k].epoch == t.tickets[k].epoch
               && u.tickets[k].catalog == t.tickets[k].catalog
    ensures Faithful(u, asks[request := ask])
  {
  }

  lemma NextIsNew(t: Table)
    requires Invariant(t)
    ensures t.nextTicket !in t.tickets
  {
    hide Held, Linked, Asked, Billed, AllWaiters, Counted, TicketsFit, StateFits;
  }

  lemma ForgettingIsFaithful(t: Table, u: Table, asks: map<nat, Ask>)
    requires Faithful(t, asks) && OnlyForgets(t, u) && Asked(u.tickets, u.requests)
    ensures Faithful(u, asks)
  {
  }

  lemma {:induction false} RunsAreFaithful(decode: (ExtentRecord, Bytes) -> bool, c: Config, ops: seq<Operation>)
    requires ConfigFits(c)
    ensures Faithful(Run(decode, NewSystem(c), ops).table, Asks(decode, NewSystem(c), ops))
  {
    hide Consistent, Apply, OnlyForgets, Plan, Faithful;
    var s := NewSystem(c);
    if ops == [] {
      NobodyAsks(c);
    } else {
      var front, op := ops[..|ops| - 1], ops[|ops| - 1];
      RunsAreFaithful(decode, c, front);
      RunsAreConsistent(decode, c, front);
      RunsAreConsistent(decode, c, ops);
      var before, asks := Run(decode, s, front), Asks(decode, s, front);
      InvariantOf(decode, before);
      InvariantOf(decode, Run(decode, s, ops));
      if op.Plans? {
        PlanIsFaithful(before.table, asks, op.request, op.record, op.epoch, op.catalog);
        PlansApply(decode, before, op);
      } else {
        StepForgets(decode, before, op);
        AskedOf(Run(decode, s, ops).table);
        ForgettingIsFaithful(before.table, Run(decode, s, ops).table, asks);
      }
    }
  }

  lemma NobodyAsks(c: Config)
    ensures Faithful(NewTable(c), map[])
  {
  }

  lemma PlansApply(decode: (ExtentRecord, Bytes) -> bool, s: System, op: Operation)
    requires op.Plans?
    ensures Apply(decode, s, op).table == Plan(s.table, op.request, op.record, op.epoch, op.catalog).table
  {
  }

  /** After any run, every request that a delivery returns asked for the very extent, under the very
      catalogue entry, whose bytes are in the buffer and decode. */
  lemma DeliveredAsAsked(decode: (ExtentRecord, Bytes) -> bool, c: Config, ops: seq<Operation>, id: nat)
    requires ConfigFits(c) && FinishDelivery(Run(decode, NewSystem(c), ops).table, id).result.Ok?
    ensures var t, asks := Run(decode, NewSystem(c), ops).table, Asks(decode, NewSystem(c), ops);
            && id in t.tickets && t.tickets[id].buffer.Some?
            && forall r | r in FinishDelivery(t, id).result.value ::
                 && r in asks && asks[r].epoch == t.tickets[id].epoch && asks[r].catalog == t.tickets[id].catalog
                 && Decodes(decode, t.buffers, t.tickets[id].buffer.value, asks[r].record)
  {
    hide Consistent, Run, Asks, FinishDelivery, Decodes;
    RunsAreConsistent(decode, c, ops);
    RunsAreFaithful(decode, c, ops);
    DeliveredIsVerified(decode, Run(decode, NewSystem(c), ops), id);
  }
}
