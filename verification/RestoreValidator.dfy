/** When the table's own validator accepts (direct_restore.rs, validate_invariants). */
module RestoreValidator {
  import opened Collections
  import opened Octets
  import opened RestoreModel
  import opened RestoreInvariant
  import opened RestorePool
  import opened RestoreWorkers
  import opened RestoreSystem
  import opened RestoreThreads
  import opened RestoreRuns
  import opened RestoreLoss
  import opened RestoreTheorems
  import B = DirectBuffers
  import D = DirectDescriptors

  /** What the validator asks of the waiters of a ticket. */
  predicate WaitersAccepted(t: Table, id: nat)
    requires id in t.tickets
  {
    var ticket := t.tickets[id];
    && Validates(ticket.record) && ticket.epoch != 0 && ticket.catalog != 0 && |ticket.waiters| <= t.config.maxWaiters
    && (ticket.waiters == map[] ==> ticket.state.Abandoned? || ticket.state.Failed?)
    && (forall r | r in ticket.waiters ::
          && r != 0 && ticket.waiters[r].tenant != 0 && Satisfies(ticket.record.capability, ticket.waiters[r].required)
          && r in t.requests && t.requests[r] == id)
  }

  predicate TokenAccepted(t: Table, id: nat, token: Option<D.Token>)
    requires id in t.tickets
  {
    token.Some? ==>
      t.tickets[id].buffer.Some? && D.Resolve(t.descriptors, token.value) == Ok(BindingOf(id, t.tickets[id].buffer.value))
  }

  /** What the validator asks of the tokens and of the state of a ticket. */
  predicate StateAccepted(t: Table, id: nat)
    requires id in t.tickets
  {
    var ticket, state := t.tickets[id], BufferStateOf(t.buffers, t.tickets[id]);
    && (ticket.originalPending <==> ticket.originalToken.Some?) && (ticket.cancelPending <==> ticket.cancelToken.Some?)
    && TokenAccepted(t, id, ticket.originalToken) && TokenAccepted(t, id, ticket.cancelToken)
    && (ticket.buffer.Some? ==> B.Find(t.buffers, ticket.buffer.value).Ok?)
    && match ticket.state
       case Planned => state.None? && !ticket.originalPending && !ticket.cancelPending && ticket.hash.NoHash?
       case BufferReserved =>
         state == Some(B.ReadQueued) && !ticket.originalPending && !ticket.cancelPending && ticket.hash.NoHash?
       case ReadSubmitted =>
         ticket.originalPending && !ticket.cancelPending && ticket.hash.HashReserved? && state == Some(B.ReadInflight)
       case DataReady =>
         && !ticket.originalPending && !ticket.cancelPending && (ticket.hash.HashQueued? || ticket.hash.HashRunning?)
         && state == Some(B.HashingForRead)
       case HashVerified =>
         !ticket.originalPending && !ticket.cancelPending && ticket.hash.NoHash? && state == Some(B.HostReady)
       case Abandoned =>
         && ticket.waiters == map[]
         && ((state == Some(B.ReadInflight) && ticket.hash.HashReserved?) ||
             (state == Some(B.HashingForRead) && (ticket.hash.HashQueued? || ticket.hash.HashRunning?)))
       case Failed =>
         ticket.waiters == map[] && !ticket.originalPending && ticket.hash.NoHash? && state == Some(B.Quarantined)
  }

  /** The charges the validator computes from the waiters. */
  ghost predicate ChargesAccepted(t: Table) {
    var all := AllWaiters(t.tickets, t.requests);
    && (forall tenant :: tenant in t.charges <==> exists r :: r in all && all[r].tenant == tenant)
    && (forall tenant | tenant in t.charges :: t.charges[tenant] == Sum(Bills(all, tenant)) <= t.config.maxLogical)
  }

  /** All checks of the validator. */
  ghost predicate Accepted(t: Table) {
    && !(t.retired && (t.workers.Some? || t.hashJobs != 0))
    && Sum(Lengths(t.tickets)) == t.physical <= t.config.maxPhysical && |t.tickets| <= t.config.maxTickets
    && (forall id | id in t.tickets :: WaitersAccepted(t, id) && StateAccepted(t, id))
    && |t.requests| == Sum(WaiterCounts(t.tickets)) <= |t.tickets| * t.config.maxWaiters
    && ChargesAccepted(t)
    && |Waiting(t.tickets)| == |Occupied(t.descriptors)|
    && |Originals(t.tickets)| + |Cancels(t.tickets)| == t.cq.original + t.cq.cancel + t.cq.fsync
    && |ActiveHolders(t)| == |ActiveSlots(t.buffers)|
    && |HashHolders(t.tickets)| == t.hashJobs <= t.config.maxHashJobs
  }

  lemma WaitersAre(t: Table, id: nat)
    requires id in t.tickets && WaitersFit(t.config, t.tickets[id]) && StateFits(t.buffers, t.tickets[id]) && Asked(t.tickets, t.requests)
    ensures WaitersAccepted(t, id)
  {
  }

  lemma StateIs(t: Table, id: nat)
    requires id in t.tickets && StateFits(t.buffers, t.tickets[id]) && TokensFit(t.descriptors, id, t.tickets[id])
    requires t.tickets[id].buffer.Some? ==> B.Find(t.buffers, t.tickets[id].buffer.value).Ok?
    ensures StateAccepted(t, id) <==> !Lost(t.tickets, id)
  {
    hide D.SlotOf, D.GenerationOf, D.IsCancel;
  }

  lemma TicketAccepted(t: Table, id: nat)
    requires Invariant(t) && id in t.tickets
    ensures WaitersAccepted(t, id) && (StateAccepted(t, id) <==> !Lost(t.tickets, id))
  {
    hide Sized, Billed, Counted, AllWaiters, Asked, StateFits, TokensFit, WaitersFit, WaitersAccepted, StateAccepted, B.Find;
    WaitersAre(t, id);
    StateIs(t, id);
  }

  lemma PositiveBill(all: map<nat, Waiter>, tenant: nat)
    ensures Sum(Bills(all, tenant)) > 0 <==> exists r :: r in all && all[r].tenant == tenant
  {
    if r :| r in all && all[r].tenant == tenant {
      SumRemoves(Bills(all, tenant), r);
    } else {
      assert Bills(all, tenant) == map[];
    }
  }

  lemma ChargesAre(t: Table)
    requires Billed(AllWaiters(t.tickets, t.requests), t.charges, t.config.maxLogical)
    ensures ChargesAccepted(t)
  {
    hide Sum, Bills, AllWaiters;
    var all := AllWaiters(t.tickets, t.requests);
    forall tenant: nat
      ensures tenant in t.charges <==> exists r :: r in all && all[r].tenant == tenant
      ensures tenant in t.charges ==> t.charges[tenant] == Sum(Bills(all, tenant)) <= t.config.maxLogical
    {
      PositiveBill(all, tenant);
      assert ChargeIn(t.charges, tenant) == Sum(Bills(all, tenant));
    }
  }

  lemma {:induction false} CountsBound(tickets: map<nat, Ticket>, limit: nat)
    requires forall id | id in tickets :: |tickets[id].waiters| <= limit
    ensures Sum(WaiterCounts(tickets)) <= |tickets| * limit
    decreases |tickets|
  {
    hide Sum, WaiterCounts;
    if tickets == map[] {
      NothingCounts();
    } else {
      var id :| id in tickets;
      CountsRemove(tickets, id);
      CountsBound(tickets - {id}, limit);
      assert (|tickets| - 1) * limit + limit == |tickets| * limit;
    }
  }

  lemma NothingCounts()
    ensures Sum(WaiterCounts(map[])) == 0
  {
    assert WaiterCounts(map[]) == map[];
    SumOfNone();
  }

  /** Among the tables of the protocol the validator accepts exactly those without a lost read. */
  lemma AcceptedExactly(t: Table, issued: set<HashResult>)
    requires Invariant(t) && WorkersFit(t, issued)
    ensures Accepted(t) <==> LostReads(t.tickets) == {}
  {
    hide Held, Linked, Asked, Billed, AllWaiters, Sum, StateFits, TicketsFit, JobsRun, OnePlace, Load, WaitersAccepted, StateAccepted, ChargesAccepted;
    hide Lengths, Originals, Cancels, HashHolders, Waiting, Occupied, ActiveHolders, ActiveSlots, WaiterCounts;
    Conservation(t, 0);
    ChargesAre(t);
    forall id | id in t.tickets
      ensures WaitersAccepted(t, id) && |t.tickets[id].waiters| <= t.config.maxWaiters
      ensures StateAccepted(t, id) <==> id !in LostReads(t.tickets)
    {
      TicketAccepted(t, id);
      WaitersBound(t, id);
    }
    CountsBound(t.tickets, t.config.maxWaiters);
  }

  lemma WaitersBound(t: Table, id: nat)
    requires Invariant(t) && id in t.tickets
    ensures |t.tickets[id].waiters| <= t.config.maxWaiters
  {
    assert WaitersFit(t.config, t.tickets[id]);
  }

  /** After the pool has failed the validator accepts the table exactly when no read was in flight. */
  lemma PoolFailureAcceptedExactly(t: Table, issued: set<HashResult>)
    requires Invariant(t) && WorkersFit(t, issued) && t.workers.Some?
    ensures Accepted(FailPool(t).table) <==> Originals(t.tickets) == {}
  {
    hide Invariant, Accounts, FailPool, FailedAll, Accepted, LostReads, Originals, JobsRun, OnePlace, Load;
    var u := FailPool(t).table;
    PoolFails(t);
    PoolFailureKeeps(t);
    PoolFailureLoses(t);
    FailedFrame(t, u);
    SameLoad(t.workers.value);
    AcceptedExactly(u, issued);
  }

  /** After any run from a new table the validator accepts exactly when the pool has not failed in it
      while a read was in flight. */
  lemma RunsAreAcceptedExactly(decode: (ExtentRecord, Bytes) -> bool, c: Config, ops: seq<Operation>)
    requires ConfigFits(c)
    ensures Accepted(Run(decode, NewSystem(c), ops).table) <==> SafeRun(decode, NewSystem(c), ops)
  {
    hide Invariant, WorkersFit, Run, SafeRun, Accepted, LostReads;
    NewIsConsistent(decode, c);
    RunsAreConsistent(decode, c, ops);
    NoneLostYet(c);
    RunLoses(decode, NewSystem(c), ops);
    AcceptedExactly(Run(decode, NewSystem(c), ops).table, Run(decode, NewSystem(c), ops).issued);
  }

  lemma NoneLostYet(c: Config)
    ensures LostReads(NewTable(c).tickets) == {}
  {
  }

  /** Once a read is lost the validator rejects the table in every continuation. */
  lemma Rejected(decode: (ExtentRecord, Bytes) -> bool, s: System, ops: seq<Operation>, id: nat)
    requires Consistent(decode, s) && Lost(s.table.tickets, id)
    ensures !Accepted(Run(decode, s, ops).table)
  {
    hide Invariant, WorkersFit, Run, Accepted, Lost;
    LostForever(decode, s, ops, id, ExactRead);
    RunKeepsConsistent(decode, s, ops);
    var u := Run(decode, s, ops);
    assert id in LostReads(u.table.tickets);
    AcceptedExactly(u.table, u.issued);
  }
}
