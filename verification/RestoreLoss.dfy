/** Which reads are lost: exactly those in flight when the checksum pool fails, and for good. */
module RestoreLoss {
  import opened Collections
  import opened Octets
  import opened RestoreModel
  import opened RestoreInvariant
  import opened RestoreCompletions
  import opened RestoreAdmissions
  import opened RestoreSubmissions
  import opened RestoreCancellations
  import opened RestorePool
  import opened RestoreSystem
  import opened RestoreChecksums
  import opened RestoreThreads
  import opened RestoreRuns
  import B = DirectBuffers

  /** The reads that are lost after a step of the system. */
  function LostAfter(t: Table, op: Operation): set<nat> {
    if FailsPool(t, op) then Originals(t.tickets) else LostReads(t.tickets)
  }

  // ---------------------------------------------------------------- steps on one ticket

  lemma QuietLoses(t: Table, u: Table, id: nat)
    requires Apart(t, u, id) && Quiet(t, u, id)
    ensures LostReads(u.tickets) == LostReads(t.tickets)
  {
    ApartLoses(t, u, id);
  }

  lemma ApartLoses(t: Table, u: Table, id: nat)
    requires Apart(t, u, id) && (Lost(u.tickets, id) <==> Lost(t.tickets, id))
    ensures LostReads(u.tickets) == LostReads(t.tickets)
  {
    hide HeldSlot;
    forall k ensures k in LostReads(u.tickets) <==> k in LostReads(t.tickets) {
    }
  }

  lemma CallerLoses(decode: (ExtentRecord, Bytes) -> bool, s: System, op: Operation)
    requires Invariant(s.table) && (op.Plans? || op.Reserves? || op.Submits? || op.Copies? || op.CancelsWaiter?)
    ensures LostReads(Apply(decode, s, op).table.tickets) == LostReads(s.table.tickets)
  {
    hide Invariant, Apart, Quiet, Plan, ReserveBuffer, SubmitRead, CopyIntoDestination, CancelWaiter, LostReads;
    var t := s.table;
    match op {
      case Plans(request, record, epoch, catalog) =>
        PlanKeeps(t, request, record, epoch, catalog);
        var o := Plan(t, request, record, epoch, catalog);
        if o.result.Ok? {
          QuietLoses(t, o.table, o.result.value.ticket);
        }
      case Reserves(id) =>
        ReserveKeeps(t, id);
        QuietLoses(t, ReserveBuffer(t, id).table, id);
      case Submits(id) =>
        SubmitKeeps(t, id);
        if SubmitRead(t, id).result.Ok? {
          ApartLoses(t, SubmitRead(t, id).table, id);
        }
      case Copies(id, offset, source) =>
        CopyKeeps(t, id, offset, source);
      case CancelsWaiter(waiter, async) =>
        CancelKeeps(t, waiter, async);
        if waiter in t.requests {
          QuietLoses(t, CancelWaiter(t, waiter, async).table, t.requests[waiter]);
        }
    }
  }

  lemma CompletionLoses(t: Table, id: nat, completion: ReadCompletion)
    requires Invariant(t)
    ensures LostReads(CompleteOriginal(t, id, completion).table.tickets) == LostReads(t.tickets)
    ensures LostReads(CompleteCancel(t, id).table.tickets) == LostReads(t.tickets)
    ensures LostReads(FinishDelivery(t, id).table.tickets) == LostReads(t.tickets)
  {
    hide Invariant, Apart, Quiet, CompleteOriginal, CompleteCancel, FinishDelivery, LostReads, Sorted;
    CompleteOriginalKeeps(t, id, completion);
    CompleteCancelKeeps(t, id);
    DeliveryKeeps(t, id);
    if CompleteOriginal(t, id, completion).result.Ok? {
      QuietLoses(t, CompleteOriginal(t, id, completion).table, id);
    }
    if CompleteCancel(t, id).result.Ok? {
      QuietLoses(t, CompleteCancel(t, id).table, id);
    }
    if FinishDelivery(t, id).result.Ok? {
      QuietLoses(t, FinishDelivery(t, id).table, id);
    }
  }

  lemma ChecksumLoses(t: Table, result: HashResult)
    requires Invariant(t)
    ensures LostReads(NextHashJob(t).table.tickets) == LostReads(t.tickets)
    ensures LostReads(CompleteHash(t, result).table.tickets) == LostReads(t.tickets)
  {
    hide Invariant, Apart, NextHashJob, CompleteHash, LostReads, Least;
    NextHashKeeps(t);
    var o := NextHashJob(t);
    if o.result.Ok? && o.result.value.Some? {
      ApartLoses(t, o.table, o.result.value.value.ticket);
    } else {
      NothingTaken(t);
    }
    if RunningJob(t, result.job) {
      HashEffect(t, result);
      ApartLoses(t, CompleteHash(t, result).table, result.job.ticket);
    } else {
      NotRunning(t, result);
    }
  }

  lemma NothingTaken(t: Table)
    requires NextHashJob(t).result.Ok? ==> NextHashJob(t).result.value.None?
    ensures NextHashJob(t).table == t
  {
  }

  // ---------------------------------------------------------------- the pool

  lemma DispatchLoses(decode: (ExtentRecord, Bytes) -> bool, s: System)
    requires Consistent(decode, s)
    ensures LostReads(DispatchChecksum(s.table).table.tickets) == LostAfter(s.table, Dispatches)
  {
    hide Consistent, Invariant, Accounts, FailedAll, Apart, FailPool, Least, B.HashBuffer, LostReads, Originals, DispatchChecksum;
    var t := s.table;
    InvariantOf(decode, s);
    if t.workers.Some? && !t.workers.value.failed && QueuedTickets(t) != {} {
      var id := Least(QueuedTickets(t));
      RunningKeeps(t, id);
      PoolFails(t);
      PoolFailureLoses(t);
      ApartLoses(t, Running(t, id), id);
      DispatchTickets(t, id);
    } else {
      NothingDispatched(t);
    }
  }

  lemma DispatchTickets(t: Table, id: nat)
    requires t.workers.Some? && !t.workers.value.failed && QueuedTickets(t) != {} && id == Least(QueuedTickets(t))
    requires AwaitsHash(t.tickets[id]) && t.tickets[id].buffer.Some? && B.HashBuffer(t.buffers, t.tickets[id].buffer.value).Ok?
    requires FailPool(t).result == Ok(())
    ensures var tickets := DispatchChecksum(t).table.tickets;
            if AllExited(t.workers.value) then tickets == FailPool(t).table.tickets
            else tickets == t.tickets || tickets == Running(t, id).tickets
  {
    hide FailPool, Least, B.HashBuffer, AllExited;
  }

  lemma NothingDispatched(t: Table)
    requires t.workers.None? || t.workers.value.failed || QueuedTickets(t) == {}
    ensures DispatchChecksum(t).table == t
  {
  }

  lemma PollLoses(decode: (ExtentRecord, Bytes) -> bool, s: System)
    requires Consistent(decode, s)
    ensures LostReads(PollChecksum(s.table).table.tickets) == LostAfter(s.table, Polls)
  {
    hide Consistent, Invariant, Accounts, FailedAll, FailPool, LostReads, Originals;
    var t := s.table;
    InvariantOf(decode, s);
    if t.workers.Some? && !t.workers.value.failed {
      var w := t.workers.value;
      if w.completions == [] {
        if AllExited(w) {
          PoolFails(t);
          PoolFailureLoses(t);
        }
      } else if w.completions[0].outcome.Verified? {
        Polled(decode, s);
      } else {
        PanicPolled(decode, s);
        var u := t.(workers := Some(w.(completions := w.completions[1..])));
        WorkersDoNotMatter(t, u);
        PoolFailureLoses(u);
      }
    }
  }

  // ---------------------------------------------------------------- steps and runs

  /** A step that fails the pool loses exactly the reads in flight; no other step loses a read, and
      none gets a lost one back. */
  lemma StepLoses(decode: (ExtentRecord, Bytes) -> bool, s: System, op: Operation)
    requires Consistent(decode, s)
    ensures LostReads(Apply(decode, s, op).table.tickets) == LostAfter(s.table, op)
  {
    hide Consistent, Invariant, Apply, LostReads, Originals;
    InvariantOf(decode, s);
    if op.Plans? || op.Reserves? || op.Submits? || op.Copies? || op.CancelsWaiter? {
      CallerLoses(decode, s, op);
    } else if op.Dispatches? || op.Polls? {
      PoolLoses(decode, s, op);
    } else if op.CompletesRead? || op.CompletesCancel? || op.Delivers? || op.TakesJob? || op.CompletesHash? {
      TicketLoses(decode, s, op);
    } else {
      PoolKeepsTickets(decode, s, op);
    }
  }

  lemma PoolLoses(decode: (ExtentRecord, Bytes) -> bool, s: System, op: Operation)
    requires Consistent(decode, s) && (op.Dispatches? || op.Polls?)
    ensures LostReads(Apply(decode, s, op).table.tickets) == LostAfter(s.table, op)
  {
    hide Consistent, LostReads, LostAfter, DispatchChecksum, PollChecksum;
    if op.Dispatches? {
      DispatchLoses(decode, s);
    } else {
      PollLoses(decode, s);
    }
  }

  lemma TicketLoses(decode: (ExtentRecord, Bytes) -> bool, s: System, op: Operation)
    requires Invariant(s.table)
    requires op.CompletesRead? || op.CompletesCancel? || op.Delivers? || op.TakesJob? || op.CompletesHash?
    ensures LostReads(Apply(decode, s, op).table.tickets) == LostReads(s.table.tickets)
  {
    hide Invariant, CompleteOriginal, CompleteCancel, NextHashJob, CompleteHash, FinishDelivery, LostReads, Spends;
    var t := s.table;
    match op {
      case CompletesRead(id, completion) => CompletionLoses(t, id, completion);
      case CompletesCancel(id) => CompletionLoses(t, id, ExactRead);
      case Delivers(id) => CompletionLoses(t, id, ExactRead);
      case TakesJob => ChecksumLoses(t, HashResult(HashJob(0, B.BufferId(0, 0)), false));
      case CompletesHash(result) => ChecksumLoses(t, result);
    }
  }

  lemma PoolKeepsTickets(decode: (ExtentRecord, Bytes) -> bool, s: System, op: Operation)
    requires op.Starts? || op.ShutsDown? || op.RunsJob? || op.WorkerTake? || op.WorkerVerify? || op.WorkerSend?
    ensures Apply(decode, s, op).table.tickets == s.table.tickets
  {
    hide Decodes, RunHashJob, SetThread;
  }

  /** A lost read stays lost in every run: its ticket never ends and its completion is always refused. */
  lemma {:induction false} LostForever(decode: (ExtentRecord, Bytes) -> bool, s: System, ops: seq<Operation>, id: nat, completion: ReadCompletion)
    requires Consistent(decode, s) && Lost(s.table.tickets, id)
    ensures var t := Run(decode, s, ops).table;
            && Lost(t.tickets, id) && CompleteOriginal(t, id, completion) == Fail(t, DuplicateCompletion)
            && RemoveTicket(t, id) == Fail(t, CompletionOutstanding)
  {
    hide Consistent, Apply, FailsPool, RemoveTicket;
    if ops != [] {
      var before, op := Run(decode, s, ops[..|ops| - 1]), ops[|ops| - 1];
      LostForever(decode, s, ops[..|ops| - 1], id, completion);
      RunKeepsConsistent(decode, s, ops[..|ops| - 1]);
      StepLoses(decode, before, op);
      assert id in LostReads(before.table.tickets) && id in Originals(before.table.tickets);
      assert id in LostReads(Apply(decode, before, op).table.tickets);
    }
    LostIsStuck(Run(decode, s, ops).table, id, completion);
  }

  lemma LostIsStuck(t: Table, id: nat, completion: ReadCompletion)
    requires Lost(t.tickets, id)
    ensures CompleteOriginal(t, id, completion) == Fail(t, DuplicateCompletion)
    ensures RemoveTicket(t, id) == Fail(t, CompletionOutstanding)
  {
  }

  /** A run has lost a read exactly when the pool has failed in it while a read was in flight. */
  lemma {:induction false} RunLoses(decode: (ExtentRecord, Bytes) -> bool, s: System, ops: seq<Operation>)
    requires Consistent(decode, s) && LostReads(s.table.tickets) == {}
    ensures LostReads(Run(decode, s, ops).table.tickets) == {} <==> SafeRun(decode, s, ops)
  {
    hide Consistent, Apply, FailsPool, LostReads, Originals;
    if ops != [] {
      var before, op := Run(decode, s, ops[..|ops| - 1]), ops[|ops| - 1];
      RunLoses(decode, s, ops[..|ops| - 1]);
      RunKeepsConsistent(decode, s, ops[..|ops| - 1]);
      StepLoses(decode, before, op);
      LostIsOriginal(before.table.tickets);
    }
  }

  lemma LostIsOriginal(tickets: map<nat, Ticket>)
    ensures LostReads(tickets) <= Originals(tickets)
  {
  }
}
