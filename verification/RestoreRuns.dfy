/** Whole runs of the restore table, its callers and its workers. */
module RestoreRuns {
  import opened Collections
  import opened Octets
  import opened RestoreModel
  import opened RestoreInvariant
  import opened RestorePool
  import opened RestoreWorkers
  import opened RestoreIntegrity
  import opened RestoreTokens
  import opened RestoreSystem
  import opened RestoreChecksums
  import opened RestoreThreads
  import B = DirectBuffers
  import D = DirectDescriptors

  datatype Operation =
    | Plans(request: Request, record: ExtentRecord, epoch: nat, catalog: nat)
    | Reserves(id: nat)
    | Submits(id: nat)
    | Copies(id: nat, offset: nat, source: Bytes)
    | CancelsWaiter(waiter: nat, async: bool)
    | CompletesRead(id: nat, completion: ReadCompletion)
    | CompletesCancel(id: nat)
    | Starts(count: nat)
    | Dispatches
    | Polls
    | ShutsDown
    | TakesJob
    | RunsJob(job: HashJob)
    | CompletesHash(result: HashResult)
    | Delivers(id: nat)
    | WorkerTake(worker: nat)
    | WorkerVerify(worker: nat, panics: bool)
    | WorkerSend(worker: nat)

  /** One step of a caller or of a worker. A caller completes a checksum only with a result it was given. */
  function Apply(decode: (ExtentRecord, Bytes) -> bool, s: System, op: Operation): System {
    var t := s.table;
    match op
    case Plans(request, record, epoch, catalog) => s.(table := Plan(t, request, record, epoch, catalog).table)
    case Reserves(id) => s.(table := ReserveBuffer(t, id).table)
    case Submits(id) => s.(table := SubmitRead(t, id).table)
    case Copies(id, offset, source) => s.(table := CopyIntoDestination(t, id, offset, source).table)
    case CancelsWaiter(waiter, async) => s.(table := CancelWaiter(t, waiter, async).table)
    case CompletesRead(id, completion) =>
      var o := CompleteOriginal(t, id, completion);
      s.(table := o.table, completed := s.completed + Spends(o.result.Ok?, t, id, false))
    case CompletesCancel(id) =>
      var o := CompleteCancel(t, id);
      s.(table := o.table, completed := s.completed + Spends(o.result.Ok?, t, id, true))
    case Starts(count) => s.(table := StartWorkers(t, count).table)
    case Dispatches => s.(table := DispatchChecksum(t).table)
    case Polls =>
      var o := PollChecksum(t);
      s.(table := o.table, issued := s.issued + (if o.result.Ok? && o.result.value.Some? then {o.result.value.value} else {}))
    case ShutsDown => s.(table := ShutdownWorkers(t).table)
    case TakesJob => s.(table := NextHashJob(t).table)
    case RunsJob(job) =>
      s.(issued := s.issued + (if RunHashJob(decode, t, job).Ok? then {RunHashJob(decode, t, job).value} else {}))
    case CompletesHash(result) => if result in s.issued then s.(table := CompleteHash(t, result).table) else s
    case Delivers(id) => s.(table := FinishDelivery(t, id).table)
    case WorkerTake(worker) => s.(table := WorkerTakes(t, worker))
    case WorkerVerify(worker, panics) => s.(table := WorkerVerifies(decode, t, worker, panics))
    case WorkerSend(worker) => s.(table := WorkerSends(t, worker))
  }

  /** The token a successful completion spends. */
  function Spends(ok: bool, t: Table, id: nat, cancel: bool): set<D.Token> {
    if !ok || id !in t.tickets then {}
    else
      var token := if cancel then t.tickets[id].cancelToken else t.tickets[id].originalToken;
      if token.Some? then {token.value} else {}
  }

  function Run(decode: (ExtentRecord, Bytes) -> bool, s: System, ops: seq<Operation>): System {
    if ops == [] then s else Apply(decode, Run(decode, s, ops[..|ops| - 1]), ops[|ops| - 1])
  }

  /** The operation makes the checksum pool fail: a worker panicked, or all of them are gone. */
  predicate FailsPool(t: Table, op: Operation) {
    && t.workers.Some? && !t.workers.value.failed
    && var w := t.workers.value;
    || (op.Dispatches? && QueuedTickets(t) != {} && AllExited(w))
    || (op.Polls? && (if w.completions == [] then AllExited(w) else w.completions[0].outcome.Panicked?))
  }

  /** The pool does not fail while a read is in flight. */
  predicate Safe(t: Table, op: Operation) {
    FailsPool(t, op) ==> Originals(t.tickets) == {}
  }

  ghost predicate SafeRun(decode: (ExtentRecord, Bytes) -> bool, s: System, ops: seq<Operation>) {
    ops == [] || (SafeRun(decode, s, ops[..|ops| - 1]) && Safe(Run(decode, s, ops[..|ops| - 1]).table, ops[|ops| - 1]))
  }

  // ---------------------------------------------------------------- one step

  lemma DispatchStep(decode: (ExtentRecord, Bytes) -> bool, s: System)
    requires Consistent(decode, s)
    ensures Consistent(decode, s.(table := DispatchChecksum(s.table).table))
    ensures DispatchChecksum(s.table).result != Err(WorkerWait)
  {
    hide Consistent, FailPool, Least, B.HashBuffer;
    var t := s.table;
    assert s.(table := t) == s;
    if t.workers.Some? && !t.workers.value.failed && QueuedTickets(t) != {} {
      var id := Least(QueuedTickets(t));
      Dispatched(decode, s, id);
      if AllExited(t.workers.value) {
        PoolFailureStep(decode, s);
      }
    }
  }

  lemma PollStep(decode: (ExtentRecord, Bytes) -> bool, s: System)
    requires Consistent(decode, s)
    ensures Consistent(decode, Apply(decode, s, Polls))
  {
    hide Consistent, FailPool;
    var t := s.table;
    assert System(t, s.issued + {}, s.completed) == s;
    if t.workers.Some? && !t.workers.value.failed {
      var w := t.workers.value;
      if w.completions == [] {
        if AllExited(w) {
          PoolFailureStep(decode, s);
        }
      } else if w.completions[0].outcome.Verified? {
        Polled(decode, s);
      } else {
        PanicPolled(decode, s);
      }
    }
  }

  /** A polled panic: its completion is gone and the pool has failed. */
  lemma PanicPolled(decode: (ExtentRecord, Bytes) -> bool, s: System)
    requires Consistent(decode, s) && s.table.workers.Some? && !s.table.workers.value.failed
    requires s.table.workers.value.completions != []
    ensures var t, w := s.table, s.table.workers.value;
            var u := t.(workers := Some(w.(completions := w.completions[1..])));
            && RunningJob(t, w.completions[0].job)
            && FailPool(u).result == Ok(()) && Consistent(decode, s.(table := FailPool(u).table))
  {
    hide Invariant, TokenSpent, Accounts, Load, Proven, FailPool, FailedAll;
    var t, w := s.table, s.table.workers.value;
    var v := w.(completions := w.completions[1..]);
    var u := t.(workers := Some(v));
    PollTakesLoad(w);
    WorkersDoNotMatter(t, u);
    PoolFails(u);
    PoolFailureKeeps(u);
    SameLoad(v);
    var x := FailPool(u).table;
    FailedFrame(u, x);
    assert t.(workers := x.workers) == u.(workers := x.workers);
    FailedIsSound(decode, t, x, s.issued);
    AccountsOf(t);
    forall token | token in s.completed ensures TokenSpent(x, token) {
      FailureSpends(t, x, token);
    }
  }

  /** Every step keeps the system consistent. */
  lemma StepKeepsConsistent(decode: (ExtentRecord, Bytes) -> bool, s: System, op: Operation)
    requires Consistent(decode, s)
    ensures Consistent(decode, Apply(decode, s, op))
  {
    hide Consistent, Plan, ReserveBuffer, SubmitRead, CopyIntoDestination, CancelWaiter, CompleteOriginal, CompleteCancel;
    hide StartWorkers, DispatchChecksum, PollChecksum, ShutdownWorkers, NextHashJob, RunHashJob, CompleteHash, FinishDelivery;
    hide WorkerTakes, WorkerVerifies, WorkerSends, FailsPool;
    assert s.(table := s.table, completed := s.completed + {}) == s && s.(issued := s.issued + {}) == s;
    match op {
      case Plans(request, record, epoch, catalog) => PlanStep(decode, s, request, record, epoch, catalog);
      case Reserves(id) => ReserveStep(decode, s, id);
      case Submits(id) => SubmitStep(decode, s, id);
      case Copies(id, offset, source) => CopyStep(decode, s, id, offset, source);
      case CancelsWaiter(waiter, async) => CancelStep(decode, s, waiter, async);
      case CompletesRead(id, completion) => OriginalStep(decode, s, id, completion);
      case CompletesCancel(id) => CancelledStep(decode, s, id);
      case Starts(count) => StartStep(decode, s, count);
      case Dispatches => DispatchStep(decode, s);
      case Polls => PollStep(decode, s);
      case ShutsDown => ShutdownStep(decode, s);
      case TakesJob => NextStep(decode, s);
      case RunsJob(job) =>
        if RunHashJob(decode, s.table, job).Ok? {
          RunStep(decode, s, job);
        }
      case CompletesHash(result) =>
        if result in s.issued {
          ResultStep(decode, s, result);
        }
      case Delivers(id) => DeliveryStep(decode, s, id);
      case WorkerTake(worker) => TakeStep(decode, s, worker);
      case WorkerVerify(worker, panics) => VerifyStep(decode, s, worker, panics);
      case WorkerSend(worker) => SendStep(decode, s, worker);
    }
  }

  lemma {:induction false} RunKeepsConsistent(decode: (ExtentRecord, Bytes) -> bool, s: System, ops: seq<Operation>)
    requires Consistent(decode, s)
    ensures Consistent(decode, Run(decode, s, ops))
  {
    hide Consistent, Apply;
    if ops != [] {
      RunKeepsConsistent(decode, s, ops[..|ops| - 1]);
      StepKeepsConsistent(decode, Run(decode, s, ops[..|ops| - 1]), ops[|ops| - 1]);
    }
  }
}
