/** The checksum pool makes progress: whatever the schedule, every running job is answered or the pool fails. */
module RestoreProgress {
  import opened Collections
  import opened Octets
  import opened RestoreModel
  import opened RestoreInvariant
  import opened RestorePool
  import opened RestoreWorkers
  import opened RestoreSystem
  import opened RestoreChecksums
  import opened RestoreThreads
  import opened RestoreRuns

  /** The steps that move checksum jobs: those of the workers, and polling. */
  predicate MovesJobs(op: Operation) {
    op.Polls? || op.WorkerTake? || op.WorkerVerify? || op.WorkerSend?
  }

  predicate PoolRuns(t: Table) {
    t.workers.Some? && !t.workers.value.failed
  }

  // ---------------------------------------------------------------- the work left

  function Labour(w: Worker): nat {
    match w
    case Hashing(_) => 3
    case Sending(_) => 2
    case _ => 0
  }

  function Labours(threads: seq<Worker>): nat {
    if threads == [] then 0 else Labours(threads[..|threads| - 1]) + Labour(threads[|threads| - 1])
  }

  /** The steps that the jobs in the pool still have to take until they are polled. */
  function WorkLeft(w: Workers): nat {
    4 * |w.commands| + Labours(w.threads) + |w.completions|
  }

  lemma {:induction false} LabourChanges(threads: seq<Worker>, i: nat, w: Worker)
    requires i < |threads|
    ensures Labours(threads[i := w]) + Labour(threads[i]) == Labours(threads) + Labour(w)
    decreases |threads|
  {
    var front := threads[..|threads| - 1];
    if i < |threads| - 1 {
      LabourChanges(front, i, w);
      assert threads[i := w][..|threads| - 1] == front[i := w];
    } else {
      assert threads[i := w][..|threads| - 1] == front;
    }
  }

  predicate LessWork(t: Table, u: Table)
    requires PoolRuns(t)
  {
    PoolRuns(u) && (u != t ==> WorkLeft(u.workers.value) < WorkLeft(t.workers.value))
  }

  lemma TakingIsWork(t: Table, i: nat)
    requires PoolRuns(t)
    ensures LessWork(t, WorkerTakes(t, i))
  {
    hide Labours;
    var w := t.workers.value;
    if i < |w.threads| && w.threads[i].Idle? && w.commands != [] {
      LabourChanges(w.threads, i, Hashing(w.commands[0]));
    }
  }

  lemma VerifyingIsWork(decode: (ExtentRecord, Bytes) -> bool, t: Table, i: nat, panics: bool)
    requires PoolRuns(t)
    ensures LessWork(t, WorkerVerifies(decode, t, i, panics))
  {
    hide Labours, Decodes;
    var u := WorkerVerifies(decode, t, i, panics);
    if u != t {
      LabourChanges(t.workers.value.threads, i, u.workers.value.threads[i]);
    }
  }

  lemma SendingIsWork(t: Table, i: nat)
    requires PoolRuns(t)
    ensures LessWork(t, WorkerSends(t, i))
  {
    hide Labours;
    var u := WorkerSends(t, i);
    if u != t {
      LabourChanges(t.workers.value.threads, i, u.workers.value.threads[i]);
    }
  }

  lemma PollSteps(decode: (ExtentRecord, Bytes) -> bool, s: System)
    requires Consistent(decode, s) && PoolRuns(s.table)
    ensures var u := Apply(decode, s, Polls);
            && u.table.workers.Some?
            && (u == s || u.table.workers.value.failed || WorkLeft(u.table.workers.value) < WorkLeft(s.table.workers.value))
            && (s.table.workers.value.completions != [] || AllExited(s.table.workers.value) ==> u != s)
  {
    hide Consistent, Invariant, Accounts, FailedAll, FailPool, Labours;
    var t, w := s.table, s.table.workers.value;
    InvariantOf(decode, s);
    if w.completions == [] {
      if AllExited(w) {
        PoolFails(t);
      } else {
        assert System(t, s.issued + {}, s.completed) == s;
      }
    } else if w.completions[0].outcome.Verified? {
      Polled(decode, s);
    } else {
      PanicPolled(decode, s);
      var u := t.(workers := Some(w.(completions := w.completions[1..])));
      WorkersDoNotMatter(t, u);
      PoolFails(u);
    }
  }

  /** Every step that moves a job leaves less work, or fails the pool. */
  lemma StepsUseWork(decode: (ExtentRecord, Bytes) -> bool, s: System, op: Operation)
    requires Consistent(decode, s) && PoolRuns(s.table) && MovesJobs(op) && Apply(decode, s, op) != s
    ensures var u := Apply(decode, s, op).table;
            u.workers.Some? && (u.workers.value.failed || WorkLeft(u.workers.value) < WorkLeft(s.table.workers.value))
  {
    hide Consistent, PollChecksum, WorkerTakes, WorkerVerifies, WorkerSends, WorkLeft;
    match op {
      case Polls => PollSteps(decode, s);
      case WorkerTake(i) => TakingIsWork(s.table, i);
      case WorkerVerify(i, panics) => VerifyingIsWork(decode, s.table, i, panics);
      case WorkerSend(i) => SendingIsWork(s.table, i);
    }
  }

  // ---------------------------------------------------------------- something can always happen

  /** While a running job has no answer, some step moves a job. */
  lemma SomeStepMoves(decode: (ExtentRecord, Bytes) -> bool, s: System, id: nat) returns (op: Operation)
    requires Consistent(decode, s) && PoolRuns(s.table) && RunningTicket(s.table, id) && !Answered(s.issued, id)
    ensures MovesJobs(op) && Apply(decode, s, op) != s
  {
    hide Consistent, PollChecksum, WorkerTakes, WorkerVerifies, WorkerSends;
    var t, w := s.table, s.table.workers.value;
    if w.completions != [] || AllExited(w) {
      op := Polls;
      PollSteps(decode, s);
    } else if i: nat :| i < |w.threads| && w.threads[i].Hashing? {
      op := WorkerVerify(i, false);
      BusyMoves(decode, t, i);
    } else if i: nat :| i < |w.threads| && w.threads[i].Sending? {
      op := WorkerSend(i);
      NoSendBlocks(decode, s, i);
      BusyMoves(decode, t, i);
    } else {
      JobWaits(decode, s, id);
      var i: nat :| i < |w.threads| && !w.threads[i].Exited?;
      assert w.threads[i].Idle?;
      op := WorkerTake(i);
      IdleMoves(t, i);
    }
  }

  lemma NoSendBlocks(decode: (ExtentRecord, Bytes) -> bool, s: System, i: nat)
    requires Consistent(decode, s)
    ensures !SendBlocks(s.table, i)
  {
    SendNeverBlocks(s.table, s.issued, i);
  }

  lemma BusyMoves(decode: (ExtentRecord, Bytes) -> bool, t: Table, i: nat)
    requires PoolRuns(t) && i < |t.workers.value.threads| && !SendBlocks(t, i)
    ensures t.workers.value.threads[i].Hashing? ==> WorkerVerifies(decode, t, i, false) != t
    ensures t.workers.value.threads[i].Sending? ==> WorkerSends(t, i) != t
  {
    hide Decodes;
    var w := t.workers.value;
    if w.threads[i].Hashing? {
      assert WorkerVerifies(decode, t, i, false).workers.value.threads[i].Sending?;
    }
    if w.threads[i].Sending? {
      assert !WorkerSends(t, i).workers.value.threads[i].Sending?;
    }
  }

  lemma IdleMoves(t: Table, i: nat)
    requires PoolRuns(t) && i < |t.workers.value.threads| && t.workers.value.threads[i].Idle? && t.workers.value.commands != []
    ensures WorkerTakes(t, i) != t
  {
    assert WorkerTakes(t, i).workers.value.threads[i].Hashing?;
  }

  /** With idle workers and no completion, an unanswered job is in the command queue. */
  lemma JobWaits(decode: (ExtentRecord, Bytes) -> bool, s: System, id: nat)
    requires Consistent(decode, s) && PoolRuns(s.table) && RunningTicket(s.table, id) && !Answered(s.issued, id)
    requires s.table.workers.value.completions == []
    requires forall i | 0 <= i < |s.table.workers.value.threads| :: JobOf(s.table.workers.value.threads[i]).None?
    ensures s.table.workers.value.commands != []
  {
    hide Invariant, Accounts, JobsRun, Tickets, Answered;
    var w := s.table.workers.value;
    assert id in Load(w);
    assert Completed(w) == [];
    NoJobs(Completed(w));
    NoJobs(Worked(w));
    var i := TicketsFrom(Commanded(w), id);
  }

  lemma {:induction false} NoJobs(jobs: seq<Option<HashJob>>)
    requires forall i | 0 <= i < |jobs| :: jobs[i].None?
    ensures Tickets(jobs) == multiset{}
  {
    if jobs != [] {
      NoJobs(jobs[..|jobs| - 1]);
    }
  }

  // ---------------------------------------------------------------- schedules

  /** A schedule of the running pool: every step moves a job. */
  ghost predicate Works(decode: (ExtentRecord, Bytes) -> bool, s: System, ops: seq<Operation>) {
    ops == [] ||
    (&& Works(decode, s, ops[..|ops| - 1]) && MovesJobs(ops[|ops| - 1])
     && var t := Run(decode, s, ops[..|ops| - 1]);
     PoolRuns(t.table) && Apply(decode, t, ops[|ops| - 1]) != t)
  }

  lemma {:induction false} SchedulesUseWork(decode: (ExtentRecord, Bytes) -> bool, s: System, ops: seq<Operation>)
    requires Consistent(decode, s) && PoolRuns(s.table) && Works(decode, s, ops)
    ensures Consistent(decode, Run(decode, s, ops)) && Run(decode, s, ops).table.workers.Some?
    ensures var w := Run(decode, s, ops).table.workers.value;
            if w.failed then |ops| <= WorkLeft(s.table.workers.value) + 1
            else |ops| + WorkLeft(w) <= WorkLeft(s.table.workers.value)
  {
    hide Consistent, Apply, WorkLeft;
    if ops != [] {
      var before, op := Run(decode, s, ops[..|ops| - 1]), ops[|ops| - 1];
      SchedulesUseWork(decode, s, ops[..|ops| - 1]);
      StepsUseWork(decode, before, op);
      StepKeepsConsistent(decode, before, op);
    }
  }

  /** Liveness of the pool. No schedule moves jobs for longer than the work there is; and when no step
      moves a job any more, the pool has failed or every running job has been answered. */
  lemma JobsAreAnswered(decode: (ExtentRecord, Bytes) -> bool, s: System, ops: seq<Operation>)
    requires Consistent(decode, s) && PoolRuns(s.table) && Works(decode, s, ops)
    ensures |ops| <= WorkLeft(s.table.workers.value) + 1
    ensures var u := Run(decode, s, ops);
            || !PoolRuns(u.table)
            || (exists op :: MovesJobs(op) && Apply(decode, u, op) != u)
            || (forall id | RunningTicket(u.table, id) :: Answered(u.issued, id))
  {
    hide Consistent, Apply, Run, Works, WorkLeft, Answered;
    SchedulesUseWork(decode, s, ops);
    var u := Run(decode, s, ops);
    if PoolRuns(u.table) {
      if id :| RunningTicket(u.table, id) && !Answered(u.issued, id) {
        var op := SomeStepMoves(decode, u, id);
      }
    }
  }
}
