/** The checksum workers: every running job is in exactly one place, so no channel ever fills. */
module RestoreWorkers {
  import opened Collections
  import opened RestoreModel
  import opened RestoreInvariant

  // ---------------------------------------------------------------- where jobs are

  function JobOf(w: Worker): Option<HashJob> {
    match w
    case Hashing(task) => Some(task.job)
    case Sending(completion) => Some(completion.job)
    case _ => None
  }

  function Commanded(w: Workers): seq<Option<HashJob>> {
    seq(|w.commands|, i requires 0 <= i < |w.commands| => Some(w.commands[i].job))
  }

  function Worked(w: Workers): seq<Option<HashJob>> {
    seq(|w.threads|, i requires 0 <= i < |w.threads| => JobOf(w.threads[i]))
  }

  function Completed(w: Workers): seq<Option<HashJob>> {
    seq(|w.completions|, i requires 0 <= i < |w.completions| => Some(w.completions[i].job))
  }

  /** How often each ticket occurs. */
  function Tickets(jobs: seq<Option<HashJob>>): multiset<nat> {
    if jobs == [] then multiset{}
    else Tickets(jobs[..|jobs| - 1]) + (if jobs[|jobs| - 1].Some? then multiset{jobs[|jobs| - 1].value.ticket} else multiset{})
  }

  /** The tickets with a task in the command queue, at a worker or in the completion queue. */
  function Load(w: Workers): multiset<nat> {
    Tickets(Commanded(w)) + Tickets(Worked(w)) + Tickets(Completed(w))
  }

  function One(job: Option<HashJob>): multiset<nat> {
    if job.Some? then multiset{job.value.ticket} else multiset{}
  }

  lemma TicketsAppend(jobs: seq<Option<HashJob>>, job: Option<HashJob>)
    ensures Tickets(jobs + [job]) == Tickets(jobs) + One(job)
  {
    assert (jobs + [job])[..|jobs|] == jobs;
  }

  lemma {:induction false} TicketsTail(jobs: seq<Option<HashJob>>)
    requires jobs != []
    ensures Tickets(jobs) == One(jobs[0]) + Tickets(jobs[1..])
  {
    var front, last := jobs[..|jobs| - 1], jobs[|jobs| - 1];
    if |jobs| == 1 {
      assert jobs[1..] == [] && front == [];
    } else {
      TicketsTail(front);
      assert jobs[1..] == front[1..] + [last];
      TicketsAppend(front[1..], last);
    }
  }

  lemma Exchanges(a: multiset<nat>, b: multiset<nat>, l: multiset<nat>, x: multiset<nat>, y: multiset<nat>)
    requires a + x == b + y
    ensures (a + l) + x == (b + l) + y
  {
    assert (a + l) + x == (a + x) + l && (b + l) + y == (b + y) + l;
  }

  lemma {:induction false} TicketsUpdate(jobs: seq<Option<HashJob>>, i: nat, job: Option<HashJob>)
    requires i < |jobs|
    ensures Tickets(jobs[i := job]) + One(jobs[i]) == Tickets(jobs) + One(job)
    decreases |jobs|
  {
    hide Tickets, One;
    var front, last := jobs[..|jobs| - 1], jobs[|jobs| - 1];
    assert jobs == front + [last];
    TicketsAppend(front, last);
    if i == |jobs| - 1 {
      assert jobs[i := job] == front + [job];
      TicketsAppend(front, job);
      assert Tickets(front) + One(job) + One(last) == Tickets(front) + One(last) + One(job);
    } else {
      TicketsUpdate(front, i, job);
      assert jobs[i := job] == front[i := job] + [last];
      TicketsAppend(front[i := job], last);
      Exchanges(Tickets(front[i := job]), Tickets(front), One(last), One(jobs[i]), One(job));
    }
  }

  lemma {:induction false} TicketsHave(jobs: seq<Option<HashJob>>, i: nat)
    requires i < |jobs| && jobs[i].Some?
    ensures jobs[i].value.ticket in Tickets(jobs)
    decreases |jobs|
  {
    if i < |jobs| - 1 {
      TicketsHave(jobs[..|jobs| - 1], i);
    }
  }

  lemma {:induction false} TicketsFrom(jobs: seq<Option<HashJob>>, id: nat) returns (i: nat)
    requires id in Tickets(jobs)
    ensures i < |jobs| && jobs[i].Some? && jobs[i].value.ticket == id
    decreases |jobs|
  {
    if jobs[|jobs| - 1].Some? && jobs[|jobs| - 1].value.ticket == id {
      i := |jobs| - 1;
    } else {
      i := TicketsFrom(jobs[..|jobs| - 1], id);
    }
  }

  lemma {:induction false} TicketsSize(jobs: seq<Option<HashJob>>)
    ensures |Tickets(jobs)| <= |jobs|
    ensures (forall i | 0 <= i < |jobs| :: jobs[i].Some?) ==> |Tickets(jobs)| == |jobs|
  {
    if jobs != [] {
      var front := jobs[..|jobs| - 1];
      TicketsSize(front);
      assert (forall i | 0 <= i < |jobs| :: jobs[i].Some?) ==> forall i | 0 <= i < |front| :: front[i].Some?;
    }
  }

  // ---------------------------------------------------------------- moving jobs

  lemma TakeKeepsLoad(w: Workers, i: nat)
    requires i < |w.threads| && w.threads[i].Idle? && w.commands != []
    ensures Load(SetThread(w, i, Hashing(w.commands[0])).(commands := w.commands[1..])) == Load(w)
  {
    hide Tickets;
    var u := SetThread(w, i, Hashing(w.commands[0])).(commands := w.commands[1..]);
    assert Commanded(u) == Commanded(w)[1..];
    TicketsTail(Commanded(w));
    assert Worked(u) == Worked(w)[i := Some(w.commands[0].job)];
    TicketsUpdate(Worked(w), i, Some(w.commands[0].job));
    assert Tickets(Worked(u)) == Tickets(Worked(w)) + One(Commanded(w)[0]);
    assert Completed(u) == Completed(w);
  }

  lemma VerifyKeepsLoad(w: Workers, i: nat, completion: Completion)
    requires i < |w.threads| && w.threads[i].Hashing? && completion.job == w.threads[i].task.job
    ensures Load(SetThread(w, i, Sending(completion))) == Load(w)
  {
    hide Tickets;
    var u := SetThread(w, i, Sending(completion));
    assert Worked(u) == Worked(w);
    assert Commanded(u) == Commanded(w) && Completed(u) == Completed(w);
  }

  lemma SendKeepsLoad(w: Workers, i: nat, next: Worker)
    requires i < |w.threads| && w.threads[i].Sending? && JobOf(next).None?
    ensures Load(SetThread(w, i, next).(completions := w.completions + [w.threads[i].completion])) == Load(w)
  {
    hide Tickets;
    var u := SetThread(w, i, next).(completions := w.completions + [w.threads[i].completion]);
    assert Commanded(u) == Commanded(w);
    assert Worked(u) == Worked(w)[i := None];
    TicketsUpdate(Worked(w), i, None);
    assert Tickets(Worked(w)) == Tickets(Worked(u)) + One(Worked(w)[i]);
    assert Completed(u) == Completed(w) + [Some(w.threads[i].completion.job)];
    TicketsAppend(Completed(w), Some(w.threads[i].completion.job));
  }

  lemma CommandAddsLoad(w: Workers, task: Task)
    ensures Load(w.(commands := w.commands + [task])) == Load(w) + multiset{task.job.ticket}
  {
    hide Tickets;
    var u := w.(commands := w.commands + [task]);
    assert Commanded(u) == Commanded(w) + [Some(task.job)];
    TicketsAppend(Commanded(w), Some(task.job));
    assert Worked(u) == Worked(w) && Completed(u) == Completed(w);
  }

  lemma PollTakesLoad(w: Workers)
    requires w.completions != []
    ensures Load(w) == Load(w.(completions := w.completions[1..])) + multiset{w.completions[0].job.ticket}
  {
    hide Tickets;
    var u := w.(completions := w.completions[1..]);
    assert Completed(u) == Completed(w)[1..];
    TicketsTail(Completed(w));
    assert Commanded(u) == Commanded(w) && Worked(u) == Worked(w);
  }

  // ---------------------------------------------------------------- the protocol invariant

  predicate RunningTicket(t: Table, id: nat) {
    id in t.tickets && t.tickets[id].hash.HashRunning?
  }

  function RunningTickets(t: Table): set<nat> {
    set id | id in t.tickets && t.tickets[id].hash.HashRunning?
  }

  /** A result for this ticket has been handed out. */
  ghost predicate Answered(issued: set<HashResult>, id: nat) {
    exists r | r in issued :: r.job.ticket == id
  }

  ghost predicate JobsRun(t: Table, w: Workers) {
    && (forall i | 0 <= i < |w.commands| ::
          RunningJob(t, w.commands[i].job) && w.commands[i].record == t.tickets[w.commands[i].job.ticket].record)
    && (forall i | 0 <= i < |w.threads| :: JobOf(w.threads[i]).Some? ==> RunningJob(t, JobOf(w.threads[i]).value))
    && (forall i | 0 <= i < |w.threads| && w.threads[i].Hashing? ::
          RunningJob(t, w.threads[i].task.job) && w.threads[i].task.record == t.tickets[w.threads[i].task.job.ticket].record)
    && (forall i | 0 <= i < |w.completions| :: RunningJob(t, w.completions[i].job))
  }

  /** Every running ticket is in exactly one place: one of the queues, a worker, or a result handed out. */
  ghost predicate OnePlace(t: Table, w: Workers, issued: set<HashResult>) {
    && (forall id | id in Load(w) :: Load(w)[id] == 1 && RunningTicket(t, id) && !Answered(issued, id))
    && (forall id | RunningTicket(t, id) && id !in Load(w) :: Answered(issued, id))
  }

  ghost predicate WorkersFit(t: Table, issued: set<HashResult>) {
    && (t.retired ==> t.workers.None? && t.hashJobs == 0)
    && (t.workers.Some? ==>
          var w := t.workers.value;
          && w.capacity == t.config.maxHashJobs && |Load(w)| <= w.capacity
          && (w.failed ==> t.hashJobs == 0)
          && (!w.failed ==> JobsRun(t, w) && OnePlace(t, w, issued)))
  }

  // ---------------------------------------------------------------- nothing blocks

  /** A worker that has something to send can send it, even after the pool has failed. */
  lemma SendNeverBlocks(t: Table, issued: set<HashResult>, i: nat)
    requires WorkersFit(t, issued)
    ensures !SendBlocks(t, i)
  {
    hide JobsRun, OnePlace, Tickets;
    if t.workers.Some? && i < |t.workers.value.threads| && t.workers.value.threads[i].Sending? {
      var w := t.workers.value;
      TicketsSize(Completed(w));
      assert |Load(w)| == |Tickets(Commanded(w))| + |Tickets(Worked(w))| + |Tickets(Completed(w))|;
      assert Worked(w)[i].Some?;
      TicketsHave(Worked(w), i);
      assert |Tickets(Worked(w))| > 0;
    }
  }

  lemma {:induction false} DistinctBound(m: multiset<nat>, s: set<nat>)
    requires forall id | id in m :: m[id] == 1 && id in s
    ensures |m| <= |s|
  {
    if m != multiset{} {
      var id :| id in m;
      var rest := m - multiset{id};
      forall k | k in rest ensures rest[k] == 1 && k in s - {id} {
        assert k in m;
      }
      DistinctBound(rest, s - {id});
      assert m == rest + multiset{id};
    } else {
      assert |m| == 0;
    }
  }

  /** With a queued ticket the command queue has room. */
  lemma CommandNeverWaits(t: Table, issued: set<HashResult>, id: nat)
    requires Invariant(t) && WorkersFit(t, issued) && t.workers.Some? && !t.workers.value.failed
    requires id in t.tickets && t.tickets[id].hash.HashQueued?
    ensures |Load(t.workers.value)| < t.workers.value.capacity
    ensures |t.workers.value.commands| < t.workers.value.capacity
  {
    hide JobsRun, Tickets, Sized, Held, Linked, Asked, Billed, AllWaiters, TicketsFit, StateFits, Sum, Lengths;
    var w, running := t.workers.value, RunningTickets(t);
    DistinctBound(Load(w), running);
    assert running <= HashHolders(t.tickets) && id in HashHolders(t.tickets) && id !in running;
    SubsetSize(running, HashHolders(t.tickets));
    TicketsSize(Commanded(w));
    assert |Load(w)| >= |Tickets(Commanded(w))|;
  }
}
