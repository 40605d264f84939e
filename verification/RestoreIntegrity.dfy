/** Delivered bytes are verified bytes: what results, workers and verified tickets promise. */
module RestoreIntegrity {
  import opened Collections
  import opened Octets
  import opened RestoreModel
  import opened RestoreInvariant
  import opened RestoreWorkers

  /** The bytes of the ticket's buffer decode as the ticket's record. */
  ghost predicate Proven(decode: (ExtentRecord, Bytes) -> bool, t: Table, id: nat) {
    id in t.tickets && t.tickets[id].buffer.Some? && Decodes(decode, t.buffers, t.tickets[id].buffer.value, t.tickets[id].record)
  }

  /** A completion without a panic is positive exactly when the bytes decode. */
  ghost predicate IsTrue(decode: (ExtentRecord, Bytes) -> bool, t: Table, c: Completion) {
    c.outcome.Verified? ==> (c.outcome.integrity <==> Proven(decode, t, c.job.ticket))
  }

  /** What the workers are about to report is true. */
  ghost predicate WorkersTrue(decode: (ExtentRecord, Bytes) -> bool, t: Table, w: Workers) {
    && (forall i | 0 <= i < |w.threads| && w.threads[i].Sending? :: IsTrue(decode, t, w.threads[i].completion))
    && (forall i | 0 <= i < |w.completions| :: IsTrue(decode, t, w.completions[i]))
  }

  /** Verified tickets hold bytes that decode, and a result for a running job is positive exactly when its
      bytes do. Results belong to old tickets whose job ran. */
  ghost predicate Sound(decode: (ExtentRecord, Bytes) -> bool, t: Table, issued: set<HashResult>) {
    && (forall id | id in t.tickets && t.tickets[id].state.HashVerified? :: Proven(decode, t, id))
    && (forall r | r in issued :: r.job.ticket < t.nextTicket)
    && (forall r | r in issued && r.job.ticket in t.tickets ::
          t.tickets[r.job.ticket].hash.HashRunning? || t.tickets[r.job.ticket].state.HashVerified?)
    && (forall r | r in issued && RunningTicket(t, r.job.ticket) :: r.verified <==> Proven(decode, t, r.job.ticket))
    && (t.workers.Some? && !t.workers.value.failed ==> WorkersTrue(decode, t, t.workers.value))
  }

  // ---------------------------------------------------------------- undisturbed jobs

  /** Jobs, verified tickets and results look the same in both tables. */
  ghost predicate Undisturbed(t: Table, u: Table) {
    && u.config == t.config && u.nextTicket >= t.nextTicket && u.workers == t.workers && u.retired == t.retired
    && (forall k | RunningTicket(u, k) :: RunningTicket(t, k))
    && (forall k | RunningTicket(t, k) :: RunningTicket(u, k) && AwaitsHash(u.tickets[k]) && Kept(t, u, k))
    && (forall k | k in u.tickets && u.tickets[k].state.HashVerified? :: Kept(t, u, k) && t.tickets[k].state.HashVerified?)
    && (forall k | k in t.tickets && k in u.tickets && t.tickets[k].state.HashVerified? :: u.tickets[k].state.HashVerified?)
    && (forall k | k in u.tickets && k < t.nextTicket :: k in t.tickets)
  }

  lemma QuietIsUndisturbed(t: Table, u: Table, id: nat)
    requires Apart(t, u, id) && Quiet(t, u, id)
    requires forall k | k in t.tickets && t.tickets[k].hash.HashRunning? :: AwaitsHash(t.tickets[k])
    requires id in u.tickets ==> id in t.tickets || id >= t.nextTicket
    ensures Undisturbed(t, u)
  {
    hide HeldSlot;
  }

  lemma RunningAwaits(t: Table)
    requires Invariant(t)
    ensures forall k | k in t.tickets && t.tickets[k].hash.HashRunning? :: AwaitsHash(t.tickets[k])
    ensures forall k | k in t.tickets && t.tickets[k].hash.HashRunning? :: t.tickets[k].buffer.Some?
  {
    hide Accounts;
    forall k | k in t.tickets && t.tickets[k].hash.HashRunning? ensures AwaitsHash(t.tickets[k]) && t.tickets[k].buffer.Some? {
      assert StateFits(t.buffers, t.tickets[k]);
    }
  }

  lemma ProvenStays(decode: (ExtentRecord, Bytes) -> bool, t: Table, u: Table, id: nat)
    requires Kept(t, u, id)
    ensures Proven(decode, u, id) <==> Proven(decode, t, id)
  {
  }

  lemma UndisturbedKeepsSound(decode: (ExtentRecord, Bytes) -> bool, t: Table, u: Table, issued: set<HashResult>)
    requires Sound(decode, t, issued) && Undisturbed(t, u)
    requires t.workers.Some? && !t.workers.value.failed ==> JobsRun(t, t.workers.value)
    ensures Sound(decode, u, issued)
  {
    hide Proven, HeldSlot;
    forall id | Kept(t, u, id) ensures Proven(decode, u, id) <==> Proven(decode, t, id) {
      ProvenStays(decode, t, u, id);
    }
    if t.workers.Some? && !t.workers.value.failed {
      WorkersStayTrue(decode, t, u, t.workers.value);
    }
  }

  lemma WorkersStayTrue(decode: (ExtentRecord, Bytes) -> bool, t: Table, u: Table, w: Workers)
    requires WorkersTrue(decode, t, w) && JobsRun(t, w) && Undisturbed(t, u)
    ensures WorkersTrue(decode, u, w)
  {
    hide Proven, Kept;
    forall i | 0 <= i < |w.threads| && w.threads[i].Sending? ensures IsTrue(decode, u, w.threads[i].completion) {
      assert RunningJob(t, JobOf(w.threads[i]).value);
      assert RunningTicket(t, w.threads[i].completion.job.ticket);
      ProvenStays(decode, t, u, w.threads[i].completion.job.ticket);
    }
    forall i | 0 <= i < |w.completions| ensures IsTrue(decode, u, w.completions[i]) {
      assert RunningTicket(t, w.completions[i].job.ticket);
      ProvenStays(decode, t, u, w.completions[i].job.ticket);
    }
  }

  lemma UndisturbedKeepsJobs(t: Table, u: Table, w: Workers)
    requires JobsRun(t, w) && Undisturbed(t, u)
    ensures JobsRun(u, w)
  {
    hide HeldSlot;
    forall job: HashJob | RunningJob(t, job)
      ensures RunningJob(u, job) && u.tickets[job.ticket].record == t.tickets[job.ticket].record
    {
      assert RunningTicket(t, job.ticket);
    }
  }

  lemma UndisturbedKeepsWorkers(t: Table, u: Table, issued: set<HashResult>)
    requires WorkersFit(t, issued) && Undisturbed(t, u)
    requires t.retired || (t.workers.Some? && t.workers.value.failed) ==> u.hashJobs == 0
    ensures WorkersFit(u, issued)
  {
    hide JobsRun, Load, Kept;
    if t.workers.Some? && !t.workers.value.failed {
      UndisturbedKeepsJobs(t, u, t.workers.value);
    }
  }

  /** No job is new, so none is left where there was none. */
  lemma NoNewJobs(t: Table, u: Table, id: nat)
    requires Invariant(t) && Invariant(u) && Apart(t, u, id) && Quiet(t, u, id) && t.hashJobs == 0
    ensures u.hashJobs == 0
  {
    hide Sized, Held, Linked, Asked, Billed, AllWaiters, TicketsFit, StateFits, Sum, Lengths, HeldSlot;
    assert HashHolders(u.tickets) <= HashHolders(t.tickets);
    assert HashHolders(t.tickets) == {};
  }

  /** An operation that is quiet about one ticket keeps the protocol and the promises. */
  lemma QuietKeeps(decode: (ExtentRecord, Bytes) -> bool, t: Table, u: Table, id: nat, issued: set<HashResult>)
    requires Invariant(t) && Invariant(u) && WorkersFit(t, issued) && Sound(decode, t, issued)
    requires Apart(t, u, id) && Quiet(t, u, id) && (id in u.tickets ==> id in t.tickets || id >= t.nextTicket)
    ensures WorkersFit(u, issued) && Sound(decode, u, issued)
  {
    hide Invariant, Apart, Quiet, JobsRun, OnePlace, Load, WorkersTrue, Proven, Undisturbed;
    RunningAwaits(t);
    QuietIsUndisturbed(t, u, id);
    if t.hashJobs == 0 {
      NoNewJobs(t, u, id);
    }
    UndisturbedKeepsWorkers(t, u, issued);
    UndisturbedKeepsSound(decode, t, u, issued);
  }
}
