/** Checksum jobs, results and worker threads keep the system consistent. */
module RestoreChecksums {
  import opened Collections
  import opened Octets
  import opened RestoreModel
  import opened RestoreInvariant
  import opened RestoreCompletions
  import opened RestoreWorkers
  import opened RestoreIntegrity
  import opened RestoreTokens
  import opened RestoreSystem
  import D = DirectDescriptors

  // ---------------------------------------------------------------- results

  /** A job with a result is in no queue, and its ticket stops running. */
  lemma ResultEndsJob(t: Table, u: Table, id: nat, issued: set<HashResult>)
    requires WorkersFit(t, issued) && Apart(t, u, id) && Answered(issued, id) && RunningTicket(t, id) && !RunningTicket(u, id)
    requires u.hashJobs <= t.hashJobs
    ensures WorkersFit(u, issued)
  {
    hide Load, HeldSlot;
    if t.workers.Some? && !t.workers.value.failed {
      var w := t.workers.value;
      assert id !in Load(w);
      JobsElsewhere(t, w);
      forall job: HashJob | RunningJob(t, job) && job.ticket != id
        ensures RunningJob(u, job) && u.tickets[job.ticket].record == t.tickets[job.ticket].record
      {
      }
      forall k | RunningTicket(u, k) ensures RunningTicket(t, k) && k != id {
      }
    }
  }

  /** Every job the workers know has its ticket in the load. */
  lemma JobsElsewhere(t: Table, w: Workers)
    ensures forall i | 0 <= i < |w.commands| :: w.commands[i].job.ticket in Load(w)
    ensures forall i | 0 <= i < |w.threads| && JobOf(w.threads[i]).Some? :: JobOf(w.threads[i]).value.ticket in Load(w)
    ensures forall i | 0 <= i < |w.completions| :: w.completions[i].job.ticket in Load(w)
  {
    hide Tickets;
    forall i | 0 <= i < |w.commands| ensures w.commands[i].job.ticket in Load(w) {
      assert Commanded(w)[i] == Some(w.commands[i].job);
      TicketsHave(Commanded(w), i);
    }
    forall i | 0 <= i < |w.threads| && JobOf(w.threads[i]).Some? ensures JobOf(w.threads[i]).value.ticket in Load(w) {
      assert Worked(w)[i] == JobOf(w.threads[i]);
      TicketsHave(Worked(w), i);
    }
    forall i | 0 <= i < |w.completions| ensures w.completions[i].job.ticket in Load(w) {
      assert Completed(w)[i] == Some(w.completions[i].job);
      TicketsHave(Completed(w), i);
    }
  }

  lemma ResultKeepsSound(decode: (ExtentRecord, Bytes) -> bool, t: Table, u: Table, id: nat, issued: set<HashResult>)
    requires Sound(decode, t, issued) && WorkersFit(t, issued) && Apart(t, u, id)
    requires Answered(issued, id) && RunningTicket(t, id) && !RunningTicket(u, id)
    requires id in u.tickets ==> u.tickets[id].state.HashVerified? && Proven(decode, u, id)
    ensures Sound(decode, u, issued)
  {
    hide Load, Proven, HeldSlot;
    forall k | k != id && k in t.tickets ensures Proven(decode, u, k) <==> Proven(decode, t, k) {
      KeptElsewhere(decode, t, u, id, k);
    }
    if t.workers.Some? && !t.workers.value.failed {
      var w := t.workers.value;
      assert id !in Load(w);
      JobsElsewhere(t, w);
      forall i | 0 <= i < |w.threads| && w.threads[i].Sending? ensures IsTrue(decode, u, w.threads[i].completion) {
        assert JobOf(w.threads[i]).Some?;
      }
    }
  }

  lemma KeptElsewhere(decode: (ExtentRecord, Bytes) -> bool, t: Table, u: Table, id: nat, k: nat)
    requires Apart(t, u, id) && k != id && k in t.tickets
    ensures Proven(decode, u, k) <==> Proven(decode, t, k)
  {
    ProvenStays(decode, t, u, k);
  }

  lemma JobsDrop(t: Table, u: Table, id: nat)
    requires Invariant(t) && Invariant(u) && Apart(t, u, id) && RunningTicket(t, id)
    ensures u.hashJobs <= t.hashJobs
  {
    hide Sized, Held, Linked, Asked, Billed, AllWaiters, TicketsFit, StateFits, Sum, Lengths, HeldSlot;
    assert HashHolders(u.tickets) <= HashHolders(t.tickets);
    SubsetSize(HashHolders(u.tickets), HashHolders(t.tickets));
  }

  /** Completing a checksum with a result that was handed out. */
  lemma ResultStep(decode: (ExtentRecord, Bytes) -> bool, s: System, result: HashResult)
    requires Consistent(decode, s) && result in s.issued
    ensures Consistent(decode, s.(table := CompleteHash(s.table, result).table))
  {
    hide Invariant, Apart, WorkersFit, Sound, TokenSpent, Accounts, CompleteHash, Proven;
    var t, o, id := s.table, CompleteHash(s.table, result), result.job.ticket;
    if RunningJob(t, result.job) {
      HashEffect(t, result);
      assert Answered(s.issued, id);
      JobsDrop(t, o.table, id);
      ResultEndsJob(t, o.table, id, s.issued);
      if id in o.table.tickets {
        ResultIsTrue(decode, t, s.issued, result);
        BytesProve(decode, t, o.table, id);
      }
      ResultKeepsSound(decode, t, o.table, id, s.issued);
      AccountsOf(t);
      forall token | token in s.completed ensures TokenSpent(o.table, token) {
        SpentStays(t, o.table, id, token);
      }
    } else {
      NotRunning(t, result);
      assert s.(table := t) == s;
    }
  }

  lemma ResultIsTrue(decode: (ExtentRecord, Bytes) -> bool, t: Table, issued: set<HashResult>, result: HashResult)
    requires Sound(decode, t, issued) && result in issued && result.verified && RunningTicket(t, result.job.ticket)
    ensures Proven(decode, t, result.job.ticket)
  {
  }

  /** The ticket keeps its record and the bytes of its buffer. */
  predicate SameBytes(t: Table, u: Table, id: nat) {
    && id in t.tickets && id in u.tickets && t.tickets[id].buffer.Some?
    && u.tickets[id].record == t.tickets[id].record && u.tickets[id].buffer == t.tickets[id].buffer
    && |u.buffers.slots| == |t.buffers.slots|
    && (t.tickets[id].buffer.value.slot < |t.buffers.slots| ==>
          u.buffers.slots[t.tickets[id].buffer.value.slot].bytes == t.buffers.slots[t.tickets[id].buffer.value.slot].bytes)
  }

  lemma BytesProve(decode: (ExtentRecord, Bytes) -> bool, t: Table, u: Table, id: nat)
    requires SameBytes(t, u, id) && Proven(decode, t, id)
    ensures Proven(decode, u, id)
  {
  }

  lemma SameLength(t: Table, u: Table, id: nat)
    requires Apart(t, u, id)
    ensures |u.buffers.slots| == |t.buffers.slots|
  {
  }

  lemma NotRunning(t: Table, result: HashResult)
    requires !RunningJob(t, result.job)
    ensures CompleteHash(t, result).table == t
  {
  }

  /** What completing a running job does to its ticket. */
  lemma HashEffect(t: Table, result: HashResult)
    requires Invariant(t) && RunningJob(t, result.job)
    ensures var o, id := CompleteHash(t, result), result.job.ticket;
            && Invariant(o.table) && Apart(t, o.table, id) && o.table.descriptors == t.descriptors && !RunningTicket(o.table, id)
            && (id in o.table.tickets ==> result.verified && o.table.tickets[id].state.HashVerified? && SameBytes(t, o.table, id))
            && !t.tickets[id].originalPending
  {
    hide Invariant, Apart, CompleteHash;
    var id := result.job.ticket;
    if result.verified {
      VerifiedKeeps(t, id);
      SameLength(t, CompleteHash(t, result).table, id);
    } else {
      RefutedKeeps(t, id);
    }
  }

  // ---------------------------------------------------------------- jobs start

  /** The table with a queued ticket running. */
  function Running(t: Table, id: nat): Table
    requires id in t.tickets
  {
    Put(t, id, t.tickets[id].(hash := HashRunning))
  }

  lemma NotAnswered(decode: (ExtentRecord, Bytes) -> bool, t: Table, issued: set<HashResult>, id: nat)
    requires Sound(decode, t, issued) && id in t.tickets && t.tickets[id].hash.HashQueued? && !t.tickets[id].state.HashVerified?
    ensures !Answered(issued, id)
  {
  }

  lemma RunningIsSound(decode: (ExtentRecord, Bytes) -> bool, t: Table, issued: set<HashResult>, id: nat)
    requires Sound(decode, t, issued) && id in t.tickets && t.tickets[id].hash.HashQueued? && !t.tickets[id].state.HashVerified?
    ensures Sound(decode, Running(t, id), issued)
  {
    hide Decodes;
    NotAnswered(decode, t, issued, id);
    forall k ensures Proven(decode, Running(t, id), k) <==> Proven(decode, t, k) {
    }
  }

  lemma NextStep(decode: (ExtentRecord, Bytes) -> bool, s: System)
    requires Consistent(decode, s)
    ensures Consistent(decode, s.(table := NextHashJob(s.table).table))
  {
    hide Invariant, Apart, Sound, TokenSpent, Accounts, NextHashJob;
    var t, o := s.table, NextHashJob(s.table);
    NextHashKeeps(t);
    NextIsManual(t);
    if o.result.Ok? && o.result.value.Some? {
      var id := o.result.value.value.ticket;
      Fitting(t, id);
      RunningIsSound(decode, t, s.issued, id);
      forall token | token in s.completed ensures TokenSpent(o.table, token) {
        SpentStays(t, o.table, id, token);
      }
    } else {
      assert s.(table := t) == s;
    }
  }

  lemma NextIsManual(t: Table)
    ensures NextHashJob(t).result.Ok? ==> t.workers.None? && !t.retired
    ensures NextHashJob(t).result.Ok? && NextHashJob(t).result.value.None? ==> NextHashJob(t).table == t
  {
  }

  /** A job run by the caller. */
  lemma RunStep(decode: (ExtentRecord, Bytes) -> bool, s: System, job: HashJob)
    requires Consistent(decode, s) && RunHashJob(decode, s.table, job).Ok?
    ensures Consistent(decode, s.(issued := s.issued + {RunHashJob(decode, s.table, job).value}))
  {
    hide Invariant, TokenSpent, Accounts;
    IdsAreOld(s.table, job.ticket);
  }

  // ---------------------------------------------------------------- the pool starts and ends

  lemma {:induction false} IdleLoad(jobs: seq<Option<HashJob>>)
    requires forall i | 0 <= i < |jobs| :: jobs[i].None?
    ensures Tickets(jobs) == multiset{}
  {
    if jobs != [] {
      IdleLoad(jobs[..|jobs| - 1]);
    }
  }

  lemma NobodyRuns(t: Table)
    requires Invariant(t) && t.hashJobs == 0
    ensures forall k | k in t.tickets :: t.tickets[k].hash.NoHash?
  {
    hide Sized, Held, Linked, Asked, Billed, AllWaiters, TicketsFit, StateFits, Sum, Lengths;
    assert HashHolders(t.tickets) == {};
    forall k | k in t.tickets ensures t.tickets[k].hash.NoHash? {
      assert k !in HashHolders(t.tickets);
    }
  }

  lemma WorkersDoNotMatter(t: Table, u: Table)
    requires Invariant(t) && u == t.(workers := u.workers, retired := u.retired)
    ensures Invariant(u)
  {
    hide Held, Linked, Asked, Billed, AllWaiters, TicketsFit, StateFits, Sum;
  }

  lemma TokensDoNotMind(t: Table, u: Table, token: D.Token)
    requires TokenSpent(t, token) && u == t.(workers := u.workers, retired := u.retired)
    ensures TokenSpent(u, token)
  {
    hide D.SlotOf, D.GenerationOf, D.IsCancel;
  }

  lemma StartStep(decode: (ExtentRecord, Bytes) -> bool, s: System, count: nat)
    requires Consistent(decode, s)
    ensures Consistent(decode, s.(table := StartWorkers(s.table, count).table))
  {
    hide Invariant, TokenSpent, Accounts, Proven, Tickets;
    var t, u := s.table, StartWorkers(s.table, count).table;
    if StartWorkers(t, count).result.Ok? {
      WorkersDoNotMatter(t, u);
      NobodyRuns(t);
      var w := u.workers.value;
      IdleLoad(Worked(w));
      IdleLoad(Commanded(w));
      IdleLoad(Completed(w));
      forall k ensures Proven(decode, u, k) <==> Proven(decode, t, k) {
        WorkersDoNotProve(decode, t, u, k);
      }
      forall token | token in s.completed ensures TokenSpent(u, token) {
        TokensDoNotMind(t, u, token);
      }
    } else {
      assert s.(table := t) == s;
    }
  }

  lemma WorkersDoNotProve(decode: (ExtentRecord, Bytes) -> bool, t: Table, u: Table, k: nat)
    requires u == t.(workers := u.workers, retired := u.retired)
    ensures Proven(decode, u, k) <==> Proven(decode, t, k)
  {
  }

  lemma ShutdownStep(decode: (ExtentRecord, Bytes) -> bool, s: System)
    requires Consistent(decode, s)
    ensures Consistent(decode, s.(table := ShutdownWorkers(s.table).table))
  {
    hide Invariant, TokenSpent, Accounts, Proven;
    var t, u := s.table, ShutdownWorkers(s.table).table;
    if ShutdownWorkers(t).result.Ok? {
      WorkersDoNotMatter(t, u);
      forall k ensures Proven(decode, u, k) <==> Proven(decode, t, k) {
        WorkersDoNotProve(decode, t, u, k);
      }
      forall token | token in s.completed ensures TokenSpent(u, token) {
        TokensDoNotMind(t, u, token);
      }
    } else {
      assert s.(table := t) == s;
    }
  }
}
