/** Dispatching, polling, worker threads and the failure of the pool keep the system consistent. */
module RestoreThreads {
  import opened Collections
  import opened Octets
  import opened RestoreModel
  import opened RestoreInvariant
  import opened RestoreCompletions
  import opened RestorePool
  import opened RestoreWorkers
  import opened RestoreIntegrity
  import opened RestoreTokens
  import opened RestoreSystem
  import opened RestoreChecksums
  import B = DirectBuffers
  import D = DirectDescriptors

  // ---------------------------------------------------------------- only the workers change

  /** A step inside the pool that keeps the load, the jobs and the promises. */
  lemma PoolStep(decode: (ExtentRecord, Bytes) -> bool, s: System, w: Workers)
    requires Consistent(decode, s) && s.table.workers.Some?
    requires w.capacity == s.table.workers.value.capacity && w.failed == s.table.workers.value.failed
    requires Load(w) == Load(s.table.workers.value)
    requires !w.failed ==> JobsRun(s.table, w) && WorkersTrue(decode, s.table, w)
    ensures Consistent(decode, s.(table := s.table.(workers := Some(w))))
  {
    hide Invariant, TokenSpent, Accounts, Load, Proven, JobsRun, WorkersTrue;
    var t, u := s.table, s.table.(workers := Some(w));
    WorkersDoNotMatter(t, u);
    SameTickets(decode, t, u, w);
    forall token | token in s.completed ensures TokenSpent(u, token) {
      TokensDoNotMind(t, u, token);
    }
  }

  lemma SameTickets(decode: (ExtentRecord, Bytes) -> bool, t: Table, u: Table, w: Workers)
    requires u == t.(workers := u.workers)
    ensures JobsRun(t, w) ==> JobsRun(u, w)
    ensures WorkersTrue(decode, t, w) ==> WorkersTrue(decode, u, w)
    ensures forall k :: Proven(decode, u, k) <==> Proven(decode, t, k)
  {
    hide Decodes;
  }

  lemma TakeStep(decode: (ExtentRecord, Bytes) -> bool, s: System, i: nat)
    requires Consistent(decode, s)
    ensures Consistent(decode, s.(table := WorkerTakes(s.table, i)))
  {
    hide Invariant, TokenSpent, Accounts, Load, Proven;
    var t := s.table;
    if WorkerTakes(t, i) != t {
      var w := t.workers.value;
      var u := SetThread(w, i, Hashing(w.commands[0])).(commands := w.commands[1..]);
      TakeKeepsLoad(w, i);
      PoolStep(decode, s, u);
    } else {
      assert s.(table := t) == s;
    }
  }

  lemma VerifyStep(decode: (ExtentRecord, Bytes) -> bool, s: System, i: nat, panics: bool)
    requires Consistent(decode, s)
    ensures Consistent(decode, s.(table := WorkerVerifies(decode, s.table, i, panics)))
  {
    hide Invariant, TokenSpent, Accounts, Load, Decodes;
    var t := s.table;
    if WorkerVerifies(decode, t, i, panics) != t {
      var w := t.workers.value;
      var task := w.threads[i].task;
      var completion := Completion(task.job, if panics then Panicked else Verified(Decodes(decode, t.buffers, task.job.buffer, task.record)));
      VerifyKeepsLoad(w, i, completion);
      PoolStep(decode, s, SetThread(w, i, Sending(completion)));
    } else {
      assert s.(table := t) == s;
    }
  }

  lemma SendStep(decode: (ExtentRecord, Bytes) -> bool, s: System, i: nat)
    requires Consistent(decode, s)
    ensures Consistent(decode, s.(table := WorkerSends(s.table, i)))
  {
    hide Invariant, TokenSpent, Accounts, Load, Proven;
    var t := s.table;
    if WorkerSends(t, i) != t {
      var w := t.workers.value;
      var completion := w.threads[i].completion;
      var next := if completion.outcome.Panicked? then Exited else Idle;
      SendKeepsLoad(w, i, next);
      assert !w.failed ==> RunningJob(t, JobOf(w.threads[i]).value);
      PoolStep(decode, s, SetThread(w, i, next).(completions := w.completions + [completion]));
    } else {
      assert s.(table := t) == s;
    }
  }

  // ---------------------------------------------------------------- dispatching

  lemma DispatchJobs(t: Table, id: nat, w: Workers, job: HashJob)
    requires JobsRun(t, w) && id in t.tickets && t.tickets[id].hash.HashQueued? && AwaitsHash(t.tickets[id])
    requires t.tickets[id].buffer.Some? && job == HashJob(id, t.tickets[id].buffer.value)
    ensures JobsRun(Running(t, id), w.(commands := w.commands + [Task(job, t.tickets[id].record)]))
  {
    forall j: HashJob | RunningJob(t, j)
      ensures RunningJob(Running(t, id), j) && Running(t, id).tickets[j.ticket].record == t.tickets[j.ticket].record
    {
    }
    assert RunningJob(Running(t, id), job);
  }

  lemma DispatchPlaces(t: Table, id: nat, w: Workers, v: Workers, issued: set<HashResult>)
    requires OnePlace(t, w, issued) && id in t.tickets && t.tickets[id].hash.HashQueued? && !Answered(issued, id)
    requires Load(v) == Load(w) + multiset{id}
    ensures OnePlace(Running(t, id), v, issued)
  {
    hide Load, Answered;
    assert id !in Load(w);
    forall k | RunningTicket(Running(t, id), k) && k != id ensures RunningTicket(t, k) {
    }
  }

  /** A queued ticket is dispatched; the queue is never full. */
  lemma Dispatched(decode: (ExtentRecord, Bytes) -> bool, s: System, id: nat)
    requires Consistent(decode, s) && s.table.workers.Some? && !s.table.workers.value.failed
    requires id in s.table.tickets && s.table.tickets[id].hash.HashQueued?
    ensures AwaitsHash(s.table.tickets[id]) && s.table.tickets[id].buffer.Some?
    ensures var t, w := s.table, s.table.workers.value;
            var task := Task(HashJob(id, t.tickets[id].buffer.value), t.tickets[id].record);
            && |w.commands| < w.capacity && B.HashBuffer(t.buffers, task.job.buffer).Ok?
            && Consistent(decode, s.(table := Running(t, id).(workers := Some(w.(commands := w.commands + [task])))))
  {
    hide Invariant, TokenSpent, Accounts, Load, Proven, JobsRun, OnePlace, WorkersTrue, Apart, Sound;
    var t, w := s.table, s.table.workers.value;
    RunningKeeps(t, id);
    Fitting(t, id);
    CommandNeverWaits(t, s.issued, id);
    var task := Task(HashJob(id, t.tickets[id].buffer.value), t.tickets[id].record);
    var v := w.(commands := w.commands + [task]);
    var u := Running(t, id).(workers := Some(v));
    CommandAddsLoad(w, task);
    NotAnswered(decode, t, s.issued, id);
    DispatchJobs(t, id, w, task.job);
    DispatchPlaces(t, id, w, v, s.issued);
    RunningIsSound(decode, t, s.issued, id);
    WorkersDoNotMatter(Running(t, id), u);
    DispatchSound(decode, Running(t, id), u, w, v, s.issued);
    SameTickets(decode, Running(t, id), u, v);
    SamePlaces(Running(t, id), u, v, s.issued);
    forall token | token in s.completed ensures TokenSpent(u, token) {
      SpentStays(t, Running(t, id), id, token);
      TokensDoNotMind(Running(t, id), u, token);
    }
  }

  lemma SamePlaces(t: Table, u: Table, w: Workers, issued: set<HashResult>)
    requires u == t.(workers := u.workers) && OnePlace(t, w, issued)
    ensures OnePlace(u, w, issued)
  {
    hide Load, Answered;
  }

  lemma DispatchSound(decode: (ExtentRecord, Bytes) -> bool, t: Table, u: Table, w: Workers, v: Workers, issued: set<HashResult>)
    requires Sound(decode, t, issued) && t.workers == Some(w) && !w.failed && u == t.(workers := Some(v))
    requires v == w.(commands := v.commands)
    ensures Sound(decode, u, issued)
  {
    hide Decodes;
    SameTickets(decode, t, u, v);
  }

  // ---------------------------------------------------------------- polling

  lemma PollPlaces(t: Table, w: Workers, v: Workers, issued: set<HashResult>, r: HashResult)
    requires OnePlace(t, w, issued) && Load(w) == Load(v) + multiset{r.job.ticket}
    ensures OnePlace(t, v, issued + {r})
  {
    hide Load;
    var id := r.job.ticket;
    assert id !in Load(v) by {
      assert Load(w)[id] == Load(v)[id] + 1;
      assert id in Load(w);
    }
    forall k | k in Load(v) ensures Load(v)[k] == 1 && RunningTicket(t, k) && !Answered(issued + {r}, k) {
      assert k in Load(w) && Load(w)[k] == Load(v)[k];
    }
    forall k | RunningTicket(t, k) && k !in Load(v) ensures Answered(issued + {r}, k) {
      if k == id {
        assert r in issued + {r};
      } else {
        assert k !in Load(w);
        assert Answered(issued, k);
        var x :| x in issued && x.job.ticket == k;
        assert x in issued + {r};
      }
    }
  }

  /** A polled result is handed out: the job leaves the queues. */
  lemma Polled(decode: (ExtentRecord, Bytes) -> bool, s: System)
    requires Consistent(decode, s) && s.table.workers.Some? && !s.table.workers.value.failed
    requires s.table.workers.value.completions != [] && s.table.workers.value.completions[0].outcome.Verified?
    ensures var t, w := s.table, s.table.workers.value;
            var r := HashResult(w.completions[0].job, w.completions[0].outcome.integrity);
            && RunningJob(t, w.completions[0].job)
            && Consistent(decode, System(t.(workers := Some(w.(completions := w.completions[1..]))), s.issued + {r}, s.completed))
  {
    hide Invariant, TokenSpent, Accounts, Load, Proven, OnePlace;
    var t, w := s.table, s.table.workers.value;
    var v := w.(completions := w.completions[1..]);
    var u := t.(workers := Some(v));
    var r := HashResult(w.completions[0].job, w.completions[0].outcome.integrity);
    PollTakesLoad(w);
    PollPlaces(t, w, v, s.issued, r);
    SamePlaces(t, u, v, s.issued + {r});
    WorkersDoNotMatter(t, u);
    IdsAreOld(t, r.job.ticket);
    SameTickets(decode, t, u, v);
    forall token | token in s.completed ensures TokenSpent(u, token) {
      TokensDoNotMind(t, u, token);
    }
  }

  // ---------------------------------------------------------------- the pool fails

  lemma FailedIsSound(decode: (ExtentRecord, Bytes) -> bool, t: Table, u: Table, issued: set<HashResult>)
    requires Sound(decode, t, issued) && Invariant(t) && u.workers.Some? && u.workers.value.failed
    requires FailedAll(t.(workers := u.workers), u, HashHolders(t.tickets))
    ensures Sound(decode, u, issued)
  {
    hide Accounts, HeldSlot;
    forall k | k in u.tickets
      ensures u.tickets[k].hash.NoHash?
      ensures u.tickets[k].state.HashVerified? ==> Kept(t, u, k) && t.tickets[k].state.HashVerified?
      ensures !t.tickets[k].hash.HashRunning?
      ensures t.tickets[k].state.HashVerified? ==> u.tickets[k].state.HashVerified?
    {
      assert StateFits(t.buffers, t.tickets[k]);
      assert k in HashHolders(t.tickets) <==> !t.tickets[k].hash.NoHash?;
    }
    forall k | k in u.tickets && u.tickets[k].state.HashVerified? ensures Proven(decode, u, k) {
      ProvenStays(decode, t, u, k);
    }
  }

  /** Failing the pool leaves a consistent system. */
  lemma PoolFailureStep(decode: (ExtentRecord, Bytes) -> bool, s: System)
    requires Consistent(decode, s) && s.table.workers.Some?
    ensures FailPool(s.table).result == Ok(()) && Consistent(decode, s.(table := FailPool(s.table).table))
  {
    hide Invariant, TokenSpent, Accounts, Load, Proven, JobsRun, OnePlace, FailPool, FailedAll, Sound;
    var t, u := s.table, FailPool(s.table).table;
    PoolFails(t);
    PoolFailureKeeps(t);
    FailedIsSound(decode, t, u, s.issued);
    SameLoad(t.workers.value);
    FailedFrame(t, u);
    AccountsOf(t);
    forall token | token in s.completed ensures TokenSpent(u, token) {
      FailureSpends(t, u, token);
    }
  }

  lemma FailedFrame(t: Table, u: Table)
    requires FailedAll(t.(workers := u.workers), u, HashHolders(t.tickets))
    ensures u.config == t.config && u.retired == t.retired
  {
  }

  lemma SameLoad(w: Workers)
    ensures Load(w.(failed := true)) == Load(w)
  {
    hide Tickets;
    var v := w.(failed := true);
    assert Commanded(v) == Commanded(w) && Worked(v) == Worked(w) && Completed(v) == Completed(w);
  }

  lemma FailureSpends(t: Table, u: Table, token: D.Token)
    requires Accounts(t) && TokenSpent(t, token) && u.descriptors == t.descriptors
    requires FailedAll(t.(workers := u.workers), u, HashHolders(t.tickets))
    ensures TokenSpent(u, token)
  {
    hide Accounts, D.SlotOf, D.GenerationOf, D.IsCancel, HeldSlot, BufferStateOf;
    if CancelSpent(t, token) {
      OwnerPends(t, D.SlotOf(token));
    }
  }
}
