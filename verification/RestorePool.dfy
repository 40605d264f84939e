/** The failure of the checksum pool, and exactly when it keeps the invariant. */
module RestorePool {
  import opened Collections
  import opened RestoreModel
  import opened RestoreInvariant
  import opened RestoreParts
  import opened RestoreSteps
  import opened RestoreCompletions
  import B = DirectBuffers

  predicate Waits(ticket: Ticket) {
    ticket.originalPending || ticket.cancelPending
  }

  /** The tickets in `done` have failed; the others are as they were. */
  ghost predicate FailedAll(t: Table, u: Table, done: set<nat>) {
    && u.config == t.config && u.nextTicket >= t.nextTicket && u.workers == t.workers && u.retired == t.retired
    && (forall k | k in u.tickets :: k in t.tickets)
    && (forall k | k in t.tickets && k !in done ::
          && k in u.tickets && u.tickets[k] == t.tickets[k]
          && HeldSlot(u.buffers, u.tickets[k]) == HeldSlot(t.buffers, t.tickets[k]))
    && (forall k | k in t.tickets && k in done ::
          && (k in u.tickets <==> Waits(t.tickets[k]))
          && (k in u.tickets ==>
                && u.tickets[k] == FailedTicket(t.tickets[k])
                && BufferStateOf(u.buffers, u.tickets[k]) == Some(B.Quarantined)))
  }

  lemma FailsOneMore(t: Table, u: Table, v: Table, done: set<nat>, id: nat)
    requires FailedAll(t, u, done) && id in t.tickets && id !in done
    requires Apart(u, v, id)
    requires if Waits(t.tickets[id])
             then id in v.tickets && v.tickets[id] == FailedTicket(t.tickets[id]) && BufferStateOf(v.buffers, v.tickets[id]) == Some(B.Quarantined)
             else id !in v.tickets
    ensures FailedAll(t, v, done + {id})
  {
    hide HeldSlot;
  }

  predicate Failable(t: Table, id: nat) {
    && id in t.tickets && t.tickets[id].buffer.Some?
    && BufferStateOf(t.buffers, t.tickets[id]).Some? && B.Active(BufferStateOf(t.buffers, t.tickets[id]).value)
  }

  lemma {:induction false} FailsAll(t: Table, ids: seq<nat>, n: nat)
    requires Accounts(t) && n <= |ids| && (forall id | id in ids :: Failable(t, id))
    requires forall i, j | 0 <= i < j < |ids| :: ids[i] != ids[j]
    ensures var o := FailTickets(t, ids, n);
            o.result == Ok(()) && Accounts(o.table) && FailedAll(t, o.table, Members(ids[..n])) && o.table.descriptors == t.descriptors
  {
    hide Accounts, FailTicket, Apart, FailedAll, B.Active;
    if n == 0 {
      NoneFailed(t);
      assert Members(ids[..0]) == {};
    } else {
      FailsAll(t, ids, n - 1);
      var u, id, done := FailTickets(t, ids, n - 1).table, ids[n - 1], Members(ids[..n - 1]);
      assert id !in done by {
        assert forall i | 0 <= i < n - 1 :: ids[i] != id;
      }
      assert Members(ids[..n]) == done + {id} by {
        assert ids[..n] == ids[..n - 1] + [id];
      }
      assert id in ids && Failable(t, id);
      StillThere(t, u, done, id);
      Fails(u, id);
      FailsOneMore(t, u, FailTicket(u, id).table, done, id);
    }
  }

  lemma NoneFailed(t: Table)
    ensures FailedAll(t, t, {})
  {
  }

  lemma StillThere(t: Table, u: Table, done: set<nat>, id: nat)
    requires FailedAll(t, u, done) && id in t.tickets && id !in done
    ensures id in u.tickets && u.tickets[id] == t.tickets[id]
    ensures BufferStateOf(u.buffers, u.tickets[id]) == BufferStateOf(t.buffers, t.tickets[id])
  {
  }

  /** Who holds a checksum job, and who waits for a read. */
  lemma Holders(t: Table)
    requires Invariant(t)
    ensures forall id | id in t.tickets && !t.tickets[id].hash.NoHash? :: Failable(t, id)
    ensures forall id | id in t.tickets && t.tickets[id].originalPending :: !t.tickets[id].hash.NoHash? || t.tickets[id].state.Failed?
    ensures forall id | id in t.tickets && t.tickets[id].state.Failed? :: t.tickets[id].hash.NoHash?
  {
    hide Accounts;
    ActiveStates();
    forall id | id in t.tickets
      ensures !t.tickets[id].hash.NoHash? ==> Failable(t, id)
      ensures t.tickets[id].originalPending ==> !t.tickets[id].hash.NoHash? || t.tickets[id].state.Failed?
      ensures t.tickets[id].state.Failed? ==> t.tickets[id].hash.NoHash?
    {
      assert StateFits(t.buffers, t.tickets[id]);
    }
  }

  /** Failing the pool fails every ticket with a job; no job remains. */
  lemma PoolFails(t: Table)
    requires Invariant(t) && t.workers.Some?
    ensures var o := FailPool(t);
            && o.result == Ok(()) && Accounts(o.table) && o.table.hashJobs == 0 && o.table.descriptors == t.descriptors
            && o.table.workers == Some(t.workers.value.(failed := true))
            && FailedAll(t.(workers := o.table.workers), o.table, HashHolders(t.tickets))
  {
    hide Sized, Held, Linked, Asked, Billed, AllWaiters, TicketsFit, FailTickets, StateFits, Failable, Sum, Lengths, Sorted;
    var w := t.(workers := Some(t.workers.value.(failed := true)));
    Holders(t);
    WorkersAreFree(t, w);
    SameFailable(t, w);
    var ids := Sorted(HashHolders(t.tickets));
    FailsAll(w, ids, |ids|);
    assert ids[..|ids|] == ids;
    assert Members(ids) == HashHolders(t.tickets);
    var u := FailTickets(w, ids, |ids|).table;
    NoHolders(w, u);
  }

  lemma WorkersAreFree(t: Table, w: Table)
    requires Accounts(t) && w == t.(workers := w.workers)
    ensures Accounts(w)
  {
    hide Held, Linked, Asked, Billed, AllWaiters, TicketsFit;
  }

  lemma SameFailable(t: Table, w: Table)
    requires w == t.(workers := w.workers)
    ensures forall id | Failable(t, id) :: Failable(w, id)
  {
  }

  lemma NoHolders(t: Table, u: Table)
    requires FailedAll(t, u, HashHolders(t.tickets))
    ensures HashHolders(u.tickets) == {}
  {
    hide BufferStateOf;
    forall k | k in u.tickets ensures u.tickets[k].hash.NoHash? {
      if k in HashHolders(t.tickets) {
        assert u.tickets[k] == FailedTicket(t.tickets[k]);
      } else {
        assert u.tickets[k] == t.tickets[k];
      }
    }
  }

  /** Failing the pool keeps the invariant. */
  lemma PoolFailureKeeps(t: Table)
    requires Invariant(t) && t.workers.Some?
    ensures Invariant(FailPool(t).table)
  {
    hide Accounts, FailPool, BufferStateOf;
    PoolFails(t);
    Holders(t);
    var u := FailPool(t).table;
    forall k | k in u.tickets ensures StateFits(u.buffers, u.tickets[k]) {
      assert StateFits(t.buffers, t.tickets[k]);
      FailedState(t, u, k);
    }
  }

  lemma FailedState(t: Table, u: Table, k: nat)
    requires FailedAll(t.(workers := u.workers), u, HashHolders(t.tickets)) && k in u.tickets && k in t.tickets
    requires StateFits(t.buffers, t.tickets[k])
    ensures StateFits(u.buffers, u.tickets[k])
  {
    if k in HashHolders(t.tickets) {
      assert u.tickets[k] == FailedTicket(t.tickets[k]);
      assert Waits(t.tickets[k]);
    } else {
      assert u.tickets[k] == t.tickets[k];
    }
  }

  /** Failing the pool loses exactly the reads that are in flight. */
  lemma PoolFailureLoses(t: Table)
    requires Invariant(t) && t.workers.Some?
    ensures LostReads(FailPool(t).table.tickets) == Originals(t.tickets)
  {
    hide Invariant, Accounts, FailPool, BufferStateOf;
    PoolFails(t);
    Holders(t);
    FailedLoses(t, FailPool(t).table);
  }

  lemma FailedLoses(t: Table, u: Table)
    requires FailedAll(t.(workers := u.workers), u, HashHolders(t.tickets))
    requires forall id | id in t.tickets && t.tickets[id].originalPending :: !t.tickets[id].hash.NoHash? || t.tickets[id].state.Failed?
    ensures LostReads(u.tickets) == Originals(t.tickets)
  {
    hide BufferStateOf, HeldSlot;
    forall k ensures k in LostReads(u.tickets) <==> k in Originals(t.tickets) {
      if k in t.tickets {
        assert k in HashHolders(t.tickets) <==> !t.tickets[k].hash.NoHash?;
      }
    }
  }
}
