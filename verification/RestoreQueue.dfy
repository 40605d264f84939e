/** Each descriptor carries at most one original and one cancel, so the completion queue never fills. */
module RestoreQueue {
  import opened Collections
  import opened RestoreModel
  import opened RestoreInvariant
  import B = DirectBuffers
  import D = DirectDescriptors

  predicate Injective(f: map<nat, nat>) {
    forall x, y | x in f && y in f && x != y :: f[x] != f[y]
  }

  /** An injection into `n` numbers that misses `k` of them has at most `n - k` keys. */
  lemma {:induction false} InjectionBound(f: map<nat, nat>, n: nat, missing: set<nat>)
    requires Injective(f) && (forall x | x in f :: f[x] < n && f[x] !in missing) && (forall k | k in missing :: k < n)
    ensures |f| + |missing| <= n
    decreases |f|
  {
    if f == map[] {
      BelowBound(missing, n);
    } else {
      var x :| x in f;
      var rest := f - {x};
      assert rest.Keys == f.Keys - {x};
      assert |rest| == |f| - 1;
      InjectionBound(rest, n, missing + {f[x]});
    }
  }

  lemma {:induction false} BelowBound(s: set<nat>, n: nat)
    requires forall k | k in s :: k < n
    ensures |s| <= n
  {
    if n > 0 {
      var rest := s - {n - 1};
      BelowBound(rest, n - 1);
      assert n - 1 in s ==> |s| == |rest| + 1;
      assert n - 1 !in s ==> s == rest;
    } else {
      assert s == {};
    }
  }

  function OriginalSlots(tickets: map<nat, Ticket>): map<nat, nat> {
    map id | id in tickets && tickets[id].originalPending && tickets[id].originalToken.Some? ::
      D.SlotOf(tickets[id].originalToken.value)
  }

  function CancelSlots(tickets: map<nat, Ticket>): map<nat, nat> {
    map id | id in tickets && tickets[id].cancelPending && tickets[id].cancelToken.Some? ::
      D.SlotOf(tickets[id].cancelToken.value)
  }

  /** Pending originals, and pending cancels, use different occupied descriptors. */
  lemma SlotsAreDistinct(tickets: map<nat, Ticket>, d: D.Descriptors)
    requires Linked(tickets, d)
    ensures Injective(OriginalSlots(tickets)) && Injective(CancelSlots(tickets))
    ensures OriginalSlots(tickets).Keys == Originals(tickets) && CancelSlots(tickets).Keys == Cancels(tickets)
    ensures forall id | id in OriginalSlots(tickets) ::
              OriginalSlots(tickets)[id] < |d.slots| && d.slots[OriginalSlots(tickets)[id]].entry.Some?
    ensures forall id | id in CancelSlots(tickets) ::
              && CancelSlots(tickets)[id] < |d.slots| && d.slots[CancelSlots(tickets)[id]].entry.Some?
              && d.slots[CancelSlots(tickets)[id]].entry.value.binding.operation == id
  {
    hide D.SlotOf, D.GenerationOf, D.IsCancel;
    forall id | id in tickets
      ensures tickets[id].originalPending ==>
                && tickets[id].originalToken.Some?
                && var k := D.SlotOf(tickets[id].originalToken.value);
                && k < |d.slots| && d.slots[k].entry.Some? && d.slots[k].entry.value.binding.operation == id
      ensures tickets[id].cancelPending ==>
                && tickets[id].cancelToken.Some?
                && var k := D.SlotOf(tickets[id].cancelToken.value);
                && k < |d.slots| && d.slots[k].entry.Some? && d.slots[k].entry.value.binding.operation == id
    {
      assert TokensFit(d, id, tickets[id]);
    }
  }

  lemma PendingBounds(tickets: map<nat, Ticket>, d: D.Descriptors, missing: set<nat>)
    requires Linked(tickets, d) && forall k | k in missing :: k < |d.slots|
    ensures (forall k | k in missing :: d.slots[k].entry.None?) ==> |Originals(tickets)| + |missing| <= |d.slots|
    ensures (forall k | k in missing :: d.slots[k].entry.Some? ==>
               var id := d.slots[k].entry.value.binding.operation; id in tickets && !tickets[id].cancelPending) ==>
              |Cancels(tickets)| + |missing| <= |d.slots|
  {
    hide D.SlotOf, Linked;
    SlotsAreDistinct(tickets, d);
    var originals, cancels := OriginalSlots(tickets), CancelSlots(tickets);
    assert |originals| == |originals.Keys| && |cancels| == |cancels.Keys|;
    if forall k | k in missing :: d.slots[k].entry.None? {
      InjectionBound(originals, |d.slots|, missing);
    }
    if forall k | k in missing :: d.slots[k].entry.Some? ==>
         var id := d.slots[k].entry.value.binding.operation; id in tickets && !tickets[id].cancelPending {
      InjectionBound(cancels, |d.slots|, missing);
    }
  }

  /** With a vacant descriptor there is room for one more original. */
  lemma RoomForOriginal(t: Table, k: nat)
    requires Accounts(t) && k < |t.descriptors.slots| && t.descriptors.slots[k].entry.None?
    ensures TrySubmit(t.cq, OriginalCqe) == Ok(t.cq.(original := t.cq.original + 1))
  {
    hide Held, Linked, Asked, Billed, AllWaiters, TicketsFit, Sum, Lengths, B.PoolFits, D.TableFits;
    PendingBounds(t.tickets, t.descriptors, {k});
  }

  /** With a read that is not being cancelled there is room for one more cancel. */
  lemma RoomForCancel(t: Table, id: nat)
    requires Accounts(t) && id in t.tickets && t.tickets[id].originalPending && !t.tickets[id].cancelPending
    ensures TrySubmit(t.cq, CancelCqe) == Ok(t.cq.(cancel := t.cq.cancel + 1))
  {
    hide Held, Asked, Billed, AllWaiters, TicketsFit, Sum, Lengths, B.PoolFits, D.TableFits, D.SlotOf, D.GenerationOf, D.IsCancel;
    assert TokensFit(t.descriptors, id, t.tickets[id]);
    var k := D.SlotOf(t.tickets[id].originalToken.value);
    hide Linked;
    PendingBounds(t.tickets, t.descriptors, {k});
    PendingBounds(t.tickets, t.descriptors, {});
  }
}
