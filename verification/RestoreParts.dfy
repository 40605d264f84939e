/** How each part of the accounts changes when one ticket changes. */
module RestoreParts {
  import opened Collections
  import opened RestoreModel
  import opened RestoreInvariant
  import B = DirectBuffers
  import D = DirectDescriptors

  // ---------------------------------------------------------------- buffers

  /** A slot keeps its generation. */
  lemma HeldMoves(tickets: map<nat, Ticket>, pool: B.Pool, id: nat, slot: B.Slot)
    requires Held(tickets, pool) && id in tickets && tickets[id].buffer.Some?
    requires slot.generation == tickets[id].buffer.value.generation
    ensures Held(tickets, pool.(slots := pool.slots[tickets[id].buffer.value.slot := slot]))
  {
    hide B.Active;
    var k := tickets[id].buffer.value.slot;
    var after := pool.(slots := pool.slots[k := slot]);
    forall i | 0 <= i < |after.slots| && B.Active(after.slots[i].state)
      ensures exists x :: x in tickets && Owns(tickets[x], i)
    {
      if i == k {
        assert Owns(tickets[id], i);
      } else {
        var x :| x in tickets && Owns(tickets[x], i);
        assert Owns(tickets[x], i);
      }
    }
  }

  lemma HeldPut(tickets: map<nat, Ticket>, pool: B.Pool, id: nat, ticket: Ticket)
    requires Held(tickets, pool)
    requires if id in tickets then ticket.buffer == tickets[id].buffer else ticket.buffer.None?
    ensures Held(tickets[id := ticket], pool)
  {
    hide B.Active, B.Find;
    var now := tickets[id := ticket];
    forall i | 0 <= i < |pool.slots| && B.Active(pool.slots[i].state)
      ensures exists x :: x in now && Owns(now[x], i)
    {
      var x :| x in tickets && Owns(tickets[x], i);
      assert Owns(now[x], i);
    }
  }

  lemma HeldRemoves(tickets: map<nat, Ticket>, pool: B.Pool, id: nat)
    requires Held(tickets, pool) && id in tickets
    requires tickets[id].buffer.Some? ==> !B.Active(pool.slots[tickets[id].buffer.value.slot].state)
    ensures Held(tickets - {id}, pool)
  {
    hide B.Active, B.Find;
    forall i | 0 <= i < |pool.slots| && B.Active(pool.slots[i].state)
      ensures exists x :: x in tickets - {id} && Owns((tickets - {id})[x], i)
    {
      var x :| x in tickets && Owns(tickets[x], i);
      assert x != id;
      assert Owns((tickets - {id})[x], i);
    }
  }

  /** A free slot taken by a ticket that had none. */
  lemma HeldReserves(tickets: map<nat, Ticket>, pool: B.Pool, id: nat, ticket: Ticket, after: B.Pool, found: B.BufferId)
    requires Held(tickets, pool) && id in tickets && tickets[id].buffer.None? && ticket.buffer == Some(found)
    requires B.Found(pool, B.CpuRead, after, Ok(found)) && B.PoolFits(pool)
    requires forall k | k in tickets && tickets[k].buffer.Some? :: !pool.slots[tickets[k].buffer.value.slot].state.Free?
    ensures Held(tickets[id := ticket], after)
    ensures forall k | k in tickets && tickets[k].buffer.Some? ::
              after.slots[tickets[k].buffer.value.slot] == pool.slots[tickets[k].buffer.value.slot]
  {
    var now := tickets[id := ticket];
    forall i | 0 <= i < |after.slots| && B.Active(after.slots[i].state)
      ensures exists x :: x in now && Owns(now[x], i)
    {
      if i == found.slot {
        assert Owns(now[id], i);
      } else {
        assert after.slots[i] == pool.slots[i];
        var x :| x in tickets && Owns(tickets[x], i);
        assert Owns(now[x], i);
      }
    }
  }

  // ---------------------------------------------------------------- descriptors

  lemma LinkedPut(tickets: map<nat, Ticket>, d: D.Descriptors, id: nat, ticket: Ticket)
    requires Linked(tickets, d)
    requires id in tickets ==>
               && ticket.buffer == tickets[id].buffer
               && ticket.originalPending == tickets[id].originalPending && ticket.cancelPending == tickets[id].cancelPending
               && ticket.originalToken == tickets[id].originalToken && ticket.cancelToken == tickets[id].cancelToken
    requires id !in tickets ==>
               !ticket.originalPending && !ticket.cancelPending && ticket.originalToken.None? && ticket.cancelToken.None?
    ensures Linked(tickets[id := ticket], d)
  {
    hide D.SlotOf, D.IsCancel, D.Find, D.GenerationOf;
    assert id in tickets ==> TokensFit(d, id, tickets[id]);
  }

  /** A ticket without tokens may also change its buffer. */
  lemma LinkedRebuffers(tickets: map<nat, Ticket>, d: D.Descriptors, id: nat, ticket: Ticket)
    requires Linked(tickets, d) && id in tickets
    requires tickets[id].originalToken.None? && tickets[id].cancelToken.None?
    requires ticket.originalToken.None? && ticket.cancelToken.None? && !ticket.originalPending && !ticket.cancelPending
    ensures Linked(tickets[id := ticket], d)
  {
    hide D.SlotOf, D.IsCancel, D.Find, D.GenerationOf;
  }

  lemma LinkedRemoves(tickets: map<nat, Ticket>, d: D.Descriptors, id: nat)
    requires Linked(tickets, d) && id in tickets && tickets[id].originalToken.None? && tickets[id].cancelToken.None?
    ensures Linked(tickets - {id}, d)
  {
    hide D.SlotOf, D.IsCancel, D.Find, D.GenerationOf;
  }

  /** A descriptor slot used by `id` changes together with the tokens of `id`. */
  lemma LinkedChanges(tickets: map<nat, Ticket>, d: D.Descriptors, id: nat, ticket: Ticket, after: D.Descriptors, k: nat)
    requires Linked(tickets, d) && id in tickets && k < |d.slots|
    requires |after.slots| == |d.slots|
    requires forall i | 0 <= i < |d.slots| && i != k :: after.slots[i].entry == d.slots[i].entry && after.slots[i].generation == d.slots[i].generation
    requires d.slots[k].entry.Some? ==> d.slots[k].entry.value.binding.operation == id
    requires forall i | 0 <= i < |d.slots| && i != k && d.slots[i].entry.Some? :: d.slots[i].entry.value.binding.operation != id
    requires TokensFit(after, id, ticket)
    requires after.slots[k].entry.Some? ==> after.slots[k].entry.value.binding.operation == id && Uses(ticket, k)
    ensures Linked(tickets[id := ticket], after)
  {
    hide D.SlotOf, D.IsCancel, D.GenerationOf, Uses;
    forall x | x in tickets && x != id ensures TokensFit(after, x, tickets[x]) {
      assert TokensFit(d, x, tickets[x]);
    }
  }

  /** A ticket uses one descriptor at most. */
  lemma OneDescriptor(tickets: map<nat, Ticket>, d: D.Descriptors, id: nat, k: nat)
    requires Linked(tickets, d) && id in tickets && Uses(tickets[id], k)
    ensures k < |d.slots| && d.slots[k].entry.Some? && d.slots[k].entry.value.binding.operation == id
    ensures forall i | 0 <= i < |d.slots| && i != k && d.slots[i].entry.Some? :: d.slots[i].entry.value.binding.operation != id
  {
    hide D.SlotOf, D.IsCancel, D.GenerationOf;
    assert TokensFit(d, id, tickets[id]);
  }

  lemma NoDescriptor(tickets: map<nat, Ticket>, d: D.Descriptors, id: nat)
    requires Linked(tickets, d) && id in tickets && tickets[id].originalToken.None? && tickets[id].cancelToken.None?
    ensures forall i | 0 <= i < |d.slots| && d.slots[i].entry.Some? :: d.slots[i].entry.value.binding.operation != id
  {
    hide D.SlotOf, D.IsCancel, D.GenerationOf;
  }

  // ---------------------------------------------------------------- waiters and charges

  lemma AskedPut(tickets: map<nat, Ticket>, requests: map<nat, nat>, id: nat, ticket: Ticket)
    requires Asked(tickets, requests) && id in tickets && ticket.waiters == tickets[id].waiters
    ensures Asked(tickets[id := ticket], requests)
    ensures AllWaiters(tickets[id := ticket], requests) == AllWaiters(tickets, requests)
  {
    assert forall x | x in tickets :: tickets[id := ticket][x].waiters == tickets[x].waiters;
  }

  lemma BillsAdd(all: map<nat, Waiter>, r: nat, w: Waiter, tenant: nat)
    requires r !in all
    ensures Sum(Bills(all[r := w], tenant)) == Sum(Bills(all, tenant)) + (if w.tenant == tenant then LogicalBytes(w.required) else 0)
  {
    hide Sum, LogicalBytes;
    if w.tenant == tenant {
      assert Bills(all[r := w], tenant) == Bills(all, tenant)[r := LogicalBytes(w.required)];
      SumUpdates(Bills(all, tenant), r, LogicalBytes(w.required));
    } else {
      assert Bills(all[r := w], tenant) == Bills(all, tenant);
    }
  }

  lemma BillsRemove(all: map<nat, Waiter>, r: nat, tenant: nat)
    requires r in all
    ensures Sum(Bills(all, tenant)) == Sum(Bills(all - {r}, tenant)) + (if all[r].tenant == tenant then LogicalBytes(all[r].required) else 0)
  {
    hide Sum, LogicalBytes;
    SumRemoves(Bills(all, tenant), r);
    assert Bills(all - {r}, tenant) == Bills(all, tenant) - {r};
  }

  lemma BilledAdds(all: map<nat, Waiter>, charges: map<nat, nat>, limit: nat, r: nat, w: Waiter)
    requires Billed(all, charges, limit) && r !in all
    requires ChargeIn(charges, w.tenant) + LogicalBytes(w.required) <= limit
    ensures Billed(all[r := w], charges[w.tenant := ChargeIn(charges, w.tenant) + LogicalBytes(w.required)], limit)
  {
    hide Sum, Bills;
    var after := charges[w.tenant := ChargeIn(charges, w.tenant) + LogicalBytes(w.required)];
    forall tenant: nat ensures ChargeIn(after, tenant) == Sum(Bills(all[r := w], tenant)) <= limit {
      BillsAdd(all, r, w, tenant);
      assert ChargeIn(charges, tenant) == Sum(Bills(all, tenant));
    }
  }

  /** Uncharging a waiter always succeeds. */
  lemma BilledRemoves(t: Table, all: map<nat, Waiter>, limit: nat, r: nat)
    requires Billed(all, t.charges, limit) && r in all
    ensures var o := Uncharge(t, all[r].tenant, LogicalBytes(all[r].required));
            o.result == Ok(()) && o.table == t.(charges := o.table.charges) && Billed(all - {r}, o.table.charges, limit)
  {
    hide Sum, Bills;
    var w := all[r];
    BillsRemove(all, r, w.tenant);
    assert ChargeIn(t.charges, w.tenant) == Sum(Bills(all, w.tenant));
    assert LogicalBytes(w.required) > 0;
    var after := Uncharge(t, w.tenant, LogicalBytes(w.required)).table.charges;
    forall tenant: nat ensures ChargeIn(after, tenant) == Sum(Bills(all - {r}, tenant)) <= limit {
      BillsRemove(all, r, tenant);
      assert ChargeIn(t.charges, tenant) == Sum(Bills(all, tenant));
    }
  }

  function Members(ids: seq<nat>): set<nat> {
    set i | i in ids
  }

  /** Releasing waiters in turn succeeds and uncharges exactly them. */
  lemma {:induction false} ReleasesWaiters(t: Table, all: map<nat, Waiter>, limit: nat, waiters: map<nat, Waiter>, ids: seq<nat>, n: nat, first: bool)
    requires n <= |ids| && (forall i | i in ids :: i in waiters)
    requires Billed(all, t.charges, limit)
    requires forall i | i in ids :: i in all && all[i] == waiters[i]
    requires forall i, j | 0 <= i < j < |ids| :: ids[i] != ids[j]
    ensures var o := ReleaseWaiters(t, waiters, ids, n, first);
            && o.result == Ok(())
            && o.table == t.(charges := o.table.charges, requests := t.requests - Members(ids[..n]))
            && Billed(all - Members(ids[..n]), o.table.charges, limit)
  {
    hide Billed, LogicalBytes, Uncharge;
    if n == 0 {
      assert all - Members(ids[..0]) == all && t.requests - Members(ids[..0]) == t.requests;
    } else {
      ReleasesWaiters(t, all, limit, waiters, ids, n - 1, first);
      var id, gone := ids[n - 1], Members(ids[..n - 1]);
      var u := ReleaseWaiters(t, waiters, ids, n - 1, first).table;
      assert id !in gone by {
        assert forall i | 0 <= i < n - 1 :: ids[i] != id;
      }
      BilledRemoves(u, all - gone, limit, id);
      assert Members(ids[..n]) == gone + {id} by {
        assert ids[..n] == ids[..n - 1] + [id];
      }
      assert all - Members(ids[..n]) == (all - gone) - {id};
      assert t.requests - Members(ids[..n]) == (t.requests - gone) - {id};
    }
  }
}
