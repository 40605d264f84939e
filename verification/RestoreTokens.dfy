/** A completed token never resolves again: at the restore table no cancel is issued twice. */
module RestoreTokens {
  import opened Collections
  import opened RestoreModel
  import opened RestoreInvariant
  import opened RestoreParts
  import D = DirectDescriptors

  /** A completed cancel whose read is still pending: its ticket has ended, so it is not issued again. */
  predicate CancelSpent(t: Table, token: D.Token) {
    && D.IsCancel(token) && D.Find(t.descriptors, token).Ok?
    && var e := t.descriptors.slots[D.SlotOf(token)].entry;
    && e.Some? && e.value.original && !e.value.cancel
    && e.value.binding.operation in t.tickets && Ended(t.tickets[e.value.binding.operation])
  }

  predicate TokenSpent(t: Table, token: D.Token) {
    D.Finished(t.descriptors, token) || CancelSpent(t, token)
  }

  lemma SpentIsDead(t: Table, token: D.Token)
    requires TokenSpent(t, token)
    ensures D.Resolve(t.descriptors, token).Err? && D.Complete(t.descriptors, token).Err?
  {
    hide D.SlotOf, D.GenerationOf, D.IsCancel;
  }

  /** A descriptor belongs to the ticket it names. */
  lemma OwnerPends(t: Table, k: nat)
    requires Accounts(t) && k < |t.descriptors.slots| && t.descriptors.slots[k].entry.Some?
    ensures var e := t.descriptors.slots[k].entry.value;
            && e.binding.operation in t.tickets && Uses(t.tickets[e.binding.operation], k)
            && e.original == t.tickets[e.binding.operation].originalPending
            && e.cancel == t.tickets[e.binding.operation].cancelPending
  {
    hide Sized, Held, Asked, Billed, AllWaiters, TicketsFit, Counted, D.SlotOf, D.GenerationOf, D.IsCancel;
    var id := t.descriptors.slots[k].entry.value.binding.operation;
    assert TokensFit(t.descriptors, id, t.tickets[id]);
  }

  /** The descriptors stay; an ended ticket stays ended. */
  lemma SpentStays(t: Table, u: Table, id: nat, token: D.Token)
    requires Accounts(t) && Apart(t, u, id) && u.descriptors == t.descriptors && TokenSpent(t, token)
    requires id in t.tickets && t.tickets[id].originalPending && Ended(t.tickets[id]) ==>
               id in u.tickets && Ended(u.tickets[id])
    ensures TokenSpent(u, token)
  {
    hide Accounts, D.SlotOf, D.GenerationOf, D.IsCancel;
    if CancelSpent(t, token) {
      OwnerPends(t, D.SlotOf(token));
    }
  }

  lemma SpentAllocates(t: Table, u: Table, id: nat, token: D.Token, binding: D.Binding)
    requires Accounts(t) && Apart(t, u, id) && TokenSpent(t, token)
    requires u.descriptors == D.Allocate(t.descriptors, binding).0
    requires id in t.tickets ==> !Ended(t.tickets[id])
    ensures TokenSpent(u, token)
  {
    hide Accounts, D.SlotOf, D.GenerationOf, D.IsCancel, D.Allocate, D.TableFits;
    DescriptorsFit(t);
    if CancelSpent(t, token) {
      OccupiedStays(t.descriptors, binding, D.SlotOf(token));
    } else {
      D.StepFinishes(t.descriptors, D.Allocates(binding), token);
    }
  }

  lemma DescriptorsFit(t: Table)
    requires Accounts(t)
    ensures D.TableFits(t.descriptors)
  {
  }

  lemma OccupiedStays(d: D.Descriptors, binding: D.Binding, k: nat)
    requires D.TableFits(d) && k < |d.slots| && d.slots[k].entry.Some?
    ensures k < |D.Allocate(d, binding).0.slots| && D.Allocate(d, binding).0.slots[k] == d.slots[k]
    ensures |D.Allocate(d, binding).0.slots| == |d.slots|
  {
    hide D.SlotOf, D.GenerationOf, D.IsCancel, D.TableFits;
    if binding.buffer.generation != 0 && binding.operation != 0 {
      D.AllocateOutcome(d, binding);
    }
  }

  /** Completing a token of ticket `id`. */
  lemma SpentCompletes(t: Table, u: Table, id: nat, token: D.Token, done: D.Token)
    requires Accounts(t) && Apart(t, u, id) && TokenSpent(t, token) && id in t.tickets
    requires t.tickets[id].originalToken == Some(done) || t.tickets[id].cancelToken == Some(done)
    requires D.Complete(t.descriptors, done) == Ok(u.descriptors)
    ensures TokenSpent(u, token)
  {
    hide Accounts, D.SlotOf, D.GenerationOf, D.IsCancel, D.TableFits, Linked;
    DescriptorsFit(t);
    if CancelSpent(t, token) {
      OwnerPends(t, D.SlotOf(token));
      OwnerOf(t, id, done);
      LinkedOf(t);
      assert Uses(t.tickets[id], D.SlotOf(done));
      OneDescriptor(t.tickets, t.descriptors, id, D.SlotOf(done));
    } else {
      D.StepFinishes(t.descriptors, D.Completes(done), token);
    }
  }

  lemma LinkedOf(t: Table)
    requires Accounts(t)
    ensures Linked(t.tickets, t.descriptors)
  {
  }

  lemma OwnerOf(t: Table, id: nat, token: D.Token)
    requires Accounts(t) && id in t.tickets
    requires t.tickets[id].originalToken == Some(token) || t.tickets[id].cancelToken == Some(token)
    ensures D.Find(t.descriptors, token).Ok? && t.descriptors.slots[D.SlotOf(token)].entry.Some?
    ensures t.descriptors.slots[D.SlotOf(token)].entry.value.binding.operation == id
    ensures t.tickets[id].originalToken == Some(token) ==> !D.IsCancel(token)
  {
    hide Sized, Held, Asked, Billed, AllWaiters, TicketsFit, Counted, D.SlotOf, D.GenerationOf, D.IsCancel;
    assert TokensFit(t.descriptors, id, t.tickets[id]);
  }

  /** The completed token itself. */
  lemma NewlySpent(t: Table, u: Table, id: nat, done: D.Token)
    requires Accounts(t) && id in t.tickets && D.Complete(t.descriptors, done) == Ok(u.descriptors)
    requires t.tickets[id].originalToken == Some(done) || t.tickets[id].cancelToken == Some(done)
    requires D.IsCancel(done) && t.tickets[id].originalPending ==> id in u.tickets && Ended(u.tickets[id])
    ensures TokenSpent(u, done)
  {
    hide Accounts, D.SlotOf, D.GenerationOf, D.IsCancel, D.TableFits;
    DescriptorsFit(t);
    OwnerOf(t, id, done);
    OwnerPends(t, D.SlotOf(done));
  }

  /** Issuing a cancel for a submitted read revives no spent token. */
  lemma SpentCancels(t: Table, u: Table, id: nat, token: D.Token)
    requires Accounts(t) && Apart(t, u, id) && TokenSpent(t, token) && id in t.tickets && t.tickets[id].state.ReadSubmitted?
    requires t.tickets[id].originalToken.Some?
    requires D.IssueCancel(t.descriptors, t.tickets[id].originalToken.value) == Ok(u.descriptors)
    ensures TokenSpent(u, token)
  {
    hide Accounts, D.SlotOf, D.GenerationOf, D.IsCancel, D.TableFits;
    DescriptorsFit(t);
    var original := t.tickets[id].originalToken.value;
    OwnerOf(t, id, original);
    if !CancelSpent(t, token) {
      D.StepFinishes(t.descriptors, D.Issues(original), token);
    }
  }
}
