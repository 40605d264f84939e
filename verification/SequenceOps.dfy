/** The operations of the page table on top of the page-level steps. */
module SequenceOps {
  import opened Collections
  import opened Page
  import opened SequenceModel
  import opened SequenceSteps

  // ---------------------------------------------------------------- isolation

  /** Draft slots of the pages of `s` are never taken away or exchanged. */
  ghost predicate KeepsDrafts(t: Table, u: Table, s: Sequence) {
    forall i | 0 <= i < |s.pages| ::
      && s.pages[i].physical in t.physical && s.pages[i].physical in u.physical
      && (t.physical[s.pages[i].physical].draft.Some? ==>
            u.physical[s.pages[i].physical].draft == t.physical[s.pages[i].physical].draft)
  }

  /** Every sequence but `id` is there before and after, with the same header and page list. */
  ghost predicate Isolates(t: Table, u: Table, id: nat) {
    && (forall x | x != id :: x in t.sequences <==> x in u.sequences)
    && (forall x | x in t.sequences && x != id ::
          u.sequences[x] == t.sequences[x] && KeepsDrafts(t, u, t.sequences[x]))
  }

  /** Ids only leave the free sets and only enter the quarantine. */
  ghost predicate Flows(t: Table, u: Table) {
    && u.freeTarget <= t.freeTarget && t.quarantinedTarget <= u.quarantinedTarget
    && u.freeDraft <= t.freeDraft && t.quarantinedDraft <= u.quarantinedDraft
    && u.config == t.config && u.bound == t.bound
  }

  /** What every successful step on sequence `id` guarantees. */
  ghost predicate Follows(t: Table, u: Table, id: nat) {
    Consistent(u) && Isolates(t, u, id) && Flows(t, u)
  }

  lemma FollowsTransitive(t: Table, u: Table, v: Table, id: nat)
    requires Follows(t, u, id) && Follows(u, v, id)
    ensures Follows(t, v, id)
  {
    forall x | x in t.sequences && x != id ensures KeepsDrafts(t, v, t.sequences[x]) {
      assert KeepsDrafts(t, u, t.sequences[x]) && KeepsDrafts(u, v, u.sequences[x]);
    }
  }

  lemma IsolatesByDrafts(t: Table, u: Table, id: nat)
    requires AllEntriesOk(t)
    requires forall p | p in t.physical :: p in u.physical
    requires forall p | p in t.physical && t.physical[p].draft.Some? :: u.physical[p].draft == t.physical[p].draft
    requires id in t.sequences && id in u.sequences && u.sequences == t.sequences[id := u.sequences[id]]
    ensures Isolates(t, u, id)
  {
    forall x | x in t.sequences && x != id ensures KeepsDrafts(t, u, t.sequences[x]) {
      assert EntriesOk(t, t.sequences[x]);
    }
  }

  lemma GrowFollows(t: Table, id: nat, h: Sequence, prefix: Option<PrefixBinding>)
    requires Consistent(t) && CanGrow(t, id, h) && CanPublish(t, h, prefix)
    ensures Grow(t, id, h, prefix).Ok? ==> Follows(t, Grow(t, id, h, prefix).value, id)
    ensures Grow(t, id, h, prefix).Err? ==> Grow(t, id, h, prefix).error == Capacity
  {
    hide PoolsOk, ReferencesOk, PagesOk, PrefixesOk, ShapesOk, AllEntriesOk, Isolates, CanGrow;
    GrowKeepsConsistent(t, id, h, prefix);
    if Grow(t, id, h, prefix).Ok? {
      var p := GrowAppends(t, id, h, prefix);
      IsolatesByDrafts(t, Grow(t, id, h, prefix).value, id);
    }
  }

  lemma ShareFollows(t: Table, id: nat, h: Sequence, p: PageId, page: PhysicalPage)
    requires Consistent(t) && CanShare(t, id, h, p, page)
    ensures Follows(t, Share(t, id, h, p, page), id)
  {
    hide PoolsOk, ReferencesOk, PagesOk, PrefixesOk, ShapesOk, AllEntriesOk, Isolates;
    ShareKeepsConsistent(t, id, h, p, page);
    IsolatesByDrafts(t, Share(t, id, h, p, page), id);
  }

  lemma ReshapeFollows(t: Table, u: Table, id: nat, h: Sequence)
    requires Consistent(t) && Reshapes(t, u, id, h)
    ensures Follows(t, u, id)
  {
    hide PoolsOk, ReferencesOk, PagesOk, PrefixesOk, ShapesOk, AllEntriesOk, Isolates;
    ReshapeKeepsConsistent(t, u, id, h);
    IsolatesByDrafts(t, u, id);
  }

  lemma DropIsolates(t: Table, u: Table, id: nat, h: Sequence)
    requires ReferencesOk(t) && AllEntriesOk(t) && Drops(t, u, id, h)
    ensures Isolates(t, u, id)
  {
    assert SamePlace(t.sequences[id], t.sequences[id]);
    forall x | x in t.sequences && x != id ensures KeepsDrafts(t, u, t.sequences[x]) {
      assert EntriesOk(t, t.sequences[x]);
      DropSpares(t, u, id, h, x);
    }
  }

  lemma DropFollows(t: Table, id: nat, h: Sequence)
    requires Consistent(t) && CanDrop(t, id, h)
    ensures Follows(t, DropLast(t, id, h), id)
  {
    hide PoolsOk, PagesOk, PrefixesOk, ShapesOk, ReferencesOk, AllEntriesOk, Isolates, Drops, CanDrop;
    DropKeepsConsistent(t, id, h);
    DropFacts(t, id, h);
    DropIsolates(t, DropLast(t, id, h), id, h);
  }

  // ---------------------------------------------------------------- tokens

  /** Sequence `id` has the header `h`, whatever its page list. */
  predicate HeaderOf(t: Table, id: nat, h: Sequence) {
    id in t.sequences && t.sequences[id] == h.(pages := t.sequences[id].pages)
  }

  /** One more token: reserved while a transaction is open, committed otherwise. */
  function MoreTokens(s: Sequence, n: nat): Sequence {
    if s.tentative.None? then s.(committed := s.committed + n)
    else s.(tentative := Some(s.tentative.value.(reserved := s.tentative.value.reserved + n)))
  }

  /** Sequence `id` may take `n` more tokens. */
  ghost predicate HasContext(t: Table, id: nat, n: nat) {
    && id in t.sequences
    && Positions(t.sequences[id]) + n <= MAX_CONTEXT_TOKENS
    && (t.sequences[id].tentative.Some? ==> Reserved(t.sequences[id]) + n <= 7)
  }

  lemma AddTokenFollows(t: Table, id: nat, h: Sequence)
    requires Consistent(t) && HasContext(t, id, 1) && h == MoreTokens(t.sequences[id], 1)
    ensures AddToken(t, id, h).Ok? ==> Follows(t, AddToken(t, id, h).value, id)
    ensures AddToken(t, id, h).Err? ==> AddToken(t, id, h).error == Capacity
    ensures AddToken(t, id, h).Ok? ==> HeaderOf(AddToken(t, id, h).value, id, h)
  {
    hide PoolsOk, ReferencesOk, AllEntriesOk, PagesOk, PrefixesOk, Reshapes, Isolates;
    var s := t.sequences[id];
    assert ShapeOk(t.physical, s);
    if Positions(s) % 64 == 0 {
      assert CanGrow(t, id, h);
      GrowFollows(t, id, h, None);
    } else {
      var u := AddToken(t, id, h).value;
      TailRefill(t, id, h);
      ReshapeFollows(t, u, id, h);
    }
  }

  lemma TailRefill(t: Table, id: nat, h: Sequence)
    requires Consistent(t) && HasContext(t, id, 1) && h == MoreTokens(t.sequences[id], 1) && Positions(t.sequences[id]) % 64 != 0
    ensures h.pages != [] && LastOf(h) in t.physical
    ensures AddToken(t, id, h).Ok? && Reshapes(t, AddToken(t, id, h).value, id, h)
  {
    hide PoolsOk, ReferencesOk, PagesOk, PrefixesOk;
    var s := t.sequences[id];
    assert ShapeOk(t.physical, s);
    var last := |h.pages| - 1;
    var u := AddToken(t, id, h).value;
    assert Holds(h, LastOf(h)) by { assert h.pages[last].physical == LastOf(h); }
    assert t.physical[LastOf(h)].state != HbmSealed;
    assert SamePlace(s, s);
    TailRefillPages(t.physical, s, h);
    hide StateAt, Filled;
  }

  /** Only the last page of a sequence changes when a token lands in it. */
  lemma TailRefillPages(physical: map<PageId, PhysicalPage>, s: Sequence, h: Sequence)
    requires ShapeOk(physical, s) && SamePlace(s, s) && Positions(s) % 64 != 0
    requires h.pages == s.pages && h.pages != [] && Positions(h) == Positions(s) + 1
    requires h.committed == s.committed || Reserved(s) == Reserved(h) == 0
    ensures var last := |h.pages| - 1;
            var p := LastOf(h);
            var after := physical[p := physical[p].(valid := Filled(Positions(h), last), state := StateAt(h, last))];
            forall i | 0 <= i < |h.pages| ::
              && after[h.pages[i].physical].valid == Filled(Positions(h), i)
              && after[h.pages[i].physical].state == StateAt(h, i)
  {
  }

  /** The reference form of append and reserve: one token at a time. */
  function AddTokens(t: Table, id: nat, n: nat): Result<Table, Error>
    decreases n
  {
    if n == 0 then Ok(t)
    else if id !in t.sequences then Err(BadSequence)
    else
      var u :- AddToken(t, id, MoreTokens(t.sequences[id], 1));
      AddTokens(u, id, n - 1)
  }

  lemma FollowsSelf(t: Table, id: nat)
    requires Consistent(t)
    ensures Follows(t, t, id)
  {
    hide PoolsOk, ReferencesOk, PagesOk, PrefixesOk, ShapesOk;
    forall x | x in t.sequences ensures KeepsDrafts(t, t, t.sequences[x]) {
      assert EntriesOk(t, t.sequences[x]);
    }
  }

  lemma {:induction false} AddTokensFollows(t: Table, id: nat, n: nat)
    requires Consistent(t) && HasContext(t, id, n)
    ensures AddTokens(t, id, n).Err? ==> AddTokens(t, id, n).error == Capacity
    ensures AddTokens(t, id, n).Ok? ==>
              && Follows(t, AddTokens(t, id, n).value, id)
              && HeaderOf(AddTokens(t, id, n).value, id, MoreTokens(t.sequences[id], n))
    decreases n
  {
    hide Consistent, Isolates, AddToken;
    if n == 0 {
      FollowsSelf(t, id);
    } else {
      var h := MoreTokens(t.sequences[id], 1);
      AddTokenFollows(t, id, h);
      var r := AddToken(t, id, h);
      if r.Ok? {
        AddTokensFollows(r.value, id, n - 1);
        if AddTokens(r.value, id, n - 1).Ok? {
          FollowsTransitive(t, r.value, AddTokens(r.value, id, n - 1).value, id);
        }
      }
    }
  }

  // ---------------------------------------------------------------- settling a transaction

  predicate AllLive(t: Table, h: Sequence) {
    forall i | 0 <= i < |h.pages| :: h.pages[i].physical in t.physical
  }

  /** Gives sequence `id` the header `h` and refills its pages to match. */
  function Refit(t: Table, id: nat, h: Sequence): Result<Table, Error> {
    if AllLive(t, h) then
      Ok(t.(physical := Canonical(t.physical, h, 0), sequences := t.sequences[id := h]))
    else
      Err(BrokenInvariant)
  }

  /** Drops reserved pages until `count` pages are left. */
  function Trim(t: Table, id: nat, count: nat): Result<Table, Error>
    decreases if id in t.sequences then |t.sequences[id].pages| else 0
  {
    if id !in t.sequences then Err(BadSequence)
    else
      var s := t.sequences[id];
      var n := |s.pages|;
      if n <= count then Ok(t)
      else if !HasLast(t, s) || s.tentative.None? || 64 * (n - 1) < s.committed then Err(BrokenInvariant)
      else
        Trim(DropLast(t, id, s.(tentative := Some(s.tentative.value.(reserved := 64 * (n - 1) - s.committed)))),
             id, count)
  }

  lemma {:induction false} CanonicalEffect(physical: map<PageId, PhysicalPage>, h: Sequence, ordinal: nat)
    requires ordinal <= |h.pages| && SamePlace(h, h)
    requires forall i | 0 <= i < |h.pages| :: h.pages[i].physical in physical
    ensures var after := Canonical(physical, h, ordinal);
            && (forall q | q in physical ::
                  after[q] == physical[q].(valid := after[q].valid, state := after[q].state))
            && (forall q | q in physical && !Holds(h, q) :: after[q] == physical[q])
            && (forall i | 0 <= i < ordinal :: after[h.pages[i].physical] == physical[h.pages[i].physical])
            && (forall i | ordinal <= i < |h.pages| ::
                  && after[h.pages[i].physical].valid == Filled(Positions(h), i)
                  && after[h.pages[i].physical].state == StateAt(h, i))
    decreases |h.pages| - ordinal
  {
    hide Filled, StateAt;
    if ordinal < |h.pages| {
      var p := h.pages[ordinal].physical;
      var next := physical[p := physical[p].(valid := Filled(Positions(h), ordinal), state := StateAt(h, ordinal))];
      CanonicalEffect(next, h, ordinal + 1);
      assert Holds(h, p);
    }
  }

  /** `h` is a header that only commits what sequence `id` already holds. */
  ghost predicate Settles(t: Table, id: nat, h: Sequence) {
    && id in t.sequences
    && var s := t.sequences[id];
    && h.pages == s.pages && h.mtp == s.mtp && h.tentative.None?
    && s.committed <= h.committed <= MAX_CONTEXT_TOKENS
    && |h.pages| == PagesFor(h.committed)
  }

  /** Sealed pages already have the fill and state a settled header gives them. */
  lemma SealedStaySealed(physical: map<PageId, PhysicalPage>, s: Sequence, h: Sequence, i: nat)
    requires ShapeOk(physical, s) && h.pages == s.pages && i < |s.pages| && s.committed <= h.committed
    requires physical[s.pages[i].physical].state == HbmSealed
    ensures physical[s.pages[i].physical].valid == Filled(Positions(h), i)
    ensures physical[s.pages[i].physical].state == StateAt(h, i)
  {
  }

  lemma RefitReshapes(t: Table, id: nat, h: Sequence)
    requires Consistent(t) && Settles(t, id, h)
    ensures Refit(t, id, h).Ok? && Reshapes(t, Refit(t, id, h).value, id, h)
  {
    hide PoolsOk, ReferencesOk, PrefixesOk, PagesOk, Filled, StateAt, TailOf, Canonical;
    var s := t.sequences[id];
    assert EntriesOk(t, s) && SamePlace(s, s) && ShapeOk(t.physical, s);
    CanonicalEffect(t.physical, h, 0);
    var u := Refit(t, id, h).value;
    forall q | q in t.physical && t.physical[q].state == HbmSealed ensures u.physical[q] == t.physical[q] {
      if Holds(h, q) {
        var i :| 0 <= i < |h.pages| && h.pages[i].physical == q;
        SealedStaySealed(t.physical, s, h, i);
      }
    }
  }

  lemma RefitFollows(t: Table, id: nat, h: Sequence)
    requires Consistent(t) && Settles(t, id, h)
    ensures Refit(t, id, h).Ok? && Follows(t, Refit(t, id, h).value, id)
    ensures Refit(t, id, h).value.sequences == t.sequences[id := h]
  {
    hide Consistent, Reshapes, Follows;
    RefitReshapes(t, id, h);
    ReshapeFollows(t, Refit(t, id, h).value, id, h);
  }

  function Trimmed(s: Sequence, count: nat): Sequence {
    if |s.pages| <= count || s.tentative.None? || 64 * count < s.committed then s
    else s.(pages := s.pages[..count], tentative := Some(s.tentative.value.(reserved := 64 * count - s.committed)))
  }

  lemma CanTrim(t: Table, id: nat, count: nat)
    requires Consistent(t) && id in t.sequences && t.sequences[id].tentative.Some?
    requires PagesFor(t.sequences[id].committed) <= count < |t.sequences[id].pages|
    ensures var s := t.sequences[id];
            var n := |s.pages|;
            && HasLast(t, s) && s.committed <= 64 * (n - 1)
            && CanDrop(t, id, s.(tentative := Some(s.tentative.value.(reserved := 64 * (n - 1) - s.committed))))
  {
    hide PoolsOk, ReferencesOk, PrefixesOk, PagesOk, AllEntriesOk;
    assert ShapeOk(t.physical, t.sequences[id]);
  }

  lemma {:induction false} TrimFollows(t: Table, id: nat, count: nat)
    requires Consistent(t) && id in t.sequences && t.sequences[id].tentative.Some?
    requires PagesFor(t.sequences[id].committed) <= count
    ensures Trim(t, id, count).Ok? && Follows(t, Trim(t, id, count).value, id)
    ensures id in Trim(t, id, count).value.sequences
    ensures Trim(t, id, count).value.sequences[id] == Trimmed(t.sequences[id], count)
    decreases |t.sequences[id].pages|
  {
    hide Consistent, Isolates;
    var s := t.sequences[id];
    var n := |s.pages|;
    if n <= count {
      FollowsSelf(t, id);
    } else {
      CanTrim(t, id, count);
      var h := s.(tentative := Some(s.tentative.value.(reserved := 64 * (n - 1) - s.committed)));
      DropFollows(t, id, h);
      var u := DropLast(t, id, h);
      TrimFollows(u, id, count);
      FollowsTransitive(t, u, Trim(u, id, count).value, id);
    }
  }
}
