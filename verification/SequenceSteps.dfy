/** Each page-level step of the table keeps the invariant. */
module SequenceSteps {
  import opened Collections
  import opened Page
  import opened SequenceModel

  // ---------------------------------------------------------------- holders

  lemma HoldersAfterPush(sequences: map<nat, Sequence>, id: nat, h: Sequence, p: PageId, q: PageId)
    requires id in sequences && h.pages == sequences[id].pages
    ensures Holders(sequences[id := Pushed(h, p)], q) ==
            if q == p then Holders(sequences, q) + {id} else Holders(sequences, q)
  {
    var u := Pushed(h, p);
    assert Holds(u, q) <==> Holds(sequences[id], q) || q == p by {
      if q == p {
        assert u.pages[|h.pages|].physical == p;
      }
      if Holds(sequences[id], q) {
        var i :| 0 <= i < |h.pages| && sequences[id].pages[i].physical == q;
        assert u.pages[i].physical == q;
      }
    }
  }

  lemma HoldersAfterPop(sequences: map<nat, Sequence>, id: nat, h: Sequence, q: PageId)
    requires id in sequences && h.pages == sequences[id].pages && h.pages != []
    requires SamePlace(h, h)
    ensures var last := |h.pages| - 1;
            Holders(sequences[id := h.(pages := h.pages[..last])], q) ==
            if q == h.pages[last].physical then Holders(sequences, q) - {id} else Holders(sequences, q)
    ensures id in Holders(sequences, h.pages[|h.pages| - 1].physical)
  {
    var last := |h.pages| - 1;
    var u := h.(pages := h.pages[..last]);
    assert Holds(u, q) <==> Holds(sequences[id], q) && q != h.pages[last].physical by {
      if Holds(sequences[id], q) && q != h.pages[last].physical {
        var i :| 0 <= i < |h.pages| && sequences[id].pages[i].physical == q;
        assert u.pages[i].physical == q;
      }
      if Holds(u, q) {
        var i :| 0 <= i < |u.pages| && u.pages[i].physical == q;
        assert h.pages[i].physical == q;
      }
    }
  }

  // ---------------------------------------------------------------- a new private page

  /** The header `h` may gain a page: its current pages are full and keep their state. */
  ghost predicate CanGrow(t: Table, id: nat, h: Sequence) {
    && id in t.sequences
    && var s := t.sequences[id];
    && h.pages == s.pages && h.mtp == s.mtp
    && Positions(s) == 64 * |s.pages| < Positions(h) <= 64 * (|s.pages| + 1)
    && Positions(h) <= MAX_CONTEXT_TOKENS
    && s.committed <= h.committed
    && (h.committed == s.committed || Reserved(s) == 0)
    && (Reserved(s) == 0 ==> 64 * |s.pages| == s.committed)
    && (h.tentative.Some? ==> h.tentative.value == TailOf(h, Reserved(h)) && Reserved(h) <= 7)
  }

  ghost predicate CanPublish(t: Table, h: Sequence, prefix: Option<PrefixBinding>) {
    prefix.Some? ==>
      && prefix.value.attachment.key !in t.prefixes
      && prefix.value.ordinal == |h.pages|
      && StateAt(h, |h.pages|) == HbmSealed
  }

  lemma LiveDraftsInsert(physical: map<PageId, PhysicalPage>, p: PageId, page: PhysicalPage)
    requires p !in physical || physical[p].draft.None? || physical[p].draft == page.draft
    ensures LiveDrafts(physical[p := page]) == LiveDrafts(physical) + DraftIds(p, page.draft)
  {
    var after := physical[p := page];
    forall d | d in LiveDrafts(physical) ensures d in LiveDrafts(after) {
      var q :| q in physical && physical[q].draft.Some? && d == PageId(q.rank, physical[q].draft.value);
      assert q in after && after[q].draft.Some? && d == PageId(q.rank, after[q].draft.value);
    }
    if page.draft.Some? {
      assert p in after && after[p].draft.Some?;
    }
  }

  lemma DistinctInsert(physical: map<PageId, PhysicalPage>, p: PageId, page: PhysicalPage)
    requires DistinctDrafts(physical)
    requires DraftIds(p, page.draft) !! LiveDrafts(physical - {p})
    ensures DistinctDrafts(physical[p := page])
  {
    var after := physical[p := page];
    assert forall q | q in after && q != p && after[q].draft.Some? ::
        q in physical - {p} && PageId(q.rank, after[q].draft.value) in LiveDrafts(physical - {p});
  }

  lemma GrowPools(t: Table, id: nat, h: Sequence, prefix: Option<PrefixBinding>)
    requires PoolsOk(t)
    requires Grow(t, id, h, prefix).Ok?
    ensures PoolsOk(Grow(t, id, h, prefix).value)
  {
    var u := Grow(t, id, h, prefix).value;
    var p := Allocate(t, |h.pages|, h.mtp).value.page;
    assert u.physical == t.physical[p := u.physical[p]];
    LiveDraftsInsert(t.physical, p, u.physical[p]);
    assert t.physical - {p} == t.physical;
    DistinctInsert(t.physical, p, u.physical[p]);
    assert Partition(u.freeTarget, u.quarantinedTarget, u.physical.Keys, u.config.targetPages);
    assert Partition(u.freeDraft, u.quarantinedDraft, LiveDrafts(u.physical), u.config.draftPages);
  }

  // ---------------------------------------------------------------- one more entry

  /** `u` is `t` with page `p`, now containing `page`, appended to sequence `id`. */
  ghost predicate Appends(t: Table, u: Table, id: nat, h: Sequence, p: PageId, page: PhysicalPage) {
    && id in t.sequences && h.pages == t.sequences[id].pages && h.mtp == t.sequences[id].mtp
    && u.physical == t.physical[p := page]
    && u.sequences == t.sequences[id := Pushed(h, p)]
    && p.rank == OwnerRank(|h.pages|)
    && (h.mtp ==> page.draft.Some?)
    && (page.prefix.Some? ==> page.prefix.value.ordinal == |h.pages|)
  }

  /** `p` is fresh, or is listed only at ordinal `n` and keeps what its holders see. */
  ghost predicate Attachable(t: Table, p: PageId, page: PhysicalPage, n: nat) {
    && (p in t.physical ==>
          && page.valid == t.physical[p].valid && page.state == t.physical[p].state
          && page.prefix.Some? == t.physical[p].prefix.Some?
          && (t.physical[p].draft.Some? ==> page.draft == t.physical[p].draft)
          && page.references == t.physical[p].references + 1)
    && (p !in t.physical ==> page.references == 1)
    && (forall x | x in t.sequences :: PlaceIs(t.sequences[x], p, n))
  }

  ghost predicate PlaceIs(s: Sequence, p: PageId, n: nat) {
    forall j | 0 <= j < |s.pages| && s.pages[j].physical == p :: j == n
  }

  lemma FreshPlace(t: Table, p: PageId, n: nat)
    requires AllEntriesOk(t) && p !in t.physical
    ensures forall x | x in t.sequences :: PlaceIs(t.sequences[x], p, n)
    ensures Holders(t.sequences, p) == {}
  {
    forall x | x in t.sequences ensures PlaceIs(t.sequences[x], p, n) && !Holds(t.sequences[x], p) {
      assert EntriesOk(t, t.sequences[x]);
    }
  }

  lemma AppendKeepsReferences(t: Table, u: Table, id: nat, h: Sequence, p: PageId, page: PhysicalPage)
    requires ReferencesOk(t) && Appends(t, u, id, h, p, page) && Attachable(t, p, page, |h.pages|)
    requires p !in t.physical ==> Holders(t.sequences, p) == {}
    ensures ReferencesOk(u)
  {
    assert id !in Holders(t.sequences, p) by {
      assert PlaceIs(t.sequences[id], p, |h.pages|);
    }
    forall q | q in u.physical ensures 0 < u.physical[q].references == |Holders(u.sequences, q)| {
      HoldersAfterPush(t.sequences, id, h, p, q);
    }
  }

  lemma AppendKeepsEntries(t: Table, u: Table, id: nat, h: Sequence, p: PageId, page: PhysicalPage)
    requires AllEntriesOk(t) && Appends(t, u, id, h, p, page) && Attachable(t, p, page, |h.pages|)
    requires p in t.physical && page.prefix.Some? ==> page.prefix.value.ordinal == t.physical[p].prefix.value.ordinal
    ensures AllEntriesOk(u)
  {
    forall x | x in u.sequences ensures EntriesOk(u, u.sequences[x]) {
      assert EntriesOk(t, t.sequences[x]);
    }
    forall x, y | x in u.sequences && y in u.sequences ensures SamePlace(u.sequences[x], u.sequences[y]) {
      assert SamePlace(t.sequences[x], t.sequences[y]);
      assert PlaceIs(t.sequences[x], p, |h.pages|) && PlaceIs(t.sequences[y], p, |h.pages|);
    }
  }

  lemma ExtendedShape(physical: map<PageId, PhysicalPage>, p: PageId, page: PhysicalPage, s: Sequence)
    requires ShapeOk(physical, s)
    requires p in physical ==> page.valid == physical[p].valid && page.state == physical[p].state
    ensures ShapeOk(physical[p := page], s)
  {
    hide Filled, StateAt, TailOf;
  }

  lemma PushedShape(physical: map<PageId, PhysicalPage>, p: PageId, page: PhysicalPage, s: Sequence, h: Sequence)
    requires ShapeOk(physical, s) && h.pages == s.pages
    requires forall i | 0 <= i < |s.pages| :: s.pages[i].physical != p
    requires Positions(s) == 64 * |s.pages| < Positions(h) <= 64 * (|s.pages| + 1)
    requires Positions(h) <= MAX_CONTEXT_TOKENS
    requires s.committed <= h.committed && (h.committed == s.committed || Reserved(s) == 0)
    requires Reserved(s) == 0 ==> 64 * |s.pages| == s.committed
    requires h.tentative.Some? ==> h.tentative.value == TailOf(h, Reserved(h)) && Reserved(h) <= 7
    requires page.valid == Filled(Positions(h), |h.pages|) && page.state == StateAt(h, |h.pages|)
    ensures ShapeOk(physical[p := page], Pushed(h, p))
  {
    var u := Pushed(h, p);
    forall i | 0 <= i < |u.pages|
      ensures var q := u.pages[i].physical;
              q in physical[p := page] && physical[p := page][q].valid == Filled(Positions(u), i)
              && physical[p := page][q].state == StateAt(u, i)
    {
      if i < |s.pages| {
        assert u.pages[i] == s.pages[i];
      }
    }
  }

  lemma AppendKeepsShapes(t: Table, u: Table, id: nat, h: Sequence, p: PageId, page: PhysicalPage)
    requires ShapesOk(t) && Appends(t, u, id, h, p, page) && Attachable(t, p, page, |h.pages|)
    requires CanGrow(t, id, h)
    requires page.valid == Filled(Positions(h), |h.pages|) && page.state == StateAt(h, |h.pages|)
    ensures ShapesOk(u)
  {
    forall x | x in u.sequences ensures ShapeOk(u.physical, u.sequences[x]) {
      hide ShapeOk, TailOf, Filled, StateAt;
      if x == id {
        assert PlaceIs(t.sequences[id], p, |h.pages|);
        PushedShape(t.physical, p, page, t.sequences[id], h);
      } else {
        ExtendedShape(t.physical, p, page, t.sequences[x]);
      }
    }
  }

  lemma GrowPages(t: Table, id: nat, h: Sequence, prefix: Option<PrefixBinding>)
    requires PoolsOk(t) && PagesOk(t) && PrefixesOk(t) && CanGrow(t, id, h) && CanPublish(t, h, prefix)
    requires Grow(t, id, h, prefix).Ok?
    ensures PagesOk(Grow(t, id, h, prefix).value)
    ensures PrefixesOk(Grow(t, id, h, prefix).value)
  {
    var p := Allocate(t, |h.pages|, h.mtp).value.page;
    assert p !in t.physical;
  }

  lemma GrowAppends(t: Table, id: nat, h: Sequence, prefix: Option<PrefixBinding>) returns (p: PageId)
    requires PoolsOk(t) && CanGrow(t, id, h) && CanPublish(t, h, prefix)
    requires Grow(t, id, h, prefix).Ok?
    ensures p !in t.physical && p in t.freeTarget && Allocate(t, |h.pages|, h.mtp).value.page == p
    ensures var u := Grow(t, id, h, prefix).value;
            p in u.physical && Appends(t, u, id, h, p, u.physical[p])
            && u.physical[p].valid == Filled(Positions(h), |h.pages|)
            && u.physical[p].state == StateAt(h, |h.pages|)
            && u.physical[p].references == 1
  {
    p := Allocate(t, |h.pages|, h.mtp).value.page;
    assert p in t.freeTarget + t.quarantinedTarget;
  }

  /** A new private page: what the pool, the prefix map and the sequence list gain keeps
      the invariant, and the only way to fail is to run out of slots. */
  lemma GrowKeepsConsistent(t: Table, id: nat, h: Sequence, prefix: Option<PrefixBinding>)
    requires Consistent(t) && CanGrow(t, id, h) && CanPublish(t, h, prefix)
    ensures Grow(t, id, h, prefix).Ok? ==> Consistent(Grow(t, id, h, prefix).value)
    ensures Grow(t, id, h, prefix).Err? ==> Grow(t, id, h, prefix).error == Capacity
  {
    if Grow(t, id, h, prefix).Ok? {
      var u := Grow(t, id, h, prefix).value;
      var p := GrowAppends(t, id, h, prefix);
      FreshPlace(t, p, |h.pages|);
      GrowPools(t, id, h, prefix);
      AppendKeepsReferences(t, u, id, h, p, u.physical[p]);
      AppendKeepsEntries(t, u, id, h, p, u.physical[p]);
      AppendKeepsShapes(t, u, id, h, p, u.physical[p]);
      GrowPages(t, id, h, prefix);
    }
  }

  // ---------------------------------------------------------------- a shared page

  /** A live sealed page may be shared: it may gain a free draft slot and a newer attachment. */
  ghost predicate CanShare(t: Table, id: nat, h: Sequence, p: PageId, page: PhysicalPage) {
    && CanGrow(t, id, h)
    && StateAt(h, |h.pages|) == HbmSealed
    && p in t.physical && t.physical[p].state == HbmSealed
    && t.physical[p].references < MAX_REFERENCES
    && p.rank == OwnerRank(|h.pages|)
    && (forall x | x in t.sequences :: PlaceIs(t.sequences[x], p, |h.pages|))
    && page.valid == t.physical[p].valid && page.state == t.physical[p].state
    && (h.mtp ==> page.draft.Some?)
    && (page.draft == t.physical[p].draft
        || (t.physical[p].draft.None? && page.draft.Some? && PageId(p.rank, page.draft.value) in t.freeDraft))
    && page.prefix.Some? == t.physical[p].prefix.Some?
    && (page.prefix.Some? ==>
          && page.prefix.value.ordinal == t.physical[p].prefix.value.ordinal == |h.pages|
          && page.prefix.value.attachment.key == t.physical[p].prefix.value.attachment.key)
  }

  lemma SharePools(t: Table, id: nat, h: Sequence, p: PageId, page: PhysicalPage)
    requires PoolsOk(t) && CanShare(t, id, h, p, page)
    ensures PoolsOk(Share(t, id, h, p, page))
  {
    var u := Share(t, id, h, p, page);
    LiveDraftsInsert(t.physical, p, u.physical[p]);
    assert u.physical.Keys == t.physical.Keys;
    if page.draft == t.physical[p].draft {
      assert DraftIds(p, page.draft) <= LiveDrafts(t.physical);
    } else {
      assert LiveDrafts(t.physical - {p}) <= LiveDrafts(t.physical);
      DistinctInsert(t.physical, p, u.physical[p]);
    }
  }

  lemma SharePages(t: Table, id: nat, h: Sequence, p: PageId, page: PhysicalPage)
    requires PagesOk(t) && PrefixesOk(t) && CanShare(t, id, h, p, page)
    ensures PagesOk(Share(t, id, h, p, page)) && PrefixesOk(Share(t, id, h, p, page))
  {
  }

  lemma ShareKeepsConsistent(t: Table, id: nat, h: Sequence, p: PageId, page: PhysicalPage)
    requires Consistent(t) && CanShare(t, id, h, p, page)
    ensures Consistent(Share(t, id, h, p, page))
  {
    var u := Share(t, id, h, p, page);
    var after := u.physical[p];
    assert Appends(t, u, id, h, p, after);
    assert Attachable(t, p, after, |h.pages|);
    SharePools(t, id, h, p, page);
    SharePages(t, id, h, p, page);
    AppendKeepsReferences(t, u, id, h, p, after);
    AppendKeepsEntries(t, u, id, h, p, after);
    AppendKeepsShapes(t, u, id, h, p, after);
  }

  // ---------------------------------------------------------------- new fills and states

  /** `u` is `t` with header `h` for sequence `id` and its unsealed pages refilled to match. */
  ghost predicate Reshapes(t: Table, u: Table, id: nat, h: Sequence) {
    && id in t.sequences && h.pages == t.sequences[id].pages && h.mtp == t.sequences[id].mtp
    && t.sequences[id].committed <= h.committed
    && Positions(h) <= MAX_CONTEXT_TOKENS && |h.pages| == PagesFor(Positions(h))
    && (h.tentative.Some? ==> h.tentative.value == TailOf(h, Reserved(h)) && Reserved(h) <= 7)
    && u == t.(physical := u.physical, sequences := t.sequences[id := h])
    && u.physical.Keys == t.physical.Keys
    && (forall q | q in t.physical ::
          u.physical[q] == t.physical[q].(valid := u.physical[q].valid, state := u.physical[q].state))
    && (forall q | q in t.physical && (t.physical[q].state == HbmSealed || !Holds(h, q)) ::
          u.physical[q] == t.physical[q])
    && (forall i | 0 <= i < |h.pages| && h.pages[i].physical in t.physical ::
          && u.physical[h.pages[i].physical].valid == Filled(Positions(h), i)
          && u.physical[h.pages[i].physical].state == StateAt(h, i))
  }

  lemma ReshapePools(t: Table, u: Table, id: nat, h: Sequence)
    requires PoolsOk(t) && Reshapes(t, u, id, h)
    ensures PoolsOk(u)
  {
    assert LiveDrafts(u.physical) == LiveDrafts(t.physical) by {
      forall d | d in LiveDrafts(t.physical) ensures d in LiveDrafts(u.physical) {
        var q :| q in t.physical && t.physical[q].draft.Some? && d == PageId(q.rank, t.physical[q].draft.value);
        assert q in u.physical && u.physical[q].draft.Some?;
      }
      forall d | d in LiveDrafts(u.physical) ensures d in LiveDrafts(t.physical) {
        var q :| q in u.physical && u.physical[q].draft.Some? && d == PageId(q.rank, u.physical[q].draft.value);
        assert q in t.physical && t.physical[q].draft.Some?;
      }
    }
  }

  lemma ReshapeReferences(t: Table, u: Table, id: nat, h: Sequence)
    requires ReferencesOk(t) && Reshapes(t, u, id, h)
    ensures ReferencesOk(u)
  {
    forall q ensures Holders(u.sequences, q) == Holders(t.sequences, q) {
      assert Holds(h, q) == Holds(t.sequences[id], q);
    }
  }

  lemma ReshapeEntries(t: Table, u: Table, id: nat, h: Sequence)
    requires AllEntriesOk(t) && Reshapes(t, u, id, h)
    ensures AllEntriesOk(u)
  {
    forall x | x in u.sequences ensures EntriesOk(u, u.sequences[x]) {
      assert EntriesOk(t, t.sequences[x]);
    }
    forall x, y | x in u.sequences && y in u.sequences ensures SamePlace(u.sequences[x], u.sequences[y]) {
      assert SamePlace(t.sequences[x], t.sequences[y]);
    }
  }

  /** A page that is not sealed has one holder only. */
  lemma UnsealedIsPrivate(t: Table, id: nat, x: nat, q: PageId)
    requires ReferencesOk(t) && PagesOk(t) && q in t.physical && t.physical[q].state != HbmSealed
    requires id in Holders(t.sequences, q) && x in Holders(t.sequences, q)
    ensures x == id
  {
    if x != id {
      assert {id, x} <= Holders(t.sequences, q);
      SubsetSize({id, x}, Holders(t.sequences, q));
    }
  }

  lemma ReshapeShapes(t: Table, u: Table, id: nat, h: Sequence)
    requires ReferencesOk(t) && PagesOk(t) && ShapesOk(t) && Reshapes(t, u, id, h)
    ensures ShapesOk(u)
  {
    forall x | x in u.sequences ensures ShapeOk(u.physical, u.sequences[x]) {
      var s := t.sequences[x];
      assert ShapeOk(t.physical, s);
      if x == id {
        assert ShapeOk(t.physical, t.sequences[id]);
      } else {
        forall i | 0 <= i < |s.pages| ensures u.physical[s.pages[i].physical] == t.physical[s.pages[i].physical] {
          var q := s.pages[i].physical;
          if Holds(h, q) && t.physical[q].state != HbmSealed {
            assert Holds(s, q) && Holds(t.sequences[id], q);
            UnsealedIsPrivate(t, id, x, q);
          }
        }
      }
    }
  }

  lemma ReshapePages(t: Table, u: Table, id: nat, h: Sequence)
    requires PagesOk(t) && PrefixesOk(t) && Reshapes(t, u, id, h)
    ensures PagesOk(u) && PrefixesOk(u)
  {
    forall p | p in u.physical && u.physical[p].state == HbmSealed ensures u.physical[p].valid == 64 {
      if t.physical[p].state != HbmSealed && Holds(h, p) {
        var i :| 0 <= i < |h.pages| && h.pages[i].physical == p;
        assert StateAt(h, i) == HbmSealed;
      }
    }
  }

  lemma ReshapeKeepsConsistent(t: Table, u: Table, id: nat, h: Sequence)
    requires Consistent(t) && Reshapes(t, u, id, h)
    ensures Consistent(u)
  {
    ReshapePools(t, u, id, h);
    ReshapeReferences(t, u, id, h);
    ReshapeEntries(t, u, id, h);
    ReshapeShapes(t, u, id, h);
    ReshapePages(t, u, id, h);
  }

  // ---------------------------------------------------------------- one page less

  /** The header `h` describes sequence `id` without its last page. */
  ghost predicate CanDrop(t: Table, id: nat, h: Sequence) {
    && id in t.sequences
    && var s := t.sequences[id];
    && h.pages == s.pages && h.pages != [] && h.mtp == s.mtp
    && h.pages[|h.pages| - 1].physical in t.physical
    && Positions(h) == 64 * (|h.pages| - 1) <= MAX_CONTEXT_TOKENS
    && (h.tentative.Some? ==> h.tentative.value == TailOf(h, Reserved(h)) && Reserved(h) <= 7)
    && (forall i | 0 <= i < |h.pages| - 1 :: StateAt(h, i) == StateAt(s, i))
  }

  function LastOf(h: Sequence): PageId
    requires h.pages != []
  {
    h.pages[|h.pages| - 1].physical
  }

  lemma LiveDraftsRemove(physical: map<PageId, PhysicalPage>, p: PageId)
    requires p in physical && DistinctDrafts(physical)
    ensures LiveDrafts(physical - {p}) == LiveDrafts(physical) - DraftIds(p, physical[p].draft)
    ensures DraftIds(p, physical[p].draft) <= LiveDrafts(physical)
  {
    var after := physical - {p};
    forall d | d in LiveDrafts(physical) && d !in DraftIds(p, physical[p].draft) ensures d in LiveDrafts(after) {
      var q :| q in physical && physical[q].draft.Some? && d == PageId(q.rank, physical[q].draft.value);
      assert q in after;
    }
    forall d | d in LiveDrafts(after) ensures d in LiveDrafts(physical) && d !in DraftIds(p, physical[p].draft) {
      var q :| q in after && after[q].draft.Some? && d == PageId(q.rank, after[q].draft.value);
      assert q in physical && q != p;
    }
  }

  lemma DropPools(t: Table, id: nat, h: Sequence)
    requires PoolsOk(t) && CanDrop(t, id, h)
    ensures PoolsOk(DropLast(t, id, h))
  {
    var p := LastOf(h);
    var u := DropLast(t, id, h);
    if t.physical[p].references > 1 {
      LiveDraftsInsert(t.physical, p, u.physical[p]);
      assert u.physical.Keys == t.physical.Keys;
      assert DraftIds(p, u.physical[p].draft) <= LiveDrafts(t.physical);
    } else {
      LiveDraftsRemove(t.physical, p);
      assert u.physical.Keys == t.physical.Keys - {p};
    }
  }

  /** `u` is `t` after sequence `id` dropped its last page. */
  ghost predicate Drops(t: Table, u: Table, id: nat, h: Sequence) {
    && id in t.sequences && h.pages == t.sequences[id].pages && h.pages != []
    && u.sequences == t.sequences[id := h.(pages := h.pages[..|h.pages| - 1])]
    && LastOf(h) in t.physical
    && u.physical.Keys <= t.physical.Keys
    && (forall q | q in t.physical && q != LastOf(h) :: q in u.physical && u.physical[q] == t.physical[q])
    && (t.physical[LastOf(h)].references > 1 ==>
          && LastOf(h) in u.physical
          && u.physical[LastOf(h)] == t.physical[LastOf(h)].(references := t.physical[LastOf(h)].references - 1))
    && (t.physical[LastOf(h)].references <= 1 ==> LastOf(h) !in u.physical)
  }

  lemma DropReferences(t: Table, u: Table, id: nat, h: Sequence)
    requires ReferencesOk(t) && SamePlace(h, h) && Drops(t, u, id, h)
    ensures ReferencesOk(u)
    ensures id in Holders(t.sequences, LastOf(h))
  {
    forall q ensures Holders(u.sequences, q) ==
                     if q == LastOf(h) then Holders(t.sequences, q) - {id} else Holders(t.sequences, q)
    {
      HoldersAfterPop(t.sequences, id, h, q);
    }
    HoldersAfterPop(t.sequences, id, h, LastOf(h));
  }

  /** The pages of `s` are live in `u` and differ from those of `t` at most in references. */
  ghost predicate Spared(t: Table, u: Table, s: Sequence) {
    forall i | 0 <= i < |s.pages| && s.pages[i].physical in t.physical ::
      && s.pages[i].physical in u.physical
      && u.physical[s.pages[i].physical] ==
         t.physical[s.pages[i].physical].(references := u.physical[s.pages[i].physical].references)
  }

  /** No page that is still listed is lost when `id` drops its last one. */
  lemma DropSpares(t: Table, u: Table, id: nat, h: Sequence, x: nat)
    requires ReferencesOk(t) && SamePlace(h, h) && Drops(t, u, id, h) && x in u.sequences
    ensures Spared(t, u, u.sequences[x])
  {
    var s := u.sequences[x];
    forall i | 0 <= i < |s.pages| && s.pages[i].physical in t.physical
      ensures s.pages[i].physical == LastOf(h) ==> t.physical[LastOf(h)].references > 1
    {
      if s.pages[i].physical == LastOf(h) {
        assert x != id;
        DropReferences(t, u, id, h);
        assert Holds(t.sequences[x], LastOf(h));
        SubsetSize({id, x}, Holders(t.sequences, LastOf(h)));
      }
    }
  }

  lemma DropEntries(t: Table, u: Table, id: nat, h: Sequence, x: nat)
    requires ReferencesOk(t) && SamePlace(h, h) && Drops(t, u, id, h) && h.mtp == t.sequences[id].mtp
    requires x in u.sequences && EntriesOk(t, t.sequences[x])
    ensures EntriesOk(u, u.sequences[x])
  {
    DropSpares(t, u, id, h, x);
  }

  lemma DropPlaces(t: Table, u: Table, id: nat, h: Sequence)
    requires Drops(t, u, id, h)
    requires forall x, y | x in t.sequences && y in t.sequences :: SamePlace(t.sequences[x], t.sequences[y])
    ensures forall x, y | x in u.sequences && y in u.sequences :: SamePlace(u.sequences[x], u.sequences[y])
  {
    forall x, y | x in u.sequences && y in u.sequences ensures SamePlace(u.sequences[x], u.sequences[y]) {
      assert SamePlace(t.sequences[x], t.sequences[y]);
    }
  }

  lemma SparedShape(t: Table, u: Table, s: Sequence)
    requires ShapeOk(t.physical, s) && Spared(t, u, s)
    ensures ShapeOk(u.physical, s)
  {
    hide Filled, StateAt, TailOf;
  }

  lemma ShortenedShape(t: Table, u: Table, s: Sequence, h: Sequence)
    requires ShapeOk(t.physical, s) && h.pages == s.pages && h.pages != []
    requires Positions(h) == 64 * (|h.pages| - 1) <= MAX_CONTEXT_TOKENS
    requires h.tentative.Some? ==> h.tentative.value == TailOf(h, Reserved(h)) && Reserved(h) <= 7
    requires forall i | 0 <= i < |h.pages| - 1 :: StateAt(h, i) == StateAt(s, i)
    requires Spared(t, u, h.(pages := h.pages[..|h.pages| - 1]))
    ensures ShapeOk(u.physical, h.(pages := h.pages[..|h.pages| - 1]))
  {
    var short := h.(pages := h.pages[..|h.pages| - 1]);
    forall i | 0 <= i < |short.pages|
      ensures var q := short.pages[i].physical;
              q in u.physical && u.physical[q].valid == Filled(Positions(short), i)
              && u.physical[q].state == StateAt(short, i)
    {
      assert short.pages[i] == s.pages[i];
    }
  }

  lemma DropShapes(t: Table, u: Table, id: nat, h: Sequence)
    requires ReferencesOk(t) && ShapesOk(t) && SamePlace(h, h) && Drops(t, u, id, h) && CanDrop(t, id, h)
    ensures ShapesOk(u)
  {
    forall x | x in u.sequences ensures ShapeOk(u.physical, u.sequences[x]) {
      hide ReferencesOk, ShapeOk, Spared, TailOf;
      DropSpares(t, u, id, h, x);
      if x == id {
        ShortenedShape(t, u, t.sequences[id], h);
      } else {
        SparedShape(t, u, t.sequences[x]);
      }
    }
  }

  lemma DropPages(t: Table, id: nat, h: Sequence)
    requires PagesOk(t) && PrefixesOk(t) && CanDrop(t, id, h)
    ensures PagesOk(DropLast(t, id, h)) && PrefixesOk(DropLast(t, id, h))
  {
  }

  lemma DropFacts(t: Table, id: nat, h: Sequence)
    requires CanDrop(t, id, h)
    ensures Drops(t, DropLast(t, id, h), id, h)
    ensures var u := DropLast(t, id, h);
            && u.config == t.config && u.bound == t.bound
            && u.freeTarget == t.freeTarget && u.freeDraft == t.freeDraft
            && t.quarantinedTarget <= u.quarantinedTarget && t.quarantinedDraft <= u.quarantinedDraft
  {
  }

  lemma DropKeepsConsistent(t: Table, id: nat, h: Sequence)
    requires Consistent(t) && CanDrop(t, id, h)
    ensures Consistent(DropLast(t, id, h))
  {
    var u := DropLast(t, id, h);
    assert SamePlace(t.sequences[id], t.sequences[id]);
    DropFacts(t, id, h);
    DropPools(t, id, h);
    DropReferences(t, u, id, h);
    forall x | x in u.sequences ensures EntriesOk(u, u.sequences[x]) {
      DropEntries(t, u, id, h, x);
    }
    DropPlaces(t, u, id, h);
    DropShapes(t, u, id, h);
    DropPages(t, id, h);
  }
}
