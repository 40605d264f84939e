/** When the operations on a sequence succeed, and what they leave behind. */
module SequenceAnswers {
  import opened Collections
  import opened Page
  import opened SequenceModel
  import opened SequenceSteps
  import opened SequenceOps
  import opened SequenceTransitions
  import Admission = SequenceAdmission

  // ---------------------------------------------------------------- room for more pages

  /** The ordinals from `from` up to `to` that rank `r` owns. */
  function Ordinals(from: nat, to: nat, r: nat): set<nat> {
    set j | from <= j < to && j % 4 == r
  }

  /** Every rank has slots for pages `from` up to `to` of one sequence. */
  ghost predicate RoomFor(t: Table, mtp: bool, from: nat, to: nat) {
    forall r | 0 <= r < 4 ::
      && |Ordinals(from, to, r)| <= |Locals(t.freeTarget, r)|
      && (mtp ==> |Ordinals(from, to, r)| <= |Locals(t.freeDraft, r)|)
  }

  lemma RoomForNone(t: Table, mtp: bool, n: nat)
    ensures RoomFor(t, mtp, n, n)
  {
    forall r ensures Ordinals(n, n, r) == {} {
    }
  }

  lemma RoomForFirst(t: Table, mtp: bool, from: nat, to: nat)
    requires from < to && RoomFor(t, mtp, from, to)
    ensures Locals(t.freeTarget, from % 4) != {} && (mtp ==> Locals(t.freeDraft, from % 4) != {})
  {
    hide Locals;
    assert from in Ordinals(from, to, from % 4);
  }

  /** Taking a page and, with drafts, a draft slot for ordinal `from` uses up that much room. */
  lemma RoomForRest(t: Table, u: Table, mtp: bool, from: nat, to: nat, p: PageId, d: PageId)
    requires from < to && p in t.freeTarget && p.rank == from % 4 && u.freeTarget == t.freeTarget - {p}
    requires mtp ==> d in t.freeDraft && d.rank == from % 4 && u.freeDraft == t.freeDraft - {d}
    ensures RoomFor(t, mtp, from, to) <==> RoomFor(u, mtp, from + 1, to)
  {
    hide Locals;
    forall r | 0 <= r < 4
      ensures |Ordinals(from, to, r)| <= |Locals(t.freeTarget, r)| <==> |Ordinals(from + 1, to, r)| <= |Locals(u.freeTarget, r)|
      ensures mtp ==> (|Ordinals(from, to, r)| <= |Locals(t.freeDraft, r)| <==> |Ordinals(from + 1, to, r)| <= |Locals(u.freeDraft, r)|)
    {
      assert Ordinals(from + 1, to, r) == Ordinals(from, to, r) - {from};
      Admission.SlotFillsWant(t.freeTarget, p, Ordinals(from, to, r), from, r);
      if mtp {
        Admission.SlotFillsWant(t.freeDraft, d, Ordinals(from, to, r), from, r);
      }
    }
  }

  /** Slot `p` is the lowest free one of its rank. */
  ghost predicate Lowest(free: set<PageId>, p: PageId) {
    p in free && forall q | q in free && q.rank == p.rank :: p.local <= q.local
  }

  lemma FirstIsLowest(free: set<PageId>, rank: nat)
    requires Locals(free, rank) != {}
    ensures Lowest(free, First(free, rank))
  {
    forall q | q in free && q.rank == rank ensures First(free, rank).local <= q.local {
      assert q.local in Locals(free, rank);
    }
  }

  lemma SomeLocal(free: set<PageId>, rank: nat)
    ensures Locals(free, rank) != {} <==> exists q | q in free :: q.rank == rank
  {
    if q :| q in free && q.rank == rank {
      assert q.local in Locals(free, rank);
    }
    if Locals(free, rank) != {} {
      var l :| l in Locals(free, rank);
    }
  }

  /** A page is allocated exactly when its rank has a free slot of each kind it needs; it takes the lowest,
      and nothing else. */
  lemma AllocatesLowest(t: Table, ordinal: nat, mtp: bool)
    ensures Allocate(t, ordinal, mtp).Ok? <==>
            && (exists q | q in t.freeTarget :: q.rank == ordinal % 4)
            && (mtp ==> exists q | q in t.freeDraft :: q.rank == ordinal % 4)
    ensures Allocate(t, ordinal, mtp).Ok? ==>
              var u, p := Allocate(t, ordinal, mtp).value.table, Allocate(t, ordinal, mtp).value.page;
              && p.rank == ordinal % 4 && Lowest(t.freeTarget, p) && p in u.physical
              && (u.physical[p].draft.Some? <==> mtp)
              && (mtp ==> Lowest(t.freeDraft, PageId(p.rank, u.physical[p].draft.value)))
              && u == t.(freeTarget := t.freeTarget - {p}, freeDraft := t.freeDraft - DraftIds(p, u.physical[p].draft),
                         physical := t.physical[p := PhysicalPage(u.physical[p].draft, HbmMutable, 0, 1, None)])
  {
    hide Locals, Lowest, First;
    SomeLocal(t.freeTarget, ordinal % 4);
    SomeLocal(t.freeDraft, ordinal % 4);
    if Allocate(t, ordinal, mtp).Ok? {
      FirstIsLowest(t.freeTarget, ordinal % 4);
      if mtp {
        FirstIsLowest(t.freeDraft, ordinal % 4);
      }
    }
  }

  // ---------------------------------------------------------------- more tokens

  /** Sequence `id` lists its pages and then new ones; sealed pages, and whom any page belongs to and what it
      is published under, stay as they were; new pages are private and unpublished. */
  ghost predicate Extends(t: Table, u: Table, id: nat) {
    && id in t.sequences && id in u.sequences && t.sequences[id].pages <= u.sequences[id].pages
    && u.sequences == t.sequences[id := u.sequences[id]] && u.freeTarget <= t.freeTarget
    && (forall j | |t.sequences[id].pages| <= j < |u.sequences[id].pages| ::
          u.sequences[id].pages[j].physical in t.freeTarget && u.sequences[id].pages[j].physical !in t.physical)
    && (forall p | p in t.physical ::
          && p in u.physical
          && u.physical[p] == t.physical[p].(valid := u.physical[p].valid, state := u.physical[p].state)
          && (t.physical[p].state == HbmSealed ==> u.physical[p] == t.physical[p]))
    && (forall p | p in u.physical && p !in t.physical :: u.physical[p].prefix.None? && u.physical[p].references == 1)
  }

  lemma ExtendsSelf(t: Table, id: nat)
    requires id in t.sequences
    ensures Extends(t, t, id)
  {
    assert t.sequences == t.sequences[id := t.sequences[id]];
  }

  lemma ExtendsMore(t: Table, u: Table, v: Table, id: nat)
    requires Extends(t, u, id) && Extends(u, v, id)
    ensures Extends(t, v, id)
  {
  }

  lemma GrowExtends(t: Table, id: nat, h: Sequence)
    requires Consistent(t) && CanGrow(t, id, h) && Grow(t, id, h, None).Ok?
    ensures Extends(t, Grow(t, id, h, None).value, id)
  {
    hide ReferencesOk, AllEntriesOk, PagesOk, PrefixesOk, ShapesOk, CanGrow, DistinctDrafts, LiveDrafts;
    var p := GrowAppends(t, id, h, None);
  }

  lemma AddTokenExtends(t: Table, id: nat, h: Sequence)
    requires Consistent(t) && HasContext(t, id, 1) && h == MoreTokens(t.sequences[id], 1)
    requires AddToken(t, id, h).Ok?
    ensures Extends(t, AddToken(t, id, h).value, id)
  {
    hide PoolsOk, ReferencesOk, AllEntriesOk, PagesOk, PrefixesOk, Extends, Reshapes;
    var s := t.sequences[id];
    assert ShapeOk(t.physical, s);
    if Positions(s) % 64 == 0 {
      assert CanGrow(t, id, h);
      GrowExtends(t, id, h);
    } else {
      TailRefill(t, id, h);
      ReshapeExtends(t, AddToken(t, id, h).value, id, h);
    }
  }

  lemma ReshapeExtends(t: Table, u: Table, id: nat, h: Sequence)
    requires Reshapes(t, u, id, h)
    ensures Extends(t, u, id)
  {
  }

  lemma {:induction false} AddTokensExtend(t: Table, id: nat, n: nat)
    requires Consistent(t) && HasContext(t, id, n) && AddTokens(t, id, n).Ok?
    ensures Extends(t, AddTokens(t, id, n).value, id)
    decreases n
  {
    hide Consistent, Isolates, AddToken, Extends;
    if n == 0 {
      ExtendsSelf(t, id);
    } else {
      var h := MoreTokens(t.sequences[id], 1);
      AddTokenFollows(t, id, h);
      AddTokenExtends(t, id, h);
      var u := AddToken(t, id, h).value;
      AddTokensExtend(u, id, n - 1);
      ExtendsMore(t, u, AddTokens(u, id, n - 1).value, id);
    }
  }

  /** One more token needs a page exactly when the pages are full. */
  lemma AddTokenExactly(t: Table, id: nat, to: nat)
    requires Consistent(t) && HasContext(t, id, 1)
    requires to >= PagesFor(Positions(t.sequences[id]) + 1)
    ensures var s := t.sequences[id];
            var n, r := |s.pages|, AddToken(t, id, MoreTokens(s, 1));
            && (RoomFor(t, s.mtp, n, to) ==> r.Ok?)
            && (r.Ok? ==> id in r.value.sequences
                          && (RoomFor(t, s.mtp, n, to) <==> RoomFor(r.value, s.mtp, |r.value.sequences[id].pages|, to)))
  {
    hide PoolsOk, ReferencesOk, AllEntriesOk, PagesOk, PrefixesOk, RoomFor, Locals;
    var s := t.sequences[id];
    var n, h := |s.pages|, MoreTokens(s, 1);
    assert ShapeOk(t.physical, s);
    hide Consistent;
    if Positions(s) % 64 == 0 {
      if RoomFor(t, s.mtp, n, to) {
        RoomForFirst(t, s.mtp, n, to);
      }
      if Grow(t, id, h, None).Ok? {
        var d := if s.mtp then First(t.freeDraft, n % 4) else PageId(0, 0);
        RoomForRest(t, Grow(t, id, h, None).value, s.mtp, n, to, First(t.freeTarget, n % 4), d);
      }
    } else {
      TailRefill(t, id, h);
      SameRoom(t, AddToken(t, id, h).value, s.mtp, n, to);
    }
  }

  lemma SameRoom(t: Table, u: Table, mtp: bool, from: nat, to: nat)
    requires u.freeTarget == t.freeTarget && u.freeDraft == t.freeDraft
    ensures RoomFor(t, mtp, from, to) <==> RoomFor(u, mtp, from, to)
  {
  }

  lemma {:induction false} AddTokensExactly(t: Table, id: nat, n: nat)
    requires Consistent(t) && HasContext(t, id, n)
    ensures var s := t.sequences[id];
            AddTokens(t, id, n).Ok? <==> RoomFor(t, s.mtp, |s.pages|, PagesFor(Positions(s) + n))
    decreases n
  {
    hide Consistent, Isolates, AddToken, RoomFor;
    var s := t.sequences[id];
    if n == 0 {
      FullPages(t, id);
      RoomForNone(t, s.mtp, |s.pages|);
    } else {
      var h := MoreTokens(s, 1);
      AddTokenFollows(t, id, h);
      AddTokenExactly(t, id, PagesFor(Positions(s) + n));
      if AddToken(t, id, h).Ok? {
        AddTokensExactly(AddToken(t, id, h).value, id, n - 1);
      }
    }
  }

  lemma FullPages(t: Table, id: nat)
    requires Consistent(t) && id in t.sequences
    ensures |t.sequences[id].pages| == PagesFor(Positions(t.sequences[id]))
  {
    hide PoolsOk, ReferencesOk, AllEntriesOk, PagesOk, PrefixesOk;
    assert ShapeOk(t.physical, t.sequences[id]);
  }

  /** Exactly when tokens can be appended. */
  lemma AppendsExactly(t: Table, id: nat, n: nat)
    requires Valid(t)
    ensures Append(t, id, n).Ok? <==>
            && t.bound.None?
            && (n > 0 ==>
                  && id in t.sequences && t.sequences[id].tentative.None?
                  && t.sequences[id].committed + n <= 1_048_576
                  && RoomFor(t, t.sequences[id].mtp, |t.sequences[id].pages|, (t.sequences[id].committed + n + 63) / 64))
  {
    hide Consistent, RoomFor, AddTokens;
    if t.bound.None? && n > 0 && id in t.sequences && t.sequences[id].tentative.None?
       && t.sequences[id].committed + n <= 1_048_576 {
      AddTokensExactly(t, id, n);
    }
  }

  /** Page `j` of a sequence holds its share of the tokens, and is sealed once it is full and committed. */
  ghost predicate FilledTo(u: Table, id: nat, committed: nat, positions: nat) {
    && id in u.sequences && |u.sequences[id].pages| == (positions + 63) / 64
    && (forall j | 0 <= j < |u.sequences[id].pages| ::
          var e := u.sequences[id].pages[j];
          && e.ordinal == j && e.physical.rank == j % 4 && e.physical in u.physical
          && u.physical[e.physical].valid == (if 64 * (j + 1) <= positions then 64 else positions - 64 * j)
          && u.physical[e.physical].state ==
             (if 64 * (j + 1) <= committed then HbmSealed else if committed < positions then HbmTentative else HbmMutable))
  }

  lemma FilledExactly(u: Table, id: nat)
    requires Consistent(u) && id in u.sequences
    ensures FilledTo(u, id, u.sequences[id].committed, Positions(u.sequences[id]))
  {
    hide PoolsOk, ReferencesOk, PagesOk, PrefixesOk;
    assert ShapeOk(u.physical, u.sequences[id]) && EntriesOk(u, u.sequences[id]);
  }

  /** Appending adds the tokens to the committed ones and changes nothing sealed. */
  lemma AppendGives(t: Table, id: nat, n: nat)
    requires Valid(t) && n > 0 && Append(t, id, n).Ok?
    ensures var u := Append(t, id, n).value;
            && id in t.sequences && id in u.sequences
            && var s := t.sequences[id];
            && u.sequences[id] == Sequence(s.mtp, s.committed + n, u.sequences[id].pages, None)
            && Extends(t, u, id) && FilledTo(u, id, s.committed + n, s.committed + n)
  {
    hide Consistent, Isolates, Extends, AddTokens, FilledTo;
    AddTokensFollows(t, id, n);
    AddTokensExtend(t, id, n);
    FilledExactly(Append(t, id, n).value, id);
  }

  /** Exactly when a speculative transaction can be opened. */
  lemma BeginsExactly(t: Table, id: nat, n: nat)
    requires Valid(t)
    ensures Begin(t, id, n).Ok? <==>
            && t.bound.None? && 1 <= n <= 7 && id in t.sequences && t.sequences[id].tentative.None?
            && t.sequences[id].committed + n <= 1_048_576
            && RoomFor(t, t.sequences[id].mtp, |t.sequences[id].pages|, (t.sequences[id].committed + n + 63) / 64)
  {
    hide Consistent, Isolates, Flows, RoomFor, AddTokens;
    if t.bound.None? && 1 <= n <= 7 && id in t.sequences && t.sequences[id].tentative.None?
       && t.sequences[id].committed + n <= 1_048_576 {
      OpenFollows(t, id);
      AddTokensExactly(Opened(t, id), id, n);
      SameRoom(t, Opened(t, id), t.sequences[id].mtp, |t.sequences[id].pages|, (t.sequences[id].committed + n + 63) / 64);
    }
  }

  /** Opening a transaction remembers where the committed tokens end and reserves `n` more. */
  lemma BeginGives(t: Table, id: nat, n: nat)
    requires Valid(t) && Begin(t, id, n).Ok?
    ensures var u := Begin(t, id, n).value;
            && id in t.sequences && id in u.sequences
            && var s := t.sequences[id];
            && u.sequences[id].mtp == s.mtp && u.sequences[id].committed == s.committed
            && u.sequences[id].tentative.Some? && u.sequences[id].tentative.value.reserved == n
            && u.sequences[id].tentative.value.committed == s.committed
            && u.sequences[id].tentative.value.pageCount == |s.pages|
            && Extends(t, u, id) && FilledTo(u, id, s.committed, s.committed + n)
  {
    hide Consistent, Isolates, Flows, Extends, AddTokens, FilledTo;
    OpenFollows(t, id);
    AddTokensFollows(Opened(t, id), id, n);
    AddTokensExtend(Opened(t, id), id, n);
    OpenExtends(t, Begin(t, id, n).value, id);
    FullPages(t, id);
    FilledExactly(Begin(t, id, n).value, id);
  }

  lemma OpenExtends(t: Table, u: Table, id: nat)
    requires id in t.sequences && Extends(Opened(t, id), u, id)
    ensures Extends(t, u, id)
  {
    assert t.sequences[id := u.sequences[id]] == Opened(t, id).sequences[id := u.sequences[id]];
  }

  // ---------------------------------------------------------------- fork

  /** Page `j` of the fork: the source's own page while it is full, a private copy of the open one. */
  ghost predicate Forked(t: Table, u: Table, s: Sequence, j: nat, e: Entry)
    requires j < |s.pages|
  {
    && e.ordinal == j && e.physical in u.physical
    && (if 64 * (j + 1) <= s.committed then
          && e == s.pages[j] && e.physical in t.physical
          && u.physical[e.physical] == t.physical[e.physical].(references := t.physical[e.physical].references + 1)
        else
          && e.physical in t.freeTarget && e.physical !in t.physical && 64 * j <= s.committed
          && u.physical[e.physical] ==
             PhysicalPage(u.physical[e.physical].draft, HbmMutable, s.committed - 64 * j, 1, None)
          && (u.physical[e.physical].draft.Some? <==> s.mtp))
  }

  /** Page `j` of the source can be forked: one more holder fits its count, or a slot is free for the copy. */
  ghost predicate Forkable(t: Table, s: Sequence, j: nat)
    requires j < |s.pages|
  {
    && s.pages[j].physical in t.physical
    && (if 64 * (j + 1) <= s.committed then t.physical[s.pages[j].physical].references < 4_294_967_295
        else Locals(t.freeTarget, j % 4) != {} && (s.mtp ==> Locals(t.freeDraft, j % 4) != {}))
  }

  /** The step changes page `p` only, and takes slots only for an open page. */
  ghost predicate ForkStep(t: Table, u: Table, source: nat, target: nat, i: nat) {
    && source in t.sequences && target in t.sequences && source != target && i < |t.sequences[source].pages|
    && target in u.sequences && u.sequences == t.sequences[target := u.sequences[target]]
    && |u.sequences[target].pages| == |t.sequences[target].pages| + 1
    && var e := u.sequences[target].pages[|t.sequences[target].pages|];
    && u.sequences[target].pages == t.sequences[target].pages + [e]
    && Forked(t, u, t.sequences[source], i, e)
    && u.physical == t.physical[e.physical := u.physical[e.physical]]
    && u.freeTarget <= t.freeTarget
    && (64 * (i + 1) <= t.sequences[source].committed ==> u.freeTarget == t.freeTarget && u.freeDraft == t.freeDraft)
  }

  /** What the source's page `i` is: full and sealed, or open, private and mutable. */
  lemma SourcePage(t: Table, source: nat, i: nat)
    requires Consistent(t) && source in t.sequences && t.sequences[source].tentative.None? && i < |t.sequences[source].pages|
    ensures var s := t.sequences[source];
            && s.pages[i].ordinal == i && s.pages[i].physical in t.physical && 64 * i < s.committed
            && var page := t.physical[s.pages[i].physical];
            && (64 * (i + 1) <= s.committed ==> page.state == HbmSealed && page.valid == 64)
            && (s.committed < 64 * (i + 1) ==> page.state == HbmMutable && page.valid < 64 && page.references == 1)
  {
    hide PoolsOk, ReferencesOk, PrefixesOk;
    var s := t.sequences[source];
    assert ShapeOk(t.physical, s) && EntriesOk(t, s);
  }

  lemma FreeIsFresh(t: Table, rank: nat)
    requires Consistent(t) && Locals(t.freeTarget, rank) != {}
    ensures First(t.freeTarget, rank) !in t.physical
  {
    hide ReferencesOk, AllEntriesOk, PagesOk, PrefixesOk, ShapesOk, DistinctDrafts, LiveDrafts;
    assert First(t.freeTarget, rank) !in t.physical.Keys;
  }

  lemma ForkPageExactly(t: Table, source: nat, target: nat, i: nat)
    requires Consistent(t) && ForkedTo(t, source, target, i) && i < |t.sequences[source].pages|
    ensures ForkPage(t, source, target, i).Ok? <==> Forkable(t, t.sequences[source], i)
    ensures ForkPage(t, source, target, i).Ok? ==> ForkStep(t, ForkPage(t, source, target, i).value, source, target, i)
  {
    hide Consistent, Locals;
    SourcePage(t, source, i);
    if Locals(t.freeTarget, i % 4) != {} {
      FreeIsFresh(t, i % 4);
    }
  }

  /** From `t` to `u`, the pages of the source from `i` on were forked, and no other page changed. */
  ghost predicate ForkedFrom(t: Table, u: Table, source: nat, target: nat, i: nat) {
    && source in t.sequences && target in t.sequences && target in u.sequences && source != target
    && var s, d := t.sequences[source], u.sequences[target].pages;
    && i <= |s.pages| == |d| && |t.sequences[target].pages| == i && d[..i] == t.sequences[target].pages
    && u.sequences == t.sequences[target := u.sequences[target]]
    && (forall j | i <= j < |s.pages| :: Forked(t, u, s, j, d[j]))
  }

  ghost predicate OnlySealed(t: Table, u: Table, s: Sequence, i: nat) {
    forall p | p in t.physical && (forall j | i <= j < |s.pages| && 64 * (j + 1) <= s.committed :: s.pages[j].physical != p) ::
      p in u.physical && u.physical[p] == t.physical[p]
  }

  lemma ForkedBefore(t: Table, u: Table, v: Table, s: Sequence, i: nat, j: nat, d: Entry, e: Entry)
    requires i < j < |s.pages| && SamePlace(s, s) && Forked(t, u, s, i, d) && Forked(u, v, s, j, e)
    requires u.physical == t.physical[d.physical := u.physical[d.physical]] && u.freeTarget <= t.freeTarget
    requires s.pages[j].physical in t.physical
    ensures Forked(t, v, s, j, e)
  {
  }

  lemma OnlySealedMore(t: Table, u: Table, v: Table, source: nat, target: nat, i: nat)
    requires ForkStep(t, u, source, target, i) && |t.sequences[target].pages| == i
    requires SamePlace(t.sequences[source], t.sequences[source]) && OnlySealed(u, v, t.sequences[source], i + 1)
    requires AllLive(t, t.sequences[source])
    ensures OnlySealed(t, v, t.sequences[source], i)
    ensures var p := u.sequences[target].pages[i].physical; p in v.physical && v.physical[p] == u.physical[p]
  {
  }

  lemma {:induction false} ForkFromGives(t: Table, source: nat, target: nat, i: nat)
    requires Consistent(t) && ForkedTo(t, source, target, i) && ForkFrom(t, source, target, i).Ok?
    ensures var u := ForkFrom(t, source, target, i).value;
            ForkedFrom(t, u, source, target, i) && OnlySealed(t, u, t.sequences[source], i)
    decreases |t.sequences[source].pages| - i
  {
    hide PoolsOk, ReferencesOk, PagesOk, PrefixesOk, ShapesOk, Forked, ForkPage, ForkStep, Isolates, Flows;
    var s := t.sequences[source];
    if i == |s.pages| {
      assert t.sequences == t.sequences[target := t.sequences[target]];
    } else {
      ForkPageExactly(t, source, target, i);
      ForkPageFollows(t, source, target, i);
      var u := ForkPage(t, source, target, i).value;
      SourceUntouched(t, u, source, target);
      ForkFromGives(u, source, target, i + 1);
      var v := ForkFrom(u, source, target, i + 1).value;
      assert EntriesOk(t, s) && SamePlace(s, s);
      hide AllEntriesOk, OnlySealed;
      OnlySealedMore(t, u, v, source, target, i);
      ForkedMoreGives(t, u, v, source, target, i);
    }
  }

  lemma ForkedMoreGives(t: Table, u: Table, v: Table, source: nat, target: nat, i: nat)
    requires ForkStep(t, u, source, target, i) && |t.sequences[target].pages| == i
    requires ForkedFrom(u, v, source, target, i + 1) && AllLive(t, t.sequences[source])
    requires SamePlace(t.sequences[source], t.sequences[source])
    requires var p := u.sequences[target].pages[i].physical; p in v.physical && v.physical[p] == u.physical[p]
    ensures ForkedFrom(t, v, source, target, i)
  {
    var s, d := t.sequences[source], v.sequences[target].pages;
    assert d[..i] == d[..i + 1][..i] && d[i] == d[..i + 1][i] == u.sequences[target].pages[i];
    assert v.sequences == t.sequences[target := v.sequences[target]];
    assert Forked(t, v, s, i, d[i]);
    forall j | i < j < |s.pages| ensures Forked(t, v, s, j, d[j]) {
      ForkedBefore(t, u, v, s, i, j, d[i], d[j]);
    }
  }

  lemma ForkableAfter(t: Table, u: Table, source: nat, target: nat, i: nat, j: nat)
    requires ForkStep(t, u, source, target, i) && i < j < |t.sequences[source].pages|
    requires SamePlace(t.sequences[source], t.sequences[source]) && 64 * j < t.sequences[source].committed
    requires t.sequences[source].pages[j].physical in t.physical
    ensures Forkable(u, t.sequences[source], j) <==> Forkable(t, t.sequences[source], j)
  {
    hide Locals;
  }

  lemma {:induction false} ForkFromExactly(t: Table, source: nat, target: nat, i: nat)
    requires Consistent(t) && ForkedTo(t, source, target, i)
    ensures var s := t.sequences[source];
            ForkFrom(t, source, target, i).Ok? <==> forall j | i <= j < |s.pages| :: Forkable(t, s, j)
    decreases |t.sequences[source].pages| - i
  {
    hide PoolsOk, ReferencesOk, PagesOk, PrefixesOk, ShapesOk, Forkable, ForkPage, ForkStep, Isolates, Flows;
    var s := t.sequences[source];
    if i < |s.pages| {
      ForkPageExactly(t, source, target, i);
      ForkPageFollows(t, source, target, i);
      if ForkPage(t, source, target, i).Ok? {
        var u := ForkPage(t, source, target, i).value;
        SourceUntouched(t, u, source, target);
        ForkFromExactly(u, source, target, i + 1);
        assert EntriesOk(t, s) && SamePlace(s, s);
        hide AllEntriesOk;
        forall j | i < j < |s.pages| ensures Forkable(u, s, j) <==> Forkable(t, s, j) {
          SourcePage(t, source, j);
          ForkableAfter(t, u, source, target, i, j);
        }
      }
    }
  }

  /** Exactly when a sequence can be forked. */
  lemma ForksExactly(t: Table, source: nat, target: nat)
    requires Valid(t)
    ensures Fork(t, source, target).Ok? <==>
            && t.bound.None? && target != 0 && target !in t.sequences
            && source in t.sequences && t.sequences[source].tentative.None?
            && forall j | 0 <= j < |t.sequences[source].pages| :: Forkable(t, t.sequences[source], j)
  {
    hide Consistent, Isolates, Flows, ForkFrom, Locals;
    if t.bound.None? && target != 0 && target !in t.sequences && source in t.sequences && t.sequences[source].tentative.None? {
      var t0 := t.(sequences := t.sequences[target := Sequence(t.sequences[source].mtp, 0, [], None)]);
      OpenEmpty(t, target, t.sequences[source].mtp);
      ForkFromExactly(t0, source, target, 0);
      forall j | 0 <= j < |t.sequences[source].pages|
        ensures Forkable(t0, t.sequences[source], j) <==> Forkable(t, t.sequences[source], j)
      {
      }
    }
  }

  /** A fork lists the very sealed pages of its source, each with one more holder, and a private copy of the
      open page; it has the same tokens and the same drafts, and no other page or sequence changes. */
  lemma ForkGives(t: Table, source: nat, target: nat)
    requires Valid(t) && Fork(t, source, target).Ok?
    ensures var u := Fork(t, source, target).value;
            && source in t.sequences && target in u.sequences
            && var s, d := t.sequences[source], u.sequences[target].pages;
            && |d| == |s.pages| && u.sequences == t.sequences[target := Sequence(s.mtp, s.committed, d, None)]
            && (forall j | 0 <= j < |d| :: Forked(t, u, s, j, d[j]))
            && OnlySealed(t, u, s, 0)
  {
    hide Consistent, Isolates, Flows, ForkFrom, Forked;
    var s := t.sequences[source];
    var t0 := t.(sequences := t.sequences[target := Sequence(s.mtp, 0, [], None)]);
    OpenEmpty(t, target, s.mtp);
    ForkFromGives(t0, source, target, 0);
    ForkFromFollows(t0, source, target, 0);
    var u := Fork(t, source, target).value;
    FullPages(t, source);
    forall j | 0 <= j < |s.pages| ensures Forked(t, u, s, j, u.sequences[target].pages[j]) {
      SameForked(t, t0, u, s, j, u.sequences[target].pages[j]);
    }
  }

  lemma SameForked(t: Table, t0: Table, u: Table, s: Sequence, j: nat, e: Entry)
    requires t0 == t.(sequences := t0.sequences) && j < |s.pages| && Forked(t0, u, s, j, e)
    ensures Forked(t, u, s, j, e)
  {
  }

  // ---------------------------------------------------------------- settling and removing

  /** Pages may be given up; those that stay keep their slot, and what they are published under, and no id is freed. */
  ghost predicate Sheds(t: Table, u: Table) {
    && u.freeTarget == t.freeTarget && u.freeDraft == t.freeDraft
    && (forall p | p in u.physical ::
          p in t.physical && u.physical[p].prefix == t.physical[p].prefix && u.physical[p].draft == t.physical[p].draft)
  }

  lemma {:induction false} TrimSheds(t: Table, id: nat, count: nat)
    requires Trim(t, id, count).Ok?
    ensures Sheds(t, Trim(t, id, count).value)
    decreases if id in t.sequences then |t.sequences[id].pages| else 0
  {
    var s := t.sequences[id];
    var n := |s.pages|;
    if n > count {
      TrimSheds(DropLast(t, id, s.(tentative := Some(s.tentative.value.(reserved := 64 * (n - 1) - s.committed)))), id, count);
    }
  }

  lemma {:induction false} DropAllSheds(t: Table, id: nat)
    requires DropAll(t, id).Ok?
    ensures Sheds(t, DropAll(t, id).value)
    decreases if id in t.sequences then |t.sequences[id].pages| else 0
  {
    var s := t.sequences[id];
    if s.pages != [] {
      DropAllSheds(DropLast(t, id, s.(committed := 64 * (|s.pages| - 1))), id);
    }
  }

  lemma {:induction false} CanonicalSheds(physical: map<PageId, PhysicalPage>, h: Sequence, ordinal: nat)
    requires ordinal <= |h.pages| && forall i | 0 <= i < |h.pages| :: h.pages[i].physical in physical
    ensures var after := Canonical(physical, h, ordinal);
            forall p | p in physical :: after[p].prefix == physical[p].prefix && after[p].draft == physical[p].draft
    decreases |h.pages| - ordinal
  {
    if ordinal < |h.pages| {
      var p := h.pages[ordinal].physical;
      CanonicalSheds(physical[p := physical[p].(valid := Filled(Positions(h), ordinal), state := StateAt(h, ordinal))], h, ordinal + 1);
    }
  }

  lemma SettleSheds(t: Table, id: nat, k: nat)
    requires id in t.sequences && Settle(t, id, k).Ok?
    ensures Sheds(t, Settle(t, id, k).value)
  {
    hide Trim, Canonical;
    var count := PagesFor(t.sequences[id].committed + k);
    TrimSheds(t, id, count);
    var u := Trim(t, id, count).value;
    CanonicalSheds(u.physical, u.sequences[id].(committed := t.sequences[id].committed + k, tentative := None), 0);
  }

  /** After an operation that only gives pages up, a page is live exactly while a sequence holds it; the
      others are in quarantine. */
  lemma ShedIsQuarantined(t: Table, u: Table)
    requires Consistent(t) && Consistent(u) && Sheds(t, u) && u.config == t.config
    ensures forall p | p in t.physical ::
              if exists x | x in u.sequences :: Holds(u.sequences[x], p) then p in u.physical else p in u.quarantinedTarget
  {
    hide ReferencesOk, AllEntriesOk, PagesOk, PrefixesOk, ShapesOk, DistinctDrafts, LiveDrafts, Holds;
    forall p | p in t.physical
      ensures if exists x | x in u.sequences :: Holds(u.sequences[x], p) then p in u.physical else p in u.quarantinedTarget
    {
      assert p in Universe(t.config.targetPages) && p !in u.freeTarget by { assert p in t.physical.Keys; }
      assert p in u.freeTarget + u.quarantinedTarget + u.physical.Keys;
      LiveIsHeld(u, p);
    }
  }

  lemma LiveIsHeld(u: Table, p: PageId)
    requires Consistent(u)
    ensures p in u.physical <==> exists x | x in u.sequences :: Holds(u.sequences[x], p)
  {
    hide PoolsOk, PagesOk, PrefixesOk, ShapesOk;
    if p in u.physical {
      assert 0 < |Holders(u.sequences, p)|;
      var x :| x in Holders(u.sequences, p);
    }
    if x :| x in u.sequences && Holds(u.sequences[x], p) {
      assert EntriesOk(u, u.sequences[x]);
    }
  }

  /** Exactly when reserved tokens can be committed, and what is left: the first `k` are committed, the rest
      is given back, and so are the pages that held nothing else. */
  lemma CommitsExactly(t: Table, id: nat, k: nat)
    requires Valid(t)
    ensures Commit(t, id, k).Ok? <==>
            t.bound.None? && id in t.sequences && t.sequences[id].tentative.Some? && 1 <= k <= t.sequences[id].tentative.value.reserved
    ensures Commit(t, id, k).Ok? ==>
              var s, u, n := t.sequences[id], Commit(t, id, k).value, (t.sequences[id].committed + k + 63) / 64;
              && n <= |s.pages| && u.sequences == t.sequences[id := Sequence(s.mtp, s.committed + k, s.pages[..n], None)]
              && FilledTo(u, id, s.committed + k, s.committed + k) && Sheds(t, u)
  {
    hide Consistent, KeepsDrafts, Flows, Settle, FilledTo, Sheds;
    CommitIsSound(t, id, k);
    if Commit(t, id, k).Ok? {
      var u := Commit(t, id, k).value;
      SettleFollows(t, id, k);
      SettleSheds(t, id, k);
      FilledExactly(u, id);
      OneChanged(t, u, id);
    }
  }

  lemma OneChanged(t: Table, u: Table, id: nat)
    requires Isolates(t, u, id) && id in u.sequences
    ensures u.sequences == t.sequences[id := u.sequences[id]]
  {
  }

  /** A transaction can be rolled back exactly when one is open; only its committed tokens are left. */
  lemma RollbacksExactly(t: Table, id: nat)
    requires Valid(t)
    ensures Rollback(t, id).Ok? <==> t.bound.None? && id in t.sequences && t.sequences[id].tentative.Some?
    ensures Rollback(t, id).Ok? ==>
              var s, u, n := t.sequences[id], Rollback(t, id).value, (t.sequences[id].committed + 63) / 64;
              && n <= |s.pages| && u.sequences == t.sequences[id := Sequence(s.mtp, s.committed, s.pages[..n], None)]
              && FilledTo(u, id, s.committed, s.committed) && Sheds(t, u)
  {
    hide Consistent, KeepsDrafts, Flows, Settle, FilledTo, Sheds;
    RollbackIsSound(t, id);
    if Rollback(t, id).Ok? {
      var u := Rollback(t, id).value;
      SettleFollows(t, id, 0);
      SettleSheds(t, id, 0);
      FilledExactly(u, id);
      OneChanged(t, u, id);
    }
  }

  /** A sequence can be removed exactly when no transaction is open on it; its pages stay live while another
      sequence holds them, and are quarantined otherwise. */
  lemma RemovesExactly(t: Table, id: nat)
    requires Valid(t)
    ensures Remove(t, id).Ok? <==> t.bound.None? && id in t.sequences && t.sequences[id].tentative.None?
    ensures Remove(t, id).Ok? ==>
              var u := Remove(t, id).value;
              && u.sequences == t.sequences - {id} && Sheds(t, u)
              && (forall p | p in t.physical ::
                    if exists x | x in u.sequences :: Holds(u.sequences[x], p) then p in u.physical else p in u.quarantinedTarget)
  {
    hide Consistent, Isolates, DropAll, Holds;
    RemoveIsSound(t, id);
    if Remove(t, id).Ok? {
      DropAllSheds(t, id);
      ShedIsQuarantined(t, Remove(t, id).value);
    }
  }
}
