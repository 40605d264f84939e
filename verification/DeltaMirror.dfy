/** Validation, differencing and application as the source runs them: loops with accumulators,
    and a mirror object that is replaced only when the whole delta went through. */
module DeltaMirror {
  import opened Collections
  import opened Page
  import Sequences = SequenceModel
  import opened DeltaModel
  import opened DeltaReplication

  datatype Slot = Slot(rank: nat, local: nat)

  /** Walks the pages of a sequence with the slots seen so far and a running token total. */
  method ValidateSequence(s: Normalized) returns (r: Result<(), Error>)
    ensures r == CheckSequence(s)
  {
    hide PageFits;
    var positions := s.committed + s.tentative;
    if positions > Sequences.MAX_CONTEXT_TOKENS {
      return Err(Overflow);
    }
    if |s.pages| != Sequences.PagesFor(positions) {
      return Err(BadShape);
    }
    var total, anyTentative := 0, false;
    var targets: set<Slot>, drafts: set<Slot> := {}, {};
    for k := 0 to |s.pages|
      invariant forall i | 0 <= i < k :: PageFits(s, i)
      invariant DistinctSlots(s.pages, k)
      invariant targets == set i | 0 <= i < k :: Slot(s.pages[i].rank, s.pages[i].target)
      invariant drafts == set i | 0 <= i < k && s.pages[i].draft.Some? :: Slot(s.pages[i].rank, s.pages[i].draft.value)
      invariant total == SumValid(s.pages[..k])
      invariant anyTentative <==> exists i | 0 <= i < k :: s.pages[i].state == HbmTentative
    {
      var page := s.pages[k];
      var target := Slot(page.rank, page.target);
      if !PageFits(s, k) || target in targets {
        return Err(BadPage);
      }
      if page.draft.Some? && Slot(page.rank, page.draft.value) in drafts {
        return Err(BadPage);
      }
      targets := targets + {target};
      if page.draft.Some? {
        drafts := drafts + {Slot(page.rank, page.draft.value)};
      }
      assert s.pages[..k + 1][..k] == s.pages[..k];
      total := total + page.valid;
      anyTentative := anyTentative || page.state == HbmTentative;
    }
    assert s.pages[..|s.pages|] == s.pages;
    if total != positions || (s.tentative != 0 && !anyTentative) {
      return Err(BadPage);
    }
    r := Ok(());
  }

  // ---------------------------------------------------------------- differences

  /** Lists the sequences among `ids` that changed, in the order of `ids`. */
  method ListUpdates(before: map<nat, Normalized>, after: map<nat, Normalized>, ids: seq<nat>)
    returns (updates: seq<Update>)
    requires forall id | id in ids :: id in after
    ensures updates == Updates(before, after, ids)
  {
    hide UpdateFor, Updates;
    updates := [];
    NoIds(before, after);
    for k := 0 to |ids|
      invariant updates == Updates(before, after, ids[..k])
    {
      var id := ids[k];
      assert ids[..k + 1] == ids[..k] + [id];
      UpdatesOneMore(before, after, ids[..k], id);
      if !(id in before && before[id] == after[id]) {
        updates := updates + [UpdateFor(id, before, after[id])];
      }
    }
    assert ids[..|ids|] == ids;
  }

  lemma NoIds(before: map<nat, Normalized>, after: map<nat, Normalized>)
    ensures Updates(before, after, []) == []
  {
  }

  method Difference(hash: DeltaBody -> nat, before: Sequences.Table, after: Sequences.Table, g: nat, h: nat)
    returns (r: Result<Delta, Error>)
    ensures r == Between(hash, before, after, g, h)
  {
    hide Normalize, CheckShape, Updates;
    if !GenerationsOk(g, h) {
      return Err(BadGeneration);
    }
    if before.config != after.config {
      return Err(BadShape);
    }
    var x := Normalize(before);
    if x.Err? {
      return Err(x.error);
    }
    var y := Normalize(after);
    if y.Err? {
      return Err(y.error);
    }
    var updates := ListUpdates(x.value, y.value, Sorted(y.value.Keys));
    var body := DeltaBody(g, h, updates, Sorted(x.value.Keys - y.value.Keys));
    var shape := CheckShape(body);
    if shape.Err? {
      return Err(shape.error);
    }
    r := Ok(Delta(body, hash(body)));
  }

  // ---------------------------------------------------------------- validation of a mirror

  /** `physical` describes exactly the target slots of `pages`, `drafts` their draft slots. */
  ghost predicate Indexed(pages: seq<RankPage>, physical: map<Slot, RankPage>, drafts: map<Slot, Slot>) {
    && (forall p | p in pages :: Slot(p.rank, p.target) in physical && physical[Slot(p.rank, p.target)] == p)
    && (forall p | p in pages && p.draft.Some? ::
          Slot(p.rank, p.draft.value) in drafts && drafts[Slot(p.rank, p.draft.value)] == Slot(p.rank, p.target))
    && (forall k | k in physical :: physical[k] in pages && k == Slot(physical[k].rank, physical[k].target))
    && (forall k | k in drafts :: exists p | p in pages ::
          p.draft.Some? && k == Slot(p.rank, p.draft.value) && drafts[k] == Slot(p.rank, p.target))
  }

  /** A page is refused exactly when it contradicts one that was indexed before. */
  lemma IndexedAgree(pages: seq<RankPage>, physical: map<Slot, RankPage>, drafts: map<Slot, Slot>, page: RankPage)
    requires Indexed(pages, physical, drafts)
    ensures var target := Slot(page.rank, page.target);
            var refused := (target in physical && physical[target] != page)
                           || (page.draft.Some? && Slot(page.rank, page.draft.value) in drafts
                               && drafts[Slot(page.rank, page.draft.value)] != target);
            refused <==> exists p | p in pages :: !(Agree(p, page) && Agree(page, p))
  {
  }

  lemma IndexedMore(pages: seq<RankPage>, physical: map<Slot, RankPage>, drafts: map<Slot, Slot>, page: RankPage)
    requires Indexed(pages, physical, drafts)
    requires forall p | p in pages :: Agree(p, page) && Agree(page, p)
    ensures var target := Slot(page.rank, page.target);
            Indexed(pages + [page], physical[target := page],
                    if page.draft.Some? then drafts[Slot(page.rank, page.draft.value) := target] else drafts)
  {
  }

  /** The pages of the sequences `ids[..k]`, one after the other. */
  ghost function PagesOf(m: Mirror, ids: seq<nat>): seq<RankPage>
    requires forall id | id in ids :: id in m.sequences
  {
    if ids == [] then [] else PagesOf(m, ids[..|ids| - 1]) + m.sequences[ids[|ids| - 1]].pages
  }

  lemma {:induction false} InPagesOf(m: Mirror, ids: seq<nat>, page: RankPage)
    requires forall id | id in ids :: id in m.sequences
    ensures page in PagesOf(m, ids) <==> exists id | id in ids :: page in m.sequences[id].pages
  {
    if ids != [] {
      var front := ids[..|ids| - 1];
      assert ids == front + [ids[|ids| - 1]];
      InPagesOf(m, front, page);
    }
  }

  /** One sequence of a mirror is fine by itself. */
  predicate MemberOk(m: Mirror, id: nat)
    requires id in m.sequences
  {
    && id != 0 && CheckSequence(m.sequences[id]).Ok?
    && (forall i | 0 <= i < |m.sequences[id].pages| :: InRange(m.config, m.sequences[id].pages[i]))
  }

  ghost predicate Harmony(pages: seq<RankPage>) {
    forall p, q | p in pages && q in pages :: Agree(p, q)
  }

  lemma HarmonyGivesAgreement(m: Mirror, ids: seq<nat>, x: nat, y: nat)
    requires (forall id | id in ids :: id in m.sequences) && x in ids && y in ids && Harmony(PagesOf(m, ids))
    ensures AllAgree(m.sequences[x].pages, m.sequences[y].pages)
  {
    hide Agree, PagesOf;
    forall i, j | 0 <= i < |m.sequences[x].pages| && 0 <= j < |m.sequences[y].pages|
      ensures Agree(m.sequences[x].pages[i], m.sequences[y].pages[j])
    {
      InPagesOf(m, ids, m.sequences[x].pages[i]);
      InPagesOf(m, ids, m.sequences[y].pages[j]);
    }
  }

  lemma AgreementGivesHarmony(m: Mirror, ids: seq<nat>)
    requires forall id | id in ids :: id in m.sequences
    requires forall x, y | x in ids && y in ids :: AllAgree(m.sequences[x].pages, m.sequences[y].pages)
    ensures Harmony(PagesOf(m, ids))
  {
    hide Agree, PagesOf;
    forall p, q | p in PagesOf(m, ids) && q in PagesOf(m, ids) ensures Agree(p, q) {
      InPagesOf(m, ids, p);
      InPagesOf(m, ids, q);
      var x :| x in ids && p in m.sequences[x].pages;
      var y :| y in ids && q in m.sequences[y].pages;
      assert AllAgree(m.sequences[x].pages, m.sequences[y].pages);
    }
  }

  lemma MirrorOkByPages(m: Mirror, ids: seq<nat>)
    requires forall id :: id in ids <==> id in m.sequences
    ensures MirrorOk(m) <==>
            && 0 < m.generation && |m.sequences| <= MAX_DELTA_SEQUENCES
            && (forall id | id in ids :: MemberOk(m, id))
            && Harmony(PagesOf(m, ids))
  {
    hide CheckSequence, InRange, AllAgree, PagesOf, Harmony;
    if Harmony(PagesOf(m, ids)) {
      forall x, y | x in ids && y in ids ensures AllAgree(m.sequences[x].pages, m.sequences[y].pages) {
        HarmonyGivesAgreement(m, ids, x, y);
      }
    }
    if forall x, y | x in ids && y in ids :: AllAgree(m.sequences[x].pages, m.sequences[y].pages) {
      AgreementGivesHarmony(m, ids);
    }
  }

  lemma HarmonyOneMore(pages: seq<RankPage>, page: RankPage)
    ensures Harmony(pages + [page]) <==> Harmony(pages) && forall p | p in pages :: Agree(p, page) && Agree(page, p)
  {
    hide Agree;
    assert Agree(page, page) by { SelfAgree(page); }
    assert forall p :: p in pages + [page] <==> p in pages || p == page;
  }

  lemma SelfAgree(page: RankPage)
    ensures Agree(page, page)
  {
  }

  lemma HarmonyOfPart(pages: seq<RankPage>, more: seq<RankPage>)
    requires Harmony(pages + more)
    ensures Harmony(pages)
  {
    hide Agree;
    assert forall p | p in pages :: p in pages + more;
  }

  lemma {:induction false} PagesPass(c: Sequences.Config, seen: seq<RankPage>, pages: seq<RankPage>)
    requires Harmony(seen)
    ensures CheckPages(c, seen, pages).Ok? <==> (forall i | 0 <= i < |pages| :: InRange(c, pages[i])) && Harmony(seen + pages)
    decreases |pages|
  {
    hide InRange, Harmony, Agree;
    if pages == [] {
      assert seen + pages == seen;
    } else {
      assert seen + pages == seen + [pages[0]] + pages[1..];
      HarmonyOneMore(seen, pages[0]);
      if CheckPage(c, seen, pages[0]).Ok? {
        PagesPass(c, seen + [pages[0]], pages[1..]);
        assert forall i | 0 < i < |pages| :: pages[i] == pages[1..][i - 1];
      } else if Harmony(seen + pages) {
        HarmonyOfPart(seen + [pages[0]], pages[1..]);
      }
    }
  }

  lemma {:induction false} MembersPass(m: Mirror, seen: seq<RankPage>, ids: seq<nat>)
    requires Harmony(seen) && forall id | id in ids :: id in m.sequences
    ensures CheckMembers(m, seen, ids).Ok? <==> (forall id | id in ids :: MemberOk(m, id)) && Harmony(seen + PagesOf(m, ids))
    decreases |ids|
  {
    hide CheckSequence, CheckPages, InRange, Harmony;
    if ids == [] {
      assert seen + PagesOf(m, ids) == seen;
    } else {
      var id, rest := ids[0], ids[1..];
      var pages := m.sequences[id].pages;
      assert ids == [id] + rest;
      FirstPages(m, ids);
      PagesPass(m.config, seen, pages);
      assert seen + PagesOf(m, ids) == seen + pages + PagesOf(m, rest);
      if Harmony(seen + pages) {
        MembersPass(m, seen + pages, rest);
      }
      if Harmony(seen + PagesOf(m, ids)) {
        HarmonyOfPart(seen + pages, PagesOf(m, rest));
      }
      assert (forall x | x in ids :: MemberOk(m, x)) <==> MemberOk(m, id) && forall x | x in rest :: MemberOk(m, x);
    }
  }

  lemma {:induction false} FirstPages(m: Mirror, ids: seq<nat>)
    requires ids != [] && forall id | id in ids :: id in m.sequences
    ensures PagesOf(m, ids) == m.sequences[ids[0]].pages + PagesOf(m, ids[1..])
    decreases |ids|
  {
    if |ids| > 1 {
      var front, last := ids[..|ids| - 1], ids[|ids| - 1];
      FirstPages(m, front);
      assert ids[1..][..|ids| - 2] == front[1..] && ids[1..][|ids| - 2] == last;
    } else {
      assert ids[1..] == [] && ids[..0] == [];
    }
  }

  /** The validation in order, with its errors, accepts exactly the mirrors without contradictions. */
  lemma CheckedExactly(m: Mirror)
    ensures CheckMirror(m).Ok? <==> MirrorOk(m)
  {
    hide CheckMembers, MirrorOk, PagesOf;
    var ids := Sorted(m.sequences.Keys);
    MirrorOkByPages(m, ids);
    MembersPass(m, [], ids);
    assert [] + PagesOf(m, ids) == PagesOf(m, ids);
  }

  /** Checks the sequences one by one, and every page against all pages seen before it. */
  method Validate(m: Mirror) returns (r: Result<(), Error>)
    ensures r == CheckMirror(m)
  {
    if m.generation == 0 || |m.sequences| > MAX_DELTA_SEQUENCES {
      return Err(BadShape);
    }
    r := ValidateMembers(m, Sorted(m.sequences.Keys));
  }

  method ValidateMembers(m: Mirror, ids: seq<nat>) returns (r: Result<(), Error>)
    requires forall id | id in ids :: id in m.sequences
    ensures r == CheckMembers(m, [], ids)
  {
    hide CheckSequence, CheckPages, Indexed;
    var physical: map<Slot, RankPage> := map[];
    var drafts: map<Slot, Slot> := map[];
    ghost var seen: seq<RankPage> := [];
    Nothing();
    assert ids[0..] == ids;
    for k := 0 to |ids|
      invariant CheckMembers(m, seen, ids[k..]) == CheckMembers(m, [], ids)
      invariant Indexed(seen, physical, drafts)
    {
      var id := ids[k];
      assert ids[k..][0] == id && ids[k..][1..] == ids[k + 1..];
      if id == 0 {
        return Err(BadSequence);
      }
      var checked := ValidateSequence(m.sequences[id]);
      if checked.Err? {
        return checked;
      }
      r, physical, drafts := ValidatePages(m.config, m.sequences[id].pages, seen, physical, drafts);
      if r.Err? {
        return;
      }
      seen := seen + m.sequences[id].pages;
    }
    r := Ok(());
  }

  lemma Nothing()
    ensures Indexed([], map[], map[])
  {
  }

  /** Indexes the pages of one sequence, refusing a page out of range or in conflict. */
  method ValidatePages(
    c: Sequences.Config, pages: seq<RankPage>, ghost seen: seq<RankPage>,
    physical0: map<Slot, RankPage>, drafts0: map<Slot, Slot>)
    returns (r: Result<(), Error>, physical: map<Slot, RankPage>, drafts: map<Slot, Slot>)
    requires Indexed(seen, physical0, drafts0)
    ensures r == CheckPages(c, seen, pages)
    ensures r.Ok? ==> Indexed(seen + pages, physical, drafts)
  {
    hide InRange, Indexed, Agree;
    physical, drafts := physical0, drafts0;
    assert seen + pages[..0] == seen && pages[0..] == pages;
    for k := 0 to |pages|
      invariant CheckPages(c, seen + pages[..k], pages[k..]) == CheckPages(c, seen, pages)
      invariant Indexed(seen + pages[..k], physical, drafts)
    {
      var page := pages[k];
      ghost var before := seen + pages[..k];
      assert seen + pages[..k + 1] == before + [page];
      assert pages[k..][0] == page && pages[k..][1..] == pages[k + 1..];
      if !InRange(c, page) {
        r := Err(BadPage);
        return;
      }
      var target := Slot(page.rank, page.target);
      IndexedAgree(before, physical, drafts, page);
      if target in physical && physical[target] != page {
        r := Err(Collision);
        return;
      }
      if page.draft.Some? && Slot(page.rank, page.draft.value) in drafts
         && drafts[Slot(page.rank, page.draft.value)] != target {
        r := Err(Collision);
        return;
      }
      IndexedMore(before, physical, drafts, page);
      physical := physical[target := page];
      if page.draft.Some? {
        drafts := drafts[Slot(page.rank, page.draft.value) := target];
      }
    }
    assert pages[..|pages|] == pages;
    r := Ok(());
  }

  // ---------------------------------------------------------------- the mirror

  class PageTableMirror {
    const config: Sequences.Config
    var generation: nat
    var sequences: map<nat, Normalized>

    function Model(): Mirror
      reads this
    {
      Mirror(config, generation, sequences)
    }

    constructor (m: Mirror)
      requires MirrorOk(m)
      ensures Model() == m
    {
      config, generation, sequences := m.config, m.generation, m.sequences;
    }

    /** Applies a delta to a copy and keeps the copy only if it validates. */
    method ApplyDelta(hash: DeltaBody -> nat, d: Delta) returns (r: Result<(), Error>)
      modifies this
      ensures match Apply(hash, old(Model()), d)
              case Ok(m) => r == Ok(()) && Model() == m
              case Err(e) => r == Err(e) && Model() == old(Model())
    {
      hide CheckShape, MirrorOk, CheckMirror, ApplyUpdate;
      var shape := CheckShape(d.body);
      if shape.Err? {
        return shape;
      }
      if hash(d.body) != d.digest {
        return Err(BadDigest);
      }
      if generation != d.body.before {
        return Err(BadGeneration);
      }
      var candidate: map<nat, Normalized>;
      r, candidate := Rebuild(sequences, d.body);
      if r.Err? {
        return;
      }
      var checked := Validate(Mirror(config, d.body.after, candidate));
      CheckedExactly(Mirror(config, d.body.after, candidate));
      if checked.Err? {
        return checked;
      }
      generation, sequences := d.body.after, candidate;
    }
  }

  /** Removes and then updates, on a copy. */
  method Rebuild(sequences: map<nat, Normalized>, d: DeltaBody) returns (r: Result<(), Error>, candidate: map<nat, Normalized>)
    ensures var spec := RemoveAll(sequences, d.removed);
            if spec.Err? then r == Err(spec.error)
            else
              match ApplyUpdates(spec.value, d.updates)
              case Ok(m) => r == Ok(()) && candidate == m
              case Err(e) => r == Err(e)
  {
    hide ApplyUpdate;
    candidate := sequences;
    for k := 0 to |d.removed|
      invariant RemoveAll(sequences, d.removed[..k]) == Ok(candidate)
    {
      var id := d.removed[k];
      assert d.removed[..k + 1][..k] == d.removed[..k];
      if id !in candidate {
        RemovalFails(sequences, d.removed, k + 1);
        r := Err(BadSequence);
        return;
      }
      candidate := candidate - {id};
    }
    assert d.removed[..|d.removed|] == d.removed;
    ghost var kept := candidate;
    for k := 0 to |d.updates|
      invariant ApplyUpdates(kept, d.updates[..k]) == Ok(candidate)
    {
      assert d.updates[..k + 1][..k] == d.updates[..k];
      var next := ApplyUpdate(candidate, d.updates[k]);
      if next.Err? {
        UpdateFails(kept, d.updates, k + 1);
        r := Err(next.error);
        return;
      }
      candidate := next.value;
    }
    assert d.updates[..|d.updates|] == d.updates;
    r := Ok(());
  }

  lemma {:induction false} RemovalFails(sequences: map<nat, Normalized>, removed: seq<nat>, k: nat)
    requires k <= |removed| && RemoveAll(sequences, removed[..k]).Err?
    ensures RemoveAll(sequences, removed) == RemoveAll(sequences, removed[..k])
    decreases |removed|
  {
    if k < |removed| {
      assert removed[..|removed| - 1][..k] == removed[..k];
      RemovalFails(sequences, removed[..|removed| - 1], k);
    } else {
      assert removed[..k] == removed;
    }
  }

  lemma {:induction false} UpdateFails(sequences: map<nat, Normalized>, updates: seq<Update>, k: nat)
    requires k <= |updates| && ApplyUpdates(sequences, updates[..k]).Err?
    ensures ApplyUpdates(sequences, updates) == ApplyUpdates(sequences, updates[..k])
    decreases |updates|
  {
    hide ApplyUpdate;
    if k < |updates| {
      assert updates[..|updates| - 1][..k] == updates[..k];
      UpdateFails(sequences, updates[..|updates| - 1], k);
    } else {
      assert updates[..k] == updates;
    }
  }
}
