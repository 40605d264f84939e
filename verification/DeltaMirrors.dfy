/** Which reachable page tables have a mirror. */
module DeltaMirrors {
  import opened Collections
  import opened Page
  import opened SequenceModel
  import Delta = DeltaModel

  /** No target-only sequence lists a page that has a draft slot. */
  ghost predicate NoForeignDrafts(t: Table) {
    forall id | id in t.sequences && !t.sequences[id].mtp :: Undrafted(t, t.sequences[id])
  }

  ghost predicate Undrafted(t: Table, s: Sequence) {
    forall i | 0 <= i < |s.pages| && s.pages[i].physical in t.physical :: t.physical[s.pages[i].physical].draft.None?
  }

  // ---------------------------------------------------------------- one sequence

  lemma {:induction false} FullPagesSum(pages: seq<Delta.RankPage>)
    requires forall i | 0 <= i < |pages| :: pages[i].valid == 64
    ensures Delta.SumValid(pages) == 64 * |pages|
  {
    if pages != [] {
      FullPagesSum(pages[..|pages| - 1]);
    }
  }

  lemma PagesSum(pages: seq<Delta.RankPage>, positions: nat)
    requires |pages| == PagesFor(positions)
    requires forall i | 0 <= i < |pages| :: pages[i].valid == Filled(positions, i)
    ensures Delta.SumValid(pages) == positions
  {
    if pages != [] {
      FullPagesSum(pages[..|pages| - 1]);
    }
  }

  lemma SequencePagesFit(t: Table, s: Sequence)
    requires ShapeOk(t.physical, s) && EntriesOk(t, s) && (s.mtp || Undrafted(t, s))
    ensures Delta.AllLive(t, s)
    ensures var n := Delta.NormalizedOf(t, s); forall i | 0 <= i < |n.pages| :: Delta.PageFits(n, i)
  {
    assert Delta.AllLive(t, s);
    var n := Delta.NormalizedOf(t, s);
    forall i | 0 <= i < |n.pages| ensures Delta.PageFits(n, i) {
      assert n.pages[i] == Delta.RankPageOf(t, s.pages[i]);
    }
  }

  lemma SequenceSlots(t: Table, s: Sequence)
    requires Delta.AllLive(t, s) && EntriesOk(t, s) && SamePlace(s, s) && DistinctDrafts(t.physical)
    ensures var n := Delta.NormalizedOf(t, s); Delta.DistinctSlots(n.pages, |n.pages|)
  {
    var n := Delta.NormalizedOf(t, s);
    assert forall i | 0 <= i < |n.pages| ::
        n.pages[i].rank == s.pages[i].physical.rank && n.pages[i].target == s.pages[i].physical.local
        && n.pages[i].draft == t.physical[s.pages[i].physical].draft;
  }

  lemma TentativeTail(physical: map<PageId, PhysicalPage>, s: Sequence)
    requires ShapeOk(physical, s) && Reserved(s) > 0
    ensures |s.pages| > 0 && physical[s.pages[|s.pages| - 1].physical].state == HbmTentative
  {
    var last := |s.pages| - 1;
    assert StateAt(s, last) == HbmTentative;
    assert physical[s.pages[last].physical].state == StateAt(s, last);
  }

  lemma SequencePasses(t: Table, id: nat)
    requires Valid(t) && id in t.sequences && (t.sequences[id].mtp || Undrafted(t, t.sequences[id]))
    ensures Delta.AllLive(t, t.sequences[id])
    ensures Delta.CheckSequence(Delta.NormalizedOf(t, t.sequences[id])) == Ok(())
  {
    hide ReferencesOk, PagesOk, PrefixesOk, Partition, Delta.DistinctSlots, Delta.PageFits, Delta.SumValid;
    var s := t.sequences[id];
    assert ShapeOk(t.physical, s) && EntriesOk(t, s) && SamePlace(s, s);
    SequencePagesFit(t, s);
    SequenceSlots(t, s);
    var n := Delta.NormalizedOf(t, s);
    assert forall i | 0 <= i < |n.pages| :: n.pages[i] == Delta.RankPageOf(t, s.pages[i]);
    PagesSum(n.pages, Positions(s));
    if Reserved(s) > 0 {
      TentativeTail(t.physical, s);
      assert n.pages[|n.pages| - 1].state == HbmTentative;
    }
  }

  // ---------------------------------------------------------------- the whole table

  lemma PageInRange(t: Table, p: PageId, ordinal: nat)
    requires PoolsOk(t) && p in t.physical
    ensures Delta.InRange(t.config, Delta.RankPageOf(t, Entry(ordinal, p)))
  {
    assert p in Universe(t.config.targetPages);
    if t.physical[p].draft.Some? {
      assert PageId(p.rank, t.physical[p].draft.value) in LiveDrafts(t.physical);
      assert PageId(p.rank, t.physical[p].draft.value) in Universe(t.config.draftPages);
    }
  }

  lemma SequencesAgree(t: Table, x: Sequence, y: Sequence)
    requires EntriesOk(t, x) && EntriesOk(t, y) && SamePlace(x, y) && DistinctDrafts(t.physical)
    requires Delta.AllLive(t, x) && Delta.AllLive(t, y)
    ensures Delta.AllAgree(Delta.NormalizedOf(t, x).pages, Delta.NormalizedOf(t, y).pages)
  {
    forall i, j | 0 <= i < |x.pages| && 0 <= j < |y.pages|
      ensures Delta.Agree(Delta.RankPageOf(t, x.pages[i]), Delta.RankPageOf(t, y.pages[j]))
    {
    }
  }

  lemma MirrorSequence(t: Table, id: nat)
    requires Valid(t) && id in t.sequences && Delta.AllLive(t, t.sequences[id])
    ensures id != 0
    ensures var n := Delta.NormalizedOf(t, t.sequences[id]);
            forall i | 0 <= i < |n.pages| :: Delta.InRange(t.config, n.pages[i])
  {
    hide ReferencesOk, PagesOk, PrefixesOk, ShapesOk, PoolsOk;
    var s := t.sequences[id];
    assert EntriesOk(t, s);
    forall i | 0 <= i < |s.pages| ensures Delta.InRange(t.config, Delta.RankPageOf(t, s.pages[i])) {
      PageInRange(t, s.pages[i].physical, s.pages[i].ordinal);
    }
  }

  lemma MirrorPair(t: Table, x: nat, y: nat)
    requires Valid(t) && x in t.sequences && y in t.sequences
    requires Delta.AllLive(t, t.sequences[x]) && Delta.AllLive(t, t.sequences[y])
    ensures Delta.AllAgree(Delta.NormalizedOf(t, t.sequences[x]).pages, Delta.NormalizedOf(t, t.sequences[y]).pages)
  {
    hide ReferencesOk, PagesOk, PrefixesOk, ShapesOk, Partition, Delta.AllAgree;
    assert EntriesOk(t, t.sequences[x]) && EntriesOk(t, t.sequences[y]);
    assert SamePlace(t.sequences[x], t.sequences[y]);
    SequencesAgree(t, t.sequences[x], t.sequences[y]);
  }

  lemma NormalizesAll(t: Table)
    requires Valid(t) && NoForeignDrafts(t)
    ensures Delta.Normalize(t).Ok?
    ensures var m := Delta.Normalize(t).value;
            && m.Keys == t.sequences.Keys
            && forall id | id in t.sequences ::
                 && Delta.AllLive(t, t.sequences[id]) && m[id] == Delta.NormalizedOf(t, t.sequences[id])
                 && Delta.CheckSequence(m[id]) == Ok(())
  {
    hide Valid, Undrafted, Delta.CheckSequence;
    forall id | id in t.sequences
      ensures Delta.AllLive(t, t.sequences[id])
      ensures Delta.CheckSequence(Delta.NormalizedOf(t, t.sequences[id])) == Ok(())
    {
      SequencePasses(t, id);
    }
    assert Delta.Refused(t) == {};
  }

  lemma MirrorHolds(t: Table, generation: nat)
    requires Valid(t) && NoForeignDrafts(t) && generation > 0 && |t.sequences| <= Delta.MAX_DELTA_SEQUENCES
    ensures Delta.FromTable(t, generation).Ok?
  {
    hide Valid, Delta.CheckSequence, Delta.Normalize, Delta.AllAgree, NoForeignDrafts;
    NormalizesAll(t);
    var m := Delta.Mirror(t.config, generation, Delta.Normalize(t).value);
    assert |m.sequences| == |m.sequences.Keys| == |t.sequences.Keys| == |t.sequences|;
    forall id | id in m.sequences
      ensures id != 0 && forall i | 0 <= i < |m.sequences[id].pages| :: Delta.InRange(m.config, m.sequences[id].pages[i])
    {
      MirrorSequence(t, id);
    }
    forall x, y | x in m.sequences && y in m.sequences
      ensures Delta.AllAgree(m.sequences[x].pages, m.sequences[y].pages)
    {
      MirrorPair(t, x, y);
    }
  }

  lemma PassingIsUndrafted(t: Table, s: Sequence)
    requires Delta.AllLive(t, s) && Delta.CheckSequence(Delta.NormalizedOf(t, s)).Ok? && !s.mtp
    ensures Undrafted(t, s)
  {
    hide Delta.DistinctSlots, Delta.SumValid;
    var n := Delta.NormalizedOf(t, s);
    forall i | 0 <= i < |s.pages| ensures t.physical[s.pages[i].physical].draft.None? {
      assert Delta.PageFits(n, i);
    }
  }

  lemma MirrorNeedsDrafts(t: Table, generation: nat)
    requires Delta.FromTable(t, generation).Ok?
    ensures generation > 0 && |t.sequences| <= Delta.MAX_DELTA_SEQUENCES && NoForeignDrafts(t)
  {
    hide Delta.AllAgree, Delta.CheckSequence, Delta.NormalizedOf, Undrafted;
    var m := Delta.FromTable(t, generation).value;
    assert m.sequences.Keys == t.sequences.Keys;
    assert |m.sequences| == |m.sequences.Keys| == |t.sequences.Keys| == |t.sequences|;
    forall id | id in t.sequences && !t.sequences[id].mtp ensures Undrafted(t, t.sequences[id]) {
      assert id !in Delta.Refused(t);
      PassingIsUndrafted(t, t.sequences[id]);
    }
  }

  /** A reachable table has a mirror exactly when its generation is positive, it has at most 64
      sequences, and no target-only sequence lists a page with a draft slot. */
  lemma MirrorExists(t: Table, generation: nat)
    requires Valid(t)
    ensures Delta.FromTable(t, generation).Ok? <==>
            generation > 0 && |t.sequences| <= Delta.MAX_DELTA_SEQUENCES && NoForeignDrafts(t)
  {
    hide Valid, Delta.FromTable, NoForeignDrafts;
    if Delta.FromTable(t, generation).Ok? {
      MirrorNeedsDrafts(t, generation);
    }
    if generation > 0 && |t.sequences| <= Delta.MAX_DELTA_SEQUENCES && NoForeignDrafts(t) {
      MirrorHolds(t, generation);
    }
  }
}
