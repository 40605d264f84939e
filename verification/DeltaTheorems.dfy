/** Replication between reachable page tables, and two short runs in which it fails. */
module DeltaTheorems {
  import opened Collections
  import opened Page
  import opened SequenceModel
  import Transitions = SequenceTransitions
  import opened DeltaModel
  import Replication = DeltaReplication
  import opened DeltaMirrors
  import opened DeltaDrafts
  import Law = DeltaLaw

  lemma MirrorFacts(t: Table, g: nat)
    requires Valid(t) && FromTable(t, g).Ok?
    ensures FromTable(t, g).value.sequences.Keys == t.sequences.Keys
    ensures forall id | id in t.sequences ::
              FromTable(t, g).value.sequences[id].mtp == t.sequences[id].mtp && Reserved(t.sequences[id]) <= 7
  {
    hide MirrorOk, ReferencesOk, PagesOk, PrefixesOk, Partition, CheckSequence;
    assert forall id | id in t.sequences :: ShapeOk(t.physical, t.sequences[id]) && id !in Refused(t);
  }

  /** For two different reachable tables of one configuration with at most 64 sequences each and
      no foreign drafts, the delta exists, and the first mirror accepts it and becomes the second
      exactly when no sequence present in both has changed its MTP flag. */
  lemma ReachableTablesReplicate(hash: DeltaBody -> nat, before: Table, after: Table, g: nat)
    requires Valid(before) && Valid(after) && before.config == after.config && GenerationsOk(g, g + 1)
    requires |before.sequences| <= MAX_DELTA_SEQUENCES && |after.sequences| <= MAX_DELTA_SEQUENCES
    requires NoForeignDrafts(before) && NoForeignDrafts(after)
    ensures FromTable(before, g).Ok? && FromTable(after, g + 1).Ok?
    ensures var x, y := FromTable(before, g).value, FromTable(after, g + 1).value;
            x.sequences != y.sequences ==>
              && Between(hash, before, after, g, g + 1).Ok?
              && var r := Apply(hash, x, Between(hash, before, after, g, g + 1).value);
              && (r.Ok? <==> forall id | id in before.sequences && id in after.sequences ::
                    before.sequences[id].mtp == after.sequences[id].mtp)
              && r == if r.Ok? then Ok(y) else Err(DeltaModel.Error.BadSequence)
  {
    hide Apply, Between, FromTable, NoForeignDrafts, Valid;
    MirrorExists(before, g);
    MirrorExists(after, g + 1);
    MirrorFacts(before, g);
    MirrorFacts(after, g + 1);
    var x, y := FromTable(before, g).value, FromTable(after, g + 1).value;
    if x.sequences != y.sequences {
      Replication.ReplicationIsCorrect(hash, before, after, g, x, y);
    }
  }

  // ---------------------------------------------------------------- chains of tables

  /** Reachable tables of one configuration that can be mirrored, each different from the one before and
      with its MTP flags. */
  ghost predicate Chain(tables: seq<Table>, g: nat) {
    && 0 < g && g + |tables| <= MAX_GENERATION
    && (forall i | 0 <= i < |tables| ::
          && Valid(tables[i]) && tables[i].config == tables[0].config
          && |tables[i].sequences| <= MAX_DELTA_SEQUENCES && NoForeignDrafts(tables[i]))
    && (forall i | 0 < i < |tables| :: Changes(tables[i - 1], tables[i], g + i))
  }

  ghost predicate Changes(before: Table, after: Table, g: nat) {
    && g > 0 && FromTable(before, g - 1).Ok? && FromTable(after, g).Ok?
    && FromTable(before, g - 1).value.sequences != FromTable(after, g).value.sequences
    && forall id | id in before.sequences && id in after.sequences :: before.sequences[id].mtp == after.sequences[id].mtp
  }

  /** The deltas between the tables of a chain. */
  function Deltas(hash: DeltaBody -> nat, tables: seq<Table>, g: nat): seq<DeltaModel.Delta> {
    if |tables| <= 1 then []
    else
      var n := |tables| - 1;
      var d := Between(hash, tables[n - 1], tables[n], g + n - 1, g + n);
      Deltas(hash, tables[..n], g) + (if d.Ok? then [d.value] else [])
  }

  /** A mirror that starts with the first table of a chain and is sent the deltas follows to the last. */
  lemma {:induction false} MirrorFollowsChain(hash: DeltaBody -> nat, tables: seq<Table>, g: nat)
    requires tables != [] && Chain(tables, g)
    ensures FromTable(tables[0], g).Ok? && FromTable(tables[|tables| - 1], g + |tables| - 1).Ok?
    ensures Law.Run(hash, FromTable(tables[0], g).value, Deltas(hash, tables, g)) == FromTable(tables[|tables| - 1], g + |tables| - 1).value
  {
    hide Valid, NoForeignDrafts, FromTable, Between, Apply;
    var n := |tables| - 1;
    MirrorExists(tables[0], g);
    if n > 0 {
      var front := tables[..n];
      ChainFront(tables, g);
      MirrorFollowsChain(hash, front, g);
      assert front[n - 1] == tables[n - 1] && Changes(tables[n - 1], tables[n], g + n);
      ReachableTablesReplicate(hash, tables[n - 1], tables[n], g + n - 1);
      var d := Between(hash, tables[n - 1], tables[n], g + n - 1, g + n).value;
      var ds := Deltas(hash, tables, g);
      assert ds == Deltas(hash, front, g) + [d] && ds[..|ds| - 1] == Deltas(hash, front, g);
    }
  }

  lemma ChainFront(tables: seq<Table>, g: nat)
    requires |tables| > 1 && Chain(tables, g)
    ensures Chain(tables[..|tables| - 1], g)
  {
    hide Valid, NoForeignDrafts, Changes;
    var front := tables[..|tables| - 1];
    assert forall i | 0 <= i < |front| :: front[i] == tables[i];
  }

  // ---------------------------------------------------------------- two short runs

  const SMALL: Config := Config(1, 1)

  function PublishedPage(draft: Option<nat>): Attachment {
    Attachment(1, 5, if draft.Some? then 2 else 1, 2, 3, draft)
  }

  predicate Published(u: Table, p: PageId) {
    && u.sequences == map[1 := Sequence(false, 64, [Entry(0, p)], None)] && u.bound.None? && p.rank == 0
    && u.physical == map[p := PhysicalPage(None, HbmSealed, 64, 1, Some(PrefixBinding(PublishedPage(None), 0)))]
    && u.prefixes == map[5 := p] && PageId(0, 0) in u.freeDraft
  }

  lemma FirstAdmission() returns (u: Table, p: PageId)
    ensures Transitions.Admit(Transitions.New(SMALL).value, 1, false, [PublishedPage(None)]) == Ok(u)
    ensures Published(u, p)
  {
    var t, a := Transitions.New(SMALL).value, PublishedPage(None);
    var t0 := t.(sequences := map[1 := Sequence(false, 0, [], None)]);
    assert PageId(0, 0) in t.freeTarget;
    assert 0 in Locals(t.freeTarget, 0);
    u, p := Transitions.AttachPage(t0, 1, a).value, First(t.freeTarget, 0);
    assert Transitions.AdmitFrom(u, 1, false, [a], 1) == Ok(u);
    assert u.sequences[1] == Pushed(Sequence(false, 64, [], None), p);
    assert u.sequences[1].pages == [Entry(0, p)];
  }

  lemma SecondAdmission(t: Table, p: PageId)
    requires Published(t, p)
    ensures Transitions.Admit(t, 2, true, [PublishedPage(Some(4))]).Ok?
    ensures NoForeignDrafts(t) && 1 in Holders(t.sequences, p)
  {
    var b := PublishedPage(Some(4));
    var t0 := t.(sequences := t.sequences[2 := Sequence(true, 0, [], None)]);
    assert 0 in Locals(t.freeDraft, 0);
    assert Transitions.Joinable(t0, p, b, 0);
    var u := Transitions.AttachPage(t0, 2, b).value;
    assert Transitions.AdmitFrom(u, 2, true, [b], 1) == Ok(u);
    assert t.sequences[1].pages[0].physical == p;
  }

  /** A sequence without drafts publishes a page and one with drafts joins it: the table after the
      first admission has a mirror, the table after the second has none. */
  lemma JoiningRun(generation: nat)
    requires generation > 0
    ensures var r := Transitions.Admit(Transitions.New(SMALL).value, 1, false, [PublishedPage(None)]);
            && r.Ok? && FromTable(r.value, generation).Ok?
            && var s := Transitions.Admit(r.value, 2, true, [PublishedPage(Some(4))]);
            && s.Ok? && FromTable(s.value, generation).Err?
  {
    hide FromTable, Valid;
    var t, a, b := Transitions.New(SMALL).value, PublishedPage(None), PublishedPage(Some(4));
    Transitions.NewIsValid(SMALL);
    var u, p := FirstAdmission();
    Transitions.AdmitIsSound(t, 1, false, [a]);
    MirrorExists(u, generation);
    SecondAdmission(u, p);
    MirrorAfterAdmission(u, 2, true, [b], generation);
    assert [b][0] == b && !Joins(u, true, b);
  }

  /** A sequence is removed and admitted again under its number with drafts: both tables have
      mirrors and the delta exists, but the mirror refuses it. */
  lemma ReadmittingRun(hash: DeltaBody -> nat, g: nat)
    requires GenerationsOk(g, g + 1)
    ensures var before := Transitions.Admit(Transitions.New(SMALL).value, 1, false, []);
            && before.Ok? && Transitions.Remove(before.value, 1).Ok?
            && var after := Transitions.Admit(Transitions.Remove(before.value, 1).value, 1, true, []);
            && after.Ok? && FromTable(before.value, g).Ok? && FromTable(after.value, g + 1).Ok?
            && Between(hash, before.value, after.value, g, g + 1).Ok?
            && Apply(hash, FromTable(before.value, g).value, Between(hash, before.value, after.value, g, g + 1).value)
                 == Err(DeltaModel.Error.BadSequence)
  {
    hide FromTable, Between, Apply, Valid;
    var t := Transitions.New(SMALL).value;
    Transitions.NewIsValid(SMALL);
    Transitions.AdmitIsSound(t, 1, false, []);
    var before := Transitions.Admit(t, 1, false, []).value;
    Transitions.RemoveIsSound(before, 1);
    var between := Transitions.Remove(before, 1).value;
    assert between.sequences == map[];
    Transitions.AdmitIsSound(between, 1, true, []);
    var after := Transitions.Admit(between, 1, true, []).value;
    assert before.sequences == map[1 := Sequence(false, 0, [], None)];
    assert after.sequences == map[1 := Sequence(true, 0, [], None)];
    ReachableTablesReplicate(hash, before, after, g);
    MirrorFacts(before, g);
    MirrorFacts(after, g + 1);
  }
}
