/** Which admissions leave a table that can be mirrored. */
module DeltaDrafts {
  import opened Collections
  import opened Page
  import opened SequenceModel
  import Ops = SequenceOps
  import Transitions = SequenceTransitions
  import Admission = SequenceAdmission
  import Delta = DeltaModel
  import opened DeltaMirrors

  /** A page with a draft slot is held by sequences with drafts only. */
  predicate Clean(t: Table, p: PageId)
    requires p in t.physical
  {
    t.physical[p].draft.Some? ==> forall x | x in Holders(t.sequences, p) :: t.sequences[x].mtp
  }

  lemma CleanEverywhere(t: Table)
    requires AllEntriesOk(t)
    ensures NoForeignDrafts(t) <==> forall p | p in t.physical :: Clean(t, p)
  {
    if forall p | p in t.physical :: Clean(t, p) {
      forall x, i | x in t.sequences && !t.sequences[x].mtp && 0 <= i < |t.sequences[x].pages| && t.sequences[x].pages[i].physical in t.physical
        ensures t.physical[t.sequences[x].pages[i].physical].draft.None?
      {
        assert x in Holders(t.sequences, t.sequences[x].pages[i].physical);
        assert Clean(t, t.sequences[x].pages[i].physical);
      }
    }
    if NoForeignDrafts(t) {
      forall p, x | p in t.physical && x in Holders(t.sequences, p) && !t.sequences[x].mtp ensures t.physical[p].draft.None? {
        assert Undrafted(t, t.sequences[x]);
      }
    }
  }

  /** Joining the page published under the key of `a`, if there is one, mixes no drafts: a sequence with
      drafts joins a page whose holders have drafts, a sequence without joins a page without a slot. */
  ghost predicate Joins(t: Table, mtp: bool, a: Attachment) {
    a.key in t.prefixes && t.prefixes[a.key] in t.physical ==>
      var p := t.prefixes[a.key];
      if mtp then forall x | x in Holders(t.sequences, p) :: t.sequences[x].mtp else t.physical[p].draft.None?
  }

  // ---------------------------------------------------------------- one attachment

  /** Sequence `id` also lists page `p`, and no other page changes. */
  ghost predicate Pushes(t: Table, u: Table, id: nat, p: PageId) {
    && id in t.sequences
    && u.sequences == t.sequences[id := Pushed(Transitions.OneFullPage(t.sequences[id]), p)]
    && u.physical.Keys == t.physical.Keys + {p}
    && (forall q | q in t.physical && q != p :: u.physical[q].draft == t.physical[q].draft)
  }

  lemma PushHolders(t: Table, u: Table, id: nat, p: PageId)
    requires Pushes(t, u, id, p)
    ensures forall q :: q != p ==> Holders(u.sequences, q) == Holders(t.sequences, q)
    ensures Holders(u.sequences, p) == Holders(t.sequences, p) + {id}
    ensures forall x | x in t.sequences :: u.sequences[x].mtp == t.sequences[x].mtp
  {
    var s, v := t.sequences[id], u.sequences[id];
    assert v.pages[..|s.pages|] == s.pages && v.pages[|s.pages|].physical == p;
    forall q ensures Holds(v, q) <==> Holds(s, q) || q == p {
      if Holds(s, q) {
        var i :| 0 <= i < |s.pages| && s.pages[i].physical == q;
        assert v.pages[i].physical == q;
      }
    }
    forall q | q != p ensures Holders(u.sequences, q) == Holders(t.sequences, q) {
    }
  }

  /** The step keeps every other page clean; the page itself is clean if the sequence may hold it. */
  lemma PushDrafts(t: Table, u: Table, id: nat, p: PageId)
    requires Pushes(t, u, id, p) && AllEntriesOk(t) && AllEntriesOk(u)
    ensures NoForeignDrafts(u) <==>
            && (forall q | q in t.physical && q != p :: Clean(t, q))
            && (u.physical[p].draft.Some? ==> t.sequences[id].mtp && forall x | x in Holders(t.sequences, p) :: t.sequences[x].mtp)
  {
    hide AllEntriesOk, NoForeignDrafts, Holders;
    PushHolders(t, u, id, p);
    CleanEverywhere(u);
    assert forall q | q in t.physical && q != p :: Clean(u, q) <==> Clean(t, q);
  }

  lemma JoinDrafts(t: Table, id: nat, a: Attachment)
    requires Consistent(t) && id in t.sequences && a.key in t.prefixes
    requires Transitions.JoinPage(t, id, t.prefixes[a.key], a).Ok?
    requires Consistent(Transitions.JoinPage(t, id, t.prefixes[a.key], a).value)
    ensures NoForeignDrafts(Transitions.JoinPage(t, id, t.prefixes[a.key], a).value) <==>
            NoForeignDrafts(t) && Joins(t, t.sequences[id].mtp, a)
  {
    hide AllEntriesOk, PoolsOk, ReferencesOk, PagesOk, PrefixesOk, ShapesOk, NoForeignDrafts, Holders, Transitions.Relate;
    var p := t.prefixes[a.key];
    var u := Transitions.JoinPage(t, id, p, a).value;
    PushDrafts(t, u, id, p);
    CleanEverywhere(t);
    assert u.physical[p].draft.Some? <==> t.sequences[id].mtp || t.physical[p].draft.Some?;
    assert Clean(t, p) || !Clean(t, p);
  }

  lemma GrowDrafts(t: Table, id: nat, a: Attachment, prefix: Option<PrefixBinding>)
    requires Consistent(t) && id in t.sequences && a.key !in t.prefixes
    requires Grow(t, id, Transitions.OneFullPage(t.sequences[id]), prefix).Ok?
    requires Consistent(Grow(t, id, Transitions.OneFullPage(t.sequences[id]), prefix).value)
    ensures NoForeignDrafts(Grow(t, id, Transitions.OneFullPage(t.sequences[id]), prefix).value) <==>
            NoForeignDrafts(t) && Joins(t, t.sequences[id].mtp, a)
  {
    hide AllEntriesOk, ReferencesOk, PagesOk, PrefixesOk, ShapesOk, NoForeignDrafts, Holders, DistinctDrafts;
    var h := Transitions.OneFullPage(t.sequences[id]);
    var u := Grow(t, id, h, prefix).value;
    var p := First(t.freeTarget, OwnerRank(|h.pages|));
    NobodyHolds(t, p);
    PushDrafts(t, u, id, p);
    CleanEverywhere(t);
  }

  lemma NobodyHolds(t: Table, p: PageId)
    requires AllEntriesOk(t) && p !in t.physical
    ensures Holders(t.sequences, p) == {}
  {
    forall x | x in t.sequences ensures !Holds(t.sequences[x], p) {
      assert EntriesOk(t, t.sequences[x]);
    }
  }

  /** An attachment with another key is not affected. */
  lemma JoinsStays(t: Table, u: Table, id: nat, p: PageId, mtp: bool, b: Attachment)
    requires Pushes(t, u, id, p)
    requires b.key in u.prefixes <==> b.key in t.prefixes
    requires b.key in t.prefixes ==> u.prefixes[b.key] == t.prefixes[b.key] != p && t.prefixes[b.key] in t.physical
    ensures Joins(u, mtp, b) <==> Joins(t, mtp, b)
  {
    hide Holders;
    PushHolders(t, u, id, p);
    HoldersExist(t, p);
    if b.key in t.prefixes {
      HoldersExist(t, t.prefixes[b.key]);
    }
  }

  lemma HoldersExist(t: Table, p: PageId)
    ensures forall x | x in Holders(t.sequences, p) :: x in t.sequences
  {
  }

  lemma OtherKey(t: Table, p: PageId, a: Attachment, b: Attachment)
    requires PrefixesOk(t) && b.key != a.key && b.key in t.prefixes
    requires p in t.physical ==> a.key in t.prefixes && t.prefixes[a.key] == p
    ensures t.prefixes[b.key] in t.physical && t.prefixes[b.key] != p
  {
  }

  /** One attachment of an admission. */
  lemma AttachDrafts(t: Table, id: nat, n: nat, a: Attachment)
    requires Consistent(t) && Transitions.FullTo(t, id, n) && 64 * (n + 1) <= MAX_CONTEXT_TOKENS
    requires Transitions.AttachPage(t, id, a).Ok?
    ensures var u, mtp := Transitions.AttachPage(t, id, a).value, t.sequences[id].mtp;
            && Consistent(u) && Transitions.FullTo(u, id, n + 1) && u.sequences[id].mtp == mtp
            && (NoForeignDrafts(u) <==> NoForeignDrafts(t) && Joins(t, mtp, a))
            && (forall b: Attachment | b.key != a.key :: Joins(u, mtp, b) <==> Joins(t, mtp, b))
  {
    hide PoolsOk, ReferencesOk, AllEntriesOk, PagesOk, PrefixesOk, ShapesOk, NoForeignDrafts, Joins, Transitions.Relate, Ops.Isolates;
    var u, mtp := Transitions.AttachPage(t, id, a).value, t.sequences[id].mtp;
    Transitions.AttachFollows(t, id, n, a);
    var p := if a.key in t.prefixes then t.prefixes[a.key] else First(t.freeTarget, OwnerRank(n));
    if a.key in t.prefixes {
      JoinDrafts(t, id, a);
    } else {
      FreeIsFresh(t, p);
      GrowDrafts(t, id, a, Some(PrefixBinding(a, n)));
    }
    forall b: Attachment | b.key != a.key ensures Joins(u, mtp, b) <==> Joins(t, mtp, b) {
      if b.key in t.prefixes {
        OtherKey(t, p, a, b);
      }
      JoinsStays(t, u, id, p, mtp, b);
    }
  }

  lemma FreeIsFresh(t: Table, p: PageId)
    requires PoolsOk(t) && p in t.freeTarget
    ensures p !in t.physical
  {
    assert p !in t.physical.Keys;
  }

  // ---------------------------------------------------------------- whole admissions

  lemma {:induction false} AdmitFromDrafts(t: Table, id: nat, mtp: bool, attachments: seq<Attachment>, i: nat)
    requires Consistent(t) && i <= |attachments| && Transitions.FullTo(t, id, i) && 64 * |attachments| <= MAX_CONTEXT_TOKENS
    requires t.sequences[id].mtp == mtp && Transitions.AdmitFrom(t, id, mtp, attachments, i).Ok?
    ensures NoForeignDrafts(Transitions.AdmitFrom(t, id, mtp, attachments, i).value) <==>
            NoForeignDrafts(t) && forall j | i <= j < |attachments| :: Joins(t, mtp, attachments[j])
    decreases |attachments| - i
  {
    hide Consistent, NoForeignDrafts, Joins, Transitions.AttachPage;
    if i < |attachments| {
      var u := Transitions.AttachPage(t, id, attachments[i]).value;
      AttachDrafts(t, id, i, attachments[i]);
      AdmitFromDrafts(u, id, mtp, attachments, i + 1);
      forall j | i < j < |attachments| ensures Joins(u, mtp, attachments[j]) <==> Joins(t, mtp, attachments[j]) {
        Admission.KeysDiffer(t, id, mtp, attachments, i, j);
      }
    }
  }

  /** An admission leaves no foreign drafts exactly when there were none and every page it joins has
      holders with drafts only, or, without drafts of its own, no draft slot. */
  lemma AdmissionKeepsDraftsExactly(t: Table, id: nat, mtp: bool, attachments: seq<Attachment>)
    requires Valid(t) && Transitions.Admit(t, id, mtp, attachments).Ok?
    ensures NoForeignDrafts(Transitions.Admit(t, id, mtp, attachments).value) <==>
            NoForeignDrafts(t) && forall j | 0 <= j < |attachments| :: Joins(t, mtp, attachments[j])
  {
    hide Consistent, NoForeignDrafts, Joins, Transitions.AdmitFrom, Ops.Isolates;
    var s := Sequence(mtp, 0, [], None);
    var t0 := t.(sequences := t.sequences[id := s]);
    Transitions.OpenEmpty(t, id, mtp);
    AdmitFromDrafts(t0, id, mtp, attachments, 0);
    EmptyKeepsDrafts(t, t0, id, s);
    forall j | 0 <= j < |attachments| ensures Joins(t0, mtp, attachments[j]) <==> Joins(t, mtp, attachments[j]) {
      EmptyKeepsJoins(t, t0, id, s, mtp, attachments[j]);
    }
  }

  lemma EmptyKeepsDrafts(t: Table, u: Table, id: nat, s: Sequence)
    requires id !in t.sequences && u == t.(sequences := t.sequences[id := s]) && s.pages == []
    ensures NoForeignDrafts(u) <==> NoForeignDrafts(t)
  {
    assert Undrafted(u, s);
    forall x | x in t.sequences ensures u.sequences[x] == t.sequences[x] && (Undrafted(u, t.sequences[x]) <==> Undrafted(t, t.sequences[x])) {
    }
  }

  lemma EmptyKeepsJoins(t: Table, u: Table, id: nat, s: Sequence, mtp: bool, a: Attachment)
    requires id !in t.sequences && u == t.(sequences := t.sequences[id := s]) && s.pages == []
    ensures Joins(u, mtp, a) <==> Joins(t, mtp, a)
  {
    forall p ensures Holders(u.sequences, p) == Holders(t.sequences, p) {
    }
  }

  /** Admission and mirrors: the table after an admission has a mirror exactly when the table before had no
      foreign drafts, the admission mixes none, and there is room for one more sequence. */
  lemma MirrorAfterAdmission(t: Table, id: nat, mtp: bool, attachments: seq<Attachment>, generation: nat)
    requires Valid(t) && Transitions.Admit(t, id, mtp, attachments).Ok?
    ensures Delta.FromTable(Transitions.Admit(t, id, mtp, attachments).value, generation).Ok? <==>
            && generation > 0 && |t.sequences| < Delta.MAX_DELTA_SEQUENCES && NoForeignDrafts(t)
            && forall j | 0 <= j < |attachments| :: Joins(t, mtp, attachments[j])
  {
    hide Valid, NoForeignDrafts, Joins, Delta.FromTable, Transitions.Admit;
    AdmissionKeepsDraftsExactly(t, id, mtp, attachments);
    Transitions.AdmitIsSound(t, id, mtp, attachments);
    AdmitAddsOne(t, id, mtp, attachments);
    MirrorExists(Transitions.Admit(t, id, mtp, attachments).value, generation);
  }

  lemma AdmitAddsOne(t: Table, id: nat, mtp: bool, attachments: seq<Attachment>)
    requires Valid(t) && Transitions.Admit(t, id, mtp, attachments).Ok?
    ensures |Transitions.Admit(t, id, mtp, attachments).value.sequences| == |t.sequences| + 1
  {
    hide Consistent, Transitions.AdmitFrom, Ops.KeepsDrafts, Ops.Flows;
    var t0 := t.(sequences := t.sequences[id := Sequence(mtp, 0, [], None)]);
    Transitions.OpenEmpty(t, id, mtp);
    Transitions.AdmitFromFollows(t0, id, mtp, attachments, 0);
    OneMoreKey(t.sequences, Transitions.Admit(t, id, mtp, attachments).value.sequences, id);
  }

  lemma OneMoreKey(before: map<nat, Sequence>, after: map<nat, Sequence>, id: nat)
    requires id !in before && id in after && forall x | x != id :: x in before <==> x in after
    ensures |after| == |before| + 1
  {
    assert after.Keys == before.Keys + {id};
    assert |after| == |after.Keys| && |before| == |before.Keys|;
  }
}
