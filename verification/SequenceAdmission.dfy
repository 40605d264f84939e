/** What an admission is given: exactly when it succeeds, and which pages it then lists. */
module SequenceAdmission {
  import opened Collections
  import opened Page
  import opened SequenceModel
  import opened SequenceOps
  import Transitions = SequenceTransitions

  // ---------------------------------------------------------------- one attachment

  /** The published attachment `b` names the content `a` asks for, and its draft when `a` has one. */
  predicate Carries(b: Attachment, a: Attachment) {
    && b.namespace == a.namespace && b.key == a.key && b.kv == a.kv && b.indexer == a.indexer
    && (a.draft.Some? ==> b.draft == a.draft)
  }

  /** What a page published under `b` is published under once it was joined under `a`: only a draft that
      was missing is added, together with the newer generation it comes from. */
  function Merged(b: Attachment, a: Attachment): Attachment {
    if b.draft.None? && a.draft.Some? then Attachment(b.namespace, b.key, a.generation, b.kv, b.indexer, a.draft) else b
  }

  /** A page may be joined at `ordinal`, if one is published under the key of `a`: it stands at that ordinal,
      its content is the same, and the draft is the same, not asked for, or new and of a newer generation. */
  predicate MayJoin(t: Table, a: Attachment, ordinal: nat) {
    a.key in t.prefixes ==>
      && var p := t.prefixes[a.key];
      && p in t.physical && t.physical[p].prefix.Some? && t.physical[p].references < 4_294_967_295
      && var b := t.physical[p].prefix.value;
      && b.ordinal == ordinal
      && b.attachment.namespace == a.namespace && b.attachment.kv == a.kv && b.attachment.indexer == a.indexer
      && (a.draft.None? || b.attachment.draft == a.draft
          || (b.attachment.draft.None? && a.generation > b.attachment.generation))
  }

  /** Attaching `a` takes a new page. */
  predicate NeedsPage(t: Table, a: Attachment) {
    a.key !in t.prefixes
  }

  /** Attaching `a` to a sequence with drafts takes a new draft slot. */
  predicate NeedsDraft(t: Table, a: Attachment) {
    a.key in t.prefixes && t.prefixes[a.key] in t.physical ==> t.physical[t.prefixes[a.key]].draft.None?
  }

  /** There is a slot of the rank that owns `ordinal` for everything attaching `a` takes. */
  predicate HasSlots(t: Table, mtp: bool, a: Attachment, ordinal: nat) {
    && (NeedsPage(t, a) ==> Locals(t.freeTarget, ordinal % 4) != {})
    && (mtp && NeedsDraft(t, a) ==> Locals(t.freeDraft, ordinal % 4) != {})
  }

  /** The page sequence `id` was given for `a`: the one published under its key, or a new one. */
  ghost predicate Given(t: Table, mtp: bool, a: Attachment, ordinal: nat, p: PageId, page: PhysicalPage) {
    && page.state == HbmSealed && page.valid == 64
    && page.prefix.Some? && page.prefix.value.ordinal == ordinal && Carries(page.prefix.value.attachment, a)
    && p.rank == ordinal % 4 && (mtp ==> page.draft.Some?)
    && (if a.key in t.prefixes then
          && p == t.prefixes[a.key] && p in t.physical && t.physical[p].prefix.Some?
          && page.prefix.value.attachment == Merged(t.physical[p].prefix.value.attachment, a)
          && page.references == t.physical[p].references + 1
          && (t.physical[p].draft.Some? || !mtp ==> page.draft == t.physical[p].draft)
        else
          && p in t.freeTarget && p !in t.physical && page.references == 1
          && page.prefix.value.attachment == a && (!mtp ==> page.draft.None?))
  }

  /** One attachment: the sequence lists the page, and only that page and its slots change. */
  ghost predicate Attached(t: Table, u: Table, id: nat, a: Attachment, p: PageId) {
    && id in t.sequences && p in u.physical
    && var s, n := t.sequences[id], |t.sequences[id].pages|;
    && u.sequences == t.sequences[id := Sequence(s.mtp, s.committed + 64, s.pages + [Entry(n, p)], s.tentative)]
    && Given(t, s.mtp, a, n, p, u.physical[p])
    && u.physical == t.physical[p := u.physical[p]]
    && u.prefixes == t.prefixes[a.key := p]
    && u.freeTarget == t.freeTarget - {p}
    && u.freeDraft == t.freeDraft - DraftIds(p, u.physical[p].draft)
    && (u.physical[p].draft.Some? && (p !in t.physical || t.physical[p].draft.None?) ==>
          PageId(p.rank, u.physical[p].draft.value) in t.freeDraft)
  }

  /** A published page is sealed and full, and its rank is the one that owns its ordinal. */
  lemma PublishedIsSealed(t: Table, p: PageId)
    requires Consistent(t) && p in t.physical && t.physical[p].prefix.Some?
    ensures t.physical[p].state == HbmSealed && t.physical[p].valid == 64
    ensures p.rank == t.physical[p].prefix.value.ordinal % 4
  {
    hide PoolsOk, PrefixesOk, ShapesOk;
    assert 0 < |Holders(t.sequences, p)|;
    var x :| x in Holders(t.sequences, p);
    assert EntriesOk(t, t.sequences[x]) && Holds(t.sequences[x], p);
  }

  lemma JoinsExactly(t: Table, id: nat, n: nat, a: Attachment)
    requires Consistent(t) && Transitions.FullTo(t, id, n) && a.key in t.prefixes
    ensures Transitions.JoinPage(t, id, t.prefixes[a.key], a).Ok? <==>
            MayJoin(t, a, n) && HasSlots(t, t.sequences[id].mtp, a, n)
  {
    hide PoolsOk, ReferencesOk, AllEntriesOk, PagesOk, ShapesOk;
    var p := t.prefixes[a.key];
    assert p in t.physical && t.physical[p].prefix.Some?;
    hide Consistent;
    PublishedIsSealed(t, p);
  }

  lemma AttachesExactly(t: Table, id: nat, n: nat, a: Attachment)
    requires Consistent(t) && Transitions.FullTo(t, id, n)
    ensures Transitions.AttachPage(t, id, a).Ok? <==> MayJoin(t, a, n) && HasSlots(t, t.sequences[id].mtp, a, n)
  {
    hide Consistent, Transitions.JoinPage;
    if a.key in t.prefixes {
      JoinsExactly(t, id, n, a);
    }
  }

  lemma JoinGives(t: Table, id: nat, n: nat, a: Attachment)
    requires Consistent(t) && Transitions.FullTo(t, id, n) && a.key in t.prefixes
    requires Transitions.JoinPage(t, id, t.prefixes[a.key], a).Ok?
    ensures Attached(t, Transitions.JoinPage(t, id, t.prefixes[a.key], a).value, id, a, t.prefixes[a.key])
  {
    hide ReferencesOk, AllEntriesOk, PagesOk, ShapesOk, DistinctDrafts, LiveDrafts;
    var p := t.prefixes[a.key];
    assert p !in t.freeTarget by { assert p in t.physical.Keys; }
    LiveDraftIsNotFree(t, p);
    hide PoolsOk, Consistent;
    PublishedIsSealed(t, p);
  }

  lemma LiveDraftIsNotFree(t: Table, p: PageId)
    requires PoolsOk(t) && p in t.physical
    ensures DraftIds(p, t.physical[p].draft) !! t.freeDraft
  {
    assert DraftIds(p, t.physical[p].draft) <= LiveDrafts(t.physical);
  }

  lemma GrowGives(t: Table, id: nat, n: nat, a: Attachment)
    requires Consistent(t) && Transitions.FullTo(t, id, n) && a.key !in t.prefixes
    requires Transitions.AttachPage(t, id, a).Ok?
    ensures Attached(t, Transitions.AttachPage(t, id, a).value, id, a, First(t.freeTarget, OwnerRank(n)))
  {
    hide ReferencesOk, AllEntriesOk, PagesOk, ShapesOk, DistinctDrafts, LiveDrafts;
    var p := First(t.freeTarget, OwnerRank(n));
    assert p !in t.physical by { assert p !in t.physical.Keys; }
    hide PoolsOk, Consistent;
  }

  lemma AttachGives(t: Table, id: nat, n: nat, a: Attachment) returns (p: PageId)
    requires Consistent(t) && Transitions.FullTo(t, id, n) && 64 * (n + 1) <= MAX_CONTEXT_TOKENS
    requires Transitions.AttachPage(t, id, a).Ok?
    ensures var u := Transitions.AttachPage(t, id, a).value;
            Attached(t, u, id, a, p) && Consistent(u) && Transitions.FullTo(u, id, n + 1)
  {
    hide Consistent, Attached, Isolates, Flows;
    Transitions.AttachFollows(t, id, n, a);
    if a.key in t.prefixes {
      JoinGives(t, id, n, a);
      p := t.prefixes[a.key];
    } else {
      GrowGives(t, id, n, a);
      p := First(t.freeTarget, OwnerRank(n));
    }
  }

  // ---------------------------------------------------------------- whole admissions: what they give

  /** An attachment with another key meets the same page, with the same content, after the step. */
  lemma OthersUntouched(t: Table, u: Table, id: nat, a: Attachment, p: PageId, b: Attachment)
    requires PrefixesOk(t) && Attached(t, u, id, a, p) && b.key != a.key
    ensures b.key in u.prefixes <==> b.key in t.prefixes
    ensures b.key in t.prefixes ==>
              && u.prefixes[b.key] == t.prefixes[b.key] != p
              && t.prefixes[b.key] in t.physical && u.physical[t.prefixes[b.key]] == t.physical[t.prefixes[b.key]]
  {
  }

  /** Page `p` is not published under the key of any attachment from `i` on. */
  ghost predicate NotAsked(t: Table, attachments: seq<Attachment>, i: nat, p: PageId) {
    forall j | i <= j < |attachments| && attachments[j].key in t.prefixes :: t.prefixes[attachments[j].key] != p
  }

  /** From table `t` to table `u`, sequence `id` was given a page for every attachment from `i` on. */
  ghost predicate AllGiven(t: Table, u: Table, id: nat, attachments: seq<Attachment>, i: nat) {
    && id in t.sequences && id in u.sequences
    && var s, r := t.sequences[id], u.sequences[id];
    && |s.pages| <= |r.pages| == |attachments| && r.mtp == s.mtp && r.pages[..|s.pages|] == s.pages
    && u.sequences == t.sequences[id := r]
    && (forall j | i <= j < |attachments| ::
          && r.pages[j].ordinal == j && r.pages[j].physical in u.physical
          && Given(t, s.mtp, attachments[j], j, r.pages[j].physical, u.physical[r.pages[j].physical]))
  }

  /** No other page is touched. */
  ghost predicate OnlyAsked(t: Table, u: Table, attachments: seq<Attachment>, i: nat) {
    forall p | p in t.physical && NotAsked(t, attachments, i, p) :: p in u.physical && u.physical[p] == t.physical[p]
  }

  lemma GivenBefore(t: Table, u: Table, id: nat, a: Attachment, p: PageId, b: Attachment, mtp: bool, ordinal: nat, q: PageId, page: PhysicalPage)
    requires PrefixesOk(t) && Attached(t, u, id, a, p) && b.key != a.key && Given(u, mtp, b, ordinal, q, page)
    ensures Given(t, mtp, b, ordinal, q, page)
  {
    OthersUntouched(t, u, id, a, p, b);
  }

  lemma OnlyAskedMore(t: Table, u: Table, v: Table, id: nat, attachments: seq<Attachment>, i: nat, p: PageId)
    requires PrefixesOk(t) && i < |attachments| && Attached(t, u, id, attachments[i], p) && OnlyAsked(u, v, attachments, i + 1)
    requires forall j | i < j < |attachments| :: attachments[j].key != attachments[i].key
    ensures OnlyAsked(t, v, attachments, i)
    ensures p in v.physical && v.physical[p] == u.physical[p]
  {
    forall j | i < j < |attachments| && attachments[j].key in u.prefixes
      ensures attachments[j].key in t.prefixes && u.prefixes[attachments[j].key] == t.prefixes[attachments[j].key] != p
    {
      OthersUntouched(t, u, id, attachments[i], p, attachments[j]);
    }
    assert NotAsked(u, attachments, i + 1, p);
    forall q | q in t.physical && NotAsked(t, attachments, i, q) ensures q in v.physical && v.physical[q] == t.physical[q] {
      assert q != p;
      assert NotAsked(u, attachments, i + 1, q);
    }
  }

  lemma AllGivenMore(t: Table, u: Table, v: Table, id: nat, attachments: seq<Attachment>, i: nat, p: PageId)
    requires PrefixesOk(t) && i < |attachments| && Attached(t, u, id, attachments[i], p) && |t.sequences[id].pages| == i
    requires AllGiven(u, v, id, attachments, i + 1) && p in v.physical && v.physical[p] == u.physical[p]
    requires forall j | i < j < |attachments| :: attachments[j].key != attachments[i].key
    ensures AllGiven(t, v, id, attachments, i)
  {
    hide Given, PrefixesOk;
    var r, mtp := v.sequences[id], t.sequences[id].mtp;
    assert r.pages[..i + 1] == u.sequences[id].pages && r.pages[..i] == r.pages[..i + 1][..i];
    assert r.pages[i] == r.pages[..i + 1][i] == Entry(i, p);
    forall j | i < j < |attachments|
      ensures Given(t, mtp, attachments[j], j, r.pages[j].physical, v.physical[r.pages[j].physical])
    {
      GivenBefore(t, u, id, attachments[i], p, attachments[j], mtp, j, r.pages[j].physical, v.physical[r.pages[j].physical]);
    }
  }

  lemma {:induction false} AdmitFromGives(t: Table, id: nat, mtp: bool, attachments: seq<Attachment>, i: nat)
    requires Consistent(t) && i <= |attachments| && Transitions.FullTo(t, id, i) && 64 * |attachments| <= MAX_CONTEXT_TOKENS
    requires Transitions.AdmitFrom(t, id, mtp, attachments, i).Ok?
    ensures var u := Transitions.AdmitFrom(t, id, mtp, attachments, i).value;
            AllGiven(t, u, id, attachments, i) && OnlyAsked(t, u, attachments, i)
    decreases |attachments| - i
  {
    hide Given, Transitions.AttachPage, PoolsOk, ReferencesOk, AllEntriesOk, PagesOk, PrefixesOk, ShapesOk;
    if i == |attachments| {
      assert t.sequences == t.sequences[id := t.sequences[id]];
    } else {
      hide AllGiven, OnlyAsked, Attached;
      var u := Transitions.AttachPage(t, id, attachments[i]).value;
      var v := Transitions.AdmitFrom(t, id, mtp, attachments, i).value;
      var p := AttachGives(t, id, i, attachments[i]);
      AdmitFromGives(u, id, mtp, attachments, i + 1);
      forall j | i < j < |attachments| ensures attachments[j].key != attachments[i].key {
        KeysDiffer(t, id, mtp, attachments, i, j);
      }
      OnlyAskedMore(t, u, v, id, attachments, i, p);
      AllGivenMore(t, u, v, id, attachments, i, p);
    }
  }

  lemma {:induction false} KeysDiffer(t: Table, id: nat, mtp: bool, attachments: seq<Attachment>, i: nat, j: nat)
    requires i <= j < |attachments| && Transitions.AdmitFrom(t, id, mtp, attachments, i).Ok?
    ensures forall k | 0 <= k < j :: attachments[k].key != attachments[j].key
    decreases |attachments| - i
  {
    hide Transitions.AttachPage;
    if i < j {
      KeysDiffer(Transitions.AttachPage(t, id, attachments[i]).value, id, mtp, attachments, i + 1, j);
    }
  }

  /** Admission gives what was asked for: page `j` of the new sequence is full and sealed, stands at ordinal
      `j`, and is published with the namespace, key and digests of attachment `j`, and its draft when it has
      one. It is the page already published under that key, upgraded at most by a missing draft, or a new
      one; the other sequences and the other pages stay as they were. */
  lemma AdmissionGives(t: Table, id: nat, mtp: bool, attachments: seq<Attachment>)
    requires Valid(t) && Transitions.Admit(t, id, mtp, attachments).Ok?
    ensures var u := Transitions.Admit(t, id, mtp, attachments).value;
            && id in u.sequences && |u.sequences[id].pages| == |attachments|
            && u.sequences == t.sequences[id := Sequence(mtp, 64 * |attachments|, u.sequences[id].pages, None)]
            && (forall j | 0 <= j < |attachments| ::
                  var e, a := u.sequences[id].pages[j], attachments[j];
                  && e.ordinal == j && e.physical in u.physical && Given(t, mtp, a, j, e.physical, u.physical[e.physical]))
            && OnlyAsked(t, u, attachments, 0)
  {
    hide Given, Consistent, Isolates, Flows, Transitions.AdmitFrom;
    var s := Sequence(mtp, 0, [], None);
    var t0 := t.(sequences := t.sequences[id := s]);
    Transitions.OpenEmpty(t, id, mtp);
    AdmitFromGives(t0, id, mtp, attachments, 0);
    Transitions.AdmitFromFollows(t0, id, mtp, attachments, 0);
    var u := Transitions.Admit(t, id, mtp, attachments).value;
    forall j | 0 <= j < |attachments|
      ensures var e := u.sequences[id].pages[j]; Given(t, mtp, attachments[j], j, e.physical, u.physical[e.physical])
    {
      var e := u.sequences[id].pages[j];
      SameGiven(t, t0, mtp, attachments[j], j, e.physical, u.physical[e.physical]);
    }
    assert forall p | NotAsked(t, attachments, 0, p) :: NotAsked(t0, attachments, 0, p);
  }

  lemma SameGiven(t: Table, u: Table, mtp: bool, a: Attachment, ordinal: nat, p: PageId, page: PhysicalPage)
    requires u == t.(sequences := u.sequences) && Given(u, mtp, a, ordinal, p, page)
    ensures Given(t, mtp, a, ordinal, p, page)
  {
  }

  // ---------------------------------------------------------------- whole admissions: when they succeed

  /** The attachments from `i` on that rank `r` owns and that take a new page. */
  function NewPages(t: Table, attachments: seq<Attachment>, i: nat, r: nat): set<nat> {
    set j | i <= j < |attachments| && j % 4 == r && NeedsPage(t, attachments[j])
  }

  /** The attachments from `i` on that rank `r` owns and that take a new draft slot. */
  function NewDrafts(t: Table, attachments: seq<Attachment>, i: nat, r: nat): set<nat> {
    set j | i <= j < |attachments| && j % 4 == r && NeedsDraft(t, attachments[j])
  }

  /** Every rank has slots enough. */
  ghost predicate RoomFrom(t: Table, mtp: bool, attachments: seq<Attachment>, i: nat) {
    forall r | 0 <= r < 4 ::
      && |NewPages(t, attachments, i, r)| <= |Locals(t.freeTarget, r)|
      && (mtp ==> |NewDrafts(t, attachments, i, r)| <= |Locals(t.freeDraft, r)|)
  }

  /** The attachments from `i` on are fit to attach. */
  ghost predicate FitFrom(t: Table, mtp: bool, attachments: seq<Attachment>, i: nat) {
    forall j | i <= j < |attachments| ::
      && (mtp ==> attachments[j].draft.Some?)
      && (forall k | 0 <= k < j :: attachments[k].key != attachments[j].key)
      && MayJoin(t, attachments[j], j)
  }

  lemma SlotTaken(free: set<PageId>, slot: PageId, r: nat)
    requires slot in free
    ensures |Locals(free - {slot}, r)| == |Locals(free, r)| - (if slot.rank == r then 1 else 0)
  {
    var before, after := Locals(free, r), Locals(free - {slot}, r);
    forall l | l in before && (slot.rank != r || l != slot.local) ensures l in after {
      assert PageId(r, l) in free - {slot};
    }
    assert slot.rank == r ==> before == after + {slot.local} && slot.local !in after;
    assert slot.rank != r ==> before == after;
  }

  /** Rank `r` has enough slots before a step exactly when it has after it: the step uses up one slot and
      meets one of the wants of its rank. */
  lemma SlotFillsWant(free: set<PageId>, slot: PageId, wants: set<nat>, i: nat, r: nat)
    requires slot in free && (i in wants <==> slot.rank == r)
    ensures |wants| <= |Locals(free, r)| <==> |wants - {i}| <= |Locals(free - {slot}, r)|
  {
    SlotTaken(free, slot, r);
    assert i !in wants ==> wants - {i} == wants;
  }

  lemma RoomForPages(t: Table, u: Table, id: nat, attachments: seq<Attachment>, i: nat, p: PageId, r: nat)
    requires PoolsOk(t) && PrefixesOk(t) && i < |attachments| && Attached(t, u, id, attachments[i], p) && |t.sequences[id].pages| == i
    requires forall j | i < j < |attachments| :: attachments[j].key != attachments[i].key
    ensures |NewPages(t, attachments, i, r)| <= |Locals(t.freeTarget, r)| <==>
            |NewPages(u, attachments, i + 1, r)| <= |Locals(u.freeTarget, r)|
  {
    hide DistinctDrafts, LiveDrafts, PrefixesOk, Locals;
    var wants := NewPages(t, attachments, i, r);
    assert NewPages(u, attachments, i + 1, r) == wants - {i};
    if NeedsPage(t, attachments[i]) {
      SlotFillsWant(t.freeTarget, p, wants, i, r);
    } else {
      assert p !in t.freeTarget by { assert p in t.physical.Keys; }
      assert u.freeTarget == t.freeTarget && wants - {i} == wants;
    }
  }

  lemma WantsStay(t: Table, u: Table, id: nat, attachments: seq<Attachment>, i: nat, p: PageId, r: nat)
    requires PrefixesOk(t) && i < |attachments| && Attached(t, u, id, attachments[i], p)
    requires forall j | i < j < |attachments| :: attachments[j].key != attachments[i].key
    ensures NewDrafts(u, attachments, i + 1, r) == NewDrafts(t, attachments, i, r) - {i}
    ensures forall j | i < j < |attachments| :: MayJoin(u, attachments[j], j) <==> MayJoin(t, attachments[j], j)
  {
    hide Attached, PrefixesOk;
    forall j | i < j < |attachments|
      ensures NeedsDraft(u, attachments[j]) <==> NeedsDraft(t, attachments[j])
      ensures MayJoin(u, attachments[j], j) <==> MayJoin(t, attachments[j], j)
    {
      SameNeeds(t, u, id, attachments[i], p, attachments[j], j);
    }
  }

  lemma SameNeeds(t: Table, u: Table, id: nat, a: Attachment, p: PageId, b: Attachment, ordinal: nat)
    requires PrefixesOk(t) && Attached(t, u, id, a, p) && b.key != a.key
    ensures NeedsDraft(u, b) <==> NeedsDraft(t, b)
    ensures MayJoin(u, b, ordinal) <==> MayJoin(t, b, ordinal)
  {
    OthersUntouched(t, u, id, a, p, b);
  }

  lemma RoomForDrafts(t: Table, u: Table, id: nat, attachments: seq<Attachment>, i: nat, p: PageId, r: nat)
    requires PoolsOk(t) && PrefixesOk(t) && i < |attachments| && Attached(t, u, id, attachments[i], p)
    requires |t.sequences[id].pages| == i && t.sequences[id].mtp
    requires forall j | i < j < |attachments| :: attachments[j].key != attachments[i].key
    ensures |NewDrafts(t, attachments, i, r)| <= |Locals(t.freeDraft, r)| <==>
            |NewDrafts(u, attachments, i + 1, r)| <= |Locals(u.freeDraft, r)|
  {
    hide PoolsOk, PrefixesOk, Locals;
    var wants := NewDrafts(t, attachments, i, r);
    WantsStay(t, u, id, attachments, i, p, r);
    if NeedsDraft(t, attachments[i]) {
      SlotFillsWant(t.freeDraft, PageId(p.rank, u.physical[p].draft.value), wants, i, r);
    } else {
      LiveDraftIsNotFree(t, p);
      assert u.freeDraft == t.freeDraft && wants - {i} == wants;
    }
  }

  lemma RoomAfter(t: Table, u: Table, id: nat, attachments: seq<Attachment>, i: nat, p: PageId)
    requires Consistent(t) && id in t.sequences && i < |attachments| && Attached(t, u, id, attachments[i], p) && |t.sequences[id].pages| == i
    requires forall j | i < j < |attachments| :: attachments[j].key != attachments[i].key
    ensures RoomFrom(t, t.sequences[id].mtp, attachments, i) <==> RoomFrom(u, t.sequences[id].mtp, attachments, i + 1)
  {
    hide PoolsOk, ReferencesOk, AllEntriesOk, PagesOk, PrefixesOk, ShapesOk, Attached, NewPages, NewDrafts, Locals;
    forall r | 0 <= r < 4
      ensures |NewPages(t, attachments, i, r)| <= |Locals(t.freeTarget, r)| <==>
              |NewPages(u, attachments, i + 1, r)| <= |Locals(u.freeTarget, r)|
      ensures t.sequences[id].mtp ==> (|NewDrafts(t, attachments, i, r)| <= |Locals(t.freeDraft, r)| <==>
                                       |NewDrafts(u, attachments, i + 1, r)| <= |Locals(u.freeDraft, r)|)
    {
      RoomForPages(t, u, id, attachments, i, p, r);
      if t.sequences[id].mtp {
        RoomForDrafts(t, u, id, attachments, i, p, r);
      }
    }
  }

  lemma FitAfter(t: Table, u: Table, id: nat, attachments: seq<Attachment>, i: nat, p: PageId, mtp: bool)
    requires PrefixesOk(t) && i < |attachments| && Attached(t, u, id, attachments[i], p)
    requires forall j | i < j < |attachments| :: attachments[j].key != attachments[i].key
    ensures FitFrom(t, mtp, attachments, i) <==>
            && FitFrom(u, mtp, attachments, i + 1) && (mtp ==> attachments[i].draft.Some?)
            && (forall k | 0 <= k < i :: attachments[k].key != attachments[i].key) && MayJoin(t, attachments[i], i)
  {
    hide Attached, MayJoin, PrefixesOk;
    WantsStay(t, u, id, attachments, i, p, 0);
  }

  lemma RoomMeansSlots(t: Table, mtp: bool, attachments: seq<Attachment>, i: nat)
    requires i < |attachments| && RoomFrom(t, mtp, attachments, i)
    ensures HasSlots(t, mtp, attachments[i], i)
  {
    hide Locals, NeedsPage, NeedsDraft;
    var r := i % 4;
    assert NeedsPage(t, attachments[i]) ==> i in NewPages(t, attachments, i, r);
    assert NeedsDraft(t, attachments[i]) ==> i in NewDrafts(t, attachments, i, r);
  }

  lemma {:induction false} AdmitFromExactly(t: Table, id: nat, mtp: bool, attachments: seq<Attachment>, i: nat)
    requires Consistent(t) && i <= |attachments| && Transitions.FullTo(t, id, i) && 64 * |attachments| <= MAX_CONTEXT_TOKENS
    requires t.sequences[id].mtp == mtp
    ensures Transitions.AdmitFrom(t, id, mtp, attachments, i).Ok? <==>
            FitFrom(t, mtp, attachments, i) && RoomFrom(t, mtp, attachments, i)
    decreases |attachments| - i
  {
    hide Consistent, Attached, MayJoin, HasSlots, Transitions.AttachPage;
    if i == |attachments| {
      assert forall r :: NewPages(t, attachments, i, r) == {} && NewDrafts(t, attachments, i, r) == {};
    } else {
      hide RoomFrom;
      AttachesExactly(t, id, i, attachments[i]);
      if RoomFrom(t, mtp, attachments, i) {
        RoomMeansSlots(t, mtp, attachments, i);
      }
      if Transitions.AttachPage(t, id, attachments[i]).Ok? {
        AdmitStepExactly(t, id, mtp, attachments, i);
      }
    }
  }

  lemma {:induction false} AdmitStepExactly(t: Table, id: nat, mtp: bool, attachments: seq<Attachment>, i: nat)
    requires Consistent(t) && i < |attachments| && Transitions.FullTo(t, id, i) && 64 * |attachments| <= MAX_CONTEXT_TOKENS
    requires t.sequences[id].mtp == mtp && Transitions.AttachPage(t, id, attachments[i]).Ok?
    ensures Transitions.AdmitFrom(t, id, mtp, attachments, i).Ok? <==>
            FitFrom(t, mtp, attachments, i) && RoomFrom(t, mtp, attachments, i)
    decreases |attachments| - i, 0
  {
    hide PoolsOk, ReferencesOk, AllEntriesOk, PagesOk, PrefixesOk, ShapesOk, MayJoin, RoomFrom, Given, Transitions.AttachPage;
    var u := Transitions.AttachPage(t, id, attachments[i]).value;
    var p := AttachGives(t, id, i, attachments[i]);
    AttachesExactly(t, id, i, attachments[i]);
    AdmitFromExactly(u, id, mtp, attachments, i + 1);
    if forall j | i < j < |attachments| :: attachments[j].key != attachments[i].key {
      FitAfter(t, u, id, attachments, i, p, mtp);
      RoomAfter(t, u, id, attachments, i, p);
    }
  }

  /** Exactly when an admission succeeds: nothing is bound, the sequence is named and new and not too long,
      no key is given twice, a sequence with drafts is given drafts, every page already published may be
      joined, and every rank has slots for what is new. */
  lemma AdmissionExactly(t: Table, id: nat, mtp: bool, attachments: seq<Attachment>)
    requires Valid(t)
    ensures Transitions.Admit(t, id, mtp, attachments).Ok? <==>
            && t.bound.None? && id != 0 && id !in t.sequences && |attachments| <= 16_384
            && (forall j | 0 <= j < |attachments| ::
                  && (mtp ==> attachments[j].draft.Some?)
                  && (forall k | 0 <= k < j :: attachments[k].key != attachments[j].key)
                  && MayJoin(t, attachments[j], j))
            && (forall r | 0 <= r < 4 ::
                  && |NewPages(t, attachments, 0, r)| <= |Locals(t.freeTarget, r)|
                  && (mtp ==> |NewDrafts(t, attachments, 0, r)| <= |Locals(t.freeDraft, r)|))
  {
    hide Consistent, Isolates, Flows, Transitions.AdmitFrom, Locals;
    if t.bound.None? && id != 0 && id !in t.sequences && |attachments| <= 16_384 {
      var t0 := t.(sequences := t.sequences[id := Sequence(mtp, 0, [], None)]);
      Transitions.OpenEmpty(t, id, mtp);
      AdmitFromExactly(t0, id, mtp, attachments, 0);
      assert forall r :: NewPages(t0, attachments, 0, r) == NewPages(t, attachments, 0, r);
      assert forall r :: NewDrafts(t0, attachments, 0, r) == NewDrafts(t, attachments, 0, r);
    }
  }
}
