/** The public operations of the page table and the invariant they all keep. */
module SequenceTransitions {
  import opened Collections
  import opened Page
  import opened SequenceModel
  import opened SequenceSteps
  import opened SequenceOps

  // ---------------------------------------------------------------- prefix attachments

  /** How a candidate attachment relates to the one a live page was published under. */
  function Relate(current: Attachment, candidate: Attachment): Result<Relation, Error> {
    if current.namespace != candidate.namespace || current.key != candidate.key
       || current.kv != candidate.kv || current.indexer != candidate.indexer then Err(BadPrefix)
    else if candidate.draft.None? then Ok(if current.draft.None? then Exact else RetainDraft)
    else if current.draft.None? then
      if candidate.generation > current.generation then Ok(DraftUpgrade) else Err(BadPrefix)
    else if current.draft == candidate.draft then Ok(Exact)
    else Err(BadPrefix)
  }

  /** A published page may be joined at `ordinal` under attachment `a`. */
  predicate Joinable(t: Table, p: PageId, a: Attachment, ordinal: nat) {
    && p in t.physical
    && t.physical[p].state == HbmSealed && t.physical[p].valid == 64
    && p.rank == OwnerRank(ordinal)
    && t.physical[p].prefix.Some?
    && t.physical[p].prefix.value.ordinal == ordinal
    && Relate(t.physical[p].prefix.value.attachment, a).Ok?
  }

  function OneFullPage(s: Sequence): Sequence {
    s.(committed := s.committed + 64)
  }

  function JoinPage(t: Table, id: nat, p: PageId, a: Attachment): Result<Table, Error>
    requires id in t.sequences
  {
    var s := t.sequences[id];
    var n := |s.pages|;
    if !Joinable(t, p, a, n) then Err(BadPrefix)
    else
      var page := t.physical[p];
      var upgraded := if Relate(page.prefix.value.attachment, a).value == DraftUpgrade
                      then page.(prefix := Some(PrefixBinding(a, n))) else page;
      if s.mtp && page.draft.None? && Locals(t.freeDraft, p.rank) == {} then Err(Capacity)
      else if page.references >= MAX_REFERENCES then Err(Overflow)
      else
        var joined := if s.mtp && page.draft.None?
                      then upgraded.(draft := Some(First(t.freeDraft, p.rank).local)) else upgraded;
        Ok(Share(t, id, OneFullPage(s), p, joined))
  }

  function AttachPage(t: Table, id: nat, a: Attachment): Result<Table, Error> {
    if id !in t.sequences then Err(BadSequence)
    else if a.key in t.prefixes then JoinPage(t, id, t.prefixes[a.key], a)
    else Grow(t, id, OneFullPage(t.sequences[id]), Some(PrefixBinding(a, |t.sequences[id].pages|)))
  }

  function AdmitFrom(t: Table, id: nat, mtp: bool, attachments: seq<Attachment>, i: nat): Result<Table, Error>
    requires i <= |attachments|
    decreases |attachments| - i
  {
    if i == |attachments| then Ok(t)
    else if mtp && attachments[i].draft.None? then Err(MissingDraft)
    else if exists j | 0 <= j < i :: attachments[j].key == attachments[i].key then Err(BadPrefix)
    else
      var u :- AttachPage(t, id, attachments[i]);
      AdmitFrom(u, id, mtp, attachments, i + 1)
  }

  // ---------------------------------------------------------------- the operations

  function New(config: Config): Result<Table, Error> {
    if ConfigOk(config) then
      Ok(Table(config, Universe(config.targetPages), Universe(config.draftPages), {}, {}, None, map[], map[], map[]))
    else
      Err(BadConfig)
  }

  function Admit(t: Table, id: nat, mtp: bool, attachments: seq<Attachment>): Result<Table, Error> {
    if t.bound.Some? then Err(BadTransaction)
    else if id == 0 || id in t.sequences || |attachments| > MAX_CONTEXT_TOKENS / 64 then Err(BadSequence)
    else AdmitFrom(t.(sequences := t.sequences[id := Sequence(mtp, 0, [], None)]), id, mtp, attachments, 0)
  }

  function Append(t: Table, id: nat, n: nat): Result<Table, Error> {
    if t.bound.Some? then Err(BadTransaction)
    else if n == 0 then Ok(t)
    else if id !in t.sequences then Err(BadSequence)
    else if t.sequences[id].committed + n > MAX_CONTEXT_TOKENS || t.sequences[id].tentative.Some? then
      Err(BadTransaction)
    else AddTokens(t, id, n)
  }

  /** Copies page `i` of `source` to the end of `target`: sealed pages are shared, an open
      page gets a private copy. */
  function ForkPage(t: Table, source: nat, target: nat, i: nat): Result<Table, Error>
    requires source in t.sequences && target in t.sequences && i < |t.sequences[source].pages|
  {
    var s := t.sequences[source];
    var p := s.pages[i].physical;
    var h := t.sequences[target].(committed := if s.committed <= 64 * (i + 1) then s.committed else 64 * (i + 1));
    if p !in t.physical then Err(BrokenInvariant)
    else
      var page := t.physical[p];
      if page.state == HbmSealed && page.valid == 64 then
        if page.references >= MAX_REFERENCES then Err(Overflow) else Ok(Share(t, target, h, p, page))
      else if page.state == HbmMutable && page.valid < 64 && page.references == 1 then Grow(t, target, h, None)
      else Err(BadState)
  }

  function ForkFrom(t: Table, source: nat, target: nat, i: nat): Result<Table, Error>
    decreases if source in t.sequences then |t.sequences[source].pages| - i else 0
  {
    if source !in t.sequences || target !in t.sequences || source == target then Err(BadSequence)
    else if i >= |t.sequences[source].pages| then Ok(t)
    else
      var u :- ForkPage(t, source, target, i);
      ForkFrom(u, source, target, i + 1)
  }

  function Fork(t: Table, source: nat, target: nat): Result<Table, Error> {
    if t.bound.Some? then Err(BadTransaction)
    else if target == 0 || target in t.sequences || source !in t.sequences then Err(BadSequence)
    else if t.sequences[source].tentative.Some? then Err(BadTransaction)
    else ForkFrom(t.(sequences := t.sequences[target := Sequence(t.sequences[source].mtp, 0, [], None)]),
                  source, target, 0)
  }

  function Begin(t: Table, id: nat, n: nat): Result<Table, Error> {
    if t.bound.Some? || n == 0 || n > 7 then Err(BadTransaction)
    else if id !in t.sequences then Err(BadSequence)
    else
      var s := t.sequences[id];
      if s.tentative.Some? || s.committed + n > MAX_CONTEXT_TOKENS then Err(BadTransaction)
      else AddTokens(t.(sequences := t.sequences[id := s.(tentative := Some(TailOf(s, 0)))]), id, n)
  }

  /** Keeps the first `k` reserved tokens of an open transaction and gives back the rest. */
  function Settle(t: Table, id: nat, k: nat): Result<Table, Error>
    requires id in t.sequences
  {
    var committed := t.sequences[id].committed + k;
    var u :- Trim(t, id, PagesFor(committed));
    if id !in u.sequences then Err(BadSequence)
    else Refit(u, id, u.sequences[id].(committed := committed, tentative := None))
  }

  function Commit(t: Table, id: nat, k: nat): Result<Table, Error> {
    if t.bound.Some? || id !in t.sequences || t.sequences[id].tentative.None?
       || k == 0 || k > Reserved(t.sequences[id])
       || t.sequences[id].committed + k > MAX_CONTEXT_TOKENS then Err(BadTransaction)
    else Settle(t, id, k)
  }

  function Rollback(t: Table, id: nat): Result<Table, Error> {
    if t.bound.Some? || id !in t.sequences || t.sequences[id].tentative.None? then Err(BadTransaction)
    else Settle(t, id, 0)
  }

  /** Gives up the pages of a sequence from the last to the first. */
  function DropAll(t: Table, id: nat): Result<Table, Error>
    decreases if id in t.sequences then |t.sequences[id].pages| else 0
  {
    if id !in t.sequences then Err(BadSequence)
    else
      var s := t.sequences[id];
      if s.pages == [] then Ok(t)
      else if !HasLast(t, s) then Err(BrokenInvariant)
      else DropAll(DropLast(t, id, s.(committed := 64 * (|s.pages| - 1))), id)
  }

  function Remove(t: Table, id: nat): Result<Table, Error> {
    if t.bound.Some? then Err(BadTransaction)
    else if id !in t.sequences then Err(BadSequence)
    else if t.sequences[id].tentative.Some? then Err(BadTransaction)
    else
      var u :- DropAll(t, id);
      Ok(u.(sequences := u.sequences - {id}))
  }

  /** Binds everything now in quarantine to one acknowledgement generation. */
  function Bind(t: Table, generation: nat): Result<Table, Error> {
    if generation == 0 || t.bound.Some? then Err(BadTransaction)
    else if t.quarantinedTarget == {} && t.quarantinedDraft == {} then Ok(t)
    else Ok(t.(bound := Some(generation)))
  }

  /** Frees the quarantine once the bound generation has been acknowledged. */
  function Acknowledge(t: Table, generation: nat): Result<Table, Error> {
    if t.bound != Some(generation) then Err(BadTransaction)
    else Ok(t.(freeTarget := t.freeTarget + t.quarantinedTarget,
               freeDraft := t.freeDraft + t.quarantinedDraft,
               quarantinedTarget := {}, quarantinedDraft := {}, bound := None))
  }

  // ---------------------------------------------------------------- errors that can happen

  /** Errors a caller can provoke; the others report a broken table. */
  predicate Expected(e: Error) {
    e.BadSequence? || e.BadPrefix? || e.MissingDraft? || e.Capacity? || e.BadTransaction? || e.Overflow?
  }

  // ---------------------------------------------------------------- admission

  /** Sequence `id` consists of `n` full pages. */
  ghost predicate FullTo(t: Table, id: nat, n: nat) {
    && id in t.sequences && t.sequences[id].tentative.None?
    && |t.sequences[id].pages| == n && t.sequences[id].committed == 64 * n
  }

  lemma CanGrowFull(t: Table, id: nat, n: nat, h: Sequence)
    requires FullTo(t, id, n) && h == t.sequences[id].(committed := h.committed)
    requires 64 * n < h.committed <= 64 * (n + 1) && h.committed <= MAX_CONTEXT_TOKENS
    ensures CanGrow(t, id, h)
  {
  }

  lemma JoinCanShare(t: Table, id: nat, n: nat, p: PageId, a: Attachment)
    requires Consistent(t) && FullTo(t, id, n) && 64 * (n + 1) <= MAX_CONTEXT_TOKENS
    requires JoinPage(t, id, p, a).Ok?
    ensures exists page :: CanShare(t, id, OneFullPage(t.sequences[id]), p, page)
                           && JoinPage(t, id, p, a).value == Share(t, id, OneFullPage(t.sequences[id]), p, page)
  {
    hide PoolsOk, ReferencesOk, PagesOk, PrefixesOk, ShapesOk;
    var s := t.sequences[id];
    CanGrowFull(t, id, n, OneFullPage(s));
    forall x | x in t.sequences ensures PlaceIs(t.sequences[x], p, n) {
      assert EntriesOk(t, t.sequences[x]);
    }
    var page := t.physical[p];
    var upgraded := if Relate(page.prefix.value.attachment, a).value == DraftUpgrade
                    then page.(prefix := Some(PrefixBinding(a, n))) else page;
    var joined := if s.mtp && page.draft.None?
                  then upgraded.(draft := Some(First(t.freeDraft, p.rank).local)) else upgraded;
    assert CanShare(t, id, OneFullPage(s), p, joined);
  }

  lemma AttachFollows(t: Table, id: nat, n: nat, a: Attachment)
    requires Consistent(t) && FullTo(t, id, n) && 64 * (n + 1) <= MAX_CONTEXT_TOKENS
    ensures AttachPage(t, id, a).Err? ==> Expected(AttachPage(t, id, a).error)
    ensures AttachPage(t, id, a).Ok? ==> Follows(t, AttachPage(t, id, a).value, id)
    ensures AttachPage(t, id, a).Ok? ==> FullTo(AttachPage(t, id, a).value, id, n + 1)
  {
    hide Consistent, Isolates, CanShare, CanGrow;
    var h := OneFullPage(t.sequences[id]);
    if a.key in t.prefixes {
      var p := t.prefixes[a.key];
      if JoinPage(t, id, p, a).Ok? {
        JoinCanShare(t, id, n, p, a);
        var page :| CanShare(t, id, h, p, page) && JoinPage(t, id, p, a).value == Share(t, id, h, p, page);
        ShareFollows(t, id, h, p, page);
      }
    } else {
      CanGrowFull(t, id, n, h);
      GrowFollows(t, id, h, Some(PrefixBinding(a, n)));
    }
  }

  lemma {:induction false} AdmitFromFollows(t: Table, id: nat, mtp: bool, attachments: seq<Attachment>, i: nat)
    requires Consistent(t) && i <= |attachments| && FullTo(t, id, i) && 64 * |attachments| <= MAX_CONTEXT_TOKENS
    ensures var r := AdmitFrom(t, id, mtp, attachments, i);
            && (r.Err? ==> Expected(r.error))
            && (r.Ok? ==> Follows(t, r.value, id) && FullTo(r.value, id, |attachments|))
    decreases |attachments| - i
  {
    hide Consistent, Isolates, AttachPage;
    if i == |attachments| {
      FollowsSelf(t, id);
    } else {
      AttachFollows(t, id, i, attachments[i]);
      var u := AttachPage(t, id, attachments[i]);
      if u.Ok? {
        AdmitFromFollows(u.value, id, mtp, attachments, i + 1);
        var r := AdmitFrom(u.value, id, mtp, attachments, i + 1);
        if r.Ok? {
          FollowsTransitive(t, u.value, r.value, id);
        }
      }
    }
  }

  lemma OpenEmptyReferences(t: Table, u: Table, id: nat, s: Sequence)
    requires ReferencesOk(t) && ShapesOk(t) && id !in t.sequences
    requires s.pages == [] && s.committed == 0 && s.tentative.None?
    requires u == t.(sequences := t.sequences[id := s])
    ensures ReferencesOk(u) && ShapesOk(u)
  {
    hide Holds, ShapeOk;
    EmptySequence(u.physical, s);
    assert forall q :: Holders(u.sequences, q) == Holders(t.sequences, q);
  }

  lemma EmptySequence(physical: map<PageId, PhysicalPage>, s: Sequence)
    requires s.pages == [] && s.committed == 0 && s.tentative.None?
    ensures ShapeOk(physical, s) && forall q :: !Holds(s, q)
  {
  }

  lemma OpenEmptyEntries(t: Table, u: Table, id: nat, s: Sequence)
    requires AllEntriesOk(t) && id != 0 && id !in t.sequences
    requires s.pages == [] && u == t.(sequences := t.sequences[id := s])
    ensures AllEntriesOk(u) && Isolates(t, u, id)
  {
    forall x | x in t.sequences ensures KeepsDrafts(t, u, t.sequences[x]) && EntriesOk(u, t.sequences[x]) {
      assert EntriesOk(t, t.sequences[x]);
    }
    forall x, y | x in u.sequences && y in u.sequences ensures SamePlace(u.sequences[x], u.sequences[y]) {
      if x != id && y != id { assert SamePlace(t.sequences[x], t.sequences[y]); }
    }
  }

  /** A fresh empty sequence may be added at any time. */
  lemma OpenEmpty(t: Table, id: nat, mtp: bool)
    requires Consistent(t) && id != 0 && id !in t.sequences
    ensures Follows(t, t.(sequences := t.sequences[id := Sequence(mtp, 0, [], None)]), id)
  {
    hide PoolsOk, ReferencesOk, AllEntriesOk, PrefixesOk, PagesOk, ShapesOk, Isolates;
    var s := Sequence(mtp, 0, [], None);
    var u := t.(sequences := t.sequences[id := s]);
    OpenEmptyReferences(t, u, id, s);
    OpenEmptyEntries(t, u, id, s);
    SameButSequences(t, u);
  }

  lemma SameButSequences(t: Table, u: Table)
    requires u == t.(sequences := u.sequences) && PoolsOk(t) && PrefixesOk(t) && PagesOk(t)
    ensures PoolsOk(u) && PrefixesOk(u) && PagesOk(u)
  {
  }

  // ---------------------------------------------------------------- every operation

  /** What a caller sees of an operation on sequence `id`: success keeps the invariant and
      leaves the other sequences alone, failure is one of the expected errors. */
  ghost predicate Sound(t: Table, r: Result<Table, Error>, id: nat) {
    && (r.Ok? ==> Valid(r.value) && Isolates(t, r.value, id) && Flows(t, r.value))
    && (r.Err? ==> Expected(r.error))
  }

  lemma SoundResult(t: Table, u: Table, id: nat)
    requires Valid(t) && Follows(t, u, id)
    requires id in u.sequences && u.sequences[id].tentative.Some? ==> Reserved(u.sequences[id]) > 0
    ensures Sound(t, Ok(u), id)
  {
    hide Consistent;
  }

  lemma AdmitIsSound(t: Table, id: nat, mtp: bool, attachments: seq<Attachment>)
    requires Valid(t)
    ensures Sound(t, Admit(t, id, mtp, attachments), id)
  {
    hide Consistent, Isolates, AdmitFrom;
    var r := Admit(t, id, mtp, attachments);
    if t.bound.None? && id != 0 && id !in t.sequences && |attachments| <= MAX_CONTEXT_TOKENS / 64 {
      var u := t.(sequences := t.sequences[id := Sequence(mtp, 0, [], None)]);
      OpenEmpty(t, id, mtp);
      AdmitFromFollows(u, id, mtp, attachments, 0);
      if r.Ok? {
        FollowsTransitive(t, u, r.value, id);
        SoundResult(t, r.value, id);
      }
    }
  }

  lemma AppendIsSound(t: Table, id: nat, n: nat)
    requires Valid(t)
    ensures Sound(t, Append(t, id, n), id)
  {
    hide Consistent, Isolates, AddTokens;
    var r := Append(t, id, n);
    FollowsSelf(t, id);
    if t.bound.None? && n == 0 {
      SoundResult(t, t, id);
    } else if t.bound.None? && id in t.sequences && t.sequences[id].tentative.None?
              && t.sequences[id].committed + n <= MAX_CONTEXT_TOKENS {
      AddTokensFollows(t, id, n);
      if r.Ok? {
        SoundResult(t, r.value, id);
      }
    }
  }

  // ---------------------------------------------------------------- fork

  /** The first `i` pages of `source` have been copied to `target`. */
  ghost predicate ForkedTo(t: Table, source: nat, target: nat, i: nat) {
    && source in t.sequences && target in t.sequences && source != target
    && var s := t.sequences[source]; var d := t.sequences[target];
    && s.tentative.None? && d.tentative.None? && d.mtp == s.mtp
    && i == |d.pages| <= |s.pages|
    && d.committed == (if s.committed <= 64 * i then s.committed else 64 * i)
  }

  lemma ForkPageFollows(t: Table, source: nat, target: nat, i: nat)
    requires Consistent(t) && ForkedTo(t, source, target, i) && i < |t.sequences[source].pages|
    ensures var r := ForkPage(t, source, target, i);
            && (r.Err? ==> Expected(r.error))
            && (r.Ok? ==> Follows(t, r.value, target) && ForkedTo(r.value, source, target, i + 1))
  {
    hide PoolsOk, ReferencesOk, PrefixesOk, CanGrow, CanShare, Isolates;
    var s := t.sequences[source];
    var p := s.pages[i].physical;
    var h := t.sequences[target].(committed := if s.committed <= 64 * (i + 1) then s.committed else 64 * (i + 1));
    assert ShapeOk(t.physical, s);
    CanGrowFull(t, target, i, h);
    if t.physical[p].state == HbmSealed {
      if t.physical[p].references < MAX_REFERENCES {
        ForkCanShare(t, source, target, i, h);
        ShareFollows(t, target, h, p, t.physical[p]);
        ForkedMore(t, ForkPage(t, source, target, i).value, source, target, i);
      }
    } else {
      GrowFollows(t, target, h, None);
      if Grow(t, target, h, None).Ok? {
        ForkedMore(t, ForkPage(t, source, target, i).value, source, target, i);
      }
    }
  }

  lemma ForkCanShare(t: Table, source: nat, target: nat, i: nat, h: Sequence)
    requires Consistent(t) && ForkedTo(t, source, target, i) && i < |t.sequences[source].pages|
    requires CanGrow(t, target, h) && h.committed <= t.sequences[source].committed
    requires h == t.sequences[target].(committed := h.committed)
    requires var p := t.sequences[source].pages[i].physical;
             p in t.physical && t.physical[p].state == HbmSealed && t.physical[p].references < MAX_REFERENCES
    requires 64 * (i + 1) <= t.sequences[source].committed ==> h.committed == 64 * (i + 1)
    ensures var p := t.sequences[source].pages[i].physical;
            p in t.physical && CanShare(t, target, h, p, t.physical[p])
  {
    hide PoolsOk, ReferencesOk, PrefixesOk, CanGrow;
    var s := t.sequences[source];
    var p := s.pages[i].physical;
    assert ShapeOk(t.physical, s) && EntriesOk(t, s);
    assert StateAt(s, i) == HbmSealed;
    forall x | x in t.sequences ensures PlaceIs(t.sequences[x], p, i) {
      assert SamePlace(t.sequences[x], s);
    }
  }

  lemma ForkedMore(t: Table, u: Table, source: nat, target: nat, i: nat)
    requires ForkedTo(t, source, target, i) && i < |t.sequences[source].pages| && Isolates(t, u, target)
    requires HeaderOf(u, target,
                      t.sequences[target].(
                        committed := if t.sequences[source].committed <= 64 * (i + 1)
                                     then t.sequences[source].committed else 64 * (i + 1)))
    requires |u.sequences[target].pages| == i + 1
    ensures ForkedTo(u, source, target, i + 1)
  {
  }

  lemma {:induction false} ForkFromFollows(t: Table, source: nat, target: nat, i: nat)
    requires Consistent(t) && ForkedTo(t, source, target, i)
    ensures var r := ForkFrom(t, source, target, i);
            && (r.Err? ==> Expected(r.error))
            && (r.Ok? ==> Follows(t, r.value, target)
                          && ForkedTo(r.value, source, target, |t.sequences[source].pages|))
    decreases |t.sequences[source].pages| - i
  {
    hide Consistent, Isolates, ForkPage;
    if i >= |t.sequences[source].pages| {
      FollowsSelf(t, target);
    } else {
      ForkPageFollows(t, source, target, i);
      var u := ForkPage(t, source, target, i);
      if u.Ok? {
        SourceUntouched(t, u.value, source, target);
        ForkFromFollows(u.value, source, target, i + 1);
        var r := ForkFrom(u.value, source, target, i + 1);
        if r.Ok? {
          FollowsTransitive(t, u.value, r.value, target);
        }
      }
    }
  }

  lemma SourceUntouched(t: Table, u: Table, source: nat, target: nat)
    requires Isolates(t, u, target) && source in t.sequences && source != target
    ensures source in u.sequences && u.sequences[source] == t.sequences[source]
  {
  }

  lemma ForkIsSound(t: Table, source: nat, target: nat)
    requires Valid(t)
    ensures Sound(t, Fork(t, source, target), target)
  {
    hide Consistent, Isolates, ForkFrom;
    var r := Fork(t, source, target);
    if t.bound.None? && target != 0 && target !in t.sequences && source in t.sequences
       && t.sequences[source].tentative.None? {
      var u := t.(sequences := t.sequences[target := Sequence(t.sequences[source].mtp, 0, [], None)]);
      OpenEmpty(t, target, t.sequences[source].mtp);
      ForkFromFollows(u, source, target, 0);
      if r.Ok? {
        FollowsTransitive(t, u, r.value, target);
        SoundResult(t, r.value, target);
      }
    }
  }

  // ---------------------------------------------------------------- transactions

  function Opened(t: Table, id: nat): Table
    requires id in t.sequences
  {
    t.(sequences := t.sequences[id := t.sequences[id].(tentative := Some(TailOf(t.sequences[id], 0)))])
  }

  lemma OpenFollows(t: Table, id: nat)
    requires Consistent(t) && id in t.sequences && t.sequences[id].tentative.None?
    ensures Follows(t, Opened(t, id), id)
  {
    hide PoolsOk, ReferencesOk, PagesOk, PrefixesOk, AllEntriesOk, Isolates;
    var s := t.sequences[id];
    assert ShapeOk(t.physical, s);
    ReshapeFollows(t, Opened(t, id), id, s.(tentative := Some(TailOf(s, 0))));
  }

  lemma BeginIsSound(t: Table, id: nat, n: nat)
    requires Valid(t)
    ensures Sound(t, Begin(t, id, n), id)
    ensures Begin(t, id, n).Ok? ==>
              HeaderOf(Begin(t, id, n).value, id, t.sequences[id].(tentative := Some(TailOf(t.sequences[id], n))))
  {
    hide Consistent, Isolates, AddTokens;
    var r := Begin(t, id, n);
    if t.bound.None? && 0 < n <= 7 && id in t.sequences && t.sequences[id].tentative.None?
       && t.sequences[id].committed + n <= MAX_CONTEXT_TOKENS {
      OpenFollows(t, id);
      AddTokensFollows(Opened(t, id), id, n);
      if r.Ok? {
        FollowsTransitive(t, Opened(t, id), r.value, id);
        SoundResult(t, r.value, id);
      }
    }
  }

  /** The facts a settlement needs about an open transaction. */
  lemma OpenTransaction(t: Table, id: nat, k: nat)
    requires Consistent(t) && id in t.sequences && t.sequences[id].tentative.Some? && k <= Reserved(t.sequences[id])
    ensures var s := t.sequences[id];
            && s.committed + k <= MAX_CONTEXT_TOKENS
            && s.tentative.value.pageCount == PagesFor(s.committed)
            && |s.pages| == PagesFor(Positions(s))
            && PagesFor(s.committed) <= PagesFor(s.committed + k) <= |s.pages|
  {
    hide PoolsOk, ReferencesOk, PagesOk, PrefixesOk, AllEntriesOk;
    assert ShapeOk(t.physical, t.sequences[id]);
  }

  /** Settling an open transaction after `k` of its tokens never fails. */
  lemma SettleFollows(t: Table, id: nat, k: nat)
    requires Consistent(t) && id in t.sequences && t.sequences[id].tentative.Some? && k <= Reserved(t.sequences[id])
    ensures Settle(t, id, k).Ok? && Follows(t, Settle(t, id, k).value, id)
    ensures id in Settle(t, id, k).value.sequences
    ensures var s := t.sequences[id];
            PagesFor(s.committed + k) <= |s.pages| &&
            Settle(t, id, k).value.sequences[id] ==
            s.(committed := s.committed + k, tentative := None, pages := s.pages[..PagesFor(s.committed + k)])
  {
    hide Consistent, Isolates, Trim, Refit;
    var s := t.sequences[id];
    OpenTransaction(t, id, k);
    var count := PagesFor(s.committed + k);
    TrimFollows(t, id, count);
    var u := Trim(t, id, count).value;
    var h := u.sequences[id].(committed := s.committed + k, tentative := None);
    RefitFollows(u, id, h);
    FollowsTransitive(t, u, Refit(u, id, h).value, id);
  }

  lemma CommitIsSound(t: Table, id: nat, k: nat)
    requires Valid(t)
    ensures Sound(t, Commit(t, id, k), id)
    ensures t.bound.None? && id in t.sequences && 0 < k <= Reserved(t.sequences[id]) ==> Commit(t, id, k).Ok?
  {
    hide Consistent, Isolates, Settle;
    if t.bound.None? && id in t.sequences && t.sequences[id].tentative.Some? && 0 < k <= Reserved(t.sequences[id]) {
      OpenTransaction(t, id, k);
      SettleFollows(t, id, k);
      SoundResult(t, Settle(t, id, k).value, id);
    }
  }

  lemma RollbackIsSound(t: Table, id: nat)
    requires Valid(t)
    ensures Sound(t, Rollback(t, id), id)
    ensures t.bound.None? && id in t.sequences && t.sequences[id].tentative.Some? ==> Rollback(t, id).Ok?
  {
    hide Consistent, Isolates, Settle;
    if t.bound.None? && id in t.sequences && t.sequences[id].tentative.Some? {
      SettleFollows(t, id, 0);
      SoundResult(t, Settle(t, id, 0).value, id);
    }
  }

  // ---------------------------------------------------------------- removal

  lemma CanDropCommitted(t: Table, id: nat)
    requires Consistent(t) && id in t.sequences && t.sequences[id].tentative.None? && t.sequences[id].pages != []
    ensures var s := t.sequences[id];
            HasLast(t, s) && CanDrop(t, id, s.(committed := 64 * (|s.pages| - 1)))
  {
    hide PoolsOk, ReferencesOk, PrefixesOk, PagesOk, AllEntriesOk;
    assert ShapeOk(t.physical, t.sequences[id]);
  }

  lemma {:induction false} DropAllFollows(t: Table, id: nat)
    requires Consistent(t) && id in t.sequences && t.sequences[id].tentative.None?
    ensures var r := DropAll(t, id);
            && r.Ok? && Follows(t, r.value, id)
            && id in r.value.sequences && r.value.sequences[id].pages == []
    decreases |t.sequences[id].pages|
  {
    hide Consistent, Isolates;
    var s := t.sequences[id];
    if s.pages == [] {
      FollowsSelf(t, id);
    } else {
      var h := s.(committed := 64 * (|s.pages| - 1));
      CanDropCommitted(t, id);
      DropFollows(t, id, h);
      var u := DropLast(t, id, h);
      DropAllFollows(u, id);
      FollowsTransitive(t, u, DropAll(u, id).value, id);
    }
  }

  lemma CloseEmptyReferences(t: Table, u: Table, id: nat)
    requires ReferencesOk(t) && ShapesOk(t) && id in t.sequences && t.sequences[id].pages == []
    requires u == t.(sequences := t.sequences - {id})
    ensures ReferencesOk(u) && ShapesOk(u)
  {
    hide ShapeOk;
    assert forall q :: Holders(u.sequences, q) == Holders(t.sequences, q);
  }

  lemma CloseEmptyEntries(t: Table, u: Table, id: nat)
    requires AllEntriesOk(t) && u == t.(sequences := t.sequences - {id})
    ensures AllEntriesOk(u) && Isolates(t, u, id)
  {
    forall x | x in u.sequences ensures KeepsDrafts(t, u, t.sequences[x]) && EntriesOk(u, t.sequences[x]) {
      assert EntriesOk(t, t.sequences[x]);
    }
    forall x, y | x in u.sequences && y in u.sequences ensures SamePlace(u.sequences[x], u.sequences[y]) {
      assert SamePlace(t.sequences[x], t.sequences[y]);
    }
  }

  lemma CloseEmpty(t: Table, id: nat)
    requires Consistent(t) && id in t.sequences && t.sequences[id].pages == []
    ensures Follows(t, t.(sequences := t.sequences - {id}), id)
  {
    hide PoolsOk, ReferencesOk, AllEntriesOk, PrefixesOk, PagesOk, ShapesOk, Isolates;
    var u := t.(sequences := t.sequences - {id});
    CloseEmptyReferences(t, u, id);
    CloseEmptyEntries(t, u, id);
    SameButSequences(t, u);
  }

  lemma RemoveIsSound(t: Table, id: nat)
    requires Valid(t)
    ensures Sound(t, Remove(t, id), id)
    ensures Remove(t, id).Ok? ==> Remove(t, id).value.sequences == t.sequences - {id}
    ensures t.bound.None? && id in t.sequences && t.sequences[id].tentative.None? ==> Remove(t, id).Ok?
  {
    hide Consistent, Isolates, DropAll;
    if t.bound.None? && id in t.sequences && t.sequences[id].tentative.None? {
      DropAllFollows(t, id);
      var u := DropAll(t, id).value;
      CloseEmpty(u, id);
      FollowsTransitive(t, u, Remove(t, id).value, id);
      SoundResult(t, Remove(t, id).value, id);
      SameSequences(t, Remove(t, id).value, id);
    }
  }

  lemma SameSequences(t: Table, u: Table, id: nat)
    requires Isolates(t, u, id) && id !in u.sequences
    ensures u.sequences == t.sequences - {id}
  {
  }

  // ---------------------------------------------------------------- the reuse quarantine

  lemma NewIsValid(config: Config)
    ensures New(config).Ok? <==> ConfigOk(config)
    ensures New(config).Ok? ==> Valid(New(config).value)
  {
  }

  lemma BindIsSound(t: Table, generation: nat)
    requires Valid(t)
    ensures Bind(t, generation).Ok? ==> Valid(Bind(t, generation).value)
    ensures Bind(t, generation).Err? ==> Bind(t, generation).error == BadTransaction
  {
    hide ReferencesOk, AllEntriesOk, PagesOk, PrefixesOk, ShapesOk;
    if Bind(t, generation).Ok? {
      SamePools(t, Bind(t, generation).value);
    }
  }

  lemma AcknowledgeIsSound(t: Table, generation: nat)
    requires Valid(t)
    ensures Acknowledge(t, generation).Ok? ==> Valid(Acknowledge(t, generation).value)
    ensures Acknowledge(t, generation).Err? ==> Acknowledge(t, generation).error == BadTransaction
  {
    hide ReferencesOk, AllEntriesOk, PagesOk, PrefixesOk, ShapesOk;
    if Acknowledge(t, generation).Ok? {
      SamePools(t, Acknowledge(t, generation).value);
    }
  }

  /** Moving ids between free and quarantined is invisible to the rest of the invariant. */
  lemma SamePools(t: Table, u: Table)
    requires Valid(t)
    requires u.config == t.config && u.physical == t.physical && u.prefixes == t.prefixes && u.sequences == t.sequences
    requires Partition(u.freeTarget, u.quarantinedTarget, u.physical.Keys, u.config.targetPages)
    requires Partition(u.freeDraft, u.quarantinedDraft, LiveDrafts(u.physical), u.config.draftPages)
    ensures Valid(u)
  {
    hide SamePlace, ShapeOk, Partition, DistinctDrafts, Holders;
    forall x | x in u.sequences ensures EntriesOk(u, u.sequences[x]) {
      assert EntriesOk(t, t.sequences[x]);
    }
  }
}
