/** What a mirror accepts, for any delta and over any run of deltas (delta.rs). */
module DeltaLaw {
  import opened Collections
  import opened Page
  import opened DeltaModel

  // ---------------------------------------------------------------- shapes

  /** The numbers and the pages of one update. */
  ghost predicate Shapely(u: Update, removed: seq<nat>) {
    && u.id != 0 && u.id !in removed && u.tentative <= 7 && u.committed <= 1_048_576
    && u.firstChanged + |u.changed| == u.pageCount
    && (forall i | 0 <= i < |u.changed| ::
          var p := u.changed[i];
          && p.ordinal == u.firstChanged + i && p.rank == p.ordinal % 4 && 1 <= p.valid <= 64
          && (p.draft.Some? <==> u.mtp) && p.state in {HbmMutable, HbmTentative, HbmSealed})
  }

  /** A delta of one generation: at most 64 updates and 64 removals in increasing order, and not nothing. */
  ghost predicate WellShaped(d: DeltaBody) {
    && 0 < d.before < 0xFFFF_FFFF_FFFF_FFFF && d.after == d.before + 1
    && |d.updates| <= 64 && |d.removed| <= 64 && |d.updates| + |d.removed| > 0
    && (forall i, j | 0 <= i < j < |d.updates| :: d.updates[i].id < d.updates[j].id)
    && (forall i, j | 0 <= i < j < |d.removed| :: d.removed[i] < d.removed[j])
    && (forall u | u in d.updates :: Shapely(u, d.removed))
  }

  lemma {:induction false} IncreasingPairs(ids: seq<nat>)
    ensures Increasing(ids) <==> forall i, j | 0 <= i < j < |ids| :: ids[i] < ids[j]
  {
    if |ids| > 1 {
      var front := ids[..|ids| - 1];
      IncreasingPairs(front);
      assert forall i | 0 <= i < |front| :: front[i] == ids[i];
      if Increasing(ids) {
        assert ids[|ids| - 2] < ids[|ids| - 1];
        assert Increasing(front);
      }
    }
  }

  lemma {:induction false} UpdatesAreShapely(updates: seq<Update>, removed: seq<nat>)
    ensures CheckUpdates(updates, removed).Ok? <==> forall u | u in updates :: Shapely(u, removed)
  {
    if updates != [] {
      var front, u := updates[..|updates| - 1], updates[|updates| - 1];
      UpdatesAreShapely(front, removed);
      assert updates == front + [u];
      ShapelyExactly(u, removed);
    }
  }

  lemma ShapelyExactly(u: Update, removed: seq<nat>)
    ensures UpdateOk(u, removed) && ChangedOk(u) <==> Shapely(u, removed)
  {
  }

  lemma ShapesExactly(d: DeltaBody)
    ensures CheckShape(d).Ok? <==> WellShaped(d)
  {
    hide CheckUpdates, Increasing, Shapely;
    var ids := seq(|d.updates|, i requires 0 <= i < |d.updates| => d.updates[i].id);
    IncreasingPairs(ids);
    IncreasingPairs(d.removed);
    UpdatesAreShapely(d.updates, d.removed);
    SameOrder(d.updates, ids);
  }

  lemma SameOrder(updates: seq<Update>, ids: seq<nat>)
    requires |ids| == |updates| && forall i | 0 <= i < |ids| :: ids[i] == updates[i].id
    ensures (forall i, j | 0 <= i < j < |ids| :: ids[i] < ids[j]) <==>
            (forall i, j | 0 <= i < j < |updates| :: updates[i].id < updates[j].id)
  {
    if forall i, j | 0 <= i < j < |ids| :: ids[i] < ids[j] {
      forall i, j | 0 <= i < j < |updates| ensures updates[i].id < updates[j].id {
        assert ids[i] < ids[j];
      }
    }
  }

  // ---------------------------------------------------------------- mirrors

  /** A sequence of a mirror: its pages in order on their ranks, full but for the last, which holds the
      rest of the tokens, with drafts exactly for MTP, sealed or open as the tokens say, no slot twice. */
  ghost predicate SoundSequence(s: Normalized) {
    var tokens, n := s.committed + s.tentative, |s.pages|;
    && tokens <= 1_048_576 && n == (tokens + 63) / 64
    && (forall i | 0 <= i < n ::
          var p := s.pages[i];
          && p.ordinal == i && p.rank == i % 4 && p.valid == (if i < n - 1 then 64 else tokens - 64 * (n - 1))
          && (p.draft.Some? <==> s.mtp)
          && (s.tentative == 0 ==> p.state == (if p.valid == 64 then HbmSealed else HbmMutable))
          && (s.tentative > 0 ==> p.state == HbmSealed || p.state == HbmTentative))
    && (s.tentative > 0 ==> exists i | 0 <= i < n :: s.pages[i].state == HbmTentative)
    && (forall i, j | 0 <= i < j < n && s.pages[i].rank == s.pages[j].rank ::
          s.pages[i].target != s.pages[j].target && (s.mtp ==> s.pages[i].draft != s.pages[j].draft))
  }

  lemma {:induction false} SumOfFull(pages: seq<RankPage>, n: nat)
    requires n <= |pages| && forall i | 0 <= i < n :: pages[i].valid == 64
    ensures SumValid(pages[..n]) == 64 * n
  {
    if n > 0 {
      SumOfFull(pages, n - 1);
      assert pages[..n][..n - 1] == pages[..n - 1];
    }
  }

  lemma LastHolds(pages: seq<RankPage>)
    requires pages != [] && forall i | 0 <= i < |pages| - 1 :: pages[i].valid == 64
    ensures SumValid(pages) == 64 * (|pages| - 1) + pages[|pages| - 1].valid
  {
    SumOfFull(pages, |pages| - 1);
  }

  /** How many tokens the pages hold, when all but the last are full. */
  lemma TokensHeld(pages: seq<RankPage>)
    requires forall i | 0 <= i < |pages| - 1 :: pages[i].valid == 64
    ensures SumValid(pages) == if pages == [] then 0 else 64 * (|pages| - 1) + pages[|pages| - 1].valid
  {
    if pages != [] {
      LastHolds(pages);
    }
  }

  lemma SoundPasses(s: Normalized)
    requires SoundSequence(s)
    ensures CheckSequence(s).Ok?
  {
    hide SumValid;
    TokensHeld(s.pages);
    forall i | 0 <= i < |s.pages| ensures PageFits(s, i) {
    }
  }

  lemma PassingIsSound(s: Normalized)
    requires CheckSequence(s).Ok?
    ensures SoundSequence(s)
  {
    hide SumValid;
    forall i | 0 <= i < |s.pages| ensures PageFits(s, i) && (i < |s.pages| - 1 ==> s.pages[i].valid == 64) {
    }
    TokensHeld(s.pages);
  }

  lemma SequencesExactly(s: Normalized)
    ensures CheckSequence(s).Ok? <==> SoundSequence(s)
  {
    hide CheckSequence, SoundSequence;
    if SoundSequence(s) {
      SoundPasses(s);
    }
    if CheckSequence(s).Ok? {
      PassingIsSound(s);
    }
  }

  /** Two sequences tell the same of every slot: one description for a target slot, one target for a draft slot. */
  ghost predicate SameSlots(x: Normalized, y: Normalized) {
    forall p, q | p in x.pages && q in y.pages && p.rank == q.rank ::
      (p.target == q.target ==> p == q) && (p.draft.Some? && p.draft == q.draft ==> p.target == q.target)
  }

  /** A mirror validates exactly when it has a generation, at most 64 sound sequences, only slots the
      configuration has, and no two sequences that contradict each other. */
  lemma MirrorsExactly(m: Mirror)
    ensures MirrorOk(m) <==>
            && m.generation > 0 && |m.sequences| <= 64
            && (forall id | id in m.sequences ::
                  && id != 0 && SoundSequence(m.sequences[id])
                  && forall p | p in m.sequences[id].pages ::
                       p.target < m.config.targetPages && (p.draft.Some? ==> p.draft.value < m.config.draftPages))
            && (forall x, y | x in m.sequences && y in m.sequences :: SameSlots(m.sequences[x], m.sequences[y]))
  {
    hide SoundSequence, CheckSequence, AllAgree, SameSlots;
    forall id | id in m.sequences ensures CheckSequence(m.sequences[id]).Ok? <==> SoundSequence(m.sequences[id])
      ensures (forall i | 0 <= i < |m.sequences[id].pages| :: InRange(m.config, m.sequences[id].pages[i])) <==>
              (forall p | p in m.sequences[id].pages ::
                 p.target < m.config.targetPages && (p.draft.Some? ==> p.draft.value < m.config.draftPages))
    {
      SequencesExactly(m.sequences[id]);
      forall i | 0 <= i < |m.sequences[id].pages| ensures m.sequences[id].pages[i] in m.sequences[id].pages {
      }
    }
    forall x, y | x in m.sequences && y in m.sequences
      ensures AllAgree(m.sequences[x].pages, m.sequences[y].pages) <==> SameSlots(m.sequences[x], m.sequences[y])
    {
      SlotsExactly(m.sequences[x], m.sequences[y]);
    }
  }

  lemma SlotsExactly(x: Normalized, y: Normalized)
    ensures AllAgree(x.pages, y.pages) <==> SameSlots(x, y)
  {
    if AllAgree(x.pages, y.pages) {
      forall p, q | p in x.pages && q in y.pages ensures Agree(p, q) {
        var i :| 0 <= i < |x.pages| && x.pages[i] == p;
        var j :| 0 <= j < |y.pages| && y.pages[j] == q;
      }
    }
  }

  // ---------------------------------------------------------------- contents

  /** An update continues the sequence it names, or starts a new one. */
  predicate Continues(sequences: map<nat, Normalized>, u: Update) {
    if u.id in sequences then sequences[u.id].mtp == u.mtp && u.firstChanged <= |sequences[u.id].pages| else u.firstChanged == 0
  }

  /** The sequence after its update: the pages up to the first changed one, and the changed ones. */
  function Updated(sequences: map<nat, Normalized>, u: Update): Normalized {
    Normalized(u.mtp, u.committed, u.tentative,
               (if u.id in sequences && u.firstChanged <= |sequences[u.id].pages| then sequences[u.id].pages[..u.firstChanged] else [])
               + u.changed)
  }

  /** `after` is `before` with these updates made and nothing else changed. */
  ghost predicate Follows(before: map<nat, Normalized>, after: map<nat, Normalized>, updates: seq<Update>) {
    && (forall u | u in updates :: u.id in after && after[u.id] == Updated(before, u))
    && (forall id | id in before :: id in after)
    && (forall id | id in after && (forall u | u in updates :: u.id != id) :: id in before && after[id] == before[id])
  }

  lemma {:induction false} UpdatesExactly(before: map<nat, Normalized>, updates: seq<Update>)
    requires forall i, j | 0 <= i < j < |updates| :: updates[i].id < updates[j].id
    requires forall u | u in updates :: u.firstChanged + |u.changed| == u.pageCount
    ensures ApplyUpdates(before, updates).Ok? <==> forall u | u in updates :: Continues(before, u)
    ensures ApplyUpdates(before, updates).Ok? ==> Follows(before, ApplyUpdates(before, updates).value, updates)
  {
    if updates != [] {
      var front, u := updates[..|updates| - 1], updates[|updates| - 1];
      assert updates == front + [u];
      UpdatesExactly(before, front);
      if ApplyUpdates(before, front).Ok? {
        assert forall x | x in front :: x.id != u.id;
        OneMoreUpdate(before, ApplyUpdates(before, front).value, front, u);
      }
    }
  }

  lemma OneMoreUpdate(before: map<nat, Normalized>, rest: map<nat, Normalized>, front: seq<Update>, u: Update)
    requires Follows(before, rest, front) && (forall x | x in front :: x.id != u.id) && u.firstChanged + |u.changed| == u.pageCount
    ensures ApplyUpdate(rest, u).Ok? <==> Continues(before, u)
    ensures ApplyUpdate(rest, u).Ok? ==> Follows(before, ApplyUpdate(rest, u).value, front + [u])
  {
    assert u.id in rest <==> u.id in before;
    assert u.id in before ==> rest[u.id] == before[u.id];
    forall x ensures x in front + [u] <==> x in front || x == u {
    }
  }

  lemma {:induction false} RemovalsExactly(sequences: map<nat, Normalized>, removed: seq<nat>)
    requires forall i, j | 0 <= i < j < |removed| :: removed[i] < removed[j]
    ensures RemoveAll(sequences, removed).Ok? <==> forall id | id in removed :: id in sequences
    ensures RemoveAll(sequences, removed).Ok? ==>
              RemoveAll(sequences, removed).value == Survivors(sequences, removed)
  {
    if removed != [] {
      var front, last := removed[..|removed| - 1], removed[|removed| - 1];
      assert removed == front + [last] && last !in front;
      RemovalsExactly(sequences, front);
    }
  }

  /** The mirror `n` is `m` one delta later: the named sequences are gone, the updates are made, nothing
      else has changed, and the generation is the next one. */
  ghost predicate OneLater(m: Mirror, d: DeltaBody, n: Mirror) {
    && n.config == m.config && n.generation == m.generation + 1
    && Follows(Survivors(m.sequences, d.removed), n.sequences, d.updates)
  }

  function Survivors(sequences: map<nat, Normalized>, removed: seq<nat>): map<nat, Normalized> {
    map id | id in sequences && id !in removed :: sequences[id]
  }

  /** For any delta: a mirror accepts it exactly when it is well shaped, carries its own digest, was made
      for the mirror's generation, removes known sequences, continues known ones, and leaves a mirror
      that validates; and then the mirror is one delta later. */
  lemma AppliesExactly(hash: DeltaBody -> nat, m: Mirror, d: Delta)
    ensures var r := Apply(hash, m, d);
            && (r.Ok? ==>
                  && WellShaped(d.body) && d.digest == hash(d.body) && d.body.before == m.generation
                  && (forall id | id in d.body.removed :: id in m.sequences)
                  && (forall u | u in d.body.updates :: Continues(m.sequences, u))
                  && OneLater(m, d.body, r.value) && MirrorOk(r.value))
            && (WellShaped(d.body) && d.digest == hash(d.body) && d.body.before == m.generation
                && (forall id | id in d.body.removed :: id in m.sequences)
                && (forall u | u in d.body.updates :: Continues(m.sequences, u)) ==>
                  && OneLater(m, d.body, Candidate(m, d.body))
                  && (MirrorOk(Candidate(m, d.body)) ==> r == Ok(Candidate(m, d.body))))
  {
    hide CheckShape, MirrorOk, Follows, RemoveAll, ApplyUpdates, Survivors;
    ShapesExactly(d.body);
    if WellShaped(d.body) {
      RemovalsExactly(m.sequences, d.body.removed);
      AllContinue(m, d.body);
      UpdatesExactly(Survivors(m.sequences, d.body.removed), d.body.updates);
    }
  }

  /** What the delta makes of the mirror before validation. */
  ghost function Candidate(m: Mirror, d: DeltaBody): Mirror {
    var sequences := ApplyUpdates(Survivors(m.sequences, d.removed), d.updates);
    Mirror(m.config, d.after, if sequences.Ok? then sequences.value else map[])
  }

  lemma AllContinue(m: Mirror, d: DeltaBody)
    requires WellShaped(d)
    ensures forall u | u in d.updates :: Continues(Survivors(m.sequences, d.removed), u) <==> Continues(m.sequences, u)
  {
    forall u | u in d.updates ensures Continues(Survivors(m.sequences, d.removed), u) <==> Continues(m.sequences, u) {
      assert Shapely(u, d.removed);
    }
  }

  // ---------------------------------------------------------------- runs

  ghost function Step(hash: DeltaBody -> nat, m: Mirror, d: Delta): Mirror {
    if Apply(hash, m, d).Ok? then Apply(hash, m, d).value else m
  }

  ghost function Run(hash: DeltaBody -> nat, m: Mirror, ds: seq<Delta>): Mirror {
    if ds == [] then m else Step(hash, Run(hash, m, ds[..|ds| - 1]), ds[|ds| - 1])
  }

  ghost function Accepted(hash: DeltaBody -> nat, m: Mirror, ds: seq<Delta>): nat {
    if ds == [] then 0
    else
      Accepted(hash, m, ds[..|ds| - 1]) + (if Apply(hash, Run(hash, m, ds[..|ds| - 1]), ds[|ds| - 1]).Ok? then 1 else 0)
  }

  /** The generation of a mirror counts the deltas it has accepted. */
  lemma {:induction false} GenerationCounts(hash: DeltaBody -> nat, m: Mirror, ds: seq<Delta>)
    ensures Run(hash, m, ds).generation == m.generation + Accepted(hash, m, ds)
  {
    hide Apply;
    if ds != [] {
      GenerationCounts(hash, m, ds[..|ds| - 1]);
      AppliesExactly(hash, Run(hash, m, ds[..|ds| - 1]), ds[|ds| - 1]);
    }
  }

  /** A delta accepted once is refused ever after, whatever comes between. */
  lemma AcceptedOnce(hash: DeltaBody -> nat, m: Mirror, d: Delta, ds: seq<Delta>)
    requires Apply(hash, m, d).Ok?
    ensures Apply(hash, Run(hash, Apply(hash, m, d).value, ds), d) == Err(BadGeneration)
  {
    hide Run, Accepted, MirrorOk;
    var n := Apply(hash, m, d).value;
    GenerationCounts(hash, n, ds);
    AppliesExactly(hash, m, d);
    Refuses(hash, Run(hash, n, ds), d);
  }

  lemma Refuses(hash: DeltaBody -> nat, m: Mirror, d: Delta)
    requires CheckShape(d.body).Ok? && hash(d.body) == d.digest && m.generation != d.body.before
    ensures Apply(hash, m, d) == Err(BadGeneration)
  {
  }
}
