/** Page-table deltas and the mirror that applies them (delta.rs).

    The digest of a delta is any function of its fields; it is a parameter `hash`. */
module DeltaModel {
  import opened Collections
  import opened Page
  import Sequences = SequenceModel

  const MAX_DELTA_SEQUENCES: nat := 64
  const MAX_GENERATION: nat := 0xFFFF_FFFF_FFFF_FFFF

  datatype Error =
    | BadGeneration
    | BadShape
    | BadSequence
    | BadPage
    | Collision
    | BadDigest
    | Overflow
    | BrokenTable

  datatype RankPage = RankPage(
    ordinal: nat,
    rank: nat,
    target: nat,
    draft: Option<nat>,
    state: PageState,
    valid: nat)

  /** What one sequence looks like to the ranks. */
  datatype Normalized = Normalized(mtp: bool, committed: nat, tentative: nat, pages: seq<RankPage>)

  datatype Update = Update(
    id: nat,
    mtp: bool,
    committed: nat,
    tentative: nat,
    pageCount: nat,
    firstChanged: nat,
    changed: seq<RankPage>)

  datatype DeltaBody = DeltaBody(before: nat, after: nat, updates: seq<Update>, removed: seq<nat>)

  datatype Delta = Delta(body: DeltaBody, digest: nat)

  datatype Mirror = Mirror(config: Sequences.Config, generation: nat, sequences: map<nat, Normalized>)

  // ---------------------------------------------------------------- one sequence

  function SumValid(pages: seq<RankPage>): nat {
    if pages == [] then 0 else SumValid(pages[..|pages| - 1]) + pages[|pages| - 1].valid
  }

  /** Page `i` of `s` is where it belongs and holds tokens, draft slot and state accordingly. */
  predicate PageFits(s: Normalized, i: nat)
    requires i < |s.pages|
  {
    var page := s.pages[i];
    var last := i == |s.pages| - 1;
    && page.ordinal == i
    && page.rank == OwnerRank(i)
    && 0 < page.valid <= 64
    && page.draft.Some? == s.mtp
    && (if s.tentative == 0 then
          page.state == (if last && page.valid < 64 then HbmMutable else HbmSealed)
        else
          page.state == HbmSealed || page.state == HbmTentative)
    && (!last ==> page.valid == 64)
  }

  /** No two of the first `n` pages of `s` share a target or a draft slot of a rank. */
  predicate DistinctSlots(pages: seq<RankPage>, n: nat)
    requires n <= |pages|
  {
    forall i, j | 0 <= i < j < n && pages[i].rank == pages[j].rank ::
      && pages[i].target != pages[j].target
      && (pages[i].draft.Some? ==> pages[i].draft != pages[j].draft)
  }

  predicate PagesFit(s: Normalized) {
    && (forall i | 0 <= i < |s.pages| :: PageFits(s, i))
    && DistinctSlots(s.pages, |s.pages|)
    && SumValid(s.pages) == s.committed + s.tentative
    && (s.tentative != 0 ==> exists i | 0 <= i < |s.pages| :: s.pages[i].state == HbmTentative)
  }

  function CheckSequence(s: Normalized): Result<(), Error> {
    var positions := s.committed + s.tentative;
    if positions > Sequences.MAX_CONTEXT_TOKENS then Err(Overflow)
    else if |s.pages| != Sequences.PagesFor(positions) then Err(BadShape)
    else if !PagesFit(s) then Err(BadPage)
    else Ok(())
  }

  // ---------------------------------------------------------------- mirrors

  predicate InRange(c: Sequences.Config, page: RankPage) {
    page.target < c.targetPages && (page.draft.Some? ==> page.draft.value < c.draftPages)
  }

  /** Two listed pages do not contradict each other: one target slot has one description, and
      one draft slot belongs to one target slot. */
  predicate Agree(a: RankPage, b: RankPage) {
    && (a.rank == b.rank && a.target == b.target ==> a == b)
    && (a.rank == b.rank && a.draft.Some? && a.draft == b.draft ==> a.target == b.target)
  }

  predicate AllAgree(x: seq<RankPage>, y: seq<RankPage>) {
    forall i, j | 0 <= i < |x| && 0 <= j < |y| :: Agree(x[i], y[j])
  }

  ghost predicate MirrorOk(m: Mirror) {
    && 0 < m.generation && |m.sequences| <= MAX_DELTA_SEQUENCES
    && (forall id | id in m.sequences ::
          && id != 0 && CheckSequence(m.sequences[id]).Ok?
          && (forall i | 0 <= i < |m.sequences[id].pages| :: InRange(m.config, m.sequences[id].pages[i])))
    && (forall x, y | x in m.sequences && y in m.sequences :: AllAgree(m.sequences[x].pages, m.sequences[y].pages))
  }

  /** The validation of a page, after the pages `seen`. */
  function CheckPage(c: Sequences.Config, seen: seq<RankPage>, page: RankPage): Result<(), Error> {
    if !InRange(c, page) then Err(BadPage)
    else if exists p | p in seen :: !(Agree(p, page) && Agree(page, p)) then Err(Collision)
    else Ok(())
  }

  function CheckPages(c: Sequences.Config, seen: seq<RankPage>, pages: seq<RankPage>): Result<(), Error>
    decreases |pages|
  {
    if pages == [] then Ok(())
    else
      var _ :- CheckPage(c, seen, pages[0]);
      CheckPages(c, seen + [pages[0]], pages[1..])
  }

  /** The validation of the sequences `ids`, in order. */
  function CheckMembers(m: Mirror, seen: seq<RankPage>, ids: seq<nat>): Result<(), Error>
    requires forall id | id in ids :: id in m.sequences
    decreases |ids|
  {
    if ids == [] then Ok(())
    else if ids[0] == 0 then Err(BadSequence)
    else
      var pages := m.sequences[ids[0]].pages;
      var _ :- CheckSequence(m.sequences[ids[0]]);
      var _ :- CheckPages(m.config, seen, pages);
      CheckMembers(m, seen + pages, ids[1..])
  }

  /** The validation of a whole mirror: `MirrorOk`, with the first error it meets. */
  function CheckMirror(m: Mirror): Result<(), Error> {
    if m.generation == 0 || |m.sequences| > MAX_DELTA_SEQUENCES then Err(BadShape)
    else CheckMembers(m, [], Sorted(m.sequences.Keys))
  }

  /** Why a mirror is refused. */
  function Fault(m: Mirror): Error {
    if CheckMirror(m).Err? then CheckMirror(m).error else BadShape
  }

  function RankPageOf(t: Sequences.Table, e: Sequences.Entry): RankPage
    requires e.physical in t.physical
  {
    var page := t.physical[e.physical];
    RankPage(e.ordinal, e.physical.rank, e.physical.local, page.draft, page.state, page.valid)
  }

  predicate AllLive(t: Sequences.Table, s: Sequences.Sequence) {
    forall i | 0 <= i < |s.pages| :: s.pages[i].physical in t.physical
  }

  function NormalizedOf(t: Sequences.Table, s: Sequences.Sequence): Normalized
    requires AllLive(t, s)
  {
    Normalized(s.mtp, s.committed, Sequences.Reserved(s),
               seq(|s.pages|, i requires 0 <= i < |s.pages| => RankPageOf(t, s.pages[i])))
  }

  function NormalizeSequence(t: Sequences.Table, s: Sequences.Sequence): Result<Normalized, Error> {
    if !AllLive(t, s) then Err(BrokenTable)
    else
      var _ :- CheckSequence(NormalizedOf(t, s));
      Ok(NormalizedOf(t, s))
  }

  /** Ids whose sequence cannot be normalised. */
  function Refused(t: Sequences.Table): set<nat> {
    set id | id in t.sequences && NormalizeSequence(t, t.sequences[id]).Err?
  }

  /** All sequences of a table, or the error of the first one that is refused. */
  function Normalize(t: Sequences.Table): Result<map<nat, Normalized>, Error> {
    if Refused(t) == {} then
      assert forall id | id in t.sequences :: id !in Refused(t);
      Ok(map id | id in t.sequences :: NormalizedOf(t, t.sequences[id]))
    else
      Err(NormalizeSequence(t, t.sequences[Least(Refused(t))]).error)
  }

  ghost function FromTable(t: Sequences.Table, generation: nat): Result<Mirror, Error> {
    if generation == 0 then Err(BadGeneration)
    else
      var sequences :- Normalize(t);
      var m := Mirror(t.config, generation, sequences);
      if MirrorOk(m) then Ok(m) else Err(Fault(m))
  }

  // ---------------------------------------------------------------- differences

  /** Length of the common prefix of two page lists. */
  function CommonPrefix(x: seq<RankPage>, y: seq<RankPage>): (n: nat)
    ensures n <= |x| && n <= |y| && x[..n] == y[..n]
    ensures n < |x| && n < |y| ==> x[n] != y[n]
  {
    if x == [] || y == [] || x[0] != y[0] then 0 else 1 + CommonPrefix(x[1..], y[1..])
  }

  function UpdateFor(id: nat, before: map<nat, Normalized>, next: Normalized): Update {
    var first := if id in before then CommonPrefix(before[id].pages, next.pages) else 0;
    Update(id, next.mtp, next.committed, next.tentative, |next.pages|, first, next.pages[first..])
  }

  /** The updates for `ids`, skipping sequences that did not change. */
  function Updates(before: map<nat, Normalized>, after: map<nat, Normalized>, ids: seq<nat>): seq<Update>
    requires forall id | id in ids :: id in after
  {
    if ids == [] then []
    else
      var front := Updates(before, after, ids[..|ids| - 1]);
      var id := ids[|ids| - 1];
      if id in before && before[id] == after[id] then front else front + [UpdateFor(id, before, after[id])]
  }

  predicate GenerationsOk(before: nat, after: nat) {
    0 < before < MAX_GENERATION && after == before + 1
  }

  predicate UpdateOk(u: Update, removed: seq<nat>) {
    && u.id != 0 && u.id !in removed && u.tentative <= 7 && u.committed <= Sequences.MAX_CONTEXT_TOKENS
    && u.firstChanged <= u.pageCount && u.pageCount - u.firstChanged == |u.changed|
  }

  predicate ChangedOk(u: Update) {
    forall i | 0 <= i < |u.changed| ::
      && u.changed[i].ordinal == u.firstChanged + i
      && u.changed[i].rank == OwnerRank(u.changed[i].ordinal)
      && 0 < u.changed[i].valid <= 64
      && u.changed[i].draft.Some? == u.mtp
      && (u.changed[i].state == HbmMutable || u.changed[i].state == HbmTentative || u.changed[i].state == HbmSealed)
  }

  /** Checks the updates in order; each one's numbers come before its pages. */
  function CheckUpdates(updates: seq<Update>, removed: seq<nat>): Result<(), Error> {
    if updates == [] then Ok(())
    else
      var _ :- CheckUpdates(updates[..|updates| - 1], removed);
      var u := updates[|updates| - 1];
      if !UpdateOk(u, removed) then Err(BadShape) else if !ChangedOk(u) then Err(BadPage) else Ok(())
  }

  predicate Increasing(ids: seq<nat>) {
    forall i | 0 <= i < |ids| - 1 :: ids[i] < ids[i + 1]
  }

  function CheckShape(d: DeltaBody): Result<(), Error> {
    if !GenerationsOk(d.before, d.after) then Err(BadGeneration)
    else if (d.updates == [] && d.removed == []) || |d.updates| > MAX_DELTA_SEQUENCES || |d.removed| > MAX_DELTA_SEQUENCES
            || !Increasing(seq(|d.updates|, i requires 0 <= i < |d.updates| => d.updates[i].id))
            || !Increasing(d.removed) then Err(BadShape)
    else CheckUpdates(d.updates, d.removed)
  }

  function BodyOf(before: map<nat, Normalized>, after: map<nat, Normalized>, g: nat, h: nat): DeltaBody {
    DeltaBody(g, h, Updates(before, after, Sorted(after.Keys)), Sorted(before.Keys - after.Keys))
  }

  function Between(hash: DeltaBody -> nat, before: Sequences.Table, after: Sequences.Table, g: nat, h: nat): Result<Delta, Error> {
    if !GenerationsOk(g, h) then Err(BadGeneration)
    else if before.config != after.config then Err(BadShape)
    else
      var x :- Normalize(before);
      var y :- Normalize(after);
      var body := BodyOf(x, y, g, h);
      var _ :- CheckShape(body);
      Ok(Delta(body, hash(body)))
  }

  // ---------------------------------------------------------------- application

  function RemoveAll(sequences: map<nat, Normalized>, removed: seq<nat>): Result<map<nat, Normalized>, Error> {
    if removed == [] then Ok(sequences)
    else
      var rest :- RemoveAll(sequences, removed[..|removed| - 1]);
      var id := removed[|removed| - 1];
      if id in rest then Ok(rest - {id}) else Err(BadSequence)
  }

  function ApplyUpdate(sequences: map<nat, Normalized>, u: Update): Result<map<nat, Normalized>, Error> {
    if u.id in sequences && (sequences[u.id].mtp != u.mtp || u.firstChanged > |sequences[u.id].pages|) then Err(BadSequence)
    else if u.id !in sequences && u.firstChanged != 0 then Err(BadSequence)
    else
      var kept := if u.id in sequences then sequences[u.id].pages[..u.firstChanged] else [];
      if |kept| + |u.changed| != u.pageCount then Err(BadShape)
      else Ok(sequences[u.id := Normalized(u.mtp, u.committed, u.tentative, kept + u.changed)])
  }

  function ApplyUpdates(sequences: map<nat, Normalized>, updates: seq<Update>): Result<map<nat, Normalized>, Error> {
    if updates == [] then Ok(sequences)
    else
      var rest :- ApplyUpdates(sequences, updates[..|updates| - 1]);
      ApplyUpdate(rest, updates[|updates| - 1])
  }

  /** The mirror after a delta; an error leaves the mirror as it was. */
  ghost function Apply(hash: DeltaBody -> nat, m: Mirror, d: Delta): Result<Mirror, Error> {
    var _ :- CheckShape(d.body);
    if hash(d.body) != d.digest then Err(BadDigest)
    else if m.generation != d.body.before then Err(BadGeneration)
    else
      var kept :- RemoveAll(m.sequences, d.body.removed);
      var sequences :- ApplyUpdates(kept, d.body.updates);
      var candidate := Mirror(m.config, d.body.after, sequences);
      if MirrorOk(candidate) then Ok(candidate) else Err(Fault(candidate))
  }
}
