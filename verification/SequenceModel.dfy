/** The page table as a value: its entities and the reference form of every operation.

    An operation returns the table it leaves behind, or an error and no table: every
    failing operation of the source restores a snapshot, so an error means "unchanged".
    Unlike the source, the reference form grows and shrinks a sequence one page or one token
    at a time inside the table, so that every intermediate table is itself a valid one.

    32-byte identities (namespaces, prefix keys, digests) are the naturals they denote. The
    four per-rank sets of local ids are one set of (rank, local id) pairs. */
module SequenceModel {
  import opened Collections
  import opened Page

  const MAX_CONTEXT_TOKENS: nat := 1_048_576
  const MAX_PAGES_PER_RANK: nat := 1_048_576
  const MAX_REFERENCES: nat := 0xFFFF_FFFF

  datatype Error =
    | BadConfig
    | BadSequence
    | BadPrefix
    | MissingDraft
    | Capacity
    | BadState
    | BadTransaction
    | BrokenInvariant
    | Overflow
    | BadTransition

  datatype PageId = PageId(rank: nat, local: nat)

  /** The logical identity of one durable prefix page. */
  datatype Attachment = Attachment(
    namespace: nat,
    key: nat,
    generation: nat,
    kv: nat,
    indexer: nat,
    draft: Option<nat>)

  datatype Relation = Exact | RetainDraft | DraftUpgrade

  datatype PrefixBinding = PrefixBinding(attachment: Attachment, ordinal: nat)

  datatype PhysicalPage = PhysicalPage(
    draft: Option<nat>,
    state: PageState,
    valid: nat,
    references: nat,
    prefix: Option<PrefixBinding>)

  datatype Entry = Entry(ordinal: nat, physical: PageId)

  datatype Tail = Tail(committed: nat, pageCount: nat, tailTokens: nat, reserved: nat)

  datatype Sequence = Sequence(mtp: bool, committed: nat, pages: seq<Entry>, tentative: Option<Tail>)

  datatype Config = Config(targetPages: nat, draftPages: nat)

  datatype Table = Table(
    config: Config,
    freeTarget: set<PageId>,
    freeDraft: set<PageId>,
    quarantinedTarget: set<PageId>,
    quarantinedDraft: set<PageId>,
    bound: Option<nat>,
    physical: map<PageId, PhysicalPage>,
    prefixes: map<nat, PageId>,
    sequences: map<nat, Sequence>)

  // ---------------------------------------------------------------- token arithmetic: a page holds 64

  /** Pages needed for a number of token positions. */
  function PagesFor(positions: nat): nat {
    (positions + 64 - 1) / 64
  }

  /** Tokens that fall in page `ordinal` of a sequence of `positions` tokens. */
  function Filled(positions: nat, ordinal: nat): nat {
    if 64 * (ordinal + 1) <= positions then 64
    else if 64 * ordinal <= positions then positions - 64 * ordinal
    else 0
  }

  function Reserved(s: Sequence): nat {
    if s.tentative.Some? then s.tentative.value.reserved else 0
  }

  function Positions(s: Sequence): nat {
    s.committed + Reserved(s)
  }

  /** A page is sealed once all its tokens are committed; before that it is tentative while
      the sequence has reserved tokens, and mutable otherwise. */
  function StateAt(s: Sequence, ordinal: nat): PageState {
    if 64 * (ordinal + 1) <= s.committed then HbmSealed
    else if Reserved(s) > 0 then HbmTentative
    else HbmMutable
  }

  // ---------------------------------------------------------------- allocation

  function Universe(pages: nat): set<PageId> {
    set r, l | 0 <= r < 4 && 0 <= l < pages :: PageId(r, l)
  }

  function Locals(ids: set<PageId>, rank: nat): set<nat> {
    set p | p in ids && p.rank == rank :: p.local
  }

  /** The least free id of a rank. */
  function First(ids: set<PageId>, rank: nat): (p: PageId)
    requires Locals(ids, rank) != {}
    ensures p in ids && p.rank == rank
  {
    PageId(rank, Least(Locals(ids, rank)))
  }

  datatype Allocation = Allocation(table: Table, page: PageId)

  function Allocate(t: Table, ordinal: nat, mtp: bool): Result<Allocation, Error> {
    var rank := OwnerRank(ordinal);
    if Locals(t.freeTarget, rank) == {} || (mtp && Locals(t.freeDraft, rank) == {}) then
      Err(Capacity)
    else
      var p := First(t.freeTarget, rank);
      var drafts := if mtp then {First(t.freeDraft, rank)} else {};
      var draft := if mtp then Some(First(t.freeDraft, rank).local) else None;
      Ok(Allocation(
           t.(freeTarget := t.freeTarget - {p},
              freeDraft := t.freeDraft - drafts,
              physical := t.physical[p := PhysicalPage(draft, HbmMutable, 0, 1, None)]),
           p))
  }

  function DraftIds(p: PageId, draft: Option<nat>): set<PageId> {
    if draft.Some? then {PageId(p.rank, draft.value)} else {}
  }

  /** Drops one reference; the last one retires the page and its draft slot. */
  function Release(t: Table, p: PageId): Table
    requires p in t.physical
  {
    var page := t.physical[p];
    if page.references > 1 then
      t.(physical := t.physical[p := page.(references := page.references - 1)])
    else
      t.(physical := t.physical - {p},
         prefixes := if page.prefix.Some? then t.prefixes - {page.prefix.value.attachment.key} else t.prefixes,
         quarantinedTarget := t.quarantinedTarget + {p},
         quarantinedDraft := t.quarantinedDraft + DraftIds(p, page.draft))
  }

  // ---------------------------------------------------------------- one page at a time

  function Pushed(h: Sequence, p: PageId): Sequence {
    h.(pages := h.pages + [Entry(|h.pages|, p)])
  }

  /** Gives sequence `id` a new private page; `h` is the sequence's header after the step. */
  function Grow(t: Table, id: nat, h: Sequence, prefix: Option<PrefixBinding>): Result<Table, Error> {
    var n := |h.pages|;
    var Allocation(t1, p) :- Allocate(t, n, h.mtp);
    var page := t1.physical[p].(valid := Filled(Positions(h), n), state := StateAt(h, n), prefix := prefix);
    Ok(t1.(physical := t1.physical[p := page],
           prefixes := if prefix.Some? then t1.prefixes[prefix.value.attachment.key := p] else t1.prefixes,
           sequences := t1.sequences[id := Pushed(h, p)]))
  }

  /** Lets sequence `id` also hold the live page `p`, whose content becomes `page`. */
  function Share(t: Table, id: nat, h: Sequence, p: PageId, page: PhysicalPage): Table
    requires p in t.physical
  {
    t.(physical := t.physical[p := page.(references := t.physical[p].references + 1)],
       freeDraft := t.freeDraft - (DraftIds(p, page.draft) - DraftIds(p, t.physical[p].draft)),
       sequences := t.sequences[id := Pushed(h, p)])
  }

  /** Takes the last page away from sequence `id`; `h` is the header after the step. */
  function DropLast(t: Table, id: nat, h: Sequence): Table
    requires HasLast(t, h)
  {
    var last := |h.pages| - 1;
    var t1 := Release(t, h.pages[last].physical);
    t1.(sequences := t1.sequences[id := h.(pages := h.pages[..last])])
  }

  /** Rewrites the fill and state of the pages of `h` from `ordinal` on. */
  function Canonical(physical: map<PageId, PhysicalPage>, h: Sequence, ordinal: nat): (r: map<PageId, PhysicalPage>)
    requires ordinal <= |h.pages|
    requires forall i | 0 <= i < |h.pages| :: h.pages[i].physical in physical
    ensures r.Keys == physical.Keys
    decreases |h.pages| - ordinal
  {
    if ordinal == |h.pages| then physical
    else
      var p := h.pages[ordinal].physical;
      Canonical(physical[p := physical[p].(valid := Filled(Positions(h), ordinal), state := StateAt(h, ordinal))],
                h, ordinal + 1)
  }

  /** Adds one token to sequence `id`, in its open page or in a new one; `h` is the header
      after the step. */
  function AddToken(t: Table, id: nat, h: Sequence): Result<Table, Error> {
    if id !in t.sequences then Err(BadSequence)
    else if Positions(t.sequences[id]) % 64 == 0 then Grow(t, id, h, None)
    else if !HasLast(t, h) then Err(BrokenInvariant)
    else
      var last := |h.pages| - 1;
      var p := h.pages[last].physical;
      var page := t.physical[p].(valid := Filled(Positions(h), last), state := StateAt(h, last));
      Ok(t.(physical := t.physical[p := page], sequences := t.sequences[id := h]))
  }

  predicate HasLast(t: Table, h: Sequence) {
    h.pages != [] && h.pages[|h.pages| - 1].physical in t.physical
  }

  // ---------------------------------------------------------------- the invariant

  predicate ConfigOk(c: Config) {
    0 < c.targetPages <= MAX_PAGES_PER_RANK && c.draftPages <= c.targetPages
  }

  function LiveDrafts(physical: map<PageId, PhysicalPage>): set<PageId> {
    set p | p in physical && physical[p].draft.Some? :: PageId(p.rank, physical[p].draft.value)
  }

  /** `free`, `quarantined` and `live` split the ids below `pages` of every rank. */
  ghost predicate Partition(free: set<PageId>, quarantined: set<PageId>, live: set<PageId>, pages: nat) {
    && free !! quarantined
    && (free + quarantined) !! live
    && free + quarantined + live == Universe(pages)
  }

  ghost predicate DistinctDrafts(physical: map<PageId, PhysicalPage>) {
    forall p, q | p in physical && q in physical && p.rank == q.rank
                  && physical[p].draft.Some? && physical[p].draft == physical[q].draft :: p == q
  }

  /** Every target id and every draft id is exactly one of free, quarantined and live. */
  ghost predicate PoolsOk(t: Table) {
    && Partition(t.freeTarget, t.quarantinedTarget, t.physical.Keys, t.config.targetPages)
    && Partition(t.freeDraft, t.quarantinedDraft, LiveDrafts(t.physical), t.config.draftPages)
    && DistinctDrafts(t.physical)
  }

  predicate Holds(s: Sequence, p: PageId) {
    exists i | 0 <= i < |s.pages| :: s.pages[i].physical == p
  }

  function Holders(sequences: map<nat, Sequence>, p: PageId): set<nat> {
    set id | id in sequences && Holds(sequences[id], p)
  }

  /** A page's reference count is the number of sequences that list it, and is never zero. */
  ghost predicate ReferencesOk(t: Table) {
    forall p | p in t.physical :: 0 < t.physical[p].references == |Holders(t.sequences, p)|
  }

  /** Entry `i` of a sequence has ordinal `i` and names a live page of the owning rank. */
  ghost predicate EntriesOk(t: Table, s: Sequence) {
    forall i | 0 <= i < |s.pages| ::
      && s.pages[i].ordinal == i
      && s.pages[i].physical.rank == OwnerRank(i)
      && s.pages[i].physical in t.physical
      && (s.mtp ==> t.physical[s.pages[i].physical].draft.Some?)
      && (t.physical[s.pages[i].physical].prefix.Some? ==>
            t.physical[s.pages[i].physical].prefix.value.ordinal == i)
  }

  /** A page sits at the same ordinal wherever it is listed. */
  ghost predicate SamePlace(s: Sequence, u: Sequence) {
    forall i, j | 0 <= i < |s.pages| && 0 <= j < |u.pages| && s.pages[i].physical == u.pages[j].physical :: i == j
  }

  ghost predicate AllEntriesOk(t: Table) {
    && 0 !in t.sequences
    && (forall id | id in t.sequences :: EntriesOk(t, t.sequences[id]))
    && (forall x, y | x in t.sequences && y in t.sequences :: SamePlace(t.sequences[x], t.sequences[y]))
  }

  /** Only full sealed pages are ever shared or published as prefixes. */
  ghost predicate PagesOk(t: Table) {
    forall p | p in t.physical ::
      && t.physical[p].references <= MAX_REFERENCES
      && (t.physical[p].state == HbmSealed || (t.physical[p].references == 1 && t.physical[p].prefix.None?))
      && (t.physical[p].state == HbmSealed ==> t.physical[p].valid == 64)
  }

  /** Prefix keys and the live pages published under them correspond one to one. */
  ghost predicate PrefixesOk(t: Table) {
    && (forall k | k in t.prefixes ::
          && t.prefixes[k] in t.physical
          && t.physical[t.prefixes[k]].prefix.Some?
          && t.physical[t.prefixes[k]].prefix.value.attachment.key == k)
    && (forall p | p in t.physical && t.physical[p].prefix.Some? ::
          && t.physical[p].prefix.value.attachment.key in t.prefixes
          && t.prefixes[t.physical[p].prefix.value.attachment.key] == p)
  }

  /** The pages of a sequence hold exactly its committed and reserved tokens, in order. */
  ghost predicate ShapeOk(physical: map<PageId, PhysicalPage>, s: Sequence) {
    && Positions(s) <= MAX_CONTEXT_TOKENS
    && |s.pages| == PagesFor(Positions(s))
    && (forall i | 0 <= i < |s.pages| ::
          && s.pages[i].physical in physical
          && physical[s.pages[i].physical].valid == Filled(Positions(s), i)
          && physical[s.pages[i].physical].state == StateAt(s, i))
    && (s.tentative.Some? ==>
          && s.tentative.value == TailOf(s, s.tentative.value.reserved)
          && s.tentative.value.reserved <= 7)
  }

  /** What a transaction records about the sequence it was opened on. */
  function TailOf(s: Sequence, reserved: nat): Tail {
    var n := PagesFor(s.committed);
    Tail(s.committed, n, if n == 0 then 0 else Filled(s.committed, n - 1), reserved)
  }

  ghost predicate ShapesOk(t: Table) {
    forall id | id in t.sequences :: ShapeOk(t.physical, t.sequences[id])
  }

  /** The invariant of the table between the steps of an operation. */
  ghost predicate Consistent(t: Table) {
    ConfigOk(t.config) && PoolsOk(t) && ReferencesOk(t) && AllEntriesOk(t) && PagesOk(t) && PrefixesOk(t) && ShapesOk(t)
  }

  /** The invariant between operations: also, an open transaction has reserved something. */
  ghost predicate Valid(t: Table) {
    Consistent(t) && forall id | id in t.sequences && t.sequences[id].tentative.Some? :: Reserved(t.sequences[id]) > 0
  }
}
