/** What holds in every run of the page table. */
module SequenceRuns {
  import opened Collections
  import opened Page
  import opened SequenceModel
  import opened SequenceOps
  import Transitions = SequenceTransitions

  datatype Operation =
    | Admit(id: nat, mtp: bool, attachments: seq<Attachment>)
    | Append(id: nat, tokens: nat)
    | Fork(source: nat, id: nat)
    | Begin(id: nat, tokens: nat)
    | Commit(id: nat, tokens: nat)
    | Rollback(id: nat)
    | Remove(id: nat)
    | Bind(generation: nat)
    | Acknowledge(generation: nat)

  function Apply(t: Table, op: Operation): Result<Table, Error> {
    match op
    case Admit(id, mtp, attachments) => Transitions.Admit(t, id, mtp, attachments)
    case Append(id, tokens) => Transitions.Append(t, id, tokens)
    case Fork(source, id) => Transitions.Fork(t, source, id)
    case Begin(id, tokens) => Transitions.Begin(t, id, tokens)
    case Commit(id, tokens) => Transitions.Commit(t, id, tokens)
    case Rollback(id) => Transitions.Rollback(t, id)
    case Remove(id) => Transitions.Remove(t, id)
    case Bind(generation) => Transitions.Bind(t, generation)
    case Acknowledge(generation) => Transitions.Acknowledge(t, generation)
  }

  /** The sequence an operation works on; 0 is never a sequence. */
  function Target(op: Operation): nat {
    if op.Bind? || op.Acknowledge? then 0 else op.id
  }

  /** A failed operation leaves the table as it was. */
  function After(t: Table, op: Operation): Table {
    var r := Apply(t, op);
    if r.Ok? then r.value else t
  }

  function Run(t: Table, ops: seq<Operation>): Table
    decreases |ops|
  {
    if ops == [] then t else After(Run(t, ops[..|ops| - 1]), ops[|ops| - 1])
  }

  lemma OperationIsSound(t: Table, op: Operation)
    requires Valid(t)
    ensures Apply(t, op).Err? ==> Transitions.Expected(Apply(t, op).error)
    ensures Valid(After(t, op))
    ensures !op.Bind? && !op.Acknowledge? ==> Transitions.Sound(t, Apply(t, op), Target(op))
  {
    hide Valid, Isolates, Transitions.Admit, Transitions.Append, Transitions.Fork, Transitions.Begin,
      Transitions.Commit, Transitions.Rollback, Transitions.Remove, Transitions.Bind, Transitions.Acknowledge;
    match op
    case Admit(id, mtp, attachments) => Transitions.AdmitIsSound(t, id, mtp, attachments);
    case Append(id, tokens) => Transitions.AppendIsSound(t, id, tokens);
    case Fork(source, id) => Transitions.ForkIsSound(t, source, id);
    case Begin(id, tokens) => Transitions.BeginIsSound(t, id, tokens);
    case Commit(id, tokens) => Transitions.CommitIsSound(t, id, tokens);
    case Rollback(id) => Transitions.RollbackIsSound(t, id);
    case Remove(id) => Transitions.RemoveIsSound(t, id);
    case Bind(generation) => Transitions.BindIsSound(t, generation);
    case Acknowledge(generation) => Transitions.AcknowledgeIsSound(t, generation);
  }

  /** Every reachable table satisfies the invariant, whatever mix of successful and failing
      operations led to it. */
  lemma {:induction false} RunKeepsValid(t: Table, ops: seq<Operation>)
    requires Valid(t)
    ensures Valid(Run(t, ops))
    decreases |ops|
  {
    hide Valid, After;
    if ops != [] {
      RunKeepsValid(t, ops[..|ops| - 1]);
      OperationIsSound(Run(t, ops[..|ops| - 1]), ops[|ops| - 1]);
    }
  }

  /** No run from a new table ever meets an internal-invariant or page-state error. */
  lemma InternalErrorsAreUnreachable(config: Config, ops: seq<Operation>, op: Operation)
    requires ConfigOk(config)
    ensures var r := Apply(Run(Transitions.New(config).value, ops), op);
            r.Err? ==> r.error !in {BrokenInvariant, BadState, BadTransition}
  {
    hide Valid, Apply;
    Transitions.NewIsValid(config);
    RunKeepsValid(Transitions.New(config).value, ops);
    OperationIsSound(Run(Transitions.New(config).value, ops), op);
  }

  // ---------------------------------------------------------------- copy on write

  datatype PageView = PageView(ordinal: nat, physical: PageId, state: PageState, valid: nat)

  /** What the holder of sequence `x` sees of its pages. */
  function View(t: Table, x: nat): seq<PageView>
    requires x in t.sequences && AllLive(t, t.sequences[x])
  {
    var s := t.sequences[x];
    seq(|s.pages|, i requires 0 <= i < |s.pages| =>
      PageView(s.pages[i].ordinal, s.pages[i].physical,
               t.physical[s.pages[i].physical].state, t.physical[s.pages[i].physical].valid))
  }

  lemma LiveEntries(t: Table, x: nat)
    requires Valid(t) && x in t.sequences
    ensures AllLive(t, t.sequences[x]) && ShapeOk(t.physical, t.sequences[x])
  {
    hide PoolsOk, ReferencesOk, PagesOk, PrefixesOk, AllEntriesOk;
    assert ShapeOk(t.physical, t.sequences[x]);
  }

  /** The fill and state of a page follow from its holder's header alone. */
  lemma ViewIsDetermined(t: Table, u: Table, x: nat)
    requires Valid(t) && Valid(u) && x in t.sequences && x in u.sequences && t.sequences[x] == u.sequences[x]
    ensures AllLive(t, t.sequences[x]) && AllLive(u, u.sequences[x]) && View(t, x) == View(u, x)
  {
    hide Valid;
    LiveEntries(t, x);
    LiveEntries(u, x);
  }

  lemma KeepsDraftsTransitive(t: Table, u: Table, v: Table, s: Sequence)
    requires KeepsDrafts(t, u, s) && KeepsDrafts(u, v, s)
    ensures KeepsDrafts(t, v, s)
  {
  }

  lemma StepIsolates(t: Table, op: Operation, x: nat)
    requires Valid(t) && x in t.sequences && Target(op) != x
    ensures var u := After(t, op);
            x in u.sequences && u.sequences[x] == t.sequences[x] && KeepsDrafts(t, u, t.sequences[x])
  {
    hide PoolsOk, ReferencesOk, PagesOk, PrefixesOk, ShapesOk, Transitions.Admit, Transitions.Append,
      Transitions.Fork, Transitions.Begin, Transitions.Commit, Transitions.Rollback, Transitions.Remove;
    OperationIsSound(t, op);
    assert EntriesOk(t, t.sequences[x]);
  }

  /** Copy-on-write isolation over whole runs: as long as nobody operates on `x` itself, the
      sequence, the pages its holder sees, and its draft slots stay what they were. */
  lemma {:induction false} OthersNeverDisturb(t: Table, ops: seq<Operation>, x: nat)
    requires Valid(t) && x in t.sequences
    requires forall i | 0 <= i < |ops| :: Target(ops[i]) != x
    ensures var u := Run(t, ops);
            && x in u.sequences && u.sequences[x] == t.sequences[x]
            && AllLive(t, t.sequences[x]) && AllLive(u, u.sequences[x])
            && View(u, x) == View(t, x)
            && KeepsDrafts(t, u, t.sequences[x])
    decreases |ops|
  {
    hide Valid, After, View, KeepsDrafts, AllLive;
    RunKeepsValid(t, ops);
    if ops == [] {
      LiveEntries(t, x);
      assert KeepsDrafts(t, t, t.sequences[x]) by { SelfKeepsDrafts(t, t.sequences[x]); }
    } else {
      var front := ops[..|ops| - 1];
      OthersNeverDisturb(t, front, x);
      RunKeepsValid(t, front);
      StepIsolates(Run(t, front), ops[|ops| - 1], x);
      KeepsDraftsTransitive(t, Run(t, front), Run(t, ops), t.sequences[x]);
    }
    ViewIsDetermined(t, Run(t, ops), x);
  }

  lemma SelfKeepsDrafts(t: Table, s: Sequence)
    requires AllLive(t, s)
    ensures KeepsDrafts(t, t, s)
  {
  }

  // ---------------------------------------------------------------- reuse of ids

  /** While a generation is bound, only its acknowledgement can succeed. */
  lemma BoundTableIsFrozen(t: Table, op: Operation)
    requires t.bound.Some? && Apply(t, op).Ok?
    ensures op == Acknowledge(t.bound.value)
  {
  }

  /** The state of a run after its first `i` operations. */
  function At(t: Table, ops: seq<Operation>, i: nat): Table
    requires i <= |ops|
  {
    Run(t, ops[..i])
  }

  lemma AtStep(t: Table, ops: seq<Operation>, i: nat)
    requires Valid(t) && i < |ops|
    ensures Valid(At(t, ops, i))
    ensures At(t, ops, i + 1) == After(At(t, ops, i), ops[i])
  {
    hide Valid;
    RunKeepsValid(t, ops[..i]);
    assert ops[..i + 1][..i] == ops[..i];
  }

  /** A successful bind at step `b` and the acknowledgement of the same generation at `a`. */
  ghost predicate BoundThenAcknowledged(t: Table, ops: seq<Operation>, b: nat, a: nat) {
    && b < a < |ops|
    && ops[b].Bind? && At(t, ops, b).bound.None? && At(t, ops, b + 1).bound == Some(ops[b].generation)
    && ops[a] == Acknowledge(ops[b].generation) && Apply(At(t, ops, a), ops[a]).Ok?
  }

  /** The free, quarantined and live ids of one kind. */
  datatype Ids = Ids(free: set<PageId>, quarantined: set<PageId>, live: set<PageId>)

  function IdsOf(t: Table, draft: bool): Ids {
    if draft then Ids(t.freeDraft, t.quarantinedDraft, LiveDrafts(t.physical))
    else Ids(t.freeTarget, t.quarantinedTarget, t.physical.Keys)
  }

  function Capacity(t: Table, draft: bool): nat {
    if draft then t.config.draftPages else t.config.targetPages
  }

  ghost predicate Split(ids: Ids, pages: nat) {
    Partition(ids.free, ids.quarantined, ids.live, pages)
  }

  lemma SplitIds(t: Table, draft: bool)
    requires Valid(t)
    ensures Split(IdsOf(t, draft), Capacity(t, draft))
  {
    hide ReferencesOk, AllEntriesOk, PagesOk, PrefixesOk, ShapesOk, LiveDrafts, Partition, DistinctDrafts;
  }

  /** An operation moves ids from free to live and from live to quarantined, and nothing else;
      an acknowledgement moves the whole quarantine to free. */
  lemma StepMovesIds(t: Table, op: Operation, draft: bool)
    requires Valid(t)
    ensures var u := After(t, op); var before := IdsOf(t, draft); var after := IdsOf(u, draft);
            && Split(before, Capacity(t, draft)) && Split(after, Capacity(t, draft))
            && (if op.Acknowledge? && Apply(t, op).Ok? then
                  after == Ids(before.free + before.quarantined, {}, before.live) && t.bound == Some(op.generation)
                else
                  after.free <= before.free && before.quarantined <= after.quarantined)
            && (after.live != before.live ==> t.bound.None? && u.bound.None?)
  {
    hide Valid, LiveDrafts, Isolates, Partition, Transitions.Admit, Transitions.Append, Transitions.Fork,
      Transitions.Begin, Transitions.Commit, Transitions.Rollback, Transitions.Remove;
    var u := After(t, op);
    OperationIsSound(t, op);
    SplitIds(t, draft);
    SplitIds(u, draft);
    if u != t && !op.Bind? && !op.Acknowledge? {
      BoundIsNone(t, op);
    }
  }

  lemma BoundIsNone(t: Table, op: Operation)
    requires Apply(t, op).Ok? && !op.Acknowledge?
    ensures t.bound.None?
  {
  }

  /** From a bound table, a quarantined id becomes free only through the acknowledgement of the
      bound generation. */
  lemma {:induction false} FreedOnlyByAcknowledgement(
    t: Table, ops: seq<Operation>, j: nat, k: nat, p: PageId, draft: bool) returns (a: nat)
    requires Valid(t) && j <= k <= |ops|
    requires At(t, ops, j).bound.Some?
    requires p in IdsOf(At(t, ops, j), draft).quarantined && p !in IdsOf(At(t, ops, k), draft).quarantined
    ensures j <= a < k
    ensures ops[a] == Acknowledge(At(t, ops, j).bound.value) && Apply(At(t, ops, a), ops[a]).Ok?
    decreases k - j
  {
    hide Valid, At, Apply, Partition;
    AtStep(t, ops, j);
    var now := At(t, ops, j);
    StepMovesIds(now, ops[j], draft);
    if Apply(now, ops[j]).Ok? {
      BoundTableIsFrozen(now, ops[j]);
      a := j;
    } else {
      a := FreedOnlyByAcknowledgement(t, ops, j + 1, k, p, draft);
    }
  }

  /** From an unbound table, a quarantined id becomes free only through a bind and then the
      acknowledgement of that bind's generation. */
  lemma {:induction false} FreedOnlyAfterBind(
    t: Table, ops: seq<Operation>, j: nat, k: nat, p: PageId, draft: bool) returns (b: nat, a: nat)
    requires Valid(t) && j <= k <= |ops|
    requires At(t, ops, j).bound.None?
    requires p in IdsOf(At(t, ops, j), draft).quarantined && p !in IdsOf(At(t, ops, k), draft).quarantined
    ensures j <= b < a < k && BoundThenAcknowledged(t, ops, b, a)
    decreases k - j
  {
    hide Valid, At, Apply, Partition;
    AtStep(t, ops, j);
    var now := At(t, ops, j);
    StepMovesIds(now, ops[j], draft);
    if At(t, ops, j + 1).bound.Some? {
      BindsGeneration(now, ops[j]);
      a := FreedOnlyByAcknowledgement(t, ops, j + 1, k, p, draft);
      b := j;
    } else {
      b, a := FreedOnlyAfterBind(t, ops, j + 1, k, p, draft);
    }
  }

  lemma BindsGeneration(t: Table, op: Operation)
    requires Valid(t) && t.bound.None? && After(t, op).bound.Some?
    ensures op.Bind? && After(t, op).bound == Some(op.generation)
  {
    hide Valid, Isolates, Transitions.Admit, Transitions.Append, Transitions.Fork, Transitions.Begin,
      Transitions.Commit, Transitions.Rollback, Transitions.Remove;
    OperationIsSound(t, op);
  }

  /** No id is reused before it was acknowledged: if a target or draft id leaves the live set
      at step `i` and is live again after step `k`, then in between some step bound a generation
      and a later one acknowledged that same generation. */
  lemma ReuseNeedsAcknowledgement(t: Table, ops: seq<Operation>, i: nat, k: nat, p: PageId, draft: bool)
    requires Valid(t) && i < k < |ops|
    requires p in IdsOf(At(t, ops, i), draft).live && p !in IdsOf(At(t, ops, i + 1), draft).live
    requires p !in IdsOf(At(t, ops, k), draft).live && p in IdsOf(At(t, ops, k + 1), draft).live
    ensures exists b, a :: i < b < a < k && BoundThenAcknowledged(t, ops, b, a)
  {
    hide Valid, At, Apply, BoundThenAcknowledged;
    AtStep(t, ops, i);
    StepMovesIds(At(t, ops, i), ops[i], draft);
    AtStep(t, ops, k);
    StepMovesIds(At(t, ops, k), ops[k], draft);
    var b, a := FreedOnlyAfterBind(t, ops, i + 1, k, p, draft);
  }
}
