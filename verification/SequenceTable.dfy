/** The page table as the source has it: fields changed in place, loops over tokens and pages,
    and a snapshot put back when an operation fails. Every method is proved to compute the
    reference operation of `SequenceTransitions`. */
module SequenceTable {
  import opened Collections
  import opened Page
  import opened SequenceModel
  import opened SequenceSteps
  import opened SequenceOps
  import opened SequenceSpeculation
  import opened SequenceChunks
  import Transitions = SequenceTransitions

  /** Outcome `r` and final table `after` are what the reference result `spec` says; after an
      error the table is what it was. */
  ghost predicate Performs(before: Table, spec: Result<Table, Error>, r: Result<(), Error>, after: Table) {
    match spec
    case Ok(t) => r == Ok(()) && after == t
    case Err(e) => r == Err(e) && after == before
  }

  /** As `Performs`, for the body of an operation whose caller restores the snapshot. */
  ghost predicate Attempts(spec: Result<Table, Error>, r: Result<(), Error>, after: Table) {
    match spec
    case Ok(t) => r == Ok(()) && after == t
    case Err(e) => r == Err(e)
  }

  /** The table `t` with `committed` tokens on record for sequence `id`. */
  function WithCommitted(t: Table, id: nat, committed: nat): Table
    requires id in t.sequences
  {
    t.(sequences := t.sequences[id := t.sequences[id].(committed := committed)])
  }

  class SequencePageTable {
    const config: Config
    var freeTarget: set<PageId>
    var freeDraft: set<PageId>
    var quarantinedTarget: set<PageId>
    var quarantinedDraft: set<PageId>
    var bound: Option<nat>
    var physical: map<PageId, PhysicalPage>
    var prefixes: map<nat, PageId>
    var sequences: map<nat, Sequence>

    /** The fields as one value; also the snapshot an operation takes. */
    function Model(): Table
      reads this
    {
      Table(config, freeTarget, freeDraft, quarantinedTarget, quarantinedDraft, bound, physical, prefixes, sequences)
    }

    constructor (config: Config)
      requires ConfigOk(config)
      ensures Transitions.New(config) == Ok(Model())
      ensures Valid(Model())
    {
      this.config := config;
      freeTarget, freeDraft := Universe(config.targetPages), Universe(config.draftPages);
      quarantinedTarget, quarantinedDraft, bound := {}, {}, None;
      physical, prefixes, sequences := map[], map[], map[];
      new;
      Transitions.NewIsValid(config);
    }

    method Restore(snapshot: Table)
      requires snapshot.config == config
      modifies this
      ensures Model() == snapshot
    {
      freeTarget, freeDraft := snapshot.freeTarget, snapshot.freeDraft;
      quarantinedTarget, quarantinedDraft := snapshot.quarantinedTarget, snapshot.quarantinedDraft;
      bound, physical, prefixes, sequences := snapshot.bound, snapshot.physical, snapshot.prefixes, snapshot.sequences;
    }

    // ---------------------------------------------------------------- allocation

    /** Takes the least free ids of the owning rank; a missing draft slot puts the target back. */
    method AllocatePage(ordinal: nat, mtp: bool) returns (r: Result<PageId, Error>)
      requires freeTarget !! physical.Keys
      modifies this
      ensures match Allocate(old(Model()), ordinal, mtp)
              case Ok(a) => r == Ok(a.page) && Model() == a.table
              case Err(e) => r == Err(e) && Model() == old(Model())
    {
      var rank := OwnerRank(ordinal);
      if Locals(freeTarget, rank) == {} {
        return Err(Capacity);
      }
      var p := First(freeTarget, rank);
      freeTarget := freeTarget - {p};
      var draft := None;
      if mtp {
        if Locals(freeDraft, rank) == {} {
          freeTarget := freeTarget + {p};
          return Err(Capacity);
        }
        var d := First(freeDraft, rank);
        freeDraft := freeDraft - {d};
        draft := Some(d.local);
      }
      if p in physical {
        return Err(BrokenInvariant);
      }
      if !LegalTransition(Free, HbmMutable) {
        return Err(BadTransition);
      }
      physical := physical[p := PhysicalPage(draft, HbmMutable, 0, 1, None)];
      r := Ok(p);
    }

    // ---------------------------------------------------------------- append

    method AppendCommitted(id: nat, tokens: nat) returns (r: Result<(), Error>)
      requires Valid(Model())
      modifies this
      ensures Performs(old(Model()), Transitions.Append(old(Model()), id, tokens), r, Model())
    {
      if bound.Some? {
        return Err(BadTransaction);
      }
      if tokens == 0 {
        return Ok(());
      }
      var snapshot := Model();
      r := AppendCommittedInner(id, tokens);
      if r.Err? {
        Restore(snapshot);
      }
    }

    /** Fills the open page first, then takes whole pages. */
    method AppendCommittedInner(id: nat, tokens: nat) returns (r: Result<(), Error>)
      requires Valid(Model()) && bound.None? && tokens > 0
      modifies this
      ensures Attempts(Transitions.Append(old(Model()), id, tokens), r, Model())
    {
      hide Consistent, AddTokens, Grow, StateAt, Filled, PushRaw, Isolates;
      if id !in sequences {
        return Err(BadSequence);
      }
      var s := sequences[id];
      var committed := s.committed + tokens;
      if committed > MAX_CONTEXT_TOKENS || s.tentative.Some? {
        return Err(BadTransaction);
      }
      ghost var t0 := Model();
      var remaining: nat;
      remaining, r := FillOpenPage(id, tokens);
      if r.Err? {
        return;
      }
      ghost var t := WithCommitted(Model(), id, committed - remaining);
      while remaining != 0
        invariant remaining <= tokens && id in sequences
        invariant Consistent(t) && HasContext(t, id, remaining) && t.sequences[id].tentative.None?
        invariant remaining != 0 ==> Room(t.sequences[id]) == 0
        invariant t == WithCommitted(Model(), id, committed - remaining)
        invariant AddTokens(t, id, remaining) == AddTokens(t0, id, tokens)
      {
        var appended := if remaining <= 64 then remaining else 64;
        FreeIsFresh(t);
        GrowStep(t, id, remaining, appended);
        PushRawIsGrow(Model(), id, committed - remaining, appended);
        r := AppendPage(id, appended);
        if r.Err? {
          return;
        }
        t := Grow(t, id, MoreTokens(t.sequences[id], appended), None).value;
        remaining := remaining - appended;
      }
      sequences := sequences[id := sequences[id].(committed := committed)];
      AppendNothing(t, id);
      r := Ok(());
    }

    /** Writes what fits into the open last page and returns how many tokens are left. */
    method FillOpenPage(id: nat, tokens: nat) returns (left: nat, r: Result<(), Error>)
      requires Consistent(Model()) && HasContext(Model(), id, tokens) && sequences[id].tentative.None? && tokens > 0
      modifies this
      ensures r.Ok? && left <= tokens && id in sequences
      ensures var t := WithCommitted(Model(), id, old(sequences[id]).committed + tokens - left);
              && Consistent(t) && HasContext(t, id, left) && t.sequences[id].tentative.None?
              && (left != 0 ==> Room(t.sequences[id]) == 0)
              && AddTokens(t, id, left) == AddTokens(old(Model()), id, tokens)
    {
      hide Consistent, AddTokens, StateAt, Filled;
      left, r := tokens, Ok(());
      var s := sequences[id];
      ghost var t0 := Model();
      TailState(t0, id);
      assert WithCommitted(t0, id, s.committed) == t0 by {
        assert t0.sequences[id := t0.sequences[id]] == t0.sequences;
      }
      if s.pages == [] {
        return;
      }
      var p := LastOf(s);
      if p !in physical {
        r := Err(BrokenInvariant);
        return;
      }
      var page := physical[p];
      if page.state == HbmMutable && page.references == 1 && page.valid < 64 {
        var available := 64 - page.valid;
        var appended := if tokens <= available then tokens else available;
        TailStep(t0, id, tokens, appended);
        page := page.(valid := page.valid + appended);
        if page.valid == 64 {
          if !LegalTransition(page.state, HbmSealed) {
            r := Err(BadTransition);
            return;
          }
          page := page.(state := HbmSealed);
        }
        physical := physical[p := page];
        left := tokens - appended;
      } else if page.state != HbmSealed || page.valid != 64 {
        r := Err(BadState);
      }
    }

    /** One new page with `appended` tokens at the end of sequence `id`. */
    method AppendPage(id: nat, appended: nat) returns (r: Result<(), Error>)
      requires id in sequences && freeTarget !! physical.Keys
      modifies this
      ensures Attempts(PushRaw(old(Model()), id, appended), r, Model())
    {
      var ordinal := |sequences[id].pages|;
      var a := AllocatePage(ordinal, sequences[id].mtp);
      if a.Err? {
        return Err(a.error);
      }
      var p := a.value;
      var page := physical[p].(valid := appended);
      if appended == 64 {
        if !LegalTransition(page.state, HbmSealed) {
          return Err(BadTransition);
        }
        page := page.(state := HbmSealed);
      }
      physical := physical[p := page];
      sequences := sequences[id := sequences[id].(pages := sequences[id].pages + [Entry(ordinal, p)])];
      r := Ok(());
    }

    // ---------------------------------------------------------------- release

    /** Drops a reference; the last one retires the page into quarantine. */
    method ReleasePage(p: PageId) returns (r: Result<(), Error>)
      requires Releasable(Model(), p)
      modifies this
      ensures r == Ok(()) && Model() == Release(old(Model()), p)
    {
      if p !in physical {
        return Err(BrokenInvariant);
      }
      var page := physical[p];
      if page.references == 0 {
        return Err(BrokenInvariant);
      }
      page := page.(references := page.references - 1);
      if page.references != 0 {
        physical := physical[p := page];
        return Ok(());
      }
      physical := physical - {p};
      if page.prefix.Some? {
        var key := page.prefix.value.attachment.key;
        if key !in prefixes || prefixes[key] != p {
          return Err(BrokenInvariant);
        }
        prefixes := prefixes - {key};
      }
      if p in freeTarget || p in quarantinedTarget {
        return Err(BrokenInvariant);
      }
      quarantinedTarget := quarantinedTarget + {p};
      if page.draft.Some? {
        var d := PageId(p.rank, page.draft.value);
        if d in freeDraft || d in quarantinedDraft {
          return Err(BrokenInvariant);
        }
        quarantinedDraft := quarantinedDraft + {d};
      }
      r := Ok(());
    }

    // ---------------------------------------------------------------- speculation

    /** Reserves one token: the last page, or a new one, becomes tentative and one token longer. */
    method ReserveToken(id: nat) returns (r: Result<(), Error>)
      requires id in sequences && freeTarget !! physical.Keys && TailIsReady(Model(), id)
      modifies this
      ensures Attempts(ReserveRaw(old(Model()), id), r, Model())
    {
      var s := sequences[id];
      if s.pages == [] || (LastOf(s) in physical && physical[LastOf(s)].valid == 64) {
        var ordinal := |s.pages|;
        var a := AllocatePage(ordinal, s.mtp);
        if a.Err? {
          return Err(a.error);
        }
        sequences := sequences[id := s.(pages := s.pages + [Entry(ordinal, a.value)])];
      }
      var entries := sequences[id].pages;
      if entries == [] {
        return Err(BrokenInvariant);
      }
      var p := entries[|entries| - 1].physical;
      if p !in physical {
        return Err(BrokenInvariant);
      }
      var page := physical[p];
      if page.references != 1 || !(page.state.HbmMutable? || page.state.HbmTentative?) {
        return Err(BadState);
      }
      if page.state.HbmMutable? {
        if !LegalTransition(page.state, HbmTentative) {
          return Err(BadTransition);
        }
        page := page.(state := HbmTentative);
      }
      physical := physical[p := page.(valid := page.valid + 1)];
      r := Ok(());
    }

    method BeginTentative(id: nat, requested: nat) returns (r: Result<(), Error>)
      requires Valid(Model())
      modifies this
      ensures Performs(old(Model()), Transitions.Begin(old(Model()), id, requested), r, Model())
    {
      if bound.Some? || requested == 0 || requested > 7 {
        return Err(BadTransaction);
      }
      var snapshot := Model();
      r := BeginTentativeInner(id, requested);
      if r.Err? {
        Restore(snapshot);
      }
    }

    method BeginTentativeInner(id: nat, requested: nat) returns (r: Result<(), Error>)
      requires Valid(Model()) && bound.None? && 0 < requested <= 7
      modifies this
      ensures Attempts(Transitions.Begin(old(Model()), id, requested), r, Model())
    {
      hide Consistent, Isolates, AddTokens, TailOf, Flows;
      if id !in sequences {
        return Err(BadSequence);
      }
      var s := sequences[id];
      if s.tentative.Some? || s.committed + requested > MAX_CONTEXT_TOKENS {
        return Err(BadTransaction);
      }
      var tailTokens := if s.pages != [] && LastOf(s) in physical then physical[LastOf(s)].valid else 0;
      OriginalTail(Model(), id, tailTokens, requested);
      Transitions.OpenFollows(Model(), id);
      TailReserved(s, 0);
      AddTokensFollows(Transitions.Opened(Model(), id), id, requested);
      r := ReserveTentative(id, requested);
      if r.Err? {
        return;
      }
      sequences := sequences[id := sequences[id].(
        tentative := Some(Tail(s.committed, |s.pages|, tailTokens, requested)))];
    }

    /** Reserves token by token, taking a page whenever the last one is full. */
    method ReserveTentative(id: nat, requested: nat) returns (r: Result<(), Error>)
      requires id in sequences && sequences[id].tentative.None?
      requires var t := Transitions.Opened(Model(), id); Consistent(t) && HasContext(t, id, requested)
      modifies this
      ensures var spec := AddTokens(Transitions.Opened(old(Model()), id), id, requested);
              match spec
              case Err(e) => r == Err(e)
              case Ok(u) =>
                r == Ok(()) && id in sequences && sequences[id].tentative.None?
                && u == WithTail(Model(), id, TailOf(old(sequences[id]), requested))
    {
      hide Consistent, Isolates, AddTokens, AddToken, TailOf, Flows, ReserveRaw;
      ghost var t0 := Transitions.Opened(Model(), id);
      ghost var t := t0;
      ghost var s0 := sequences[id];
      TailReserved(s0, 0);
      r := Ok(());
      for i := 0 to requested
        invariant id in sequences && sequences[id].tentative.None? && r == Ok(())
        invariant Consistent(t) && HasContext(t, id, requested - i)
        invariant t == WithTail(Model(), id, TailOf(s0, i))
        invariant AddTokens(t, id, requested - i) == AddTokens(t0, id, requested)
      {
        TailReserved(s0, i);
        TailReserved(s0, i + 1);
        ghost var h := MoreTokens(t.sequences[id], 1);
        AddTokenFollows(t, id, h);
        AddTokensSplits(t, id, 1, requested - i - 1);
        OneToken(t, id);
        FreeIsFresh(t);
        ReserveRawIsAddToken(Model(), id, TailOf(s0, i));
        r := ReserveToken(id);
        if r.Err? {
          return;
        }
        t := AddToken(t, id, h).value;
      }
      AppendNothing(t, id);
    }

    // ---------------------------------------------------------------- settlement

    /** Pops and releases pages until `count` are left. */
    method TrimPages(id: nat, count: nat, ghost tail: Tail) returns (r: Result<(), Error>)
      requires id in sequences && sequences[id].tentative.None? && PagesFor(sequences[id].committed) <= count
      requires Consistent(WithTail(Model(), id, tail))
      modifies this
      ensures r == Ok(())
      ensures var u := Trim(WithTail(old(Model()), id, tail), id, count);
              u.Ok? && id in u.value.sequences && Model() == WithoutTail(u.value, id)
    {
      hide Consistent, Isolates, Flows, Release, Trim, DropLast, Releasable, CanDrop, PagesFor;
      r := Ok(());
      ghost var t0 := WithTail(Model(), id, tail);
      ghost var t := t0;
      TailRoundTrip(Model(), id, tail);
      TrimFollows(t0, id, count);
      while |sequences[id].pages| > count
        invariant r == Ok(()) && id in sequences && id in t.sequences
        invariant Consistent(t) && t.sequences[id].tentative.Some? && PagesFor(t.sequences[id].committed) <= count
        invariant Model() == WithoutTail(t, id)
        invariant Trim(t, id, count) == Trim(t0, id, count)
        decreases |sequences[id].pages|
      {
        ghost var s := t.sequences[id];
        TrimStep(t, id, count);
        ghost var h := s.(tentative := Some(s.tentative.value.(reserved := 64 * (|s.pages| - 1) - s.committed)));
        LivePagesAreReleasable(t, LastOf(s));
        DropIsRelease(t, Model(), id, h);
        var entries := sequences[id].pages;
        var p := entries[|entries| - 1].physical;
        sequences := sequences[id := sequences[id].(pages := entries[..|entries| - 1])];
        r := ReleasePage(p);
        if r.Err? {
          return;
        }
        t := DropLast(t, id, h);
      }
      TrimDone(t, id, count);
    }

    /** Gives every page of sequence `id` the fill and state of `committed` tokens. */
    method SettlePages(id: nat, committed: nat) returns (r: Result<(), Error>)
      requires id in sequences && sequences[id].tentative.None? && |sequences[id].pages| == PagesFor(committed)
      requires var h := sequences[id].(committed := committed); Settleable(physical, h) && SamePlace(h, h)
      modifies this`physical
      ensures r == Ok(())
      ensures physical == Canonical(old(physical), sequences[id].(committed := committed), 0)
    {
      hide Filled, StateAt, SamePlace, PagesFor;
      ghost var h := sequences[id].(committed := committed);
      ghost var before := physical;
      r := Ok(());
      var entries := sequences[id].pages;
      for ordinal := 0 to |entries|
        invariant r == Ok(()) && before.Keys == physical.Keys
        invariant Canonical(physical, h, ordinal) == Canonical(before, h, 0)
        invariant forall i | ordinal <= i < |entries| :: physical[entries[i].physical] == before[entries[i].physical]
      {
        var tail := committed % 64;
        var expectedValid := if ordinal + 1 == |entries| && tail != 0 then tail else 64;
        var expectedState := if expectedValid == 64 then HbmSealed else HbmMutable;
        ExpectedFill(h, ordinal);
        var p := entries[ordinal].physical;
        if p !in physical {
          return Err(BrokenInvariant);
        }
        var page := physical[p];
        SettleOne(physical, h, ordinal);
        if page.state == HbmTentative {
          if !LegalTransition(page.state, expectedState) {
            return Err(BadTransition);
          }
          physical := physical[p := page.(state := expectedState, valid := expectedValid)];
        } else if page.state != expectedState || page.valid != expectedValid {
          return Err(BadState);
        }
        DistinctPages(h, ordinal);
      }
    }

    method CommitTentative(id: nat, tokens: nat) returns (r: Result<(), Error>)
      requires Valid(Model())
      modifies this
      ensures Performs(old(Model()), Transitions.Commit(old(Model()), id, tokens), r, Model())
    {
      if bound.Some? || id !in sequences || sequences[id].tentative.None? {
        return Err(BadTransaction);
      }
      var tail := sequences[id].tentative.value;
      if tokens == 0 || tokens > tail.reserved {
        return Err(BadTransaction);
      }
      var snapshot := Model();
      r := CommitTentativeInner(id, tokens, tail);
      if r.Err? {
        Restore(snapshot);
      }
    }

    method CommitTentativeInner(id: nat, tokens: nat, tail: Tail) returns (r: Result<(), Error>)
      requires Valid(Model()) && bound.None? && id in sequences && sequences[id].tentative == Some(tail)
      requires 0 < tokens <= tail.reserved
      modifies this
      ensures Attempts(Transitions.Commit(old(Model()), id, tokens), r, Model())
    {
      hide Consistent, Isolates, Flows, Trim, Settleable, Canonical, PagesFor, SamePlace;
      ghost var t := Model();
      ghost var u, h := SettlementPlan(t, id, tokens);
      var committed := tail.committed + tokens;
      if committed > MAX_CONTEXT_TOKENS {
        return Err(BadTransaction);
      }
      var desired := PagesFor(committed);
      if desired > |sequences[id].pages| {
        return Err(BrokenInvariant);
      }
      sequences := sequences[id := sequences[id].(tentative := None)];
      TailRoundTrip(Model(), id, tail);
      WithTailBack(t, id, tail);
      r := TrimPages(id, desired, tail);
      if r.Err? {
        return;
      }
      WithoutTailHeader(u, id);
      r := SettlePages(id, committed);
      if r.Err? {
        return;
      }
      sequences := sequences[id := sequences[id].(committed := committed)];
    }

    method RollbackTentative(id: nat) returns (r: Result<(), Error>)
      requires Valid(Model())
      modifies this
      ensures Performs(old(Model()), Transitions.Rollback(old(Model()), id), r, Model())
    {
      if bound.Some? {
        return Err(BadTransaction);
      }
      var snapshot := Model();
      r := RollbackTentativeInner(id);
      if r.Err? {
        Restore(snapshot);
      }
    }

    /** Gives back the pages beyond the original ones and restores the original tail. */
    method RollbackTentativeInner(id: nat) returns (r: Result<(), Error>)
      requires Valid(Model()) && bound.None?
      modifies this
      ensures Attempts(Transitions.Rollback(old(Model()), id), r, Model())
    {
      hide Consistent, Isolates, Flows, Trim, Canonical, PagesFor, SamePlace, Settleable, TailOf;
      if id !in sequences || sequences[id].tentative.None? {
        return Err(BadTransaction);
      }
      var tail := sequences[id].tentative.value;
      ghost var t := Model();
      ghost var u, h := SettlementPlan(t, id, 0);
      if |sequences[id].pages| < tail.pageCount {
        return Err(BrokenInvariant);
      }
      sequences := sequences[id := sequences[id].(tentative := None)];
      TailRoundTrip(Model(), id, tail);
      WithTailBack(t, id, tail);
      r := TrimPages(id, tail.pageCount, tail);
      if r.Err? {
        return;
      }
      WithoutTailHeader(u, id);
      RestoredTail(t, u, id, h, tail);
      if tail.pageCount != 0 {
        var entries := sequences[id].pages;
        if entries == [] {
          return Err(BrokenInvariant);
        }
        var p := entries[|entries| - 1].physical;
        if p !in physical {
          return Err(BrokenInvariant);
        }
        var page := physical[p];
        if page.state == HbmTentative {
          if !LegalTransition(page.state, HbmMutable) {
            return Err(BadTransition);
          }
          physical := physical[p := page.(state := HbmMutable, valid := tail.tailTokens)];
        } else if page.valid != 64 || page.state != HbmSealed {
          return Err(BadState);
        }
      }
      sequences := sequences[id := sequences[id].(committed := tail.committed)];
    }

    // ---------------------------------------------------------------- removal

    method RemoveSequence(id: nat) returns (r: Result<(), Error>)
      requires Valid(Model())
      modifies this
      ensures Performs(old(Model()), Transitions.Remove(old(Model()), id), r, Model())
    {
      if bound.Some? {
        return Err(BadTransaction);
      }
      var snapshot := Model();
      r := RemoveSequenceInner(id);
      if r.Err? {
        Restore(snapshot);
      }
    }

    /** Takes the sequence out first, then releases its pages from the last to the first. */
    method RemoveSequenceInner(id: nat) returns (r: Result<(), Error>)
      requires Valid(Model()) && bound.None?
      modifies this
      ensures Attempts(Transitions.Remove(old(Model()), id), r, Model())
    {
      hide Consistent, Isolates, Flows, Release, DropLast, Transitions.DropAll, Releasable, CanDrop;
      if id !in sequences {
        return Err(BadSequence);
      }
      var s := sequences[id];
      if s.tentative.Some? {
        return Err(BadTransaction);
      }
      ghost var t0 := Model();
      ghost var t := t0;
      Transitions.DropAllFollows(t0, id);
      sequences := sequences - {id};
      r := Ok(());
      var i := |s.pages|;
      while i > 0
        invariant 0 <= i <= |s.pages| && r == Ok(())
        invariant Consistent(t) && id in t.sequences && t.sequences[id].tentative.None?
        invariant t.sequences[id].pages == s.pages[..i]
        invariant Model() == Without(t, id)
        invariant Transitions.DropAll(t, id) == Transitions.DropAll(t0, id)
      {
        ghost var h := t.sequences[id].(committed := 64 * (i - 1));
        DropStep(t, id);
        LivePagesAreReleasable(t, LastOf(t.sequences[id]));
        ReleaseWithout(t, Model(), id, h);
        i := i - 1;
        r := ReleasePage(s.pages[i].physical);
        if r.Err? {
          return;
        }
        t := DropLast(t, id, h);
      }
      DropDone(t, id);
    }

    // ---------------------------------------------------------------- fork

    method ForkSequence(source: nat, target: nat) returns (r: Result<(), Error>)
      requires Valid(Model())
      modifies this
      ensures Performs(old(Model()), Transitions.Fork(old(Model()), source, target), r, Model())
    {
      if bound.Some? {
        return Err(BadTransaction);
      }
      if target == 0 || target in sequences || source !in sequences {
        return Err(BadSequence);
      }
      if sequences[source].tentative.Some? {
        return Err(BadTransaction);
      }
      var snapshot := Model();
      r := ForkSequenceInner(source, target);
      if r.Err? {
        Restore(snapshot);
      }
    }

    method ForkSequenceInner(source: nat, target: nat) returns (r: Result<(), Error>)
      requires Valid(Model()) && bound.None? && target != 0 && target !in sequences && source in sequences
      requires sequences[source].tentative.None?
      modifies this
      ensures Attempts(Transitions.Fork(old(Model()), source, target), r, Model())
    {
      hide Consistent, Isolates, Flows, Transitions.ForkFrom, Transitions.ForkPage, ForkRaw;
      var s := sequences[source];
      ghost var m0 := sequences;
      ghost var t0 := WithSequence(Model(), target, Sequence(s.mtp, 0, [], None));
      ghost var t := t0;
      Transitions.OpenEmpty(Model(), target, s.mtp);
      var pages: seq<Entry> := [];
      for i := 0 to |s.pages|
        invariant sequences == m0
        invariant Consistent(t) && Transitions.ForkedTo(t, source, target, i) && t.sequences[source] == s
        invariant |pages| == i
        invariant t == WithSequence(Model(), target, Sequence(s.mtp, CopiedTokens(s, i), pages, None))
        invariant Transitions.ForkFrom(t, source, target, i) == Transitions.ForkFrom(t0, source, target, 0)
      {
        FreeIsFresh(t);
        ForkStep(t, source, target, i);
        ForkRawIsForkPage(Model(), t, source, target, i, pages);
        var entry := ForkEntry(s.pages[i], s.mtp);
        if entry.Err? {
          return Err(entry.error);
        }
        pages := pages + [entry.value];
        t := Transitions.ForkPage(t, source, target, i).value;
      }
      ForkDone(t, source, target);
      sequences := sequences[target := Sequence(s.mtp, s.committed, pages, None)];
      r := Ok(());
    }

    /** Shares a full sealed page; gives an open one a private copy on its owner. */
    method ForkEntry(source: Entry, mtp: bool) returns (r: Result<Entry, Error>)
      requires freeTarget !! physical.Keys
      modifies this
      ensures match ForkRaw(old(Model()), source, mtp)
              case Ok(f) => r == Ok(f.entry) && Model() == f.table
              case Err(e) => r == Err(e) && sequences == old(sequences)
    {
      if source.physical !in physical {
        return Err(BrokenInvariant);
      }
      var page := physical[source.physical];
      if page.state == HbmSealed && page.valid == 64 {
        if page.references >= MAX_REFERENCES {
          return Err(Overflow);
        }
        physical := physical[source.physical := page.(references := page.references + 1)];
        r := Ok(source);
      } else if page.state == HbmMutable && page.valid < 64 && page.references == 1 {
        var a := AllocatePage(source.ordinal, mtp);
        if a.Err? {
          return Err(a.error);
        }
        physical := physical[a.value := physical[a.value].(valid := page.valid)];
        r := Ok(Entry(source.ordinal, a.value));
      } else {
        r := Err(BadState);
      }
    }

    // ---------------------------------------------------------------- admission

    method AdmitWithPrefix(id: nat, mtp: bool, attachments: seq<Attachment>) returns (r: Result<(), Error>)
      requires Valid(Model())
      modifies this
      ensures Performs(old(Model()), Transitions.Admit(old(Model()), id, mtp, attachments), r, Model())
    {
      if bound.Some? {
        return Err(BadTransaction);
      }
      if id == 0 || id in sequences || |attachments| > MAX_CONTEXT_TOKENS / 64 {
        return Err(BadSequence);
      }
      var snapshot := Model();
      r := AdmitWithPrefixInner(id, mtp, attachments);
      if r.Err? {
        Restore(snapshot);
      }
    }

    method AdmitWithPrefixInner(id: nat, mtp: bool, attachments: seq<Attachment>) returns (r: Result<(), Error>)
      requires Valid(Model()) && bound.None? && id != 0 && id !in sequences
      requires |attachments| <= MAX_CONTEXT_TOKENS / 64
      modifies this
      ensures Attempts(Transitions.Admit(old(Model()), id, mtp, attachments), r, Model())
    {
      hide Consistent, Isolates, Flows, Transitions.AdmitFrom, Transitions.AttachPage, AttachRaw;
      ghost var m0 := sequences;
      ghost var t0 := WithSequence(Model(), id, Sequence(mtp, 0, [], None));
      ghost var t := t0;
      Transitions.OpenEmpty(Model(), id, mtp);
      var pages: seq<Entry> := [];
      var seen: set<nat> := {};
      for i := 0 to |attachments|
        invariant sequences == m0
        invariant Consistent(t) && Transitions.FullTo(t, id, i)
        invariant |pages| == i
        invariant seen == set j | 0 <= j < i :: attachments[j].key
        invariant t == WithSequence(Model(), id, Sequence(mtp, 64 * i, pages, None))
        invariant Transitions.AdmitFrom(t, id, mtp, attachments, i) == Transitions.AdmitFrom(t0, id, mtp, attachments, 0)
      {
        var a := attachments[i];
        AdmitStep(t, id, mtp, attachments, i);
        if mtp && a.draft.None? {
          return Err(MissingDraft);
        }
        if a.key in seen {
          return Err(BadPrefix);
        }
        seen := seen + {a.key};
        FreeIsFresh(t);
        AttachRawIsAttachPage(Model(), t, id, mtp, pages, a);
        var p := AttachEntry(mtp, i, a);
        if p.Err? {
          return Err(p.error);
        }
        pages := pages + [Entry(i, p.value)];
        t := Transitions.AttachPage(t, id, a).value;
      }
      AdmitDone(t, id, mtp, attachments);
      sequences := sequences[id := Sequence(mtp, 64 * |attachments|, pages, None)];
      r := Ok(());
    }

    /** Joins the live page published under the key, or restores it into a new slot. */
    method AttachEntry(mtp: bool, ordinal: nat, a: Attachment) returns (r: Result<PageId, Error>)
      requires freeTarget !! physical.Keys
      modifies this
      ensures match AttachRaw(old(Model()), mtp, ordinal, a)
              case Ok(x) => r == Ok(x.page) && Model() == x.table
              case Err(e) => r == Err(e) && sequences == old(sequences)
    {
      if a.key in prefixes {
        var p := prefixes[a.key];
        if !Transitions.Joinable(Model(), p, a, ordinal) {
          return Err(BadPrefix);
        }
        if Transitions.Relate(physical[p].prefix.value.attachment, a).value == DraftUpgrade {
          physical := physical[p := physical[p].(prefix := Some(PrefixBinding(a, ordinal)))];
        }
        if mtp && physical[p].draft.None? {
          if Locals(freeDraft, p.rank) == {} {
            return Err(Capacity);
          }
          var d := First(freeDraft, p.rank);
          freeDraft := freeDraft - {d};
          physical := physical[p := physical[p].(draft := Some(d.local))];
        }
        if physical[p].references >= MAX_REFERENCES {
          return Err(Overflow);
        }
        physical := physical[p := physical[p].(references := physical[p].references + 1)];
        r := Ok(p);
      } else {
        r := AllocatePage(ordinal, mtp);
        if r.Err? {
          return;
        }
        var page := physical[r.value].(valid := 64);
        if !LegalTransition(page.state, HbmSealed) {
          return Err(BadTransition);
        }
        physical := physical[r.value := page.(state := HbmSealed, prefix := Some(PrefixBinding(a, ordinal)))];
        prefixes := prefixes[a.key := r.value];
      }
    }

    // ---------------------------------------------------------------- the reuse quarantine

    /** Binds the quarantine to a generation; an empty quarantine needs no receipt. */
    method BindReuseQuarantine(generation: nat) returns (r: Result<bool, Error>)
      modifies this`bound
      ensures match Transitions.Bind(old(Model()), generation)
              case Ok(t) =>
                Model() == t
                && r == Ok(old(quarantinedTarget) != {} || old(quarantinedDraft) != {})
              case Err(e) => r == Err(e) && Model() == old(Model())
    {
      if generation == 0 || bound.Some? {
        return Err(BadTransaction);
      }
      if quarantinedTarget == {} && quarantinedDraft == {} {
        return Ok(false);
      }
      bound := Some(generation);
      r := Ok(true);
    }

    method AcknowledgeReuseQuarantine(generation: nat) returns (r: Result<(), Error>)
      modifies this
      ensures Performs(old(Model()), Transitions.Acknowledge(old(Model()), generation), r, Model())
    {
      if bound != Some(generation) {
        return Err(BadTransaction);
      }
      freeTarget, quarantinedTarget := freeTarget + quarantinedTarget, {};
      freeDraft, quarantinedDraft := freeDraft + quarantinedDraft, {};
      bound := None;
      r := Ok(());
    }
  }

  /** A new page with `valid` tokens for sequence `id`, whose token count stays as it is. */
  function PushRaw(t: Table, id: nat, valid: nat): Result<Table, Error>
    requires id in t.sequences
  {
    var s := t.sequences[id];
    var Allocation(u, p) :- Allocate(t, |s.pages|, s.mtp);
    Ok(u.(physical := u.physical[p := u.physical[p].(valid := valid,
                                                     state := if valid == 64 then HbmSealed else HbmMutable)],
          sequences := u.sequences[id := Pushed(s, p)]))
  }

  lemma PushRawIsGrow(t: Table, id: nat, x: nat, c: nat)
    requires id in t.sequences && t.sequences[id].tentative.None?
    requires Filled(x + c, |t.sequences[id].pages|) == c
    requires StateAt(t.sequences[id].(committed := x + c), |t.sequences[id].pages|) == if c == 64 then HbmSealed else HbmMutable
    ensures var g := WithCommitted(t, id, x);
            var r := Grow(g, id, MoreTokens(g.sequences[id], c), None);
            && r.Ok? == PushRaw(t, id, c).Ok?
            && (r.Ok? ==> id in PushRaw(t, id, c).value.sequences
                          && r.value == WithCommitted(PushRaw(t, id, c).value, id, x + c))
            && (r.Err? ==> r == PushRaw(t, id, c))
  {
    hide Filled, StateAt;
  }

  /** The last page of an idle sequence is either open and private or full and sealed. */
  lemma TailState(t: Table, id: nat)
    requires Consistent(t) && id in t.sequences && t.sequences[id].tentative.None?
    ensures var s := t.sequences[id];
            && 0 <= Room(s) < 64
            && (s.pages == [] ==> Room(s) == 0)
            && (s.pages != [] ==>
                  && LastOf(s) in t.physical
                  && var page := t.physical[LastOf(s)];
                  && page.valid == 64 - Room(s)
                  && (if Room(s) > 0 then page.state == HbmMutable && page.references == 1 && page.valid > 0
                      else page.state == HbmSealed))
  {
    hide PoolsOk, ReferencesOk, PrefixesOk, AllEntriesOk;
    assert ShapeOk(t.physical, t.sequences[id]);
  }

  /** The open page takes the first `c` of `n` tokens. */
  lemma TailStep(t: Table, id: nat, n: nat, c: nat)
    requires Consistent(t) && HasContext(t, id, n) && t.sequences[id].tentative.None? && 0 < c <= n
    requires c == n < Room(t.sequences[id]) || c == Room(t.sequences[id])
    ensures HasLast(t, t.sequences[id])
    ensures var s := t.sequences[id];
            var page := t.physical[LastOf(s)];
            var filled := page.(valid := page.valid + c, state := if page.valid + c == 64 then HbmSealed else page.state);
            AddTokens(t, id, c) ==
            Ok(WithCommitted(t.(physical := t.physical[LastOf(s) := filled]), id, s.committed + c))
    ensures var u := AddTokens(t, id, c).value;
            && Consistent(u) && HasContext(u, id, n - c) && u.sequences[id].tentative.None?
            && Room(u.sequences[id]) == Room(t.sequences[id]) - c
            && AddTokens(u, id, n - c) == AddTokens(t, id, n)
  {
    hide Consistent, Isolates, AddTokens;
    TailState(t, id);
    FillTail(t, id, c);
    AddTokensSplits(t, id, c, n - c);
    AddTokensFollows(t, id, c);
  }

  lemma FreeIsFresh(t: Table)
    requires Consistent(t)
    ensures t.freeTarget !! t.physical.Keys
  {
    hide ReferencesOk, AllEntriesOk, PagesOk, PrefixesOk, ShapesOk;
  }

  /** One turn of the append loop: a new page takes the next `c` of `n` tokens. */
  lemma GrowStep(t: Table, id: nat, n: nat, c: nat)
    requires Consistent(t) && HasContext(t, id, n) && Room(t.sequences[id]) == 0 && t.sequences[id].tentative.None?
    requires 0 < c <= 64 && c <= n
    ensures var s := t.sequences[id];
            var r := Grow(t, id, MoreTokens(s, c), None);
            && (r.Err? ==> AddTokens(t, id, n) == r && Allocate(t, |s.pages|, s.mtp) == Err(r.error))
            && (r.Ok? ==>
                  && Allocate(t, |s.pages|, s.mtp).Ok?
                  && Consistent(r.value)
                  && HeaderOf(r.value, id, MoreTokens(s, c))
                  && |r.value.sequences[id].pages| == |s.pages| + 1
                  && AddTokens(r.value, id, n - c) == AddTokens(t, id, n))
    ensures Filled(t.sequences[id].committed + c, |t.sequences[id].pages|) == c
    ensures StateAt(MoreTokens(t.sequences[id], c), |t.sequences[id].pages|) == if c == 64 then HbmSealed else HbmMutable
  {
    hide Consistent, Isolates, AddTokens;
    RoomOf(t, id);
    FillNew(t, id, c);
    AddTokensSplits(t, id, c, n - c);
    AddTokensFollows(t, id, c);
  }

  // ---------------------------------------------------------------- facts for release and speculation

  /** The bookkeeping around page `p` allows it to be released. */
  ghost predicate Releasable(t: Table, p: PageId) {
    && p in t.physical && t.physical[p].references > 0
    && p !in t.freeTarget && p !in t.quarantinedTarget
    && DraftIds(p, t.physical[p].draft) !! t.freeDraft && DraftIds(p, t.physical[p].draft) !! t.quarantinedDraft
    && (t.physical[p].prefix.Some? ==>
          && t.physical[p].prefix.value.attachment.key in t.prefixes
          && t.prefixes[t.physical[p].prefix.value.attachment.key] == p)
  }

  lemma LivePagesAreReleasable(t: Table, p: PageId)
    requires Consistent(t) && p in t.physical
    ensures Releasable(t, p)
  {
    hide AllEntriesOk, PagesOk, ShapesOk;
    assert DraftIds(p, t.physical[p].draft) <= LiveDrafts(t.physical);
  }

  /** The table `t` with an open transaction `tail` on sequence `id`. */
  function WithTail(t: Table, id: nat, tail: Tail): Table
    requires id in t.sequences
  {
    t.(sequences := t.sequences[id := t.sequences[id].(tentative := Some(tail))])
  }

  lemma TailReserved(s: Sequence, n: nat)
    ensures TailOf(s, n).reserved == n && TailOf(s, n) == TailOf(s, 0).(reserved := n)
  {
  }

  lemma OriginalTail(t: Table, id: nat, tailTokens: nat, n: nat)
    requires Consistent(t) && id in t.sequences && t.sequences[id].tentative.None?
    requires var s := t.sequences[id];
             tailTokens == if s.pages != [] && LastOf(s) in t.physical then t.physical[LastOf(s)].valid else 0
    ensures Tail(t.sequences[id].committed, |t.sequences[id].pages|, tailTokens, n) == TailOf(t.sequences[id], n)
  {
    hide PoolsOk, ReferencesOk, PrefixesOk, AllEntriesOk, PagesOk;
    assert ShapeOk(t.physical, t.sequences[id]);
  }

  /** The last page while tokens are being reserved: full, or open and private. */
  lemma ReservedTail(t: Table, id: nat)
    requires Consistent(t) && id in t.sequences && t.sequences[id].tentative.Some?
    ensures var s := t.sequences[id];
            && 0 <= Room(s) < 64 && (Room(s) == 0 <==> Positions(s) % 64 == 0)
            && (s.pages == [] ==> Room(s) == 0)
            && (s.pages != [] ==>
                  && LastOf(s) in t.physical
                  && var page := t.physical[LastOf(s)];
                  && page.valid == 64 - Room(s)
                  && (Room(s) > 0 ==> page.references == 1 && (page.state == HbmMutable || page.state == HbmTentative)))
  {
    hide PoolsOk, ReferencesOk, PrefixesOk, AllEntriesOk;
    assert ShapeOk(t.physical, t.sequences[id]);
  }

  ghost predicate TailIsReady(t: Table, id: nat)
    requires id in t.sequences
  {
    var s := t.sequences[id];
    s.pages != [] ==>
      && LastOf(s) in t.physical
      && (t.physical[LastOf(s)].valid == 64
          || (t.physical[LastOf(s)].references == 1
              && (t.physical[LastOf(s)].state == HbmMutable || t.physical[LastOf(s)].state == HbmTentative)))
  }

  /** One more tentative token in the pages of sequence `id`, whose header stays as it is. */
  function ReserveRaw(t: Table, id: nat): Result<Table, Error>
    requires id in t.sequences
  {
    var s := t.sequences[id];
    if s.pages == [] || (LastOf(s) in t.physical && t.physical[LastOf(s)].valid == 64) then
      var Allocation(u, p) :- Allocate(t, |s.pages|, s.mtp);
      Ok(u.(physical := u.physical[p := u.physical[p].(valid := 1, state := HbmTentative)],
            sequences := u.sequences[id := Pushed(s, p)]))
    else if LastOf(s) !in t.physical then Err(BrokenInvariant)
    else
      var page := t.physical[LastOf(s)];
      Ok(t.(physical := t.physical[LastOf(s) := page.(valid := page.valid + 1, state := HbmTentative)]))
  }

  lemma ReserveRawIsAddToken(t: Table, id: nat, tail: Tail)
    requires id in t.sequences && t.sequences[id].tentative.None?
    requires Consistent(WithTail(t, id, tail)) && HasContext(WithTail(t, id, tail), id, 1)
    ensures TailIsReady(t, id)
    ensures var u := WithTail(t, id, tail);
            match AddToken(u, id, MoreTokens(u.sequences[id], 1))
            case Err(e) => ReserveRaw(t, id) == Err(e)
            case Ok(v) =>
              && ReserveRaw(t, id).Ok?
              && var w := ReserveRaw(t, id).value;
              && id in w.sequences && w.sequences[id].tentative.None?
              && v == WithTail(w, id, tail.(reserved := tail.reserved + 1))
  {
    hide Consistent;
    var u := WithTail(t, id, tail);
    ReservedTail(u, id);
    ReservedFill(u.sequences[id]);
  }

  lemma ReservedFill(s: Sequence)
    requires s.tentative.Some? && 0 <= Room(s) < 64 && s.committed <= 64 * |s.pages|
    requires Room(s) == 0 <==> Positions(s) % 64 == 0
    ensures var h := MoreTokens(s, 1);
            if Room(s) == 0 then Filled(Positions(h), |s.pages|) == 1 && StateAt(h, |s.pages|) == HbmTentative
            else |s.pages| > 0 ==>
                   && Filled(Positions(h), |s.pages| - 1) == 65 - Room(s)
                   && (64 * |s.pages| > s.committed ==> StateAt(h, |s.pages| - 1) == HbmTentative)
  {
  }

  // ---------------------------------------------------------------- facts for settlement

  /** The table `t` with no transaction on sequence `id`. */
  function WithoutTail(t: Table, id: nat): Table
    requires id in t.sequences
  {
    t.(sequences := t.sequences[id := t.sequences[id].(tentative := None)])
  }

  lemma TailRoundTrip(t: Table, id: nat, tail: Tail)
    requires id in t.sequences && t.sequences[id].tentative.None?
    ensures WithoutTail(WithTail(t, id, tail), id) == t
  {
    assert t.sequences[id := t.sequences[id]] == t.sequences;
  }

  lemma WithTailBack(t: Table, id: nat, tail: Tail)
    requires id in t.sequences && t.sequences[id].tentative == Some(tail)
    ensures WithTail(WithoutTail(t, id), id, tail) == t
  {
    assert t.sequences[id := t.sequences[id]] == t.sequences;
  }

  lemma WithoutTailHeader(t: Table, id: nat)
    requires id in t.sequences
    ensures WithoutTail(t, id).sequences[id] == t.sequences[id].(tentative := None)
    ensures WithoutTail(t, id).physical == t.physical
  {
  }

  lemma TrimStep(t: Table, id: nat, count: nat)
    requires Consistent(t) && id in t.sequences && t.sequences[id].tentative.Some?
    requires PagesFor(t.sequences[id].committed) <= count < |t.sequences[id].pages|
    ensures var s := t.sequences[id];
            && HasLast(t, s) && s.committed <= 64 * (|s.pages| - 1)
            && var h := s.(tentative := Some(s.tentative.value.(reserved := 64 * (|s.pages| - 1) - s.committed)));
            && Consistent(DropLast(t, id, h))
            && Trim(DropLast(t, id, h), id, count) == Trim(t, id, count)
            && id in DropLast(t, id, h).sequences
            && DropLast(t, id, h).sequences[id] == h.(pages := h.pages[..|h.pages| - 1])
  {
    hide Consistent, Isolates, Flows;
    CanTrim(t, id, count);
    var s := t.sequences[id];
    DropFollows(t, id, s.(tentative := Some(s.tentative.value.(reserved := 64 * (|s.pages| - 1) - s.committed))));
  }

  lemma TrimDone(t: Table, id: nat, count: nat)
    requires id in t.sequences && |t.sequences[id].pages| <= count
    ensures Trim(t, id, count) == Ok(t)
  {
  }

  /** Popping an entry and releasing its page is the reference drop, transactions aside. */
  lemma DropIsRelease(t: Table, m: Table, id: nat, h: Sequence)
    requires id in t.sequences && h.pages == t.sequences[id].pages && HasLast(t, h) && m == WithoutTail(t, id)
    requires h.mtp == t.sequences[id].mtp && h.committed == t.sequences[id].committed
    ensures var popped := m.(sequences := m.sequences[id := m.sequences[id].(pages := h.pages[..|h.pages| - 1])]);
            && popped.physical == t.physical
            && id in DropLast(t, id, h).sequences
            && Release(popped, LastOf(h)) == WithoutTail(DropLast(t, id, h), id)
    ensures Releasable(t, LastOf(h)) ==>
              Releasable(m.(sequences := m.sequences[id := m.sequences[id].(pages := h.pages[..|h.pages| - 1])]), LastOf(h))
  {
  }

  /** Every page of `h` is either still tentative or already as `h` wants it. */
  ghost predicate Settleable(physical: map<PageId, PhysicalPage>, h: Sequence) {
    forall i | 0 <= i < |h.pages| ::
      && h.pages[i].physical in physical
      && (physical[h.pages[i].physical].state == HbmTentative
          || (physical[h.pages[i].physical].state == StateAt(h, i)
              && physical[h.pages[i].physical].valid == Filled(Positions(h), i)))
  }

  lemma ExpectedFill(h: Sequence, ordinal: nat)
    requires h.tentative.None? && ordinal < |h.pages| == PagesFor(h.committed)
    ensures var valid := if ordinal + 1 == |h.pages| && h.committed % 64 != 0 then h.committed % 64 else 64;
            && Filled(Positions(h), ordinal) == valid
            && StateAt(h, ordinal) == (if valid == 64 then HbmSealed else HbmMutable)
  {
  }

  lemma SettleOne(physical: map<PageId, PhysicalPage>, h: Sequence, ordinal: nat)
    requires ordinal < |h.pages| && forall i | 0 <= i < |h.pages| :: h.pages[i].physical in physical
    ensures var p := h.pages[ordinal].physical;
            var page := physical[p].(valid := Filled(Positions(h), ordinal), state := StateAt(h, ordinal));
            && Canonical(physical, h, ordinal) == Canonical(physical[p := page], h, ordinal + 1)
            && (physical[p] == page ==> physical[p := page] == physical)
  {
  }

  lemma DistinctPages(h: Sequence, ordinal: nat)
    requires SamePlace(h, h) && ordinal < |h.pages|
    ensures forall i | ordinal < i < |h.pages| :: h.pages[i].physical != h.pages[ordinal].physical
  {
  }

  /** An open transaction with no page left that is neither sealed nor tentative. */
  ghost predicate StillReserving(s: Sequence) {
    s.tentative.Some? && (Reserved(s) > 0 || s.committed == 64 * |s.pages|)
  }

  /** What the settlement of `k` tokens of an open transaction relies on. */
  lemma SettlementPlan(t: Table, id: nat, k: nat) returns (u: Table, h: Sequence)
    requires Valid(t) && id in t.sequences && t.sequences[id].tentative.Some? && k <= Reserved(t.sequences[id])
    ensures t.sequences[id].tentative.value.committed == t.sequences[id].committed
    ensures t.sequences[id].committed + k <= MAX_CONTEXT_TOKENS
    ensures PagesFor(t.sequences[id].committed) <= PagesFor(t.sequences[id].committed + k) <= |t.sequences[id].pages|
    ensures t.sequences[id].tentative.value.pageCount == PagesFor(t.sequences[id].committed)
    ensures Trim(t, id, PagesFor(t.sequences[id].committed + k)) == Ok(u)
    ensures id in u.sequences && h == u.sequences[id].(committed := t.sequences[id].committed + k, tentative := None)
    ensures Consistent(u) && u.sequences[id].committed == t.sequences[id].committed
    ensures StillReserving(u.sequences[id])
    ensures |h.pages| == PagesFor(t.sequences[id].committed + k) && Settleable(u.physical, h) && SamePlace(h, h)
    ensures Transitions.Settle(t, id, k) == Refit(u, id, h) && AllLive(u, h)
  {
    hide PoolsOk, ReferencesOk, PagesOk, PrefixesOk, Isolates, Flows, Canonical, Trim;
    var s := t.sequences[id];
    Transitions.OpenTransaction(t, id, k);
    assert ShapeOk(t.physical, s);
    var count := PagesFor(s.committed + k);
    TrimFollows(t, id, count);
    u := Trim(t, id, count).value;
    var v := u.sequences[id];
    h := v.(committed := s.committed + k, tentative := None);
    assert ShapeOk(u.physical, v) && SamePlace(v, v);
    SettleableAfterTrim(u.physical, v, h);
  }

  lemma SettleableAfterTrim(physical: map<PageId, PhysicalPage>, s: Sequence, h: Sequence)
    requires ShapeOk(physical, s) && h.pages == s.pages && h.tentative.None? && StillReserving(s)
    requires s.committed <= h.committed && |h.pages| == PagesFor(h.committed)
    ensures Settleable(physical, h)
  {
  }

  /** After a rollback's trim, only the original tail page still has to be restored. */
  lemma RestoredTail(t: Table, u: Table, id: nat, h: Sequence, tail: Tail)
    requires Valid(t) && id in t.sequences && t.sequences[id].tentative == Some(tail)
    requires Trim(t, id, PagesFor(t.sequences[id].committed)) == Ok(u)
    requires Consistent(u) && id in u.sequences && AllLive(u, h)
    requires h == u.sequences[id].(committed := t.sequences[id].committed, tentative := None)
    requires u.sequences[id].committed == t.sequences[id].committed && StillReserving(u.sequences[id])
    requires |h.pages| == PagesFor(t.sequences[id].committed) && Settleable(u.physical, h) && SamePlace(h, h)
    ensures tail.pageCount == |h.pages|
    ensures |h.pages| == 0 ==> Canonical(u.physical, h, 0) == u.physical
    ensures |h.pages| > 0 ==>
              var page := u.physical[LastOf(h)];
              if page.state == HbmTentative then
                Canonical(u.physical, h, 0) ==
                u.physical[LastOf(h) := page.(state := HbmMutable, valid := tail.tailTokens)]
              else
                Canonical(u.physical, h, 0) == u.physical && page.valid == 64 && page.state == HbmSealed
  {
    hide PoolsOk, ReferencesOk, PagesOk, PrefixesOk, AllEntriesOk, Trim, Canonical;
    assert ShapeOk(t.physical, t.sequences[id]);
    var s := u.sequences[id];
    assert ShapeOk(u.physical, s);
    CanonicalEffect(u.physical, h, 0);
    if |h.pages| > 0 {
      RestoredPages(u.physical, s, h, Canonical(u.physical, h, 0));
    } else {
      assert Canonical(u.physical, h, 0) == u.physical;
    }
  }

  lemma RestoredPages(physical: map<PageId, PhysicalPage>, s: Sequence, h: Sequence, after: map<PageId, PhysicalPage>)
    requires ShapeOk(physical, s) && h.pages == s.pages && h.pages != [] && SamePlace(h, h)
    requires h.committed == s.committed && h.tentative.None? && |h.pages| == PagesFor(h.committed)
    requires StillReserving(s)
    requires Settleable(physical, h) && after.Keys == physical.Keys
    requires forall q | q in physical :: after[q] == physical[q].(valid := after[q].valid, state := after[q].state)
    requires forall q | q in physical && !Holds(h, q) :: after[q] == physical[q]
    requires forall i | 0 <= i < |h.pages| ::
               && after[h.pages[i].physical].valid == Filled(Positions(h), i)
               && after[h.pages[i].physical].state == StateAt(h, i)
    ensures var last := |h.pages| - 1;
            var page := physical[LastOf(h)];
            if page.state == HbmTentative then
              after == physical[LastOf(h) := page.(state := HbmMutable, valid := Filled(h.committed, last))]
            else
              after == physical && page.valid == 64 && page.state == HbmSealed
  {
    var last := |h.pages| - 1;
    forall q | q in physical && q != LastOf(h) ensures after[q] == physical[q] {
      if Holds(h, q) {
        var i :| 0 <= i < |h.pages| && h.pages[i].physical == q;
        assert i < last;
        assert physical[s.pages[i].physical].state == StateAt(s, i) == HbmSealed;
        assert physical[s.pages[i].physical].valid == Filled(Positions(s), i);
      }
    }
    assert physical[s.pages[last].physical].state == StateAt(s, last);
    assert physical[s.pages[last].physical].valid == Filled(Positions(s), last);
  }

  // ---------------------------------------------------------------- facts for removal

  function Without(t: Table, id: nat): Table {
    t.(sequences := t.sequences - {id})
  }

  lemma DropStep(t: Table, id: nat)
    requires Consistent(t) && id in t.sequences && t.sequences[id].tentative.None? && t.sequences[id].pages != []
    ensures var s := t.sequences[id];
            && HasLast(t, s)
            && var h := s.(committed := 64 * (|s.pages| - 1));
            && Consistent(DropLast(t, id, h))
            && Transitions.DropAll(DropLast(t, id, h), id) == Transitions.DropAll(t, id)
            && id in DropLast(t, id, h).sequences
            && DropLast(t, id, h).sequences[id] == h.(pages := h.pages[..|h.pages| - 1])
  {
    hide Consistent, Isolates, Flows;
    Transitions.CanDropCommitted(t, id);
    DropFollows(t, id, t.sequences[id].(committed := 64 * (|t.sequences[id].pages| - 1)));
  }

  lemma DropDone(t: Table, id: nat)
    requires id in t.sequences && t.sequences[id].pages == []
    ensures Transitions.DropAll(t, id) == Ok(t)
  {
  }

  lemma ReleaseWithout(t: Table, m: Table, id: nat, h: Sequence)
    requires id in t.sequences && h.pages == t.sequences[id].pages && HasLast(t, h) && m == Without(t, id)
    ensures m.physical == t.physical
    ensures Release(m, LastOf(h)) == Without(DropLast(t, id, h), id)
    ensures Releasable(t, LastOf(h)) ==> Releasable(m, LastOf(h))
  {
  }

  // ---------------------------------------------------------------- facts for fork and admission

  function WithSequence(t: Table, id: nat, s: Sequence): Table {
    t.(sequences := t.sequences[id := s])
  }

  /** Tokens in the first `i` pages of `s`. */
  function CopiedTokens(s: Sequence, i: nat): nat {
    if s.committed <= 64 * i then s.committed else 64 * i
  }

  datatype Forked = Forked(table: Table, entry: Entry)

  /** Forking one entry, before the target sequence exists. */
  function ForkRaw(t: Table, source: Entry, mtp: bool): Result<Forked, Error> {
    if source.physical !in t.physical then Err(BrokenInvariant)
    else
      var page := t.physical[source.physical];
      if page.state == HbmSealed && page.valid == 64 then
        if page.references >= MAX_REFERENCES then Err(Overflow)
        else Ok(Forked(t.(physical := t.physical[source.physical := page.(references := page.references + 1)]), source))
      else if page.state == HbmMutable && page.valid < 64 && page.references == 1 then
        var Allocation(u, p) :- Allocate(t, source.ordinal, mtp);
        Ok(Forked(u.(physical := u.physical[p := u.physical[p].(valid := page.valid)]), Entry(source.ordinal, p)))
      else Err(BadState)
  }

  lemma AllocateIgnoresSequences(t: Table, u: Table, ordinal: nat, mtp: bool)
    requires u == t.(sequences := u.sequences)
    ensures match Allocate(t, ordinal, mtp)
            case Err(e) => Allocate(u, ordinal, mtp) == Err(e)
            case Ok(a) =>
              && Allocate(u, ordinal, mtp) == Ok(Allocation(a.table.(sequences := u.sequences), a.page))
              && a.table.sequences == t.sequences
  {
  }

  lemma ForkStep(t: Table, source: nat, target: nat, i: nat)
    requires Consistent(t) && Transitions.ForkedTo(t, source, target, i) && i < |t.sequences[source].pages|
    ensures match Transitions.ForkPage(t, source, target, i)
            case Err(e) => Transitions.ForkFrom(t, source, target, i) == Err(e)
            case Ok(u) =>
              && Consistent(u) && Transitions.ForkedTo(u, source, target, i + 1)
              && u.sequences[source] == t.sequences[source]
              && Transitions.ForkFrom(u, source, target, i + 1) == Transitions.ForkFrom(t, source, target, i)
  {
    hide Consistent, Isolates, Flows, Transitions.ForkPage;
    Transitions.ForkPageFollows(t, source, target, i);
    if Transitions.ForkPage(t, source, target, i).Ok? {
      Transitions.SourceUntouched(t, Transitions.ForkPage(t, source, target, i).value, source, target);
    }
  }

  lemma ForkDone(t: Table, source: nat, target: nat)
    requires Consistent(t) && source in t.sequences
    requires Transitions.ForkedTo(t, source, target, |t.sequences[source].pages|)
    ensures Transitions.ForkFrom(t, source, target, |t.sequences[source].pages|) == Ok(t)
    ensures CopiedTokens(t.sequences[source], |t.sequences[source].pages|) == t.sequences[source].committed
  {
    hide PoolsOk, ReferencesOk, PagesOk, PrefixesOk, AllEntriesOk;
    assert ShapeOk(t.physical, t.sequences[source]);
  }

  ghost predicate SameFork(
    m: Table, s: Sequence, target: nat, pages: seq<Entry>, spec: Result<Table, Error>, raw: Result<Forked, Error>)
  {
    match spec
    case Err(e) => raw == Err(e)
    case Ok(u) =>
      && raw.Ok? && raw.value.table.sequences == m.sequences
      && u == WithSequence(raw.value.table, target,
                           Sequence(s.mtp, CopiedTokens(s, |pages| + 1), pages + [raw.value.entry], None))
  }

  lemma ForkRawIsForkPage(m: Table, t: Table, source: nat, target: nat, i: nat, pages: seq<Entry>)
    requires source in m.sequences && source != target && i < |m.sequences[source].pages| && |pages| == i
    requires var s := m.sequences[source];
             t == WithSequence(m, target, Sequence(s.mtp, CopiedTokens(s, i), pages, None))
    requires Consistent(t) && Transitions.ForkedTo(t, source, target, i)
    ensures var s := m.sequences[source];
            SameFork(m, s, target, pages, Transitions.ForkPage(t, source, target, i), ForkRaw(m, s.pages[i], s.mtp))
  {
    hide PoolsOk, ReferencesOk, PrefixesOk, SameFork, Transitions.ForkPage, ForkRaw;
    var s := t.sequences[source];
    assert ShapeOk(t.physical, s) && EntriesOk(t, s);
    ForkFill(s, t.sequences[target].(committed := CopiedTokens(s, i + 1)), i);
    ForkOneIsSame(m, t, source, target, i, pages);
  }

  lemma ForkOneIsSame(m: Table, t: Table, source: nat, target: nat, i: nat, pages: seq<Entry>)
    requires source in m.sequences && source != target && i < |m.sequences[source].pages| && |pages| == i
    requires var s := m.sequences[source];
             && t == WithSequence(m, target, Sequence(s.mtp, CopiedTokens(s, i), pages, None))
             && s.pages[i].ordinal == i && s.pages[i].physical in t.physical
             && var h := t.sequences[target].(committed := CopiedTokens(s, i + 1));
             && var page := t.physical[s.pages[i].physical];
             && page.valid == Filled(Positions(h), i) && page.state == StateAt(h, i)
    ensures var s := m.sequences[source];
            SameFork(m, s, target, pages, Transitions.ForkPage(t, source, target, i), ForkRaw(m, s.pages[i], s.mtp))
  {
    hide Filled, StateAt, Locals;
    AllocateIgnoresSequences(m, t, i, m.sequences[source].mtp);
  }

  lemma ForkFill(s: Sequence, h: Sequence, i: nat)
    requires s.tentative.None? && h.tentative.None? && h.committed == CopiedTokens(s, i + 1)
    ensures Filled(Positions(h), i) == Filled(Positions(s), i) && StateAt(h, i) == StateAt(s, i)
  {
  }

  /** Attaching one page, before the sequence exists. */
  function AttachRaw(t: Table, mtp: bool, ordinal: nat, a: Attachment): Result<Allocation, Error> {
    if a.key in t.prefixes then
      var p := t.prefixes[a.key];
      if !Transitions.Joinable(t, p, a, ordinal) then Err(BadPrefix)
      else
        var page := t.physical[p];
        var upgraded := if Transitions.Relate(page.prefix.value.attachment, a).value == DraftUpgrade
                        then page.(prefix := Some(PrefixBinding(a, ordinal))) else page;
        if mtp && page.draft.None? && Locals(t.freeDraft, p.rank) == {} then Err(Capacity)
        else if page.references >= MAX_REFERENCES then Err(Overflow)
        else
          var taken := if mtp && page.draft.None? then {First(t.freeDraft, p.rank)} else {};
          var joined := if mtp && page.draft.None?
                        then upgraded.(draft := Some(First(t.freeDraft, p.rank).local)) else upgraded;
          Ok(Allocation(t.(freeDraft := t.freeDraft - taken,
                           physical := t.physical[p := joined.(references := page.references + 1)]), p))
    else
      var Allocation(u, p) :- Allocate(t, ordinal, mtp);
      Ok(Allocation(u.(physical := u.physical[p := u.physical[p].(valid := 64, state := HbmSealed,
                                                                  prefix := Some(PrefixBinding(a, ordinal)))],
                       prefixes := u.prefixes[a.key := p]), p))
  }

  ghost predicate SameAttachment(
    m: Table, id: nat, mtp: bool, pages: seq<Entry>, spec: Result<Table, Error>, raw: Result<Allocation, Error>)
  {
    match spec
    case Err(e) => raw == Err(e)
    case Ok(u) =>
      && raw.Ok? && raw.value.table.sequences == m.sequences
      && u == WithSequence(raw.value.table, id,
                           Sequence(mtp, 64 * (|pages| + 1), pages + [Entry(|pages|, raw.value.page)], None))
  }

  lemma AttachJoins(m: Table, t: Table, id: nat, mtp: bool, pages: seq<Entry>, a: Attachment)
    requires t == WithSequence(m, id, Sequence(mtp, 64 * |pages|, pages, None)) && a.key in m.prefixes
    ensures SameAttachment(m, id, mtp, pages, Transitions.AttachPage(t, id, a), AttachRaw(m, mtp, |pages|, a))
  {
    hide Locals;
  }

  lemma AttachGrows(m: Table, t: Table, id: nat, mtp: bool, pages: seq<Entry>, a: Attachment)
    requires t == WithSequence(m, id, Sequence(mtp, 64 * |pages|, pages, None)) && a.key !in m.prefixes
    ensures SameAttachment(m, id, mtp, pages, Transitions.AttachPage(t, id, a), AttachRaw(m, mtp, |pages|, a))
  {
    hide Locals;
    AllocateIgnoresSequences(m, t, |pages|, mtp);
  }

  lemma AttachRawIsAttachPage(m: Table, t: Table, id: nat, mtp: bool, pages: seq<Entry>, a: Attachment)
    requires t == WithSequence(m, id, Sequence(mtp, 64 * |pages|, pages, None))
    ensures SameAttachment(m, id, mtp, pages, Transitions.AttachPage(t, id, a), AttachRaw(m, mtp, |pages|, a))
  {
    hide AttachRaw, Transitions.AttachPage, SameAttachment;
    if a.key in m.prefixes {
      AttachJoins(m, t, id, mtp, pages, a);
    } else {
      AttachGrows(m, t, id, mtp, pages, a);
    }
  }

  lemma AdmitStep(t: Table, id: nat, mtp: bool, attachments: seq<Attachment>, i: nat)
    requires i < |attachments| <= MAX_CONTEXT_TOKENS / 64 && Consistent(t) && Transitions.FullTo(t, id, i)
    ensures var spec := Transitions.AdmitFrom(t, id, mtp, attachments, i);
            if mtp && attachments[i].draft.None? then spec == Err(MissingDraft)
            else if exists j | 0 <= j < i :: attachments[j].key == attachments[i].key then spec == Err(BadPrefix)
            else
              match Transitions.AttachPage(t, id, attachments[i])
              case Err(e) => spec == Err(e)
              case Ok(u) =>
                && Consistent(u) && Transitions.FullTo(u, id, i + 1)
                && Transitions.AdmitFrom(u, id, mtp, attachments, i + 1) == spec
  {
    hide Consistent, Isolates, Flows, Transitions.AttachPage;
    Transitions.AttachFollows(t, id, i, attachments[i]);
  }

  lemma AdmitDone(t: Table, id: nat, mtp: bool, attachments: seq<Attachment>)
    ensures Transitions.AdmitFrom(t, id, mtp, attachments, |attachments|) == Ok(t)
  {
  }
}
