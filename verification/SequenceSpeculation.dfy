/** Speculation is transparent, and appending in pieces is appending at once. */
module SequenceSpeculation {
  import opened Collections
  import opened Page
  import opened SequenceModel
  import opened SequenceSteps
  import opened SequenceOps
  import opened SequenceTransitions

  // ---------------------------------------------------------------- append in pieces

  lemma {:induction false} AddTokensSplits(t: Table, id: nat, a: nat, b: nat)
    ensures AddTokens(t, id, a + b) ==
            if AddTokens(t, id, a).Ok? then AddTokens(AddTokens(t, id, a).value, id, b)
            else AddTokens(t, id, a)
    decreases a
  {
    if a > 0 && id in t.sequences {
      var u := AddToken(t, id, MoreTokens(t.sequences[id], 1));
      if u.Ok? {
        AddTokensSplits(u.value, id, a - 1, b);
      }
    }
  }

  /** Appending `a + b` tokens succeeds exactly when appending `a` and then `b` does, and the
      resulting tables are equal in every component, free sets included. */
  lemma AppendSplits(t: Table, id: nat, a: nat, b: nat)
    requires Valid(t)
    ensures Append(t, id, a + b).Ok? <==> Append(t, id, a).Ok? && Append(Append(t, id, a).value, id, b).Ok?
    ensures Append(t, id, a + b).Ok? ==> Append(t, id, a + b) == Append(Append(t, id, a).value, id, b)
  {
    hide Consistent, Isolates, AddTokens;
    AddTokensSplits(t, id, a, b);
    if t.bound.None? && a > 0 && id in t.sequences && t.sequences[id].tentative.None?
       && t.sequences[id].committed + a <= MAX_CONTEXT_TOKENS {
      AddTokensFollows(t, id, a);
      if AddTokens(t, id, a).Ok? {
        AppendNothing(AddTokens(t, id, a).value, id);
      }
    }
    AppendNothing(t, id);
  }

  lemma AppendNothing(t: Table, id: nat)
    ensures AddTokens(t, id, 0) == Ok(t)
  {
  }

  // ---------------------------------------------------------------- tables without fills

  function Blank(page: PhysicalPage): PhysicalPage {
    page.(valid := 0, state := Free, references := 0)
  }

  function BlankHeader(s: Sequence): Sequence {
    s.(committed := 0, tentative := None)
  }

  /** The table without page fills, states, reference counts and the token counts of `id`. */
  function Bare(t: Table, id: nat): Table
    requires id in t.sequences
  {
    t.(physical := map p | p in t.physical :: Blank(t.physical[p]),
       sequences := t.sequences[id := BlankHeader(t.sequences[id])])
  }

  /** A page pushed to sequence `id`, at the level of bare tables. */
  function PushBare(b: Table, id: nat): Result<Table, Error>
    requires id in b.sequences
  {
    var s := b.sequences[id];
    var Allocation(c, p) :- Allocate(b, |s.pages|, s.mtp);
    Ok(c.(physical := c.physical[p := Blank(c.physical[p])], sequences := c.sequences[id := Pushed(s, p)]))
  }

  /** The last page of sequence `id` retired, at the level of bare tables. */
  function DropBare(b: Table, id: nat): Table
    requires id in b.sequences && HasLast(b, b.sequences[id])
  {
    var s := b.sequences[id];
    var p := LastOf(s);
    b.(physical := b.physical - {p},
       quarantinedTarget := b.quarantinedTarget + {p},
       quarantinedDraft := b.quarantinedDraft + DraftIds(p, b.physical[p].draft),
       sequences := b.sequences[id := s.(pages := s.pages[..|s.pages| - 1])])
  }

  lemma AddTokenBare(t: Table, id: nat, h: Sequence)
    requires id in t.sequences && BlankHeader(h) == BlankHeader(t.sequences[id])
    requires Positions(t.sequences[id]) % 64 != 0 ==> HasLast(t, h)
    ensures Positions(t.sequences[id]) % 64 != 0 ==>
              AddToken(t, id, h).Ok? && AddToken(t, id, h).value.sequences == t.sequences[id := h]
              && Bare(AddToken(t, id, h).value, id) == Bare(t, id)
    ensures Positions(t.sequences[id]) % 64 == 0 ==>
              && (AddToken(t, id, h).Ok? <==> PushBare(Bare(t, id), id).Ok?)
              && (AddToken(t, id, h).Ok? ==>
                    id in AddToken(t, id, h).value.sequences
                    && Bare(AddToken(t, id, h).value, id) == PushBare(Bare(t, id), id).value)
  {
    hide Filled, StateAt;
    if Positions(t.sequences[id]) % 64 != 0 {
      hide PushBare, Grow;
    }
  }

  /** Free room in the pages sequence `id` already has. */
  function Room(s: Sequence): int {
    64 * |s.pages| - Positions(s)
  }

  lemma RoomOf(t: Table, id: nat)
    requires Consistent(t) && id in t.sequences
    ensures 0 <= Room(t.sequences[id]) < 64
    ensures Room(t.sequences[id]) == 0 <==> Positions(t.sequences[id]) % 64 == 0
    ensures Room(t.sequences[id]) > 0 ==> HasLast(t, t.sequences[id])
  {
    hide PoolsOk, ReferencesOk, PagesOk, PrefixesOk, AllEntriesOk;
    assert ShapeOk(t.physical, t.sequences[id]);
  }

  /** The effect of `n` more tokens on the bare table: nothing while they fit, one page
      pushed when they do not. */
  ghost predicate BareEffect(t: Table, r: Result<Table, Error>, id: nat, n: nat)
    requires id in t.sequences
  {
    if n <= Room(t.sequences[id]) then
      r.Ok? && id in r.value.sequences && Bare(r.value, id) == Bare(t, id)
    else
      && (r.Ok? <==> PushBare(Bare(t, id), id).Ok?)
      && (r.Ok? ==> id in r.value.sequences && Bare(r.value, id) == PushBare(Bare(t, id), id).value)
  }

  lemma BareRoom(t: Table, u: Table, id: nat, h: Sequence)
    requires id in t.sequences && HeaderOf(u, id, h) && Positions(h) == Positions(t.sequences[id]) + 1
    ensures Bare(u, id) == Bare(t, id) ==> Room(u.sequences[id]) == Room(t.sequences[id]) - 1
    ensures PushBare(Bare(t, id), id).Ok? && Bare(u, id) == PushBare(Bare(t, id), id).value ==>
              Room(u.sequences[id]) == Room(t.sequences[id]) + 63
  {
    assert Bare(t, id).sequences[id].pages == t.sequences[id].pages;
    assert Bare(u, id).sequences[id].pages == u.sequences[id].pages;
  }

  lemma {:induction false} AddTokensBare(t: Table, id: nat, n: nat)
    requires Consistent(t) && HasContext(t, id, n) && n <= Room(t.sequences[id]) + 64
    ensures BareEffect(t, AddTokens(t, id, n), id, n)
    decreases n
  {
    hide Consistent, Isolates, AddToken, Bare, PushBare;
    RoomOf(t, id);
    if n > 0 {
      var s := t.sequences[id];
      var h := MoreTokens(s, 1);
      AddTokenBare(t, id, h);
      AddTokenFollows(t, id, h);
      var r := AddToken(t, id, h);
      if r.Ok? {
        BareRoom(t, r.value, id, h);
        AddTokensBare(r.value, id, n - 1);
      }
    }
  }

  // ---------------------------------------------------------------- settling a bare table

  /** Pages that hold reserved tokens only are private and unpublished. */
  lemma ReservedPageIsPrivate(t: Table, id: nat)
    requires Consistent(t) && id in t.sequences && t.sequences[id].pages != []
    requires PagesFor(t.sequences[id].committed) < |t.sequences[id].pages|
    ensures var s := t.sequences[id];
            HasLast(t, s) && t.physical[LastOf(s)].references == 1 && t.physical[LastOf(s)].prefix.None?
  {
    hide PoolsOk, ReferencesOk, PrefixesOk, AllEntriesOk;
    var s := t.sequences[id];
    assert ShapeOk(t.physical, s);
    assert StateAt(s, |s.pages| - 1) != HbmSealed;
  }

  lemma DropLastBare(t: Table, id: nat, h: Sequence)
    requires id in t.sequences && BlankHeader(h) == BlankHeader(t.sequences[id])
    requires HasLast(t, h) && t.physical[LastOf(h)].references == 1 && t.physical[LastOf(h)].prefix.None?
    ensures id in DropLast(t, id, h).sequences
    ensures HasLast(Bare(t, id), Bare(t, id).sequences[id])
    ensures Bare(DropLast(t, id, h), id) == DropBare(Bare(t, id), id)
  {
  }

  lemma {:induction false} CanonicalBare(physical: map<PageId, PhysicalPage>, h: Sequence, ordinal: nat)
    requires ordinal <= |h.pages|
    requires forall i | 0 <= i < |h.pages| :: h.pages[i].physical in physical
    ensures (map p | p in Canonical(physical, h, ordinal) :: Blank(Canonical(physical, h, ordinal)[p]))
         == (map p | p in physical :: Blank(physical[p]))
    decreases |h.pages| - ordinal
  {
    hide Filled, StateAt;
    if ordinal < |h.pages| {
      var p := h.pages[ordinal].physical;
      CanonicalBare(
        physical[p := physical[p].(valid := Filled(Positions(h), ordinal), state := StateAt(h, ordinal))],
        h, ordinal + 1);
    }
  }

  lemma RefitBare(t: Table, id: nat, h: Sequence)
    requires id in t.sequences && BlankHeader(h) == BlankHeader(t.sequences[id])
    requires Refit(t, id, h).Ok?
    ensures Bare(Refit(t, id, h).value, id) == Bare(t, id)
  {
    CanonicalBare(t.physical, h, 0);
  }

  /** Settling retires at most one page, and only one that no committed token reached. */
  lemma SettleBare(t: Table, id: nat, k: nat)
    requires Consistent(t) && id in t.sequences && t.sequences[id].tentative.Some? && k <= Reserved(t.sequences[id])
    ensures Settle(t, id, k).Ok? && id in Settle(t, id, k).value.sequences
    ensures var s := t.sequences[id];
            var count := PagesFor(s.committed + k);
            && (count == |s.pages| ==> Bare(Settle(t, id, k).value, id) == Bare(t, id))
            && (count + 1 == |s.pages| ==>
                  && HasLast(Bare(t, id), Bare(t, id).sequences[id])
                  && Bare(Settle(t, id, k).value, id) == DropBare(Bare(t, id), id))
  {
    hide Consistent, Follows, Refit, Bare, DropBare;
    var s := t.sequences[id];
    OpenTransaction(t, id, k);
    SettleFollows(t, id, k);
    var count := PagesFor(s.committed + k);
    var u := Trim(t, id, count).value;
    TrimFollows(t, id, count);
    RefitBare(u, id, u.sequences[id].(committed := s.committed + k, tentative := None));
    if count + 1 == |s.pages| {
      ReservedPageIsPrivate(t, id);
      var h := s.(tentative := Some(s.tentative.value.(reserved := 64 * (|s.pages| - 1) - s.committed)));
      DropLastBare(t, id, h);
      assert Trim(DropLast(t, id, h), id, count) == Ok(DropLast(t, id, h));
    }
  }

  /** An unused id goes from free to quarantined instead of staying free. */
  function Retire(t: Table, p: PageId, draft: Option<nat>): Table {
    t.(freeTarget := t.freeTarget - {p},
       quarantinedTarget := t.quarantinedTarget + {p},
       freeDraft := t.freeDraft - DraftIds(p, draft),
       quarantinedDraft := t.quarantinedDraft + DraftIds(p, draft))
  }

  lemma DropPushBare(b: Table, id: nat)
    requires id in b.sequences && PushBare(b, id).Ok? && b.freeTarget !! b.physical.Keys
    ensures var c := PushBare(b, id).value;
            var x := Allocate(b, |b.sequences[id].pages|, b.sequences[id].mtp).value;
            && id in c.sequences && HasLast(c, c.sequences[id])
            && DropBare(c, id) == Retire(b, x.page, x.table.physical[x.page].draft)
  {
    var c := PushBare(b, id).value;
    var s := b.sequences[id];
    assert c.sequences[id].pages[..|s.pages|] == s.pages;
  }

  // ---------------------------------------------------------------- transparency

  /** In a valid table the fill, state and reference count of a page are determined by the
      sequences that list it. */
  lemma PageIsDetermined(t: Table, u: Table, p: PageId)
    requires Valid(t) && Valid(u) && t.sequences == u.sequences
    requires p in t.physical && p in u.physical && Blank(t.physical[p]) == Blank(u.physical[p])
    ensures t.physical[p] == u.physical[p]
  {
    hide PoolsOk, PagesOk, PrefixesOk, AllEntriesOk, Filled, StateAt;
    assert Holders(t.sequences, p) != {};
    var x :| x in Holders(t.sequences, p);
    var s := t.sequences[x];
    var i :| 0 <= i < |s.pages| && s.pages[i].physical == p;
    assert ShapeOk(t.physical, s) && ShapeOk(u.physical, s);
  }

  lemma FromBare(t: Table, u: Table, id: nat)
    requires Valid(t) && Valid(u) && id in t.sequences && id in u.sequences
    requires Bare(t, id).physical == Bare(u, id).physical && Bare(t, id).sequences == Bare(u, id).sequences
    requires t.sequences[id].committed == u.sequences[id].committed
    requires t.sequences[id].tentative == u.sequences[id].tentative
    ensures t.sequences == u.sequences && t.physical == u.physical
  {
    hide Valid;
    assert t.sequences == u.sequences by {
      assert t.sequences.Keys == Bare(t, id).sequences.Keys == Bare(u, id).sequences.Keys == u.sequences.Keys;
      forall x | x in t.sequences ensures t.sequences[x] == u.sequences[x] {
        assert Bare(t, id).sequences[x] == Bare(u, id).sequences[x];
      }
    }
    assert t.physical.Keys == Bare(t, id).physical.Keys == Bare(u, id).physical.Keys == u.physical.Keys;
    forall p | p in t.physical ensures t.physical[p] == u.physical[p] {
      assert Bare(t, id).physical[p] == Bare(u, id).physical[p];
      PageIsDetermined(t, u, p);
    }
  }

  lemma SameBare(t: Table, u: Table, id: nat)
    requires Valid(t) && Valid(u) && id in t.sequences && id in u.sequences
    requires Bare(t, id) == Bare(u, id)
    requires t.sequences[id].committed == u.sequences[id].committed
    requires t.sequences[id].tentative == u.sequences[id].tentative
    ensures t == u
  {
    hide Valid;
    FromBare(t, u, id);
    assert t == Bare(t, id).(physical := t.physical, sequences := t.sequences);
    assert u == Bare(u, id).(physical := u.physical, sequences := u.sequences);
  }

  lemma RetiredBare(t: Table, u: Table, id: nat, p: PageId, draft: Option<nat>)
    requires Valid(t) && Valid(u) && id in t.sequences && id in u.sequences
    requires Bare(u, id) == Retire(Bare(t, id), p, draft)
    requires t.sequences[id].committed == u.sequences[id].committed
    requires t.sequences[id].tentative == u.sequences[id].tentative
    ensures u == Retire(t, p, draft)
  {
    hide Valid;
    FromBare(t, u, id);
    assert t == Bare(t, id).(physical := t.physical, sequences := t.sequences);
    assert u == Bare(u, id).(physical := u.physical, sequences := u.sequences);
  }

  /** The bare effect of opening a transaction of `n` tokens. */
  lemma BeginBare(t: Table, id: nat, n: nat)
    requires Valid(t) && Begin(t, id, n).Ok?
    ensures id in t.sequences && BareEffect(t, Begin(t, id, n), id, n)
    ensures 0 <= Room(t.sequences[id]) < 64
  {
    hide Consistent, Isolates, AddTokens, PushBare;
    RoomOf(t, id);
    OpenFollows(t, id);
    AddTokensBare(Opened(t, id), id, n);
    assert Bare(Opened(t, id), id) == Bare(t, id);
  }

  /** The page a sequence would get next. */
  function NextPage(t: Table, id: nat): Result<Allocation, Error>
    requires id in t.sequences
  {
    Allocate(t, |t.sequences[id].pages|, t.sequences[id].mtp)
  }

  /** The id of `next`, and its draft slot, moved from free to quarantined. */
  function RetireNext(t: Table, next: Result<Allocation, Error>): Table {
    if next.Ok? && next.value.page in next.value.table.physical
    then Retire(t, next.value.page, next.value.table.physical[next.value.page].draft) else t
  }

  /** `u` is `t`, except that the `extra` pages reserved beyond it sit in quarantine. */
  ghost predicate UpToQuarantine(t: Table, u: Table, next: Result<Allocation, Error>, extra: nat) {
    if extra == 0 then u == t
    else extra == 1 && next.Ok? && next.value.page in t.freeTarget && u == RetireNext(t, next)
  }

  lemma NextPageBare(t: Table, id: nat)
    requires id in t.sequences
    ensures PushBare(Bare(t, id), id).Ok? <==> NextPage(t, id).Ok?
    ensures PushBare(Bare(t, id), id).Ok? ==>
              var x := NextPage(t, id).value;
              var y := Allocate(Bare(t, id), |t.sequences[id].pages|, t.sequences[id].mtp);
              && y.Ok? && x.page in x.table.physical && y.value.page == x.page
              && x.page in y.value.table.physical
              && y.value.table.physical[x.page].draft == x.table.physical[x.page].draft
              && x.page in t.freeTarget
  {
  }

  /** The bare effect of settling what `Begin` opened, with `k` tokens kept. */
  lemma SettledBare(t: Table, b: Table, id: nat, n: nat, k: nat)
    requires Valid(t) && Begin(t, id, n) == Ok(b) && k <= n && id in t.sequences && id in b.sequences
    ensures Settle(b, id, k).Ok? && HeaderOf(Settle(b, id, k).value, id, MoreTokens(t.sequences[id], k))
    ensures n > Room(t.sequences[id]) ==> PushBare(Bare(t, id), id).Ok?
    ensures var c := Settle(b, id, k).value;
            if n <= Room(t.sequences[id]) then Bare(c, id) == Bare(t, id)
            else if k > Room(t.sequences[id]) then Bare(c, id) == PushBare(Bare(t, id), id).value
            else Bare(c, id) == RetireNext(Bare(t, id), NextPage(t, id))
  {
    hide Consistent, Isolates, Begin, Settle, Flows, PushBare, Bare, Allocate;
    BeginIsSound(t, id, n);
    BeginBare(t, id, n);
    SettleBare(b, id, k);
    SettleFollows(b, id, k);
    BeginPages(t, id, n, k);
    if n > Room(t.sequences[id]) {
      NextPageBare(t, id);
      FreeIsNotLive(t, id);
      SamePages(t, id);
      DropPushBare(Bare(t, id), id);
    }
  }

  lemma SamePages(t: Table, id: nat)
    requires id in t.sequences
    ensures id in Bare(t, id).sequences && Bare(t, id).sequences[id].pages == t.sequences[id].pages
    ensures Bare(t, id).sequences[id].mtp == t.sequences[id].mtp
  {
  }

  lemma FreeIsNotLive(t: Table, id: nat)
    requires Valid(t) && id in t.sequences
    ensures Bare(t, id).freeTarget !! Bare(t, id).physical.Keys
  {
    hide ReferencesOk, PagesOk, PrefixesOk, AllEntriesOk, ShapesOk, LiveDrafts;
    assert Bare(t, id).physical.Keys == t.physical.Keys;
  }

  /** How many pages the transaction has, and how many its settlement keeps. */
  lemma BeginPages(t: Table, id: nat, n: nat, k: nat)
    requires Valid(t) && Begin(t, id, n).Ok? && k <= n
    requires id in t.sequences && BareEffect(t, Begin(t, id, n), id, n) && id in Begin(t, id, n).value.sequences
    ensures var s := t.sequences[id];
            && |s.pages| == PagesFor(s.committed) && s.tentative.None? && n <= 7
            && |Begin(t, id, n).value.sequences[id].pages| == |s.pages| + (if n > Room(s) then 1 else 0)
            && PagesFor(s.committed + k) == |s.pages| + (if k > Room(s) then 1 else 0)
            && PagesFor(s.committed + n) == |s.pages| + (if n > Room(s) then 1 else 0)
  {
    hide PoolsOk, ReferencesOk, PagesOk, PrefixesOk, AllEntriesOk, AddTokens, Allocate;
    var s := t.sequences[id];
    assert ShapeOk(t.physical, s);
    var b := Begin(t, id, n).value;
    assert Bare(t, id).sequences[id].pages == s.pages;
    assert Bare(b, id).sequences[id].pages == b.sequences[id].pages;
  }

  /** Speculation is transparent. Reserving `n` tokens and committing `k` of them leaves exactly
      the table that appending `k` tokens would have left, except that a reserved page which
      ends up unused sits in quarantine instead of being free. */
  lemma CommitIsAppend(t: Table, id: nat, n: nat, k: nat)
    requires Valid(t) && Begin(t, id, n).Ok? && 0 < k <= n
    ensures id in t.sequences
    ensures Append(t, id, k).Ok? && Commit(Begin(t, id, n).value, id, k).Ok?
    ensures UpToQuarantine(Append(t, id, k).value, Commit(Begin(t, id, n).value, id, k).value, NextPage(t, id),
                           PagesFor(t.sequences[id].committed + n) - PagesFor(t.sequences[id].committed + k))
  {
    hide Consistent, Isolates, AddTokens, Settle, Bare, PushBare, Allocate, Retire;
    var s := t.sequences[id];
    BeginIsSound(t, id, n);
    BeginBare(t, id, n);
    BeginPages(t, id, n, k);
    var b := Begin(t, id, n).value;
    CommitIsSound(b, id, k);
    SettledBare(t, b, id, n, k);
    AddTokensBare(t, id, k);
    AppendIsSound(t, id, k);
    AddTokensFollows(t, id, k);
    var a := Append(t, id, k).value;
    var c := Commit(b, id, k).value;
    if k <= Room(s) < n {
      NextPageBare(t, id);
      var x := NextPage(t, id).value;
      RetiredBare(a, c, id, x.page, x.table.physical[x.page].draft);
      SameFree(t, a, id);
    } else {
      SameBare(a, c, id);
    }
  }

  lemma SameFree(t: Table, a: Table, id: nat)
    requires id in t.sequences && id in a.sequences && Bare(a, id) == Bare(t, id)
    ensures a.freeTarget == t.freeTarget
  {
  }

  /** Rolling back restores the table the transaction was opened on, up to the same exception. */
  lemma RollbackRestores(t: Table, id: nat, n: nat)
    requires Valid(t) && Begin(t, id, n).Ok?
    ensures id in t.sequences
    ensures Rollback(Begin(t, id, n).value, id).Ok?
    ensures UpToQuarantine(t, Rollback(Begin(t, id, n).value, id).value, NextPage(t, id),
                           PagesFor(t.sequences[id].committed + n) - PagesFor(t.sequences[id].committed))
  {
    hide Consistent, Isolates, AddTokens, Settle, Bare, PushBare, Allocate, Retire;
    var s := t.sequences[id];
    BeginIsSound(t, id, n);
    BeginBare(t, id, n);
    BeginPages(t, id, n, 0);
    var b := Begin(t, id, n).value;
    RollbackIsSound(b, id);
    SettledBare(t, b, id, n, 0);
    var r := Rollback(b, id).value;
    if Room(s) < n {
      NextPageBare(t, id);
      var x := NextPage(t, id).value;
      RetiredBare(t, r, id, x.page, x.table.physical[x.page].draft);
    } else {
      SameBare(t, r, id);
    }
  }
}
