/** Recovery by transaction id is publication in file order, and only ever grows. */
module TierRecovery {
  import opened Collections
  import opened Tier

  // ---------------------------------------------------------------- sequential journals

  /** The transaction the journal is in; transactions are numbered from 1. */
  function Current(events: seq<Event>): nat {
    if events == [] then 0 else events[|events| - 1].transaction
  }

  /** Every event belongs to the current transaction or begins the next one. */
  predicate Sequential(events: seq<Event>) {
    events == [] ||
    (var front, last := events[..|events| - 1], events[|events| - 1];
     && Sequential(front)
     && last.transaction != 0
     && (last.transaction == Current(front) || (last.transaction == Current(front) + 1 && last.Begin?)))
  }

  /** What is visible after `events`: every Publish makes its record visible at once. */
  function Visible(events: seq<Event>): Result<Catalogue, Error> {
    if events == [] then Ok(map[])
    else
      var front, last := events[..|events| - 1], events[|events| - 1];
      var c :- Visible(front);
      if last.Publish? && BegunRecord(front, last.transaction).Some?
      then Merge(c, BegunRecord(front, last.transaction).value) else Ok(c)
  }

  lemma {:induction false} BegunLast(front: seq<Event>, last: Event, id: nat)
    ensures BegunRecord(front + [last], id) ==
            if BegunRecord(front, id).Some? then BegunRecord(front, id)
            else if last.Begin? && last.transaction == id then Some(last.record) else None
  {
    if front == [] {
      assert front + [last] == [last];
      assert BegunRecord([], id) == None;
    } else {
      BegunLast(front[1..], last, id);
      assert (front + [last])[1..] == front[1..] + [last];
    }
  }

  /** Replay holds exactly the transactions begun so far, with the records they began with. */
  lemma {:induction false} ReplayedTransactions(events: seq<Event>)
    requires Sequential(events) && Replay(events).Ok?
    ensures var t := Replay(events).value;
            && (forall id :: id in t <==> 1 <= id <= Current(events))
            && (forall id | id in t :: BegunRecord(events, id) == Some(t[id].record))
  {
    hide BegunRecord, CheckRecord, FindRecord, AllDurable;
    if events != [] {
      var front, last := events[..|events| - 1], events[|events| - 1];
      ReplayedTransactions(front);
      assert events == front + [last];
      var t := Replay(events).value;
      forall id | id in t ensures BegunRecord(events, id) == Some(t[id].record) {
        BegunLast(front, last, id);
        if id !in Replay(front).value {
          NotBegun(front, id);
        }
      }
    }
  }

  /** A transaction beyond the current one has not begun. */
  lemma {:induction false} NotBegun(events: seq<Event>, id: nat)
    requires Sequential(events) && id > Current(events)
    ensures BegunRecord(events, id).None?
  {
    if events != [] {
      var front, last := events[..|events| - 1], events[|events| - 1];
      assert events == front + [last];
      NotBegun(front, id);
      BegunLast(front, last, id);
    }
  }

  // ---------------------------------------------------------------- collecting in order

  /** The ids 1 to `n` in order. */
  function UpTo(n: nat): seq<nat> {
    if n == 0 then [] else UpTo(n - 1) + [n]
  }

  lemma {:induction false} UpToContents(n: nat)
    ensures forall x :: x in UpTo(n) <==> 1 <= x <= n
  {
    if n > 0 {
      UpToContents(n - 1);
    }
  }

  lemma {:induction false} IncreasingIsUpTo(r: seq<nat>, n: nat)
    requires forall i, j | 0 <= i < j < |r| :: r[i] < r[j]
    requires forall x :: x in r <==> 1 <= x <= n
    ensures r == UpTo(n)
  {
    assert |r| == 0 || r[0] in r;
    if n > 0 {
      assert n in r;
      var last := |r| - 1;
      assert r[last] in r;
      assert r[last] == n;
      var front := r[..last];
      assert r == front + [n];
      forall x ensures x in front <==> 1 <= x <= n - 1 {
        assert x in r <==> x in front || x == n;
      }
      IncreasingIsUpTo(front, n - 1);
    }
  }

  /** Collecting looks only at the records and publication marks of the listed transactions. */
  lemma {:induction false} CollectAgrees(t: map<nat, Transaction>, u: map<nat, Transaction>, ids: seq<nat>)
    requires forall id | id in ids ::
               && (id in t <==> id in u)
               && (id in t ==> t[id].record == u[id].record && t[id].published == u[id].published)
    ensures Collect(t, ids) == Collect(u, ids)
  {
    hide Merge;
    if ids != [] {
      CollectAgrees(t, u, ids[..|ids| - 1]);
    }
  }

  lemma CollectLast(t: map<nat, Transaction>, ids: seq<nat>, id: nat)
    ensures Collect(t, ids + [id]) ==
            if Collect(t, ids).Err? then Collect(t, ids)
            else if id in t && t[id].published then Merge(Collect(t, ids).value, t[id].record) else Collect(t, ids)
  {
    assert (ids + [id])[..|ids|] == ids;
  }

  lemma CollectStep(front: map<nat, Transaction>, t: map<nat, Transaction>, last: Event, n: nat)
    requires ReplayEvent(front, last) == Ok(t)
    requires forall id :: id in front <==> 1 <= id <= n
    requires last.transaction == n > 0 || (last.Begin? && last.transaction == n + 1)
    ensures var c := Collect(front, UpTo(n));
            Collect(t, UpTo(last.transaction)) ==
            if last.Publish? && c.Ok? then Merge(c.value, front[last.transaction].record) else c
  {
    hide Collect, Merge, CheckRecord, FindRecord, AllDurable;
    var m := last.transaction;
    UpToContents(m - 1);
    CollectLast(t, UpTo(m - 1), m);
    CollectAgrees(front, t, UpTo(m - 1));
    if m == n {
      CollectLast(front, UpTo(m - 1), m);
    }
  }

  /** Recovery by transaction id is publication in file order. */
  lemma {:induction false} RecoveryIsPublication(events: seq<Event>)
    requires Sequential(events) && Replay(events).Ok?
    ensures Recover(events) == Visible(events)
    ensures Recover(events) == Collect(Replay(events).value, UpTo(Current(events)))
  {
    hide ReplayEvent, Collect, Merge, BegunRecord, UpTo;
    ReplayedTransactions(events);
    var t := Replay(events).value;
    IncreasingIsUpTo(Sorted(t.Keys), Current(events));
    if events == [] {
      CollectNone(t);
    } else {
      var front, last := events[..|events| - 1], events[|events| - 1];
      RecoveryIsPublication(front);
      ReplayedTransactions(front);
      CollectStep(Replay(front).value, t, last, Current(front));
    }
  }

  lemma CollectNone(t: map<nat, Transaction>)
    ensures Collect(t, UpTo(0)) == Ok(map[])
  {
  }

  // ---------------------------------------------------------------- prefixes

  lemma {:induction false} PrefixesReplay(events: seq<Event>, m: nat)
    requires m <= |events| && Sequential(events) && Replay(events).Ok?
    ensures Sequential(events[..m]) && Replay(events[..m]).Ok?
    ensures Visible(events).Ok? ==> Visible(events[..m]).Ok?
    decreases |events|
  {
    hide ReplayEvent, Merge, BegunRecord;
    if m < |events| {
      PrefixesReplay(events[..|events| - 1], m);
      assert events[..|events| - 1][..m] == events[..m];
    } else {
      assert events[..m] == events;
    }
  }

  /** A later catalogue keeps every key, its target identity, and its draft once it has one. */
  ghost predicate Grows(c: Catalogue, d: Catalogue) {
    forall k | k in c ::
      && k in d && SameTarget(c[k], d[k]) && c[k].generation <= d[k].generation
      && (c[k].mtp ==> d[k].mtp && LogicalIdentity(d[k], DraftSidecar) == LogicalIdentity(c[k], DraftSidecar))
  }

  ghost predicate KeysMatch(c: Catalogue) {
    forall k | k in c :: c[k].key == k
  }

  lemma MergeGrows(c: Catalogue, r: Record)
    requires KeysMatch(c) && Merge(c, r).Ok?
    ensures Grows(c, Merge(c, r).value) && KeysMatch(Merge(c, r).value)
  {
    hide CheckRecord, LogicalIdentity;
  }

  lemma GrowsTransitive(c: Catalogue, d: Catalogue, e: Catalogue)
    requires Grows(c, d) && Grows(d, e)
    ensures Grows(c, e)
  {
    hide LogicalIdentity;
  }

  lemma {:induction false} VisibleKeys(events: seq<Event>)
    requires Visible(events).Ok?
    ensures KeysMatch(Visible(events).value)
  {
    hide Merge;
    if events != [] {
      var front, last := events[..|events| - 1], events[|events| - 1];
      VisibleKeys(front);
      if last.Publish? && BegunRecord(front, last.transaction).Some? {
        MergeGrows(Visible(front).value, BegunRecord(front, last.transaction).value);
      }
    }
  }

  /** Along growing prefixes of a journal the catalogue only grows. */
  lemma {:induction false} VisibleGrows(events: seq<Event>, m: nat)
    requires m <= |events| && Visible(events).Ok?
    ensures Visible(events[..m]).Ok? && Grows(Visible(events[..m]).value, Visible(events).value)
    decreases |events|
  {
    hide Merge, Grows, KeysMatch;
    VisibleKeys(events);
    if m == |events| {
      assert events[..m] == events;
      SelfGrows(Visible(events).value);
    } else {
      var front, last := events[..|events| - 1], events[|events| - 1];
      assert front[..m] == events[..m];
      VisibleGrows(front, m);
      VisibleKeys(front);
      if last.Publish? && BegunRecord(front, last.transaction).Some? {
        MergeGrows(Visible(front).value, BegunRecord(front, last.transaction).value);
        GrowsTransitive(Visible(events[..m]).value, Visible(front).value, Visible(events).value);
      }
    }
  }

  lemma SelfGrows(c: Catalogue)
    ensures Grows(c, c)
  {
  }

  /** Events other than Publish change nothing visible. */
  lemma {:induction false} OnlyPublishShows(events: seq<Event>, p: nat, m: nat)
    requires p <= m <= |events| && forall i | p <= i < m :: !events[i].Publish?
    ensures Visible(events[..m]) == Visible(events[..p])
    decreases m
  {
    hide Merge, BegunRecord;
    if p < m {
      OnlyPublishShows(events, p, m - 1);
      assert events[..m][..m - 1] == events[..m - 1];
    }
  }
}
