/** Deterministic top-k selection and its distribution over owners (attention.rs).

    A finite 32-bit score is its rank in the total order of IEEE 754-2008 section 5.10, an
    integer: the order is all the selection looks at. */
module TopK {
  import opened Collections

  datatype Error = ZeroK | NonFinite | DuplicatePosition

  datatype Candidate = Candidate(position: nat, finite: bool, rank: int)

  /** Higher score first, then lower position. */
  predicate Better(x: Candidate, y: Candidate) {
    x.rank > y.rank || (x.rank == y.rank && x.position < y.position)
  }

  /** Inserts `x` before the first candidate it beats. */
  function Insert(s: seq<Candidate>, x: Candidate): seq<Candidate> {
    if s == [] || Better(x, s[0]) then [x] + s else [s[0]] + Insert(s[1..], x)
  }

  function InsertAll(s: seq<Candidate>, more: seq<Candidate>): seq<Candidate>
    decreases |more|
  {
    if more == [] then s else Insert(InsertAll(s, more[..|more| - 1]), more[|more| - 1])
  }

  function Ranked(c: seq<Candidate>): seq<Candidate> {
    InsertAll([], c)
  }

  function Take(s: seq<Candidate>, k: nat): seq<Candidate> {
    if |s| <= k then s else s[..k]
  }

  predicate Distinct(c: seq<Candidate>) {
    forall i, j | 0 <= i < j < |c| :: c[i].position != c[j].position
  }

  /** The first fault of a candidate list, looking at each entry's score before its position. */
  function Check(c: seq<Candidate>): Result<(), Error> {
    if c == [] then Ok(())
    else
      var front, last := c[..|c| - 1], c[|c| - 1];
      var _ :- Check(front);
      if !last.finite then Err(NonFinite)
      else if exists x | x in front :: x.position == last.position then Err(DuplicatePosition)
      else Ok(())
  }

  function Select(c: seq<Candidate>, k: nat): Result<seq<Candidate>, Error> {
    if k == 0 then Err(ZeroK)
    else
      var _ :- Check(c);
      Ok(Take(Ranked(c), k))
  }

  /** Checks in one pass with the positions seen so far, then ranks and truncates. */
  method DeterministicTopK(candidates: seq<Candidate>, k: nat) returns (r: Result<seq<Candidate>, Error>)
    ensures r == Select(candidates, k)
  {
    if k == 0 {
      return Err(ZeroK);
    }
    var positions: set<nat> := {};
    for i := 0 to |candidates|
      invariant positions == set x | x in candidates[..i] :: x.position
      invariant Check(candidates[..i]) == Ok(())
    {
      var x := candidates[i];
      assert candidates[..i + 1][..i] == candidates[..i];
      if !x.finite {
        FirstFault(candidates, i + 1);
        return Err(NonFinite);
      }
      if x.position in positions {
        FirstFault(candidates, i + 1);
        return Err(DuplicatePosition);
      }
      assert candidates[..i + 1] == candidates[..i] + [x];
      positions := positions + {x.position};
    }
    assert candidates[..|candidates|] == candidates;
    var ranked := Ranked(candidates);
    r := Ok(if |ranked| <= k then ranked else ranked[..k]);
  }

  lemma {:induction false} FirstFault(c: seq<Candidate>, i: nat)
    requires i <= |c| && Check(c[..i]).Err?
    ensures Check(c) == Check(c[..i])
    decreases |c|
  {
    if i < |c| {
      assert c[..|c| - 1][..i] == c[..i];
      FirstFault(c[..|c| - 1], i);
    } else {
      assert c[..i] == c;
    }
  }

  // ---------------------------------------------------------------- ranking

  ghost predicate RankedBy(s: seq<Candidate>) {
    forall i, j | 0 <= i < j < |s| :: Better(s[i], s[j])
  }

  lemma {:induction false} InsertContents(s: seq<Candidate>, x: Candidate)
    ensures multiset(Insert(s, x)) == multiset(s) + multiset{x}
    ensures |Insert(s, x)| == |s| + 1
  {
    if s != [] && !Better(x, s[0]) {
      InsertContents(s[1..], x);
      assert s == [s[0]] + s[1..];
    }
  }

  lemma {:induction false} InsertAllContents(s: seq<Candidate>, more: seq<Candidate>)
    ensures multiset(InsertAll(s, more)) == multiset(s) + multiset(more)
    decreases |more|
  {
    if more != [] {
      var front := more[..|more| - 1];
      InsertAllContents(s, front);
      InsertContents(InsertAll(s, front), more[|more| - 1]);
      assert more == front + [more[|more| - 1]];
    }
  }

  lemma {:induction false} InsertKeepsRank(s: seq<Candidate>, x: Candidate)
    requires RankedBy(s) && forall y | y in s :: y.position != x.position
    ensures RankedBy(Insert(s, x))
  {
    if s != [] && !Better(x, s[0]) {
      var rest := Insert(s[1..], x);
      InsertKeepsRank(s[1..], x);
      InsertContents(s[1..], x);
      assert s[0] in s;
      forall y | y in rest ensures Better(s[0], y) {
        assert y in multiset(rest);
        assert y in s[1..] || y == x;
      }
    } else {
      assert s != [] ==> s[0] in s;
    }
  }

  /** Positions are distinct exactly when no candidate repeats and none shares a position. */
  lemma DistinctByElements(c: seq<Candidate>)
    requires forall x :: multiset(c)[x] <= 1
    requires forall x, y | x in c && y in c && x.position == y.position :: x == y
    ensures Distinct(c)
  {
    forall i, j | 0 <= i < j < |c| ensures c[i].position != c[j].position {
      if c[i].position == c[j].position {
        assert c[i] == c[j];
        Twice(c, i, j);
      }
    }
  }

  lemma Twice(c: seq<Candidate>, i: nat, j: nat)
    requires i < j < |c| && c[i] == c[j]
    ensures multiset(c)[c[i]] >= 2
  {
    assert c == c[..j] + [c[j]] + c[j + 1..];
    assert c[i] in c[..j];
  }

  lemma {:induction false} ElementsOfDistinct(c: seq<Candidate>)
    requires Distinct(c)
    ensures forall x :: multiset(c)[x] <= 1
    ensures forall x, y | x in c && y in c && x.position == y.position :: x == y
  {
    if c != [] {
      var front, last := c[..|c| - 1], c[|c| - 1];
      assert c == front + [last];
      ElementsOfDistinct(front);
      assert last !in front;
    }
  }

  lemma SubsetElements(c: seq<Candidate>, d: seq<Candidate>)
    requires multiset(d) <= multiset(c)
    ensures forall x | x in d :: x in c
  {
    forall x | x in d ensures x in c {
      assert x in multiset(d);
      assert x in multiset(c);
    }
  }

  lemma DistinctSubset(c: seq<Candidate>, d: seq<Candidate>)
    requires Distinct(c) && multiset(d) <= multiset(c)
    ensures Distinct(d)
  {
    ElementsOfDistinct(c);
    SubsetElements(c, d);
    DistinctByElements(d);
  }

  lemma {:induction false} InsertAllRanks(s: seq<Candidate>, more: seq<Candidate>)
    requires RankedBy(s) && Distinct(s + more)
    ensures RankedBy(InsertAll(s, more))
    decreases |more|
  {
    if more != [] {
      var front, last := more[..|more| - 1], more[|more| - 1];
      assert s + more == s + front + [last];
      assert Distinct(s + front) by {
        assert forall i | 0 <= i < |s + front| :: (s + more)[i] == (s + front)[i];
      }
      InsertAllRanks(s, front);
      InsertAllContents(s, front);
      forall y | y in InsertAll(s, front) ensures y.position != last.position {
        assert y in multiset(InsertAll(s, front));
        assert y in s + front;
        var i :| 0 <= i < |s + front| && (s + front)[i] == y;
        assert (s + more)[i] == y && (s + more)[|s + front|] == last;
      }
      InsertKeepsRank(InsertAll(s, front), last);
    }
  }

  /** A ranked list is determined by its elements. */
  lemma {:induction false} RankingIsUnique(s: seq<Candidate>, t: seq<Candidate>)
    requires RankedBy(s) && RankedBy(t) && multiset(s) == multiset(t)
    ensures s == t
  {
    assert |s| == |multiset(s)| == |multiset(t)| == |t|;
    if s != [] {
      SubsetElements(t, s);
      SubsetElements(s, t);
      SameHead(s, t);
      assert s == [s[0]] + s[1..] && t == [t[0]] + t[1..];
      assert multiset(s[1..]) == multiset(s) - multiset{s[0]};
      assert multiset(t[1..]) == multiset(t) - multiset{t[0]};
      RankingIsUnique(s[1..], t[1..]);
    }
  }

  lemma SameHead(s: seq<Candidate>, t: seq<Candidate>)
    requires RankedBy(s) && RankedBy(t) && s != [] && t != [] && s[0] in t && t[0] in s
    ensures s[0] == t[0]
  {
  }

  lemma RankedPermutation(c: seq<Candidate>, d: seq<Candidate>)
    requires Distinct(c) && multiset(c) == multiset(d)
    ensures Ranked(c) == Ranked(d)
  {
    DistinctSubset(c, d);
    assert [] + c == c && [] + d == d;
    InsertAllRanks([], c);
    InsertAllRanks([], d);
    InsertAllContents([], c);
    InsertAllContents([], d);
    RankingIsUnique(Ranked(c), Ranked(d));
  }

  // ---------------------------------------------------------------- what is selected

  lemma {:induction false} ChecksExactly(c: seq<Candidate>)
    ensures Check(c).Ok? <==>
            (forall x | x in c :: x.finite) && (forall i, j | 0 <= i < j < |c| :: c[i].position != c[j].position)
  {
    if c != [] {
      var front, last := c[..|c| - 1], c[|c| - 1];
      ChecksExactly(front);
      assert c == front + [last];
      assert forall i | 0 <= i < |front| :: front[i] == c[i];
      if exists x | x in front :: x.position == last.position {
        var i :| 0 <= i < |front| && front[i].position == last.position;
        assert c[i].position == c[|c| - 1].position;
      }
    }
  }

  /** Selection succeeds exactly for a positive k and finite candidates of different positions. It gives the
      k best of them, or all, best first: a higher score wins, and of equal scores the lower position; so
      nothing left out beats anything selected. */
  lemma SelectsTheBest(c: seq<Candidate>, k: nat)
    ensures Select(c, k).Ok? <==>
            && k > 0 && (forall x | x in c :: x.finite)
            && (forall i, j | 0 <= i < j < |c| :: c[i].position != c[j].position)
    ensures Select(c, k).Ok? ==>
            var best := Select(c, k).value;
            && |best| == (if |c| < k then |c| else k)
            && multiset(best) <= multiset(c)
            && (forall i, j | 0 <= i < j < |best| ::
                  best[i].rank > best[j].rank || (best[i].rank == best[j].rank && best[i].position < best[j].position))
            && (forall x, y | x in best && y in c && y !in best ::
                  x.rank > y.rank || (x.rank == y.rank && x.position < y.position))
  {
    hide Check, Ranked, Insert, InsertAll;
    ChecksExactly(c);
    if Select(c, k).Ok? {
      RankedContents(c);
      TakeContents(Ranked(c), k);
      LeftOutIsWorse(c, Ranked(c), k);
    }
  }

  lemma RankedContents(c: seq<Candidate>)
    requires Distinct(c)
    ensures RankedBy(Ranked(c)) && multiset(Ranked(c)) == multiset(c) && |Ranked(c)| == |c|
  {
    assert [] + c == c;
    InsertAllRanks([], c);
    InsertAllContents([], c);
    assert |Ranked(c)| == |multiset(Ranked(c))| == |multiset(c)| == |c|;
  }

  lemma TakenIsIn(s: seq<Candidate>, k: nat, j: nat)
    requires j < |s|
    ensures j < |Take(s, k)| ==> s[j] in Take(s, k)
  {
    if j < |Take(s, k)| {
      assert Take(s, k)[j] == s[j];
    }
  }

  lemma LeftOutIsWorse(c: seq<Candidate>, ranked: seq<Candidate>, k: nat)
    requires RankedBy(ranked) && multiset(ranked) == multiset(c)
    ensures forall x, y | x in Take(ranked, k) && y in c && y !in Take(ranked, k) :: Better(x, y)
  {
    forall x, y | x in Take(ranked, k) && y in c && y !in Take(ranked, k) ensures Better(x, y) {
      assert y in multiset(ranked);
      var j :| 0 <= j < |ranked| && ranked[j] == y;
      var i :| 0 <= i < |Take(ranked, k)| && Take(ranked, k)[i] == x;
      TakenIsIn(ranked, k, j);
    }
  }

  // ---------------------------------------------------------------- truncation

  lemma {:induction false} TakeInsert(s: seq<Candidate>, x: Candidate, k: nat)
    ensures Take(Insert(s, x), k) == Take(Insert(Take(s, k), x), k)
    decreases |s|
  {
    InsertContents(s, x);
    InsertContents(Take(s, k), x);
    if s != [] && k > 0 && !Better(x, s[0]) {
      TakeInsert(s[1..], x, k - 1);
      assert Take(s, k)[1..] == Take(s[1..], k - 1);
    }
  }

  lemma {:induction false} TakeInsertAll(s: seq<Candidate>, more: seq<Candidate>, k: nat)
    ensures Take(InsertAll(s, more), k) == Take(InsertAll(Take(s, k), more), k)
    decreases |more|
  {
    if more != [] {
      var front, last := more[..|more| - 1], more[|more| - 1];
      TakeInsertAll(s, front, k);
      TakeInsert(InsertAll(s, front), last, k);
      TakeInsert(InsertAll(Take(s, k), front), last, k);
    }
  }

  lemma {:induction false} InsertAllSplits(s: seq<Candidate>, x: seq<Candidate>, y: seq<Candidate>)
    ensures InsertAll(s, x + y) == InsertAll(InsertAll(s, x), y)
    decreases |y|
  {
    if y == [] {
      assert x + y == x;
    } else {
      var front := y[..|y| - 1];
      InsertAllSplits(s, x, front);
      assert (x + y)[..|x + y| - 1] == x + front;
    }
  }

  lemma RankedOfRanked(s: seq<Candidate>)
    requires RankedBy(s) && Distinct(s)
    ensures Ranked(s) == s
  {
    assert [] + s == s;
    InsertAllRanks([], s);
    InsertAllContents([], s);
    RankingIsUnique(Ranked(s), s);
  }

  lemma TakeContents(s: seq<Candidate>, k: nat)
    ensures multiset(Take(s, k)) <= multiset(s)
    ensures RankedBy(s) ==> RankedBy(Take(s, k))
  {
    if |s| > k {
      assert s == s[..k] + s[k..];
    }
  }

  /** A best-k list keeps what matters: it may stand for the whole list in any larger selection. */
  lemma BestStandsForAll(x: seq<Candidate>, y: seq<Candidate>, k: nat)
    requires Distinct(x + y)
    ensures Take(Ranked(Take(Ranked(x), k) + y), k) == Take(Ranked(x + y), k)
    ensures multiset(Take(Ranked(x), k)) <= multiset(x)
  {
    assert Distinct(x) by { assert forall i | 0 <= i < |x| :: (x + y)[i] == x[i]; }
    var best := Take(Ranked(x), k);
    assert [] + x == x;
    InsertAllRanks([], x);
    InsertAllContents([], x);
    TakeContents(Ranked(x), k);
    DistinctSubset(x, best);
    RankedOfRanked(best);
    InsertAllSplits([], best, y);
    InsertAllSplits([], x, y);
    TakeInsertAll(Ranked(x), y, k);
  }

  // ---------------------------------------------------------------- owners

  function Flatten(owners: seq<seq<Candidate>>): seq<Candidate> {
    if owners == [] then [] else Flatten(owners[..|owners| - 1]) + owners[|owners| - 1]
  }

  /** The best `k` of every owner. */
  function Local(owners: seq<seq<Candidate>>, k: nat): seq<seq<Candidate>> {
    seq(|owners|, i requires 0 <= i < |owners| => Take(Ranked(owners[i]), k))
  }

  lemma DistinctSwap(x: seq<Candidate>, y: seq<Candidate>)
    requires Distinct(x + y)
    ensures Distinct(y + x) && Distinct(x) && Distinct(y)
    ensures multiset(y + x) == multiset(x + y)
  {
    DistinctSubset(x + y, y + x);
    DistinctSubset(x + y, x);
    DistinctSubset(x + y, y);
  }

  lemma {:induction false} LocalIsExact(owners: seq<seq<Candidate>>, k: nat)
    requires Distinct(Flatten(owners))
    ensures Take(Ranked(Flatten(Local(owners, k))), k) == Take(Ranked(Flatten(owners)), k)
    ensures multiset(Flatten(Local(owners, k))) <= multiset(Flatten(owners))
  {
    if owners != [] {
      var front, last := owners[..|owners| - 1], owners[|owners| - 1];
      var f, g, m := Flatten(front), Flatten(Local(front, k)), Take(Ranked(last), k);
      assert Local(owners, k)[..|owners| - 1] == Local(front, k);
      DistinctSwap(f, last);
      LocalIsExact(front, k);
      OwnerByOwner(f, g, last, k);
      assert multiset(g + m) == multiset(g) + multiset(m);
      assert multiset(f + last) == multiset(f) + multiset(last);
    }
  }

  /** Replacing first one part and then the other by what stands for it. */
  lemma OwnerByOwner(f: seq<Candidate>, g: seq<Candidate>, last: seq<Candidate>, k: nat)
    requires Distinct(f + last) && multiset(g) <= multiset(f) && Take(Ranked(g), k) == Take(Ranked(f), k)
    ensures Take(Ranked(g + Take(Ranked(last), k)), k) == Take(Ranked(f + last), k)
    ensures multiset(Take(Ranked(last), k)) <= multiset(last)
  {
    var m := Take(Ranked(last), k);
    assert Distinct(g + last) by {
      assert multiset(g + last) <= multiset(f + last);
      DistinctSubset(f + last, g + last);
    }
    InsertAllSplits([], f, last);
    InsertAllSplits([], g, last);
    TakeInsertAll(Ranked(f), last, k);
    TakeInsertAll(Ranked(g), last, k);
    DistinctSwap(g, last);
    RankedPermutation(g + last, last + g);
    BestStandsForAll(last, g, k);
    assert Distinct(m + g) by {
      assert multiset(m + g) <= multiset(last + g);
      DistinctSubset(last + g, m + g);
    }
    assert multiset(m + g) == multiset(g + m);
    RankedPermutation(m + g, g + m);
  }

  lemma {:induction false} CheckPasses(c: seq<Candidate>)
    ensures Check(c).Ok? <==> Distinct(c) && forall x | x in c :: x.finite
  {
    if c != [] {
      var front, last := c[..|c| - 1], c[|c| - 1];
      assert c == front + [last];
      CheckPasses(front);
      if Check(c).Ok? {
        forall i, j | 0 <= i < j < |c| ensures c[i].position != c[j].position {
          if j == |c| - 1 { assert c[i] in front; }
        }
      }
      if Distinct(c) {
        assert Distinct(front);
        assert forall x | x in front :: x.position != last.position;
      }
    }
  }

  /** Distributed selection is exact: however the candidates are dealt to the owners, selecting
      from the union of the owners' own selections gives the global selection, in the same order. */
  lemma DistributedSelectionIsExact(all: seq<Candidate>, owners: seq<seq<Candidate>>, k: nat)
    requires Select(all, k).Ok? && multiset(Flatten(owners)) == multiset(all)
    ensures forall i | 0 <= i < |owners| :: Select(owners[i], k) == Ok(Local(owners, k)[i])
    ensures Select(Flatten(Local(owners, k)), k) == Select(all, k)
  {
    hide Check, Ranked, Take, Flatten, Distinct;
    var flat := Flatten(owners);
    var union := Flatten(Local(owners, k));
    CheckPasses(all);
    DistinctSubset(all, flat);
    LocalIsExact(owners, k);
    RankedPermutation(all, flat);
    PartPasses(all, union);
    forall i | 0 <= i < |owners| ensures Select(owners[i], k) == Ok(Local(owners, k)[i]) {
      OwnerIsPart(owners, i);
      PartPasses(all, owners[i]);
    }
  }

  lemma PartPasses(all: seq<Candidate>, part: seq<Candidate>)
    requires Check(all).Ok? && multiset(part) <= multiset(all)
    ensures Check(part) == Ok(())
  {
    CheckPasses(all);
    DistinctSubset(all, part);
    SubsetElements(all, part);
    CheckPasses(part);
  }

  lemma {:induction false} OwnerIsPart(owners: seq<seq<Candidate>>, i: nat)
    requires i < |owners|
    ensures multiset(owners[i]) <= multiset(Flatten(owners))
  {
    var front, last := owners[..|owners| - 1], owners[|owners| - 1];
    assert multiset(Flatten(front) + last) == multiset(Flatten(front)) + multiset(last);
    if i < |owners| - 1 {
      OwnerIsPart(front, i);
    }
  }
}
