/** The circular search for a slot that both direct tables make (direct_state.rs). */
module CircularSearch {
  import opened Collections

  /** Which slots are open, which of those can be taken, and how the search retires the others. */
  datatype Rules<!S> = Rules(open: S -> bool, usable: S -> bool, retire: S -> S)

  ghost predicate Sensible<S(!new)>(r: Rules<S>) {
    && (forall s: S :: r.usable(s) ==> r.open(s))
    && (forall s: S :: !r.open(r.retire(s)))
  }

  /** The slot at distance `d` from where the search starts. */
  function Position(n: nat, start: nat, d: nat): (i: nat)
    requires n > 0
    ensures i < n
  {
    (start + d) % n
  }

  /** Searches the slots at distance `d` and more, retiring open slots that cannot be taken. */
  function Search<S>(slots: seq<S>, start: nat, d: nat, r: Rules<S>): (result: (seq<S>, Option<nat>))
    ensures |result.0| == |slots| && (result.1.Some? ==> result.1.value < |slots|)
    decreases |slots| - d
  {
    if d >= |slots| then (slots, None)
    else
      var i := Position(|slots|, start, d);
      if !r.open(slots[i]) then Search(slots, start, d + 1, r)
      else if !r.usable(slots[i]) then Search(slots[i := r.retire(slots[i])], start, d + 1, r)
      else (slots, Some(i))
  }

  ghost predicate OnlyRetires<S(!new)>(slots: seq<S>, after: seq<S>, r: Rules<S>) {
    && |after| == |slots|
    && (forall i | 0 <= i < |slots| ::
          after[i] == slots[i] || (r.open(slots[i]) && !r.usable(slots[i]) && after[i] == r.retire(slots[i])))
  }

  lemma {:induction false} SearchFinds<S(!new)>(slots: seq<S>, start: nat, d: nat, r: Rules<S>)
    requires Sensible(r)
    ensures var (after, found) := Search(slots, start, d, r);
            && OnlyRetires(slots, after, r)
            && (found.Some? ==> found.value < |slots| && r.usable(slots[found.value]) && after[found.value] == slots[found.value])
            && (found.None? ==> forall e | d <= e < |slots| :: !r.usable(slots[Position(|slots|, start, e)]))
    decreases |slots| - d
  {
    hide Position;
    if d < |slots| {
      var i := Position(|slots|, start, d);
      if !r.open(slots[i]) {
        SearchFinds(slots, start, d + 1, r);
      } else if !r.usable(slots[i]) {
        var retired := r.retire(slots[i]);
        assert !r.open(retired) && !r.usable(retired);
        var later := slots[i := retired];
        SearchFinds(later, start, d + 1, r);
        var found := Search(later, start, d + 1, r).1;
        if found.Some? {
          assert found.value != i && later[found.value] == slots[found.value];
        }
      }
    }
  }

  /** A search finds a slot exactly when one can be taken; it takes one, and changes no other slot
      except by retiring it. */
  lemma SearchOutcome<S(!new)>(slots: seq<S>, start: nat, r: Rules<S>)
    requires Sensible(r) && start < |slots|
    ensures var (after, found) := Search(slots, start, 0, r);
            && OnlyRetires(slots, after, r)
            && (found.Some? <==> exists i :: 0 <= i < |slots| && r.usable(slots[i]))
            && (found.Some? ==> found.value < |slots| && r.usable(slots[found.value]) && after[found.value] == slots[found.value])
  {
    hide Position, Search;
    SearchFinds(slots, start, 0, r);
    if Search(slots, start, 0, r).1.None? {
      forall i | 0 <= i < |slots| ensures !r.usable(slots[i]) {
        var d := PositionCovers(|slots|, start, i);
      }
    }
  }

  /** A search takes the nearest slot it can: at distance `d` from the start, with none at a smaller one. */
  lemma {:induction false} FindsNearest<S(!new)>(slots: seq<S>, start: nat, from: nat, r: Rules<S>) returns (d: nat)
    requires Sensible(r) && Search(slots, start, from, r).1.Some?
    ensures from <= d < |slots| && Search(slots, start, from, r).1.value == Position(|slots|, start, d)
    ensures forall e | from <= e < d :: !r.usable(slots[Position(|slots|, start, e)])
    decreases |slots| - from
  {
    hide Position;
    var i := Position(|slots|, start, from);
    if r.open(slots[i]) && r.usable(slots[i]) {
      d := from;
    } else if r.open(slots[i]) {
      d := FindsNearest(slots[i := r.retire(slots[i])], start, from + 1, r);
    } else {
      d := FindsNearest(slots, start, from + 1, r);
    }
  }

  lemma PositionCovers(n: nat, start: nat, i: nat) returns (d: nat)
    requires start < n && i < n
    ensures d < n && Position(n, start, d) == i
  {
    d := if start <= i then i - start else i + n - start;
    if start > i {
      WrapsOnce(start + d, n);
    }
  }

  lemma WrapsOnce(x: nat, n: nat)
    requires 0 < n <= x < 2 * n
    ensures x % n == x - n
  {
    var q, r := x / n, x % n;
    assert x == n * q + r && r < n;
    assert q >= 2 ==> n * q >= n * 2;
    assert q <= 0 ==> n * q <= 0;
  }
}
