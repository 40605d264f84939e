/** Failure-compatible results, least elements of finite sets, and sums over maps. */
module Collections {
  datatype Option<+T> = None | Some(value: T)

  datatype Result<+T, +E> = Ok(value: T) | Err(error: E) {
    predicate IsFailure() { Err? }
    function PropagateFailure<U>(): Result<U, E>
      requires Err?
    {
      Err(error)
    }
    function Extract(): T
      requires Ok?
    {
      value
    }
  }

  /** A part is no larger than the whole, and a proper part is smaller. */
  lemma {:induction false} SubsetSize<T>(part: set<T>, whole: set<T>)
    requires part <= whole
    ensures |part| <= |whole| && (part != whole ==> |part| < |whole|)
  {
    if part == {} {
      assert part != whole ==> whole != {};
    } else {
      var x :| x in part;
      SubsetSize(part - {x}, whole - {x});
      assert part != whole ==> part - {x} != whole - {x} by {
        assert part == (part - {x}) + {x} && whole == (whole - {x}) + {x};
      }
    }
  }

  lemma {:induction false} LeastElement(s: set<nat>) returns (m: nat)
    requires s != {}
    ensures m in s && forall x | x in s :: m <= x
  {
    m :| m in s;
    var rest := s - {m};
    if rest != {} {
      var l := LeastElement(rest);
      forall x | x in s ensures x == m || l <= x {
        assert x == m || x in rest;
      }
      m := if l <= m then l else m;
    } else {
      forall x | x in s ensures m <= x {
        assert x == m || x in rest;
      }
    }
  }

  /** The least element of a nonempty set: what `BTreeSet::pop_first` removes. */
  function Least(s: set<nat>): (m: nat)
    requires s != {}
    ensures m in s && forall x | x in s :: m <= x
  {
    assert exists m :: m in s && forall x | x in s :: m <= x by {
      var l := LeastElement(s);
    }
    var m :| m in s && forall x | x in s :: m <= x;
    m
  }

  /** The elements of a set in increasing order: the iteration order of a `BTreeMap`. */
  function Sorted(s: set<nat>): (r: seq<nat>)
    ensures forall x :: x in r <==> x in s
    ensures |r| == |s|
    ensures forall i, j | 0 <= i < j < |r| :: r[i] < r[j]
    decreases |s|
  {
    if s == {} then []
    else
      var m := Least(s);
      var rest := Sorted(s - {m});
      assert forall x | x in rest :: x in s && x != m;
      [m] + rest
  }

  // ---------------------------------------------------------------- sums over maps

  /** The sum of the values. */
  function Sum(m: map<nat, nat>): nat
    decreases |m.Keys|
  {
    if m == map[] then 0
    else
      var k := Least(m.Keys);
      assert (m - {k}).Keys == m.Keys - {k};
      m[k] + Sum(m - {k})
  }

  lemma {:induction false} SumSplits(m: map<nat, nat>, k: nat)
    requires k in m
    ensures Sum(m) == m[k] + Sum(m - {k})
    decreases |m.Keys|
  {
    var l := Least(m.Keys);
    if k != l {
      var rest, other := m - {l}, m - {k};
      assert rest.Keys == m.Keys - {l} && other.Keys == m.Keys - {k};
      SumSplits(rest, k);
      assert l in other.Keys && Least(other.Keys) == l;
      assert other - {l} == rest - {k};
    }
  }

  lemma SumUpdates(m: map<nat, nat>, k: nat, v: nat)
    ensures Sum(m[k := v]) == v + Sum(m - {k})
    ensures k in m ==> Sum(m[k := v]) == Sum(m) - m[k] + v
    ensures k !in m ==> Sum(m[k := v]) == Sum(m) + v
  {
    SumSplits(m[k := v], k);
    assert m[k := v] - {k} == m - {k};
    if k in m {
      SumSplits(m, k);
    } else {
      assert m - {k} == m;
    }
  }

  lemma SumRemoves(m: map<nat, nat>, k: nat)
    ensures Sum(m - {k}) == if k in m then Sum(m) - m[k] else Sum(m)
    ensures k in m ==> m[k] <= Sum(m)
  {
    if k in m {
      SumSplits(m, k);
    } else {
      assert m - {k} == m;
    }
  }
}
