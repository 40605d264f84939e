/** The extents of a catalogue in the data file (store.rs, validate_catalog_extents). */
module StoreExtents {
  import opened Collections
  import opened Tier
  import opened TierCodec

  datatype Extent = Extent(start: nat, end: nat)

  predicate Collide(x: Extent, y: Extent) {
    x.start < y.end && y.start < x.end
  }

  predicate Clear(x: Extent, es: seq<Extent>) {
    forall y | y in es :: !Collide(x, y)
  }

  /** No two extents share a byte. */
  predicate Apart(es: seq<Extent>) {
    es == [] || (Clear(es[0], es[1..]) && Apart(es[1..]))
  }

  function ExtentOf(p: PieceRecord): Extent {
    Extent(p.offset, p.offset + p.length)
  }

  function PieceExtents(pieces: seq<PieceRecord>, size: nat): (r: Result<seq<Extent>, StoreError>)
    ensures r.Ok? <==> forall p | p in pieces :: p.offset + p.length <= MAX_U64 && p.offset + p.length <= size
    ensures r.Ok? ==> |r.value| == |pieces| && forall i | 0 <= i < |pieces| :: r.value[i] == ExtentOf(pieces[i])
  {
    if pieces == [] then Ok([])
    else
      var p := pieces[|pieces| - 1];
      var front :- PieceExtents(pieces[..|pieces| - 1], size);
      if p.offset + p.length > MAX_U64 then Err(StoreError.Overflow)
      else if p.offset + p.length > size then Err(CatalogOutOfBounds)
      else Ok(front + [ExtentOf(p)])
  }

  /** The extents of the records of `keys`, in order. */
  function Extents(c: Catalogue, keys: seq<nat>, size: nat): Result<seq<Extent>, StoreError>
    requires forall k | k in keys :: k in c
  {
    if keys == [] then Ok([])
    else
      var front :- Extents(c, keys[..|keys| - 1], size);
      var last :- PieceExtents(c[keys[|keys| - 1]].pieces, size);
      Ok(front + last)
  }

  predicate Precedes(x: Extent, y: Extent) {
    x.start < y.start || (x.start == y.start && x.end <= y.end)
  }

  predicate Ordered(es: seq<Extent>) {
    forall i, j | 0 <= i < j < |es| :: Precedes(es[i], es[j])
  }

  function Insert(x: Extent, es: seq<Extent>): (r: seq<Extent>)
    ensures forall y :: y in r <==> y == x || y in es
  {
    if es == [] then [x]
    else if Precedes(x, es[0]) then [x] + es
    else [es[0]] + Insert(x, es[1..])
  }

  function SortExtents(es: seq<Extent>): (r: seq<Extent>)
    ensures forall y :: y in r <==> y in es
  {
    if es == [] then [] else Insert(es[0], SortExtents(es[1..]))
  }

  /** The test on neighbours of the sorted list. */
  predicate NeighboursApart(es: seq<Extent>) {
    |es| < 2 || (es[0].end <= es[1].start && NeighboursApart(es[1..]))
  }

  function CheckExtents(c: Catalogue, size: nat): Result<(), StoreError> {
    var es :- Extents(c, Sorted(c.Keys), size);
    if !NeighboursApart(SortExtents(es)) then Err(CatalogOverlap) else Ok(())
  }

  lemma {:induction false} PieceErrors(pieces: seq<PieceRecord>, size: nat)
    ensures PieceExtents(pieces, size) != Err(UnjournaledData)
  {
    if pieces != [] {
      PieceErrors(pieces[..|pieces| - 1], size);
    }
  }

  lemma {:induction false} KeyErrors(c: Catalogue, keys: seq<nat>, size: nat)
    requires forall k | k in keys :: k in c
    ensures Extents(c, keys, size) != Err(UnjournaledData)
  {
    if keys != [] {
      KeyErrors(c, keys[..|keys| - 1], size);
      PieceErrors(c[keys[|keys| - 1]].pieces, size);
    }
  }

  lemma ExtentErrors(c: Catalogue, size: nat)
    ensures CheckExtents(c, size) != Err(UnjournaledData)
    ensures CheckExtents(c, size).Ok? ==> CheckExtents(c, size) == Ok(())
  {
    KeyErrors(c, Sorted(c.Keys), size);
  }

  // ---------------------------------------------------------------- the neighbour test is exact

  lemma {:induction false} InsertKeepsOrder(x: Extent, es: seq<Extent>)
    requires Ordered(es)
    ensures Ordered(Insert(x, es))
  {
    if es != [] && !Precedes(x, es[0]) {
      InsertKeepsOrder(x, es[1..]);
      assert forall y | y in es[1..] :: Precedes(es[0], y);
    }
  }

  lemma {:induction false} SortOrders(es: seq<Extent>)
    ensures Ordered(SortExtents(es))
  {
    if es != [] {
      SortOrders(es[1..]);
      InsertKeepsOrder(es[0], SortExtents(es[1..]));
    }
  }

  lemma {:induction false} InsertApart(x: Extent, es: seq<Extent>)
    ensures Apart(Insert(x, es)) <==> Apart(es) && Clear(x, es)
  {
    if es != [] {
      if Precedes(x, es[0]) {
        assert ([x] + es)[1..] == es;
      } else {
        var first, r := es[0], Insert(x, es[1..]);
        InsertApart(x, es[1..]);
        assert Insert(x, es)[1..] == r;
        assert Clear(first, r) <==> Clear(first, es[1..]) && !Collide(first, x);
        assert Clear(x, es) <==> Clear(x, es[1..]) && !Collide(x, first);
      }
    }
  }

  lemma {:induction false} SortApart(es: seq<Extent>)
    ensures Apart(SortExtents(es)) <==> Apart(es)
  {
    if es != [] {
      SortApart(es[1..]);
      InsertApart(es[0], SortExtents(es[1..]));
    }
  }

  lemma {:induction false} NeighboursSuffice(es: seq<Extent>)
    requires Ordered(es) && forall e | e in es :: e.start <= e.end
    ensures NeighboursApart(es) <==> Apart(es)
  {
    if |es| > 1 {
      var rest := es[1..];
      NeighboursSuffice(rest);
      assert rest[0] == es[1];
      assert forall y | y in rest :: es[1].start <= y.start;
      assert Clear(es[0], rest) <==> es[0].end <= es[1].start by {
        assert es[1] in rest;
        assert Precedes(es[0], es[1]);
      }
    }
  }

  // ---------------------------------------------------------------- which catalogues are accepted

  ghost predicate InBounds(c: Catalogue, size: nat) {
    forall k, p | k in c && p in c[k].pieces :: p.offset + p.length <= size && p.offset + p.length <= MAX_U64
  }

  /** Different pieces of the catalogue, of one record or of two, lie apart. */
  ghost predicate PiecesApart(c: Catalogue) {
    && (forall k, i, j | k in c && 0 <= i < j < |c[k].pieces| :: !Overlap(c[k].pieces[i], c[k].pieces[j]))
    && (forall k, l, p, q | k in c && l in c && k != l && p in c[k].pieces && q in c[l].pieces :: !Overlap(p, q))
  }

  lemma {:induction false} JoinApart(x: seq<Extent>, y: seq<Extent>)
    requires Apart(x) && Apart(y) && forall a | a in x :: Clear(a, y)
    ensures Apart(x + y)
  {
    if x == [] {
      assert x + y == y;
    } else {
      JoinApart(x[1..], y);
      assert (x + y)[1..] == x[1..] + y;
      assert Clear(x[0], y);
    }
  }

  lemma {:induction false} ListApart(es: seq<Extent>)
    requires forall i, j | 0 <= i < j < |es| :: !Collide(es[i], es[j])
    ensures Apart(es)
  {
    if es != [] {
      ListApart(es[1..]);
    }
  }

  ghost predicate Belongs(c: Catalogue, keys: seq<nat>, e: Extent) {
    exists k, p :: k in keys && k in c && p in c[k].pieces && e == ExtentOf(p)
  }

  lemma {:induction false} ExtentsBelong(c: Catalogue, keys: seq<nat>, size: nat)
    requires (forall k | k in keys :: k in c) && InBounds(c, size)
    ensures Extents(c, keys, size).Ok?
    ensures forall e | e in Extents(c, keys, size).value :: Belongs(c, keys, e)
  {
    if keys != [] {
      var front, k := keys[..|keys| - 1], keys[|keys| - 1];
      ExtentsBelong(c, front, size);
      var x, y := Extents(c, front, size).value, PieceExtents(c[k].pieces, size).value;
      forall e | e in x + y ensures Belongs(c, keys, e) {
        if e in x {
          var l, p :| l in front && l in c && p in c[l].pieces && e == ExtentOf(p);
          assert l in keys;
        } else {
          var i :| 0 <= i < |y| && y[i] == e;
          assert k in keys && c[k].pieces[i] in c[k].pieces;
        }
      }
    }
  }

  lemma {:induction false} ExtentsAreApart(c: Catalogue, keys: seq<nat>, size: nat)
    requires forall k | k in keys :: k in c
    requires forall i, j | 0 <= i < j < |keys| :: keys[i] != keys[j]
    requires InBounds(c, size) && PiecesApart(c)
    ensures Extents(c, keys, size).Ok? && Apart(Extents(c, keys, size).value)
  {
    if keys != [] {
      var front, k := keys[..|keys| - 1], keys[|keys| - 1];
      ExtentsAreApart(c, front, size);
      ExtentsBelong(c, front, size);
      var x, y := Extents(c, front, size).value, PieceExtents(c[k].pieces, size).value;
      OneRecordApart(c, k, y);
      forall a | a in x ensures Clear(a, y) {
        assert Belongs(c, front, a);
        var l, p :| l in front && l in c && p in c[l].pieces && a == ExtentOf(p);
        OtherRecordApart(c, l, p, k, y);
      }
      JoinApart(x, y);
    }
  }

  lemma OneRecordApart(c: Catalogue, k: nat, y: seq<Extent>)
    requires PiecesApart(c) && k in c
    requires |y| == |c[k].pieces| && forall i | 0 <= i < |y| :: y[i] == ExtentOf(c[k].pieces[i])
    ensures Apart(y)
  {
    ListApart(y);
  }

  lemma OtherRecordApart(c: Catalogue, l: nat, p: PieceRecord, k: nat, y: seq<Extent>)
    requires PiecesApart(c) && k in c && l in c && l != k && p in c[l].pieces
    requires |y| == |c[k].pieces| && forall i | 0 <= i < |y| :: y[i] == ExtentOf(c[k].pieces[i])
    ensures Clear(ExtentOf(p), y)
  {
    assert forall i | 0 <= i < |y| :: !Overlap(p, c[k].pieces[i]);
  }

  /** A catalogue whose pieces lie apart and within the file passes the check. */
  lemma ApartIsAccepted(c: Catalogue, size: nat)
    requires InBounds(c, size) && PiecesApart(c)
    ensures CheckExtents(c, size) == Ok(())
  {
    hide InBounds, PiecesApart, Extents, Insert, Apart;
    var keys := Sorted(c.Keys);
    ExtentsAreApart(c, keys, size);
    ExtentsBelong(c, keys, size);
    var es := Extents(c, keys, size).value;
    SortApart(es);
    SortOrders(es);
    NeighboursSuffice(SortExtents(es));
  }

  // ---------------------------------------------------------------- the converse

  lemma {:induction false} SplitApart(x: seq<Extent>, y: seq<Extent>)
    requires Apart(x + y)
    ensures Apart(x) && Apart(y) && forall a | a in x :: Clear(a, y)
  {
    if x == [] {
      assert x + y == y;
    } else {
      assert (x + y)[1..] == x[1..] + y;
      SplitApart(x[1..], y);
    }
  }

  lemma {:induction false} ApartPair(es: seq<Extent>, i: nat, j: nat)
    requires Apart(es) && i < j < |es|
    ensures !Collide(es[i], es[j])
  {
    if i == 0 {
      assert es[j] == es[1..][j - 1];
    } else {
      ApartPair(es[1..], i - 1, j - 1);
    }
  }

  lemma {:induction false} ExtentsCover(c: Catalogue, keys: seq<nat>, size: nat, k: nat, p: PieceRecord)
    requires (forall l | l in keys :: l in c) && Extents(c, keys, size).Ok?
    requires k in keys && p in c[k].pieces
    ensures ExtentOf(p) in Extents(c, keys, size).value
    ensures p.offset + p.length <= size && p.offset + p.length <= MAX_U64
  {
    var front, last := keys[..|keys| - 1], keys[|keys| - 1];
    if last == k {
      var y := PieceExtents(c[k].pieces, size).value;
      var i :| 0 <= i < |y| && c[k].pieces[i] == p;
      assert y[i] in y;
    } else {
      ExtentsCover(c, front, size, k, p);
    }
  }

  lemma {:induction false} ApartWithin(c: Catalogue, keys: seq<nat>, size: nat, k: nat, i: nat, j: nat)
    requires (forall l | l in keys :: l in c) && Extents(c, keys, size).Ok? && Apart(Extents(c, keys, size).value)
    requires k in keys && i < j < |c[k].pieces|
    ensures !Overlap(c[k].pieces[i], c[k].pieces[j])
  {
    var front, last := keys[..|keys| - 1], keys[|keys| - 1];
    var x, y := Extents(c, front, size).value, PieceExtents(c[last].pieces, size).value;
    SplitApart(x, y);
    if last == k {
      ApartPair(y, i, j);
    } else {
      ApartWithin(c, front, size, k, i, j);
    }
  }

  lemma {:induction false} ApartAcross(c: Catalogue, keys: seq<nat>, size: nat, k: nat, p: PieceRecord, l: nat, q: PieceRecord)
    requires (forall m | m in keys :: m in c) && Extents(c, keys, size).Ok? && Apart(Extents(c, keys, size).value)
    requires k in keys && l in keys && k != l && p in c[k].pieces && q in c[l].pieces
    ensures !Overlap(p, q)
  {
    hide Apart;
    var front, last := keys[..|keys| - 1], keys[|keys| - 1];
    var x, y := Extents(c, front, size).value, PieceExtents(c[last].pieces, size).value;
    SplitApart(x, y);
    if last == k && l in front {
      ExtentsCover(c, front, size, l, q);
      var i :| 0 <= i < |y| && c[k].pieces[i] == p;
      assert y[i] in y;
    } else if last == l && k in front {
      ExtentsCover(c, front, size, k, p);
      var i :| 0 <= i < |y| && c[l].pieces[i] == q;
      assert y[i] in y;
    } else {
      ApartAcross(c, front, size, k, p, l, q);
    }
  }

  /** The check accepts exactly the catalogues whose pieces lie apart and within the file. */
  lemma AcceptedExactly(c: Catalogue, size: nat)
    ensures CheckExtents(c, size) == Ok(()) <==> InBounds(c, size) && PiecesApart(c)
  {
    hide Extents, Insert, Apart;
    if CheckExtents(c, size) == Ok(()) {
      var keys := Sorted(c.Keys);
      var es := Extents(c, keys, size).value;
      SortApart(es);
      SortOrders(es);
      StartsBeforeEnds(c, keys, size);
      NeighboursSuffice(SortExtents(es));
      forall k, p | k in c && p in c[k].pieces
        ensures p.offset + p.length <= size && p.offset + p.length <= MAX_U64
      {
        ExtentsCover(c, keys, size, k, p);
      }
      forall k, i, j | k in c && 0 <= i < j < |c[k].pieces| ensures !Overlap(c[k].pieces[i], c[k].pieces[j]) {
        ApartWithin(c, keys, size, k, i, j);
      }
      forall k, l, p, q | k in c && l in c && k != l && p in c[k].pieces && q in c[l].pieces ensures !Overlap(p, q) {
        ApartAcross(c, keys, size, k, p, l, q);
      }
    }
    if InBounds(c, size) && PiecesApart(c) {
      ApartIsAccepted(c, size);
    }
  }

  lemma {:induction false} StartsBeforeEnds(c: Catalogue, keys: seq<nat>, size: nat)
    requires (forall k | k in keys :: k in c) && Extents(c, keys, size).Ok?
    ensures forall e | e in Extents(c, keys, size).value :: e.start <= e.end
  {
    if keys != [] {
      StartsBeforeEnds(c, keys[..|keys| - 1], size);
    }
  }
}
