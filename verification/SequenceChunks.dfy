/** Page-sized steps compute what token-sized steps compute. */
module SequenceChunks {
  import opened Collections
  import opened SequenceModel
  import opened SequenceSteps
  import opened SequenceOps
  import opened SequenceSpeculation

  // ---------------------------------------------------------------- whole pages at a time

  /** Sequence `id` with header `h` and its last page refilled to match. */
  function TailFilled(t: Table, id: nat, h: Sequence): Table
    requires HasLast(t, h)
  {
    var last := |h.pages| - 1;
    t.(physical := t.physical[LastOf(h) := t.physical[LastOf(h)].(valid := Filled(Positions(h), last),
                                                                  state := StateAt(h, last))],
       sequences := t.sequences[id := h])
  }

  lemma TailFilledTwice(t: Table, id: nat, g: Sequence, h: Sequence)
    requires HasLast(t, h) && g.pages == h.pages
    ensures HasLast(TailFilled(t, id, g), h)
    ensures TailFilled(TailFilled(t, id, g), id, h) == TailFilled(t, id, h)
  {
    hide Filled, StateAt;
  }

  lemma AddTokenFills(t: Table, id: nat, h: Sequence)
    requires id in t.sequences && Positions(t.sequences[id]) % 64 != 0 && HasLast(t, h)
    ensures AddToken(t, id, h) == Ok(TailFilled(t, id, h))
  {
  }

  lemma OneToken(t: Table, id: nat)
    requires id in t.sequences
    ensures AddTokens(t, id, 1) == AddToken(t, id, MoreTokens(t.sequences[id], 1))
  {
    var r := AddToken(t, id, MoreTokens(t.sequences[id], 1));
    if r.Ok? {
      AppendNothing(r.value, id);
    }
  }

  /** Tokens that fit in the open page are written there in one go. */
  lemma {:induction false} FillTail(t: Table, id: nat, c: nat)
    requires Consistent(t) && HasContext(t, id, c) && 0 < c <= Room(t.sequences[id])
    ensures HasLast(t, MoreTokens(t.sequences[id], c))
    ensures AddTokens(t, id, c) == Ok(TailFilled(t, id, MoreTokens(t.sequences[id], c)))
    decreases c
  {
    hide Consistent, AddToken, AddTokens, TailFilled;
    RoomOf(t, id);
    var s := t.sequences[id];
    var h := MoreTokens(s, c);
    if c == 1 {
      OneToken(t, id);
      AddTokenFills(t, id, h);
    } else {
      var g := MoreTokens(s, c - 1);
      FillTail(t, id, c - 1);
      AddTokensSplits(t, id, c - 1, 1);
      var u := TailFilled(t, id, g);
      TailHeader(t, id, g);
      TailFilledTwice(t, id, g, h);
      OneToken(u, id);
      AddTokenFills(u, id, h);
    }
  }

  lemma TailHeader(t: Table, id: nat, h: Sequence)
    requires HasLast(t, h)
    ensures id in TailFilled(t, id, h).sequences && TailFilled(t, id, h).sequences[id] == h
  {
  }

  lemma GrowThenFill(t: Table, id: nat, g: Sequence, h: Sequence)
    requires g.pages == h.pages && g.mtp == h.mtp && Grow(t, id, g, None).Ok?
    ensures Grow(t, id, h, None).Ok?
    ensures var u := Grow(t, id, g, None).value;
            var after := h.(pages := u.sequences[id].pages);
            HasLast(u, after) && Grow(t, id, h, None).value == TailFilled(u, id, after)
  {
    hide Filled;
  }

  lemma GrowFails(t: Table, id: nat, g: Sequence, h: Sequence)
    requires g.pages == h.pages && g.mtp == h.mtp && Grow(t, id, g, None).Err?
    ensures Grow(t, id, h, None) == Grow(t, id, g, None)
  {
  }

  /** Tokens that need a new page get it in one go. */
  lemma FillNew(t: Table, id: nat, c: nat)
    requires Consistent(t) && HasContext(t, id, c) && Room(t.sequences[id]) == 0 && 0 < c <= 64
    ensures AddTokens(t, id, c) == Grow(t, id, MoreTokens(t.sequences[id], c), None)
  {
    hide Consistent, Isolates, AddTokens, Grow, TailFilled;
    RoomOf(t, id);
    var s := t.sequences[id];
    var g := MoreTokens(s, 1);
    var h := MoreTokens(s, c);
    OneToken(t, id);
    if c > 1 {
      AddTokensSplits(t, id, 1, c - 1);
      AddTokenFollows(t, id, g);
      if Grow(t, id, g, None).Ok? {
        var u := Grow(t, id, g, None).value;
        GrowThenFill(t, id, g, h);
        GrowRoom(t, id, g);
        FillTail(u, id, c - 1);
      } else {
        GrowFails(t, id, g, h);
      }
    }
  }

  lemma GrowRoom(t: Table, id: nat, h: Sequence)
    requires Grow(t, id, h, None).Ok?
    ensures id in Grow(t, id, h, None).value.sequences
    ensures |Grow(t, id, h, None).value.sequences[id].pages| == |h.pages| + 1
  {
  }
}
