/** A delta carries a mirror of one table to the mirror of the next. */
module DeltaReplication {
  import opened Collections
  import Sequences = SequenceModel
  import opened DeltaModel

  // ---------------------------------------------------------------- removals

  function IdSet(ids: seq<nat>): set<nat> {
    set id | id in ids
  }

  lemma RemoveOne(sequences: map<nat, Normalized>, front: seq<nat>, id: nat)
    ensures (sequences - IdSet(front)) - {id} == sequences - IdSet(front + [id])
    ensures id in sequences && id !in front ==> id in sequences - IdSet(front)
  {
    assert IdSet(front + [id]) == IdSet(front) + {id};
  }

  lemma {:induction false} RemoveAllRemoves(sequences: map<nat, Normalized>, removed: seq<nat>)
    requires forall i, j | 0 <= i < j < |removed| :: removed[i] < removed[j]
    requires forall id | id in removed :: id in sequences
    ensures RemoveAll(sequences, removed) == Ok(sequences - IdSet(removed))
  {
    if removed != [] {
      hide IdSet;
      var front := removed[..|removed| - 1];
      var id := removed[|removed| - 1];
      assert removed == front + [id] && id !in front;
      RemoveAllRemoves(sequences, front);
      RemoveOne(sequences, front, id);
    } else {
      assert sequences - IdSet(removed) == sequences;
    }
  }

  // ---------------------------------------------------------------- updates

  /** Every sequence of `ids` that survives keeps its MTP flag. */
  ghost predicate SameFlags(before: map<nat, Normalized>, after: map<nat, Normalized>, ids: seq<nat>) {
    forall id | id in ids && id in before && id in after :: before[id].mtp == after[id].mtp
  }

  /** `kept` with the sequences of `ids` replaced by their version in `after`. */
  ghost function Replaced(kept: map<nat, Normalized>, after: map<nat, Normalized>, ids: seq<nat>): map<nat, Normalized>
    requires forall id | id in ids :: id in after
  {
    map id | id in kept.Keys + (set x | x in ids) :: if id in ids then after[id] else kept[id]
  }

  /** The update of one sequence turns its old version into the new one, unless the flag changed. */
  lemma UpdateReplaces(sequences: map<nat, Normalized>, id: nat, before: map<nat, Normalized>, next: Normalized)
    requires id in sequences <==> id in before
    requires id in before ==> sequences[id] == before[id]
    ensures var r := ApplyUpdate(sequences, UpdateFor(id, before, next));
            if id in before && before[id].mtp != next.mtp then r == Err(BadSequence)
            else r == Ok(sequences[id := next])
  {
    var u := UpdateFor(id, before, next);
    if id in before {
      assert before[id].pages[..u.firstChanged] + u.changed == next.pages;
    } else {
      assert [] + u.changed == next.pages;
    }
  }

  lemma ReplacedOneMore(
    kept: map<nat, Normalized>, before: map<nat, Normalized>, after: map<nat, Normalized>, front: seq<nat>, id: nat)
    requires forall x | x in front + [id] :: x in after
    requires id !in front && (id in kept <==> id in before) && (id in before ==> kept[id] == before[id])
    ensures var rest := Replaced(kept, after, front);
            && (id in rest <==> id in before) && (id in before ==> rest[id] == before[id])
            && rest[id := after[id]] == Replaced(kept, after, front + [id])
            && (id in before && before[id] == after[id] ==> rest == Replaced(kept, after, front + [id]))
  {
    var rest := Replaced(kept, after, front);
    assert forall x :: x in front + [id] <==> x in front || x == id;
    assert rest[id := after[id]] == Replaced(kept, after, front + [id]);
  }

  lemma UpdatesOneMore(before: map<nat, Normalized>, after: map<nat, Normalized>, front: seq<nat>, id: nat)
    requires forall x | x in front + [id] :: x in after
    ensures forall x | x in front :: x in front + [id]
    ensures Updates(before, after, front + [id]) ==
            if id in before && before[id] == after[id] then Updates(before, after, front)
            else Updates(before, after, front) + [UpdateFor(id, before, after[id])]
  {
    assert (front + [id])[..|front|] == front;
  }

  lemma ApplyOneMore(sequences: map<nat, Normalized>, updates: seq<Update>, u: Update)
    ensures ApplyUpdates(sequences, updates + [u]) ==
            if ApplyUpdates(sequences, updates).Ok? then ApplyUpdate(ApplyUpdates(sequences, updates).value, u)
            else ApplyUpdates(sequences, updates)
  {
    assert (updates + [u])[..|updates|] == updates;
  }

  lemma {:induction false} UpdatesReplace(
    kept: map<nat, Normalized>, before: map<nat, Normalized>, after: map<nat, Normalized>, ids: seq<nat>)
    requires forall id | id in ids :: id in after
    requires forall i, j | 0 <= i < j < |ids| :: ids[i] < ids[j]
    requires forall id | id in ids :: (id in kept <==> id in before) && (id in before ==> kept[id] == before[id])
    ensures var r := ApplyUpdates(kept, Updates(before, after, ids));
            if SameFlags(before, after, ids) then r == Ok(Replaced(kept, after, ids)) else r == Err(BadSequence)
  {
    hide ApplyUpdate, UpdateFor;
    if ids == [] {
      assert Replaced(kept, after, ids) == kept;
    } else {
      hide Replaced, Updates, ApplyUpdates;
      var front := ids[..|ids| - 1];
      var id := ids[|ids| - 1];
      assert ids == front + [id] && id !in front;
      UpdatesReplace(kept, before, after, front);
      UpdatesOneMore(before, after, front, id);
      ReplacedOneMore(kept, before, after, front, id);
      ApplyOneMore(kept, Updates(before, after, front), UpdateFor(id, before, after[id]));
      if SameFlags(before, after, front) {
        UpdateReplaces(Replaced(kept, after, front), id, before, after[id]);
      }
    }
  }

  // ---------------------------------------------------------------- shape

  lemma {:induction false} UpdatesContents(before: map<nat, Normalized>, after: map<nat, Normalized>, ids: seq<nat>)
    requires forall id | id in ids :: id in after
    ensures var updates := Updates(before, after, ids);
            && |updates| <= |ids|
            && (forall u | u in updates :: u.id in ids && u == UpdateFor(u.id, before, after[u.id]))
  {
    hide UpdateFor;
    if ids != [] {
      var front := ids[..|ids| - 1];
      var id := ids[|ids| - 1];
      assert ids == front + [id];
      UpdatesContents(before, after, front);
      UpdatesOneMore(before, after, front, id);
      IdOfUpdate(id, before, after[id]);
      hide Updates;
    }
  }

  lemma UpdatesBelow(before: map<nat, Normalized>, after: map<nat, Normalized>, ids: seq<nat>, bound: nat)
    requires forall id | id in ids :: id in after && id < bound
    ensures var updates := Updates(before, after, ids);
            forall i | 0 <= i < |updates| :: updates[i].id < bound
  {
    hide Updates, UpdateFor;
    UpdatesContents(before, after, ids);
    var updates := Updates(before, after, ids);
    assert forall i | 0 <= i < |updates| :: updates[i] in updates;
  }

  lemma {:induction false} UpdatesOrder(before: map<nat, Normalized>, after: map<nat, Normalized>, ids: seq<nat>)
    requires forall id | id in ids :: id in after
    requires forall i, j | 0 <= i < j < |ids| :: ids[i] < ids[j]
    ensures var updates := Updates(before, after, ids);
            forall i, j | 0 <= i < j < |updates| :: updates[i].id < updates[j].id
  {
    hide UpdateFor;
    if ids != [] {
      var front := ids[..|ids| - 1];
      var id := ids[|ids| - 1];
      assert ids == front + [id];
      hide Updates;
      UpdatesOrder(before, after, front);
      UpdatesOneMore(before, after, front, id);
      UpdatesBelow(before, after, front, id);
      IdOfUpdate(id, before, after[id]);
    }
  }

  /** No update means no change. */
  lemma {:induction false} NoUpdates(before: map<nat, Normalized>, after: map<nat, Normalized>, ids: seq<nat>)
    requires (forall id | id in ids :: id in after) && Updates(before, after, ids) == []
    ensures forall id | id in ids :: id in before && before[id] == after[id]
  {
    hide UpdateFor;
    if ids != [] {
      var front := ids[..|ids| - 1];
      assert ids == front + [ids[|ids| - 1]];
      UpdatesOneMore(before, after, front, ids[|ids| - 1]);
      NoUpdates(before, after, front);
      hide Updates;
    }
  }

  lemma IdOfUpdate(id: nat, before: map<nat, Normalized>, next: Normalized)
    ensures UpdateFor(id, before, next).id == id
  {
  }

  /** The update of a sequence that passed its check passes the delta's check. */
  lemma UpdateShape(id: nat, before: map<nat, Normalized>, next: Normalized, removed: seq<nat>)
    requires id != 0 && id !in removed && next.tentative <= 7 && CheckSequence(next).Ok?
    ensures var u := UpdateFor(id, before, next); UpdateOk(u, removed) && ChangedOk(u)
  {
    hide DistinctSlots, SumValid, CommonPrefix;
    var u := UpdateFor(id, before, next);
    var first := u.firstChanged;
    assert first <= |next.pages| && u.changed == next.pages[first..];
    forall i | 0 <= i < |u.changed|
      ensures u.changed[i] == next.pages[first + i] && PageFits(next, first + i)
    {
    }
    hide UpdateFor, CheckSequence;
  }

  lemma {:induction false} AllUpdatesPass(updates: seq<Update>, removed: seq<nat>)
    requires forall u | u in updates :: UpdateOk(u, removed) && ChangedOk(u)
    ensures CheckUpdates(updates, removed) == Ok(())
  {
    hide UpdateOk, ChangedOk;
    if updates != [] {
      AllUpdatesPass(updates[..|updates| - 1], removed);
    }
  }

  lemma SomethingChanged(before: map<nat, Normalized>, after: map<nat, Normalized>)
    requires Updates(before, after, Sorted(after.Keys)) == [] && Sorted(before.Keys - after.Keys) == []
    ensures before == after
  {
    hide Updates, Sorted;
    var gone := before.Keys - after.Keys;
    assert |gone| == |Sorted(gone)| == 0;
    assert gone == {};
    NoUpdates(before, after, Sorted(after.Keys));
    forall id | id in after ensures id in before && before[id] == after[id] {
      assert id in after.Keys;
    }
    NoneGone(before.Keys, after.Keys);
    SameMaps(before, after);
  }

  lemma NoneGone(before: set<nat>, after: set<nat>)
    requires before - after == {}
    ensures before <= after
  {
    forall id | id in before ensures id in after {
      assert id !in before - after;
    }
  }

  lemma SameMaps(x: map<nat, Normalized>, y: map<nat, Normalized>)
    requires x.Keys <= y.Keys && forall id | id in y :: id in x && x[id] == y[id]
    ensures x == y
  {
  }

  lemma ShapePasses(d: DeltaBody)
    requires GenerationsOk(d.before, d.after) && (d.updates != [] || d.removed != [])
    requires |d.updates| <= MAX_DELTA_SEQUENCES && |d.removed| <= MAX_DELTA_SEQUENCES
    requires forall i, j | 0 <= i < j < |d.updates| :: d.updates[i].id < d.updates[j].id
    requires forall i, j | 0 <= i < j < |d.removed| :: d.removed[i] < d.removed[j]
    requires forall u | u in d.updates :: UpdateOk(u, d.removed) && ChangedOk(u)
    ensures CheckShape(d) == Ok(())
  {
    hide UpdateOk, ChangedOk, CheckUpdates;
    AllUpdatesPass(d.updates, d.removed);
  }

  lemma AllShapesOk(before: map<nat, Normalized>, after: map<nat, Normalized>, removed: seq<nat>)
    requires forall id | id in after :: id != 0 && id !in removed && CheckSequence(after[id]).Ok? && after[id].tentative <= 7
    ensures forall u | u in Updates(before, after, Sorted(after.Keys)) :: UpdateOk(u, removed) && ChangedOk(u)
  {
    hide CheckSequence, UpdateFor, UpdateOk, ChangedOk, Updates, Sorted;
    UpdatesContents(before, after, Sorted(after.Keys));
    forall u | u in Updates(before, after, Sorted(after.Keys)) ensures UpdateOk(u, removed) && ChangedOk(u) {
      UpdateShape(u.id, before, after[u.id], removed);
    }
  }

  /** Two mirrored tables always have a delta. */
  lemma DeltaExists(before: map<nat, Normalized>, after: map<nat, Normalized>, g: nat)
    requires GenerationsOk(g, g + 1) && before != after
    requires |before| <= MAX_DELTA_SEQUENCES && |after| <= MAX_DELTA_SEQUENCES
    requires forall id | id in after :: id != 0 && CheckSequence(after[id]).Ok? && after[id].tentative <= 7
    ensures CheckShape(BodyOf(before, after, g, g + 1)) == Ok(())
  {
    hide CheckSequence, UpdateOk, ChangedOk, Updates, CheckShape, Sorted;
    var d := BodyOf(before, after, g, g + 1);
    AllShapesOk(before, after, d.removed);
    UpdatesContents(before, after, Sorted(after.Keys));
    UpdatesOrder(before, after, Sorted(after.Keys));
    SubsetSize(before.Keys - after.Keys, before.Keys);
    if d.updates == [] && d.removed == [] {
      SomethingChanged(before, after);
    }
    ShapePasses(d);
  }

  // ---------------------------------------------------------------- the theorem

  /** Replication is correct: if two tables have mirrors and these differ, then the delta between
      the tables exists; applied to the first mirror it yields the second one exactly when no
      surviving sequence changed its MTP flag, and is refused otherwise. */
  lemma ReplicationIsCorrect(
    hash: DeltaBody -> nat, before: Sequences.Table, after: Sequences.Table, g: nat, x: Mirror, y: Mirror)
    requires GenerationsOk(g, g + 1) && before.config == after.config
    requires FromTable(before, g) == Ok(x) && FromTable(after, g + 1) == Ok(y) && x.sequences != y.sequences
    requires forall id | id in after.sequences :: Sequences.Reserved(after.sequences[id]) <= 7
    ensures Between(hash, before, after, g, g + 1).Ok?
    ensures var r := Apply(hash, x, Between(hash, before, after, g, g + 1).value);
            && (r.Ok? <==> forall id | id in x.sequences && id in y.sequences :: x.sequences[id].mtp == y.sequences[id].mtp)
            && (r.Ok? ==> r.value == y)
            && (r.Err? ==> r.error == BadSequence)
  {
    hide CheckSequence, CheckShape, ApplyUpdates, RemoveAll, Normalize, MirrorOk, FromTable, BodyOf;
    BodyGenerations(x.sequences, y.sequences, g);
    MirrorFacts(before, g, x);
    MirrorFacts(after, g + 1, y);
    DeltaExists(x.sequences, y.sequences, g);
    ApplyBody(x.sequences, y.sequences, g);
  }

  lemma BodyGenerations(before: map<nat, Normalized>, after: map<nat, Normalized>, g: nat)
    ensures BodyOf(before, after, g, g + 1).before == g && BodyOf(before, after, g, g + 1).after == g + 1
  {
  }

  /** The removals and updates of a delta rebuild the next set of sequences. */
  lemma ApplyBody(before: map<nat, Normalized>, after: map<nat, Normalized>, g: nat)
    ensures var d := BodyOf(before, after, g, g + 1);
            var kept := RemoveAll(before, d.removed);
            && kept.Ok?
            && var r := ApplyUpdates(kept.value, d.updates);
            if forall id | id in before && id in after :: before[id].mtp == after[id].mtp then r == Ok(after)
            else r == Err(BadSequence)
  {
    hide Updates, ApplyUpdates, RemoveAll, Replaced, Sorted;
    var d := BodyOf(before, after, g, g + 1);
    RemoveAllRemoves(before, d.removed);
    var kept := before - IdSet(d.removed);
    assert kept.Keys == before.Keys * after.Keys;
    UpdatesReplace(kept, before, after, Sorted(after.Keys));
    ReplacedAll(kept, after);
    assert SameFlags(before, after, Sorted(after.Keys)) <==>
           forall id | id in before && id in after :: before[id].mtp == after[id].mtp;
  }

  lemma ReplacedAll(kept: map<nat, Normalized>, after: map<nat, Normalized>)
    requires kept.Keys <= after.Keys
    ensures Replaced(kept, after, Sorted(after.Keys)) == after
  {
    hide Sorted;
  }

  lemma MirrorFacts(t: Sequences.Table, g: nat, m: Mirror)
    requires FromTable(t, g) == Ok(m)
    ensures MirrorOk(m) && m.generation == g && m.config == t.config && Normalize(t) == Ok(m.sequences)
    ensures |m.sequences| <= MAX_DELTA_SEQUENCES
    ensures forall id | id in m.sequences ::
              && id != 0 && CheckSequence(m.sequences[id]).Ok? && id in t.sequences
              && m.sequences[id].tentative == Sequences.Reserved(t.sequences[id])
  {
    hide CheckSequence, AllAgree;
    assert forall id | id in t.sequences :: id !in Refused(t);
    assert forall id | id in m.sequences :: AllLive(t, t.sequences[id]) && m.sequences[id] == NormalizedOf(t, t.sequences[id]);
  }
}
