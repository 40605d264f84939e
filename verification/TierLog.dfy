/** The in-memory journal and its loops (tier.rs). */
module TierLog {
  import opened Collections
  import opened Tier

  /** Checks the pieces of a record against the kinds and ranges seen before them. */
  method ValidateRecord(r: Record) returns (result: Result<(), Error>)
    ensures result == CheckRecord(r)
  {
    hide ExpectedBytes, Alignment, Required;
    if r.namespace == 0 || r.key == 0 || r.generation == 0 {
      return Err(BadIdentity);
    }
    if |r.pieces| != (if r.mtp then 3 else 2) {
      return Err(BadPieces);
    }
    var seen: set<Piece> := {};
    var ranges: seq<(nat, nat)> := [];
    for i := 0 to |r.pieces|
      invariant CheckPieces(r, i) == Ok(())
      invariant seen == set j | 0 <= j < i :: r.pieces[j].piece
      invariant |ranges| == i
      invariant forall j | 0 <= j < i :: ranges[j] == (r.pieces[j].offset, r.pieces[j].offset + r.pieces[j].length)
    {
      var p := r.pieces[i];
      if !Required(r.mtp, p.piece) || p.piece in seen || p.length != ExpectedBytes(p.piece)
         || p.offset % Alignment(r.tier) != 0 || p.sha == 0
      {
        CheckFails(r, i + 1, |r.pieces|);
        return Err(BadPieces);
      }
      seen := seen + {p.piece};
      var end := p.offset + p.length;
      if end > MAX_U64 {
        CheckFails(r, i + 1, |r.pieces|);
        return Err(Overflow);
      }
      if exists j | 0 <= j < |ranges| :: p.offset < ranges[j].1 && ranges[j].0 < end {
        var j :| 0 <= j < |ranges| && p.offset < ranges[j].1 && ranges[j].0 < end;
        assert Overlap(p, r.pieces[j]);
        CheckFails(r, i + 1, |r.pieces|);
        return Err(BadPieces);
      }
      assert forall j | 0 <= j < i :: !Overlap(p, r.pieces[j]);
      ranges := ranges + [(p.offset, end)];
    }
    return Ok(());
  }

  lemma {:induction false} CheckFails(r: Record, n: nat, m: nat)
    requires n <= m <= |r.pieces| && CheckPieces(r, n).Err?
    ensures CheckPieces(r, m) == CheckPieces(r, n)
  {
    if n < m {
      CheckFails(r, n, m - 1);
    }
  }

  lemma {:induction false} ReplayFails(events: seq<Event>, i: nat)
    requires i <= |events| && Replay(events[..i]).Err?
    ensures Replay(events) == Replay(events[..i])
    decreases |events|
  {
    if i < |events| {
      assert events[..|events| - 1][..i] == events[..i];
      ReplayFails(events[..|events| - 1], i);
    } else {
      assert events[..i] == events;
    }
  }

  lemma {:induction false} CollectFails(t: map<nat, Transaction>, ids: seq<nat>, i: nat)
    requires i <= |ids| && Collect(t, ids[..i]).Err?
    ensures Collect(t, ids) == Collect(t, ids[..i])
    decreases |ids|
  {
    if i < |ids| {
      assert ids[..|ids| - 1][..i] == ids[..i];
      CollectFails(t, ids[..|ids| - 1], i);
    } else {
      assert ids[..i] == ids;
    }
  }

  lemma MaxOf(events: seq<Event>, i: nat)
    requires i < |events|
    ensures MaxTransaction(events[..i + 1]) ==
            if events[i].transaction > MaxTransaction(events[..i]) then events[i].transaction
            else MaxTransaction(events[..i])
  {
    assert events[..i + 1][..i] == events[..i];
  }

  function MaxTransaction(events: seq<Event>): nat {
    if events == [] then 0
    else
      var m := MaxTransaction(events[..|events| - 1]);
      var last := events[|events| - 1].transaction;
      if last > m then last else m
  }

  function FromEvents(events: seq<Event>): Result<Journal, Error> {
    if MaxTransaction(events) + 1 > MAX_U64 then Err(Overflow)
    else
      var _ :- Recover(events);
      Ok(Journal(events, MaxTransaction(events) + 1))
  }

  /** The first loop of recovery. */
  method ReplayEvents(events: seq<Event>) returns (result: Result<map<nat, Transaction>, Error>)
    ensures result == Replay(events)
  {
    var t: map<nat, Transaction> := map[];
    for i := 0 to |events|
      invariant Replay(events[..i]) == Ok(t)
    {
      assert events[..i + 1][..i] == events[..i];
      var step := ReplayEvent(t, events[i]);
      if step.Err? {
        ReplayFails(events, i + 1);
        return Err(step.error);
      }
      t := step.value;
    }
    assert events[..|events|] == events;
    return Ok(t);
  }

  /** The second loop of recovery, over the transactions in the order of their numbers. */
  method CollectPublished(t: map<nat, Transaction>, ids: seq<nat>) returns (result: Result<Catalogue, Error>)
    requires forall id | id in ids :: id in t
    ensures result == Collect(t, ids)
  {
    hide Relate;
    var recovered: Catalogue := map[];
    for i := 0 to |ids|
      invariant Collect(t, ids[..i]) == Ok(recovered)
    {
      assert ids[..i + 1][..i] == ids[..i];
      if t[ids[i]].published {
        var record := t[ids[i]].record;
        if record.key !in recovered {
          recovered := recovered[record.key := record];
        } else {
          var relation := Relate(recovered[record.key], record);
          if relation.Err? {
            CollectFails(t, ids, i + 1);
            return Err(relation.error);
          }
          if relation.value.MtpUpgrade? {
            if record.generation <= recovered[record.key].generation {
              CollectFails(t, ids, i + 1);
              return Err(BadJournal);
            }
            recovered := recovered[record.key := record];
          }
        }
      }
    }
    assert ids[..|ids|] == ids;
    return Ok(recovered);
  }

  /** Replays the events and collects what they published. */
  method RecoverEvents(events: seq<Event>) returns (result: Result<Catalogue, Error>)
    ensures result == Recover(events)
  {
    hide Replay, Collect;
    var replayed := ReplayEvents(events);
    if replayed.Err? {
      return Err(replayed.error);
    }
    result := CollectPublished(replayed.value, Sorted(replayed.value.Keys));
  }

  class TierJournal {
    var events: seq<Event>
    var next: nat

    ghost function Value(): Journal
      reads this
    {
      Journal(events, next)
    }

    constructor (j: Journal)
      ensures Value() == j
    {
      events, next := j.events, j.next;
    }

    method Begin(r: Record) returns (result: Result<nat, Error>)
      modifies this
      ensures match BeginRecord(old(Value()), r)
              case Ok(j) => Value() == j && result == Ok(old(next))
              case Err(e) => Value() == old(Value()) && result == Err(e)
    {
      var checked := ValidateRecord(r);
      if checked.Err? {
        return Err(checked.error);
      }
      var transaction := next;
      if next + 1 > MAX_U64 {
        return Err(Overflow);
      }
      next := next + 1;
      events := events + [Event.Begin(transaction, r)];
      return Ok(transaction);
    }

    method PieceDurable(transaction: nat, piece: Piece, sha: nat) returns (result: Result<(), Error>)
      modifies this
      ensures match MarkDurable(old(Value()), transaction, piece, sha)
              case Ok(j) => Value() == j && result == Ok(())
              case Err(e) => Value() == old(Value()) && result == Err(e)
    {
      var begun := OpenRecord(events, transaction);
      if begun.Err? {
        return Err(begun.error);
      }
      var expected := FindRecord(begun.value.pieces, piece);
      if expected.None? {
        return Err(BadPieces);
      }
      if sha != expected.value.sha {
        return Err(BadChecksum);
      }
      if Durable(events, transaction, piece) {
        return Err(BadJournal);
      }
      events := events + [Event.PieceDurable(transaction, piece, sha)];
      return Ok(());
    }

    method Publish(transaction: nat) returns (result: Result<(), Error>)
      modifies this
      ensures match PublishRecord(old(Value()), transaction)
              case Ok(j) => Value() == j && result == Ok(())
              case Err(e) => Value() == old(Value()) && result == Err(e)
    {
      var begun := OpenRecord(events, transaction);
      if begun.Err? {
        return Err(begun.error);
      }
      var durable: set<Piece> := {};
      for i := 0 to |events|
        invariant events == old(events) && next == old(next)
        invariant forall p: Piece :: p in durable <==> Durable(events[..i], transaction, p)
      {
        assert forall e :: e in events[..i + 1] <==> e in events[..i] || e == events[i];
        if events[i].PieceDurable? && events[i].transaction == transaction {
          durable := durable + {events[i].piece};
        }
      }
      assert events[..|events|] == events;
      if exists p | p in begun.value.pieces :: p.piece !in durable {
        return Err(NotDurable);
      }
      events := events + [Event.Publish(transaction)];
      return Ok(());
    }
  }
}
