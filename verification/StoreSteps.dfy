/** The journal through one publication: begin, one mark per durable piece, publish (tier.rs, store.rs). */
module StoreSteps {
  import opened Collections
  import opened Octets
  import opened Tier
  import opened TierCodec
  import opened TierRecovery
  import opened JournalFile
  import opened StoreModel

  /** What the journal's own scans see is what replay sees. */
  lemma {:induction false} ReplayTracks(events: seq<Event>, id: nat)
    requires Replay(events).Ok?
    ensures var t := Replay(events).value;
            && (Published(events, id) <==> id in t && t[id].published)
            && (forall p: Piece :: Durable(events, id, p) <==> id in t && p in t[id].durable)
  {
    hide CheckRecord, FindRecord, AllDurable;
    if events != [] {
      var front, last := events[..|events| - 1], events[|events| - 1];
      ReplayTracks(front, id);
      assert forall e :: e in events <==> e in front || e == last;
      assert Published(events, id) <==> Published(front, id) || (last.Publish? && last.transaction == id);
      forall p: Piece
        ensures Durable(events, id, p) <==>
                Durable(front, id, p) || (last.PieceDurable? && last.transaction == id && last.piece == p)
      {
      }
    }
  }

  function Marks(pieces: seq<PieceRecord>, k: nat): map<Piece, nat>
    requires k <= |pieces|
  {
    if k == 0 then map[] else Marks(pieces, k - 1)[pieces[k - 1].piece := pieces[k - 1].sha]
  }

  lemma {:induction false} MarkedPieces(pieces: seq<PieceRecord>, k: nat)
    requires k <= |pieces|
    ensures forall p: Piece :: p in Marks(pieces, k) <==> exists i :: 0 <= i < k && pieces[i].piece == p
  {
    if k > 0 {
      MarkedPieces(pieces, k - 1);
      assert pieces[k - 1].piece in Marks(pieces, k);
    }
  }

  lemma {:induction false} FindsRecord(pieces: seq<PieceRecord>, k: nat)
    requires k < |pieces| && forall i | 0 <= i < k :: pieces[i].piece != pieces[k].piece
    ensures FindRecord(pieces, pieces[k].piece) == Some(pieces[k])
  {
    if k > 0 {
      FindsRecord(pieces[1..], k - 1);
    }
  }

  /** The journal replays, shows `c`, and is inside a transaction of `r` with `k` pieces marked. */
  ghost predicate Inside(events: seq<Event>, r: Record, k: nat, c: Catalogue) {
    && k <= |r.pieces| && CheckRecord(r).Ok?
    && Steady(events, c)
    && Current(events) in Replay(events).value
    && Replay(events).value[Current(events)] == Transaction(r, Marks(r.pieces, k), false)
  }

  /** The journal replays and shows `c`. */
  ghost predicate Steady(events: seq<Event>, c: Catalogue) {
    Sequential(events) && Replay(events).Ok? && Visible(events) == Ok(c)
  }

  lemma BeginStep(events: seq<Event>, r: Record, c: Catalogue)
    requires Steady(events, c) && CheckRecord(r).Ok?
    ensures var after := events + [Begin(Current(events) + 1, r)];
            Inside(after, r, 0, c) && PublishedRecords(after) == PublishedRecords(events)
  {
    hide CheckRecord, BegunRecord, Merge, AllDurable, FindRecord;
    ReplayedTransactions(events);
    var after := events + [Begin(Current(events) + 1, r)];
    assert after[..|after| - 1] == events;
  }

  lemma InsideOpen(events: seq<Event>, r: Record, k: nat, c: Catalogue)
    requires Inside(events, r, k, c)
    ensures OpenRecord(events, Current(events)) == Ok(r)
    ensures forall p: Piece :: Durable(events, Current(events), p) <==> p in Marks(r.pieces, k)
    ensures BegunRecord(events, Current(events)) == Some(r)
  {
    hide CheckRecord, Replay, Sequential, Visible, BegunRecord;
    ReplayedTransactions(events);
    ReplayTracks(events, Current(events));
  }

  lemma DurableStep(events: seq<Event>, r: Record, k: nat, c: Catalogue, next: nat)
    requires Inside(events, r, k, c) && k < |r.pieces|
    ensures var p := r.pieces[k];
            var after := events + [PieceDurable(Current(events), p.piece, p.sha)];
            && MarkDurable(Journal(events, next), Current(events), p.piece, p.sha) == Ok(Journal(after, next))
            && Inside(after, r, k + 1, c) && PublishedRecords(after) == PublishedRecords(events)
  {
    hide CheckRecord, BegunRecord, Merge, AllDurable, FindRecord, OpenRecord, Durable;
    InsideOpen(events, r, k, c);
    CheckedPieces(r);
    FindsRecord(r.pieces, k);
    MarkedPieces(r.pieces, k);
    var p := r.pieces[k];
    var after := events + [PieceDurable(Current(events), p.piece, p.sha)];
    assert after[..|after| - 1] == events;
  }

  lemma PublishStep(events: seq<Event>, r: Record, c: Catalogue, next: nat)
    requires Inside(events, r, |r.pieces|, c) && Merge(c, r).Ok?
    ensures var after := events + [Publish(Current(events))];
            && PublishRecord(Journal(events, next), Current(events)) == Ok(Journal(after, next))
            && Steady(after, Merge(c, r).value)
            && PublishedRecords(after) == PublishedRecords(events) + [r]
  {
    hide CheckRecord, BegunRecord, Merge, FindRecord, OpenRecord, Durable;
    InsideOpen(events, r, |r.pieces|, c);
    MarkedPieces(r.pieces, |r.pieces|);
    var after := events + [Publish(Current(events))];
    assert after[..|after| - 1] == events;
  }

  // ---------------------------------------------------------------- the journal file

  /** The file is a whole number of records and decodes to `events`. */
  ghost predicate FileHolds(crc: Bytes -> Word, file: Bytes, events: seq<Event>) {
    && |file| == 512 * |events|
    && DecodeRecords(crc, file, |events|) == Ok(Decoded(events, Current(events)))
  }

  lemma AppendHolds(crc: Bytes -> Word, file: Bytes, events: seq<Event>, e: Event)
    requires FileHolds(crc, file, events) && Sequential(events + [e])
    requires Fits(e) && Encode(crc, e).Ok?
    ensures FileHolds(crc, file + Encode(crc, e).value, events + [e])
  {
    hide Encode, Decode, Fits;
    RoundTrips(crc, e);
    FitsInWord(e);
    var b, n := Encode(crc, e).value, |events|;
    var longer := file + b;
    assert longer[..512 * n] == file == file[..512 * n];
    SamePrefixDecodes(crc, file, longer, n);
    assert longer[512 * n..512 * (n + 1)] == b;
    assert (events + [e])[..n] == events;
  }

  lemma FitsInWord(e: Event)
    requires Fits(e)
    ensures 0 < e.transaction <= MAX_U64
  {
    WordsFit();
  }
}
