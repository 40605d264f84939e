/** Reading published pages back (store.rs). */
module StoreReading {
  import opened Collections
  import opened Octets
  import opened Tier
  import opened TierCodec
  import opened TierRecovery
  import opened StoreModel
  import opened StoreSteps
  import opened StoreRecovery
  import opened StorePublication

  function ReadPieces(sha: Bytes -> Digest, data: Bytes, pieces: seq<PieceRecord>, n: nat): Result<map<Piece, Bytes>, StoreError>
    requires n <= |pieces|
  {
    if n == 0 then Ok(map[])
    else
      var front :- ReadPieces(sha, data, pieces, n - 1);
      var p := pieces[n - 1];
      if p.offset + p.length > |data| then Err(ShortRead)
      else if sha(data[p.offset..p.offset + p.length]) != p.sha then Err(Checksum)
      else Ok(front[p.piece := data[p.offset..p.offset + p.length]])
  }

  lemma {:induction false} ReadFails(sha: Bytes -> Digest, data: Bytes, pieces: seq<PieceRecord>, i: nat, n: nat)
    requires i <= n <= |pieces| && ReadPieces(sha, data, pieces, i).Err?
    ensures ReadPieces(sha, data, pieces, n) == ReadPieces(sha, data, pieces, i)
  {
    if i < n {
      ReadFails(sha, data, pieces, i, n - 1);
    }
  }

  /** Every catalogued page can be read back whole. */
  lemma {:induction false} HeldPiecesRead(sha: Bytes -> Digest, data: Bytes, r: Record, n: nat)
    requires Holds(sha, r, data) && n <= |r.pieces|
    requires forall i, j | 0 <= i < j < |r.pieces| :: r.pieces[i].piece != r.pieces[j].piece
    ensures ReadPieces(sha, data, r.pieces, n).Ok?
    ensures var read := ReadPieces(sha, data, r.pieces, n).value;
            forall i | 0 <= i < n ::
              && r.pieces[i].piece in read
              && r.pieces[i].offset + r.pieces[i].length <= |data|
              && read[r.pieces[i].piece] == data[r.pieces[i].offset..r.pieces[i].offset + r.pieces[i].length]
  {
    if n > 0 {
      HeldPiecesRead(sha, data, r, n - 1);
    }
  }

  /** A page reads back as exactly the bytes that were published. */
  lemma ReadsWhatWasPublished(sha: Bytes -> Digest, data: Bytes, record: Record, pieces: seq<PieceBytes>, from: nat)
    requires CheckRecord(record).Ok? && Describes(sha, record, pieces, from) && WrittenUpTo(data, record, pieces, |pieces|)
    ensures ReadPieces(sha, data, record.pieces, |record.pieces|).Ok?
    ensures var read := ReadPieces(sha, data, record.pieces, |record.pieces|).value;
            forall i | 0 <= i < |pieces| :: pieces[i].piece in read && read[pieces[i].piece] == pieces[i].bytes
  {
    hide CheckRecord, ReadPieces;
    AllWritten(sha, data, record, pieces, from);
    CheckedPieces(record);
    HeldPiecesRead(sha, data, record, |record.pieces|);
  }

  /** In a consistent store every published page reads back; nothing written later touches it. */
  lemma EveryPageReads(crc: Bytes -> Word, sha: Bytes -> Digest, s: Store, key: nat)
    requires Consistent(crc, sha, s) && key in s.published
    ensures var r := s.published[key];
            && r.key == key && CheckRecord(r).Ok? && Holds(sha, r, s.data)
            && ReadPieces(sha, s.data, r.pieces, |r.pieces|).Ok?
  {
    hide Visible, CheckRecord, PublishedRecords, Holds, FileHolds;
    CatalogueWasPublished(s.journal.events);
    var records := PublishedRecords(s.journal.events);
    var i :| 0 <= i < |records| && records[i] == s.published[key];
    CheckedPieces(records[i]);
    HeldPiecesRead(sha, s.data, records[i], |records[i].pieces|);
  }
}
