/** Durable page records and the write-ahead journal that publishes them (tier.rs).

    32-byte identities and digests are the naturals they denote; zero is the all-zero string. */
module Tier {
  import opened Collections

  const MAX_U64: nat := 0xFFFF_FFFF_FFFF_FFFF

  datatype Error =
    | BadIdentity
    | BadPieces
    | Collision
    | BadChecksum
    | NotDurable
    | AlreadyPublished
    | BadJournal
    | Overflow

  datatype Tier = Dram | Nvme

  datatype Piece = TargetKv | TargetIndexer | DraftSidecar

  /** 64 tokens of 78 layers of 368 bytes, of 21 groups of 132 bytes, and of one 500-byte record. */
  function ExpectedBytes(p: Piece): nat {
    match p
    case TargetKv => 1_837_056
    case TargetIndexer => 177_408
    case DraftSidecar => 32_000
  }

  datatype PieceRecord = PieceRecord(piece: Piece, length: nat, offset: nat, sha: nat)

  datatype Record = Record(
    namespace: nat,
    key: nat,
    generation: nat,
    tier: Tier,
    mtp: bool,
    pieces: seq<PieceRecord>)

  datatype Relation = ExactDedup | MtpUpgrade | RetainMtp

  datatype Event =
    | Begin(transaction: nat, record: Record)
    | PieceDurable(transaction: nat, piece: Piece, sha: nat)
    | Publish(transaction: nat)

  // ---------------------------------------------------------------- records

  function Alignment(t: Tier): (a: nat)
    ensures a > 0
  {
    if t.Dram? then 64 else 4096
  }

  predicate Required(mtp: bool, p: Piece) {
    mtp || !p.DraftSidecar?
  }

  /** Piece `i` is of a required kind that did not occur before, with the size, alignment and
      digest of its kind. */
  predicate PieceFits(r: Record, i: nat)
    requires i < |r.pieces|
  {
    var p := r.pieces[i];
    && Required(r.mtp, p.piece)
    && (forall j | 0 <= j < i :: r.pieces[j].piece != p.piece)
    && p.length == ExpectedBytes(p.piece)
    && p.offset % Alignment(r.tier) == 0
    && p.sha != 0
  }

  predicate Overlap(x: PieceRecord, y: PieceRecord) {
    x.offset < y.offset + y.length && y.offset < x.offset + x.length
  }

  /** Checks the first `n` pieces in order. */
  function CheckPieces(r: Record, n: nat): Result<(), Error>
    requires n <= |r.pieces|
  {
    if n == 0 then Ok(())
    else
      var _ :- CheckPieces(r, n - 1);
      var p := r.pieces[n - 1];
      if !PieceFits(r, n - 1) then Err(BadPieces)
      else if p.offset + p.length > MAX_U64 then Err(Overflow)
      else if exists j | 0 <= j < n - 1 :: Overlap(p, r.pieces[j]) then Err(BadPieces)
      else Ok(())
  }

  function CheckRecord(r: Record): Result<(), Error> {
    if r.namespace == 0 || r.key == 0 || r.generation == 0 then Err(BadIdentity)
    else if |r.pieces| != (if r.mtp then 3 else 2) then Err(BadPieces)
    else CheckPieces(r, |r.pieces|)
  }

  /** Size and digest of a piece, wherever it is stored. */
  function LogicalIdentity(r: Record, p: Piece): Option<(nat, nat)> {
    FindPiece(r.pieces, p)
  }

  function FindPiece(pieces: seq<PieceRecord>, p: Piece): Option<(nat, nat)> {
    if pieces == [] then None
    else if pieces[0].piece == p then Some((pieces[0].length, pieces[0].sha))
    else FindPiece(pieces[1..], p)
  }

  predicate SameTarget(x: Record, y: Record) {
    && x.namespace == y.namespace && x.key == y.key
    && LogicalIdentity(x, TargetKv) == LogicalIdentity(y, TargetKv)
    && LogicalIdentity(x, TargetIndexer) == LogicalIdentity(y, TargetIndexer)
  }

  /** How a candidate relates to the record already published under its key. */
  function Relate(existing: Record, candidate: Record): Result<Relation, Error> {
    var _ :- CheckRecord(existing);
    var _ :- CheckRecord(candidate);
    if !SameTarget(existing, candidate) then Err(Collision)
    else if !candidate.mtp then Ok(if existing.mtp then RetainMtp else ExactDedup)
    else if !existing.mtp then Ok(MtpUpgrade)
    else if LogicalIdentity(existing, DraftSidecar) == LogicalIdentity(candidate, DraftSidecar) then Ok(ExactDedup)
    else Err(Collision)
  }

  // ---------------------------------------------------------------- recovery

  datatype Transaction = Transaction(record: Record, durable: map<Piece, nat>, published: bool)

  function FindRecord(pieces: seq<PieceRecord>, p: Piece): Option<PieceRecord> {
    if pieces == [] then None
    else if pieces[0].piece == p then Some(pieces[0])
    else FindRecord(pieces[1..], p)
  }

  predicate AllDurable(t: Transaction) {
    forall p | p in t.record.pieces :: p.piece in t.durable
  }

  function ReplayEvent(t: map<nat, Transaction>, e: Event): Result<map<nat, Transaction>, Error> {
    match e
    case Begin(id, record) =>
      var _ :- CheckRecord(record);
      if id in t then Err(BadJournal) else Ok(t[id := Transaction(record, map[], false)])
    case PieceDurable(id, piece, sha) =>
      if id !in t || t[id].published then Err(BadJournal)
      else
        var expected := FindRecord(t[id].record.pieces, piece);
        if expected.None? then Err(BadPieces)
        else if expected.value.sha != sha || piece in t[id].durable then Err(BadChecksum)
        else Ok(t[id := t[id].(durable := t[id].durable[piece := sha])])
    case Publish(id) =>
      if id !in t then Err(BadJournal)
      else if t[id].published || !AllDurable(t[id]) then Err(NotDurable)
      else Ok(t[id := t[id].(published := true)])
  }

  function Replay(events: seq<Event>): Result<map<nat, Transaction>, Error> {
    if events == [] then Ok(map[])
    else
      var t :- Replay(events[..|events| - 1]);
      ReplayEvent(t, events[|events| - 1])
  }

  type Catalogue = map<nat, Record>

  /** Publishes a record: the first one under its key, or an MTP upgrade of a newer generation. */
  function Merge(c: Catalogue, r: Record): Result<Catalogue, Error> {
    if r.key !in c then Ok(c[r.key := r])
    else
      var relation :- Relate(c[r.key], r);
      if !relation.MtpUpgrade? then Ok(c)
      else if r.generation <= c[r.key].generation then Err(BadJournal)
      else Ok(c[r.key := r])
  }

  /** Merges the published transactions among `ids`, in that order. */
  function Collect(t: map<nat, Transaction>, ids: seq<nat>): Result<Catalogue, Error> {
    if ids == [] then Ok(map[])
    else
      var c :- Collect(t, ids[..|ids| - 1]);
      var id := ids[|ids| - 1];
      if id in t && t[id].published then Merge(c, t[id].record) else Ok(c)
  }

  /** Replays the events and merges what was published, in the order of the transaction ids. */
  function Recover(events: seq<Event>): Result<Catalogue, Error> {
    var t :- Replay(events);
    Collect(t, Sorted(t.Keys))
  }

  // ---------------------------------------------------------------- writing

  datatype Journal = Journal(events: seq<Event>, next: nat)

  predicate Published(events: seq<Event>, id: nat) {
    exists e | e in events :: e.Publish? && e.transaction == id
  }

  predicate Durable(events: seq<Event>, id: nat, p: Piece) {
    exists e | e in events :: e.PieceDurable? && e.transaction == id && e.piece == p
  }

  function BegunRecord(events: seq<Event>, id: nat): Option<Record> {
    if events == [] then None
    else if events[0].Begin? && events[0].transaction == id then Some(events[0].record)
    else BegunRecord(events[1..], id)
  }

  function OpenRecord(events: seq<Event>, id: nat): Result<Record, Error> {
    if Published(events, id) then Err(AlreadyPublished)
    else if BegunRecord(events, id).None? then Err(BadJournal)
    else Ok(BegunRecord(events, id).value)
  }

  function BeginRecord(j: Journal, r: Record): Result<Journal, Error> {
    var _ :- CheckRecord(r);
    if j.next + 1 > MAX_U64 then Err(Overflow)
    else Ok(Journal(j.events + [Begin(j.next, r)], j.next + 1))
  }

  function MarkDurable(j: Journal, id: nat, p: Piece, sha: nat): Result<Journal, Error> {
    var r :- OpenRecord(j.events, id);
    var expected := FindRecord(r.pieces, p);
    if expected.None? then Err(BadPieces)
    else if sha != expected.value.sha then Err(BadChecksum)
    else if Durable(j.events, id, p) then Err(BadJournal)
    else Ok(j.(events := j.events + [PieceDurable(id, p, sha)]))
  }

  function PublishRecord(j: Journal, id: nat): Result<Journal, Error> {
    var r :- OpenRecord(j.events, id);
    if exists p | p in r.pieces :: !Durable(j.events, id, p.piece) then Err(NotDurable)
    else Ok(j.(events := j.events + [Publish(id)]))
  }
}
