/** What the reader refuses: exactly which messages it reports, told without its checks. */
module WireRefusals {
  import opened Geometry
  import opened WireMessages
  import opened WireReader

  /** A message on the wire with any id and payload. */
  function Frame(id: byte, payload: seq<byte>): seq<byte>
    requires |payload| + 1 < U32_MOD
  {
    U32(|payload| + 1) + [id] + payload
  }

  /** What a message must be for the connection to go on: a piece of the torrent, a bitfield of
      its size, or no larger than the metadata could have one, and a fast-extension message only
      where that is spoken. */
  ghost predicate Admissible(cfg: Config, m: Message)
    requires cfg.Valid()
  {
    match m
    case Have(piece) => cfg.hasMetadata ==> piece < cfg.tor.PieceCount()
    case Bitfield(bits) =>
      if cfg.hasMetadata then |bits| == CeilDiv(cfg.tor.PieceCount(), 8)
      else cfg.metadataSizeHint == 0 || |bits| < cfg.metadataSizeHint
    case Suggest(_) => cfg.fext
    case AllowedFast(_) => cfg.fext
    case HaveAll => cfg.fext
    case HaveNone => cfg.fext
    case Reject(_) => cfg.fext
    case Ltep(payload) => payload != []
    case _ => true
  }

  /** The frame of this message. */
  ghost predicate IsFrameOf(m: Message, id: byte, payload: seq<byte>)
  {
    !m.KeepAlive? && !m.Piece? && IdOf(m) == id && Payload(m) == payload
  }

  // ----- four bytes are a number -----

  lemma ReadIsWritten(s: seq<byte>)
    requires |s| == 4
    ensures U32(ReadU32(s)) == s
  {
    var n := ReadU32(s);
    var a: int, b: int, c: int, d: int := s[0], s[1], s[2], s[3];
    assert n / 0x100_0000 == a && n / 0x1_0000 == a * 0x100 + b && n / 0x100 == (a * 0x100 + b) * 0x100 + c;
  }

  lemma ReadIsWritten16(s: seq<byte>)
    requires |s| == 2
    ensures U16(ReadU16(s)) == s
  {
  }

  lemma RequestIsWritten(s: seq<byte>)
    requires |s| == 12
    ensures Bytes3(ReadRequest(s)) == s
  {
    hide U32, ReadU32;
    ReadPrefix(s);
    ReadPrefix(s[4..]);
    ReadPrefix(s[8..]);
    ReadIsWritten(s[..4]);
    ReadIsWritten(s[4..][..4]);
    ReadIsWritten(s[8..][..4]);
    assert s == s[..4] + s[4..][..4] + s[8..][..4];
  }

  lemma ReadPrefix(s: seq<byte>)
    requires 4 <= |s|
    ensures ReadU32(s) == ReadU32(s[..4])
  {
  }

  // ----- the checks, told of messages -----

  /** The reader's verdict on a whole frame. */
  function Judged(cfg: Config, id: byte, payload: seq<byte>): Event
    requires cfg.Valid() && id != BT_PIECE
  {
    if !MessageLengthIsCorrect(cfg, id, |payload| + 1) then Failed(EMSGSIZE) else Interpret(cfg, id, payload)
  }

  lemma LengthOfBitfield(n: nat, k: nat)
    ensures k == CeilDiv(n, 8) <==> k + 1 == (n + 7) / 8 + 1
  {
  }

  lemma AdmissibleIsJudged(cfg: Config, m: Message)
    requires cfg.Valid() && Admissible(cfg, m) && !m.KeepAlive? && !m.Piece? && |Payload(m)| + 1 < U32_MOD
    ensures Judged(cfg, IdOf(m), Payload(m)) == Got(m)
  {
    hide U32, ReadU32, U16, ReadU16, CeilDiv, Torrent.PieceCount;
    LengthOfBitfield(cfg.tor.PieceCount(), |Payload(m)|);
    if m.Have? {
      U32RoundTrip(m.piece, []);
      assert U32(m.piece) + [] == U32(m.piece);
    }
    InterpretInverts(cfg, m);
  }

  lemma JudgedIsAdmissible(cfg: Config, id: byte, payload: seq<byte>)
    requires cfg.Valid() && id != BT_PIECE && Judged(cfg, id, payload).Got?
    ensures IsFrameOf(Judged(cfg, id, payload).msg, id, payload) && Admissible(cfg, Judged(cfg, id, payload).msg)
  {
    hide U32, ReadU32, U16, ReadU16, CeilDiv, Torrent.PieceCount, ReadRequest, Bytes3;
    LengthOfBitfield(cfg.tor.PieceCount(), |payload|);
    if |payload| == 4 {
      ReadIsWritten(payload);
    } else if |payload| == 2 {
      ReadIsWritten16(payload);
    } else if |payload| == 12 {
      RequestIsWritten(payload);
    }
  }

  lemma JudgedErrno(cfg: Config, id: byte, payload: seq<byte>)
    requires cfg.Valid() && id != BT_PIECE && Judged(cfg, id, payload).Failed?
    ensures Judged(cfg, id, payload).errno == if id == 4 && |payload| == 4 then 34 else 90
  {
    hide ReadU32, Torrent.PieceCount;
  }

  // ----- what becomes of a frame -----

  /** An arrival after whose first step the loop stops. */
  lemma ArriveStops(cfg: Config, c: Conn, x: seq<byte>)
    requires cfg.Valid() && Inv(c.r) && c.inbuf == [] && (CanRead(cfg, c.r, x).rest == [] || CanRead(cfg, c.r, x).ret == Err)
    ensures Arrive(cfg, c, x) == Advance(c.(inbuf := x), CanRead(cfg, c.r, x))
  {
    hide CanRead, Inv;
    assert c.inbuf + x == x;
  }

  /** The connection has reported e after its other events, and ended if that was an error. */
  ghost predicate Reported(c: Conn, d: Conn, e: Event)
  {
    d.events == c.events + [e] && (if e.Failed? then d.failed else Idle(d))
  }

  lemma BareFrameIsJudged(cfg: Config, c: Conn, id: byte)
    requires cfg.Valid() && Idle(c) && id != BT_PIECE
    ensures Reported(c, Arrive(cfg, c, Frame(id, [])), Judged(cfg, id, []))
  {
    hide ReadU32, U32, Interpret, MessageLengthIsCorrect, CheckBlock;
    U32RoundTrip(1, []);
    assert U32(1) + [] == U32(1) && U32(1)[4..] == [];
    ArriveOnce(cfg, c, U32(1));
    var d := Arrive(cfg, c, U32(1));
    assert d == c.(r := c.r.(length := 1, phase := AwaitingId));
    ArriveJoins(cfg, c, U32(1), [id]);
    assert [id][1..] == [];
    ArriveStops(cfg, d, [id]);
    assert Frame(id, []) == U32(1) + [id];
  }

  lemma LongFrameIsJudged(cfg: Config, c: Conn, id: byte, payload: seq<byte>)
    requires cfg.Valid() && Idle(c) && id != BT_PIECE && payload != [] && |payload| + 1 < U32_MOD
    ensures Reported(c, Arrive(cfg, c, Frame(id, payload)), Judged(cfg, id, payload))
  {
    hide ReadU32, U32, Interpret, MessageLengthIsCorrect, CheckBlock;
    var len := |payload| + 1;
    HeaderIsRead(cfg, c, len, id);
    var d := Arrive(cfg, c, U32(len) + [id]);
    assert payload[..len - 1] == payload && payload[len - 1..] == [];
    ArriveJoins(cfg, c, U32(len) + [id], payload);
    ArriveStops(cfg, d, payload);
  }

  /** Any frame but a piece is reported if and only if it is that of an admissible message, and
      as that message; otherwise the connection ends in an error. */
  lemma FrameIsReadExactly(cfg: Config, c: Conn, id: byte, payload: seq<byte>)
    requires cfg.Valid() && Idle(c) && id != 7 && |payload| + 1 < U32_MOD
    ensures var d := Arrive(cfg, c, Frame(id, payload));
      && (forall m | IsFrameOf(m, id, payload) && Admissible(cfg, m) :: Reported(c, d, Got(m)))
      && ((forall m | IsFrameOf(m, id, payload) :: !Admissible(cfg, m)) ==>
            Reported(c, d, Failed(if id == 4 && |payload| == 4 then 34 else 90)))
  {
    hide Arrive, Admissible, IsFrameOf, Judged, Idle, Frame;
    if payload == [] {
      BareFrameIsJudged(cfg, c, id);
    } else {
      LongFrameIsJudged(cfg, c, id, payload);
    }
    forall m | IsFrameOf(m, id, payload) && Admissible(cfg, m)
      ensures Judged(cfg, id, payload) == Got(m)
    {
      FrameTells(m, id, payload);
      AdmissibleIsJudged(cfg, m);
    }
    if Judged(cfg, id, payload).Got? {
      JudgedIsAdmissible(cfg, id, payload);
    } else {
      JudgedErrno(cfg, id, payload);
    }
  }

  lemma FrameTells(m: Message, id: byte, payload: seq<byte>)
    requires IsFrameOf(m, id, payload)
    ensures !m.KeepAlive? && !m.Piece? && IdOf(m) == id && Payload(m) == payload
  {
  }

  // ----- pieces -----

  /** The address lies in block b. */
  predicate FallsIn(tor: Torrent, index: nat, offset: nat, b: nat)
    requires 0 < tor.blockSize
  {
    b < tor.BlockCount() && tor.blockSize * b <= tor.PieceOffset(index, offset) < tor.blockSize * b + tor.BlockBytes(b)
  }

  /** The end of the data in its piece, in 32-bit arithmetic, is not past the piece's end. */
  predicate EndsInPiece(end: nat, bytes: nat)
  {
    end <= bytes || (U32_MOD <= end && end - U32_MOD <= bytes)
  }

  /** The torrent is known, and so many bytes there may be asked for: inside the piece and the
      torrent, and no more than the largest block. */
  predicate IsRequestable(cfg: Config, index: nat, offset: nat, n: nat)
    requires cfg.Valid()
  {
    && cfg.hasMetadata && index < cfg.tor.PieceCount()
    && EndsInPiece(offset + n, cfg.tor.PieceBytes(index))
    && cfg.tor.PieceOffset(index, offset) + n <= cfg.tor.totalSize
    && n <= 16384
  }

  /** They are as many as the block has that their address lies in. */
  ghost predicate IsBlockSized(tor: Torrent, index: nat, offset: nat, n: nat)
    requires 0 < tor.blockSize
  {
    exists b :: FallsIn(tor, index, offset, b) && n == tor.BlockBytes(b)
  }

  /** What is to be reported of a piece message: the block, or an errno. */
  ghost function BlockReport(cfg: Config, index: u32, offset: u32, data: seq<byte>): Event
    requires cfg.Valid()
  {
    if !IsRequestable(cfg, index, offset, |data|) then Failed(74)
    else if !IsBlockSized(cfg.tor, index, offset, |data|) then Failed(90)
    else Got(Piece(index, offset, data))
  }

  lemma Wraps(a: u32, n: u32, bytes: nat)
    ensures (a + n) % U32_MOD <= bytes <==> EndsInPiece(a + n, bytes) || U32_MOD <= bytes
  {
  }

  /** One block is where an address lies. */
  lemma FallsInOne(tor: Torrent, index: nat, offset: nat, b: nat)
    requires tor.Valid() && FallsIn(tor, index, offset, b)
    ensures b == tor.BlockOf(index, offset)
  {
    BlockRange(tor, b);
    BlockOfIsFlat(tor, index, offset);
    DivIsUnique(tor.PieceOffset(index, offset), tor.blockSize, b);
  }

  lemma AddressFallsIn(tor: Torrent, index: nat, offset: nat)
    requires tor.Valid() && tor.PieceOffset(index, offset) < tor.totalSize
    ensures FallsIn(tor, index, offset, tor.BlockOf(index, offset)) && tor.BlockBytes(tor.BlockOf(index, offset)) <= MAX_BLOCK_SIZE
  {
    AddressFalls(tor, index, offset);
  }

  /** A block is good if and only if it has the size of the block its address lies in. */
  lemma BlockIsCheckedExactly(cfg: Config, index: u32, offset: u32, data: seq<byte>)
    requires cfg.Valid() && cfg.tor.Valid() && 0 < |data| < U32_MOD && cfg.tor.pieceSize < U32_MOD
    ensures CheckBlock(cfg, Request(index, offset, |data|), data) == BlockReport(cfg, index, offset, data)
  {
    hide Torrent.FilesAreContiguous, Torrent.PieceCount, Torrent.BlockCount, Torrent.BlockOf, Torrent.PieceOffset,
      Torrent.BlockBytes, Torrent.PieceBytes, EndsInPiece, FallsIn;
    var tor, block := cfg.tor, cfg.tor.BlockOf(index, offset);
    if index < tor.PieceCount() {
      PieceBytesRange(tor, index);
      Wraps(offset, |data|, tor.PieceBytes(index));
    }
    if tor.PieceOffset(index, offset) < tor.totalSize {
      AddressFallsIn(tor, index, offset);
    }
    forall b | FallsIn(tor, index, offset, b)
      ensures b == block
    {
      FallsInOne(tor, index, offset, b);
    }
  }

  /** The data after the header, all at once. */
  lemma DataIsJudged(cfg: Config, d: Conn, data: seq<byte>)
    requires cfg.Valid() && Inv(d.r) && d.inbuf == [] && !d.failed && d.r.phase == AwaitingPiece
    requires 0 < |data| == d.r.req.length && d.r.block == []
    ensures Reported(d, Arrive(cfg, d, data), CheckBlock(cfg, d.r.req, data))
  {
    hide CheckBlock;
    assert data[..|data|] == data && data[|data|..] == [] && [] + data == data;
    ArriveOnce(cfg, d, data);
  }

  lemma PieceIsJudged(cfg: Config, c: Conn, index: u32, offset: u32, data: seq<byte>)
    requires cfg.Valid() && Idle(c) && 0 < |data| < U32_MOD - 9
    ensures Reported(c, Arrive(cfg, c, Encode(Piece(index, offset, data))), CheckBlock(cfg, Request(index, offset, |data|), data))
  {
    hide ReadU32, U32, CheckBlock, Arrive;
    var len, head := |data| + 9, U32(index) + U32(offset);
    assert (len - 9) % U32_MOD == |data|;
    PieceHeaderIsRead(cfg, c, len, index, offset);
    var d := Arrive(cfg, c, U32(len) + [BT_PIECE] + head);
    DataIsJudged(cfg, d, data);
    ArriveJoins(cfg, c, U32(len) + [BT_PIECE] + head, data);
    assert Encode(Piece(index, offset, data)) == U32(len) + [BT_PIECE] + head + data;
  }

  /** A nonempty piece message is reported if and only if the torrent is known, the data lies
      inside it, and there is as much as in the block that its address lies in; otherwise the
      connection ends. */
  lemma PieceIsReadExactly(cfg: Config, c: Conn, index: u32, offset: u32, data: seq<byte>)
    requires cfg.Valid() && cfg.tor.Valid() && cfg.tor.pieceSize < U32_MOD && Idle(c) && 0 < |data| < U32_MOD - 9
    ensures var d := Arrive(cfg, c, Encode(Piece(index, offset, data)));
      if !IsRequestable(cfg, index, offset, |data|) then Reported(c, d, Failed(74))
      else if !IsBlockSized(cfg.tor, index, offset, |data|) then Reported(c, d, Failed(90))
      else Reported(c, d, Got(Piece(index, offset, data)))
  {
    hide Arrive, Encode, CheckBlock, IsRequestable, IsBlockSized, Idle, Reported;
    PieceIsJudged(cfg, c, index, offset, data);
    BlockIsCheckedExactly(cfg, index, offset, data);
  }
}
