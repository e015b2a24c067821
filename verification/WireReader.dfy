/** The resumable reader of peer-msgs.c and the loop of peer-io.c that drives it, as
    functions of the reader's state and the bytes waiting in the input buffer. */
module WireReader {
  import opened Geometry
  import opened WireMessages

  datatype Phase = AwaitingLength | AwaitingId | AwaitingMessage | AwaitingPiece

  const EMSGSIZE := 90
  const ERANGE := 34
  const EBADMSG := 74

  const NO_REQUEST := Request(0, 0, 0)

  /** What does not change while a connection lasts: whether it speaks the fast extension,
      and the torrent, if its metadata is known. */
  datatype Config = Config(fext: bool, hasMetadata: bool, metadataSizeHint: nat, tor: Torrent)
  {
    ghost predicate Valid()
    {
      0 < tor.pieceSize && 0 < tor.blockSize
    }
  }

  /** msgs->state and msgs->incoming */
  datatype Reader = Reader(phase: Phase, length: u32, id: byte, req: Request, block: seq<byte>)

  const START := Reader(AwaitingLength, 0, 0, NO_REQUEST, [])

  datatype Event = Got(msg: Message) | Failed(errno: int)

  datatype Ret = Now | Later | Err

  datatype Step = Step(r: Reader, rest: seq<byte>, events: seq<Event>, pieceBytes: nat, ret: Ret)

  /** The phases agree with what has been read of the message so far. */
  ghost predicate Inv(r: Reader)
  {
    match r.phase
    case AwaitingLength => r.req.length == 0 && r.block == []
    case AwaitingId => 1 <= r.length && r.req.length == 0 && r.block == []
    case AwaitingMessage => 2 <= r.length && r.id != BT_PIECE && r.req.length == 0 && r.block == []
    case AwaitingPiece => if r.req.length == 0 then r.block == [] else |r.block| < r.req.length
  }

  // ----- the four states -----

  /** readBtLength */
  function ReadLength(r: Reader, x: seq<byte>): Step
  {
    if |x| < 4 then Step(r, x, [], 0, Later)
    else
      var len := ReadU32(x);
      if len == 0 then Step(r, x[4..], [Got(KeepAlive)], 0, Now)
      else Step(r.(length := len, phase := AwaitingId), x[4..], [], 0, Now)
  }

  /** messageLengthIsCorrect */
  predicate MessageLengthIsCorrect(cfg: Config, id: byte, len: int)
    requires 0 < cfg.tor.pieceSize
  {
    if id in {BT_CHOKE, BT_UNCHOKE, BT_INTERESTED, BT_NOT_INTERESTED, BT_FEXT_HAVE_ALL, BT_FEXT_HAVE_NONE} then len == 1
    else if id in {BT_HAVE, BT_FEXT_SUGGEST, BT_FEXT_ALLOWED_FAST} then len == 5
    else if id == BT_BITFIELD then
      if cfg.hasMetadata then len == (cfg.tor.PieceCount() + 7) / 8 + 1
      else if 0 < cfg.metadataSizeHint then len <= cfg.metadataSizeHint
      else true
    else if id in {BT_REQUEST, BT_CANCEL, BT_FEXT_REJECT} then len == 13
    else if id == BT_PIECE then 9 < len <= 16393
    else if id == BT_PORT then len == 3
    else if id == BT_LTEP then 2 <= len
    else false
  }

  function ReadRequest(x: seq<byte>): Request
    requires 12 <= |x|
  {
    Request(ReadU32(x), ReadU32(x[4..]), ReadU32(x[8..]))
  }

  /** A message that only peers with the fast extension may send. */
  function FastOnly(cfg: Config, m: Message): Event
  {
    if cfg.fext then Got(m) else Failed(EMSGSIZE)
  }

  /** The switch of readBtMessage: what a payload of the right length is reported as. */
  function Interpret(cfg: Config, id: byte, payload: seq<byte>): Event
    requires 0 < cfg.tor.pieceSize && MessageLengthIsCorrect(cfg, id, |payload| + 1) && id != BT_PIECE
  {
    if id == BT_CHOKE then Got(Choke)
    else if id == BT_UNCHOKE then Got(Unchoke)
    else if id == BT_INTERESTED then Got(Interested)
    else if id == BT_NOT_INTERESTED then Got(NotInterested)
    else if id == BT_HAVE then
      if cfg.hasMetadata && cfg.tor.PieceCount() <= ReadU32(payload) then Failed(ERANGE)
      else Got(Have(ReadU32(payload)))
    else if id == BT_BITFIELD then Got(Bitfield(payload))
    else if id == BT_REQUEST then Got(Ask(ReadRequest(payload)))
    else if id == BT_CANCEL then Got(Cancel(ReadRequest(payload)))
    else if id == BT_PORT then Got(Port(ReadU16(payload)))
    else if id == BT_FEXT_SUGGEST then FastOnly(cfg, Suggest(ReadU32(payload)))
    else if id == BT_FEXT_ALLOWED_FAST then FastOnly(cfg, AllowedFast(ReadU32(payload)))
    else if id == BT_FEXT_HAVE_ALL then FastOnly(cfg, HaveAll)
    else if id == BT_FEXT_HAVE_NONE then FastOnly(cfg, HaveNone)
    else if id == BT_FEXT_REJECT then FastOnly(cfg, Reject(ReadRequest(payload)))
    else Got(Ltep(payload))
  }

  /** readBtMessage.  A message is reported, or refused, only once all of it is here. */
  function ReadMessage(cfg: Config, r: Reader, x: seq<byte>): Step
    requires 0 < cfg.tor.pieceSize && 1 <= r.length && r.id != BT_PIECE
  {
    var msglen := r.length - 1;
    if |x| < msglen then Step(r, x, [], 0, Later)
    else if !MessageLengthIsCorrect(cfg, r.id, r.length) then Step(r, x, [Failed(EMSGSIZE)], 0, Err)
    else
      var event := Interpret(cfg, r.id, x[..msglen]);
      if event.Failed? then Step(r, x[msglen..], [event], 0, Err)
      else Step(r.(phase := AwaitingLength), x[msglen..], [event], 0, Now)
  }

  /** readBtId */
  function ReadId(cfg: Config, r: Reader, x: seq<byte>): Step
    requires 0 < cfg.tor.pieceSize && 1 <= r.length
  {
    if |x| < 1 then Step(r, x, [], 0, Later)
    else
      var id := x[0];
      if id == BT_PIECE then Step(r.(id := id, phase := AwaitingPiece), x[1..], [], 0, Now)
      else if r.length != 1 then Step(r.(id := id, phase := AwaitingMessage), x[1..], [], 0, Now)
      else ReadMessage(cfg, r.(id := id), x[1..])
  }

  /** tr_torrentReqIsValid, with its 32-bit sum. */
  predicate ReqIsValid(tor: Torrent, req: Request)
    requires 0 < tor.pieceSize
  {
    && req.index < tor.PieceCount()
    && 1 <= req.length
    && (req.offset + req.length) % U32_MOD <= tor.PieceBytes(req.index)
    && req.length <= MAX_BLOCK_SIZE
    && tor.PieceOffset(req.index, req.offset) + req.length <= tor.totalSize
  }

  /** clientGotBlock: a block of the wrong place or size is an error; storing it is
      the cache's business. */
  function CheckBlock(cfg: Config, req: Request, data: seq<byte>): Event
    requires 0 < cfg.tor.pieceSize && 0 < cfg.tor.blockSize
  {
    if !cfg.hasMetadata || !ReqIsValid(cfg.tor, req) then Failed(EBADMSG)
    else if req.length != cfg.tor.BlockBytes(cfg.tor.BlockOf(req.index, req.offset)) then Failed(EMSGSIZE)
    else Got(Piece(req.index, req.offset, data))
  }

  /** readBtPiece: first the 8-byte header, then the data in however many chunks it comes. */
  function ReadPiece(cfg: Config, r: Reader, x: seq<byte>): Step
    requires 0 < cfg.tor.pieceSize && 0 < cfg.tor.blockSize
    requires 0 < r.req.length ==> |r.block| < r.req.length
  {
    if r.req.length == 0 then
      if |x| < 8 then Step(r, x, [], 0, Later)
      else Step(r.(req := Request(ReadU32(x), ReadU32(x[4..]), (r.length - 9) % U32_MOD)), x[8..], [], 0, Now)
    else
      var left := r.req.length - |r.block|;
      var n := if left < |x| then left else |x|;
      var block := r.block + x[..n];
      if |block| < r.req.length then Step(r.(block := block), x[n..], [], n, Later)
      else
        var event := CheckBlock(cfg, r.req, block);
        Step(r.(phase := AwaitingLength, req := r.req.(length := 0), block := []), x[n..], [event], n,
             if event.Failed? then Err else Now)
  }

  /** canRead */
  function CanRead(cfg: Config, r: Reader, x: seq<byte>): Step
    requires cfg.Valid() && Inv(r)
  {
    if x == [] then Step(r, x, [], 0, Later)
    else match r.phase
      case AwaitingPiece => ReadPiece(cfg, r, x)
      case AwaitingLength => ReadLength(r, x)
      case AwaitingId => ReadId(cfg, r, x)
      case AwaitingMessage => ReadMessage(cfg, r, x)
  }

  lemma StepKeepsInv(cfg: Config, r: Reader, x: seq<byte>)
    requires cfg.Valid() && Inv(r)
    ensures var s := CanRead(cfg, r, x);
      && (s.ret != Err ==> Inv(s.r))
      && (s.ret == Now ==> |s.rest| < |x|)
  {
    hide ReadMessage, ReadPiece, ReadU32;
    match r.phase
    case AwaitingMessage => MessageStep(cfg, r, x);
    case AwaitingPiece => PieceStep(cfg, r, x);
    case AwaitingId =>
      if x != [] {
        MessageStep(cfg, r.(id := x[0]), x[1..]);
      }
    case AwaitingLength =>
  }

  lemma MessageStep(cfg: Config, r: Reader, x: seq<byte>)
    requires cfg.Valid() && 1 <= r.length && r.req.length == 0 && r.block == []
    ensures r.id != BT_PIECE ==> var s := ReadMessage(cfg, r, x);
      && (s.ret == Later ==> s.r == r)
      && (s.ret == Now ==> Inv(s.r) && |s.rest| == |x| - (r.length - 1))
      && (r.length == 1 ==> s.ret != Later)
  {
    hide Interpret, MessageLengthIsCorrect;
  }

  lemma PieceStep(cfg: Config, r: Reader, x: seq<byte>)
    requires cfg.Valid() && Inv(r) && r.phase == AwaitingPiece
    ensures var s := ReadPiece(cfg, r, x);
      && (s.ret != Err ==> Inv(s.r))
      && (s.ret == Now ==> |s.rest| < |x|)
  {
    hide CheckBlock, ReadU32;
  }

  // ----- the loop that drives it -----

  /** A connection: the reader, the input buffer, and what has been reported so far.
      `failed` says that the last call of the loop ended in READ_ERR. */
  datatype Conn = Conn(r: Reader, inbuf: seq<byte>, events: seq<Event>, pieceBytes: nat, failed: bool)

  const CONNECTED := Conn(START, [], [], 0, false)

  function Advance(c: Conn, s: Step): Conn
  {
    Conn(s.r, s.rest, c.events + s.events, c.pieceBytes + s.pieceBytes, s.ret == Err)
  }

  /** canReadWrapper: reads until the buffer is empty, more is needed, or an error. */
  ghost function Drain(cfg: Config, c: Conn): Conn
    requires cfg.Valid() && Inv(c.r)
    decreases |c.inbuf|
  {
    StepKeepsInv(cfg, c.r, c.inbuf);
    var s := CanRead(cfg, c.r, c.inbuf);
    var d := Advance(c, s);
    if s.ret == Now && s.rest != [] then Drain(cfg, d) else d
  }

  /** Bytes arrive and the loop runs. */
  ghost function Arrive(cfg: Config, c: Conn, chunk: seq<byte>): Conn
    requires cfg.Valid() && Inv(c.r)
  {
    Drain(cfg, c.(inbuf := c.inbuf + chunk, failed := false))
  }

  lemma {:induction false} DrainKeepsInv(cfg: Config, c: Conn)
    requires cfg.Valid() && Inv(c.r)
    ensures !Drain(cfg, c).failed ==> Inv(Drain(cfg, c).r)
    decreases |c.inbuf|
  {
    hide CanRead, Inv;
    StepKeepsInv(cfg, c.r, c.inbuf);
    var s := CanRead(cfg, c.r, c.inbuf);
    if s.ret == Now && s.rest != [] {
      DrainKeepsInv(cfg, Advance(c, s));
    }
  }

  // ----- the result does not depend on how the bytes arrive -----

  /** A step that finishes, or fails, would do the same with more bytes behind it. */
  lemma StepIgnoresMore(cfg: Config, r: Reader, x: seq<byte>, b: seq<byte>)
    requires cfg.Valid() && Inv(r) && CanRead(cfg, r, x).ret != Later
    ensures CanRead(cfg, r, x + b) == CanRead(cfg, r, x).(rest := CanRead(cfg, r, x).rest + b)
  {
    hide ReadLength, ReadId, ReadMessage, ReadPiece;
    assert x + b != [];
    match r.phase
    case AwaitingLength =>
      LengthIgnoresMore(r, x, b);
    case AwaitingId =>
      IdIgnoresMore(cfg, r, x, b);
    case AwaitingMessage =>
      MessageIgnoresMore(cfg, r, x, b);
    case AwaitingPiece =>
      PieceIgnoresMore(cfg, r, x, b);
  }

  lemma DropJoins(x: seq<byte>, b: seq<byte>, n: nat)
    ensures n <= |x| ==> (x + b)[..n] == x[..n] && (x + b)[n..] == x[n..] + b
  {
  }

  lemma LengthIgnoresMore(r: Reader, x: seq<byte>, b: seq<byte>)
    requires ReadLength(r, x).ret != Later
    ensures ReadLength(r, x + b) == ReadLength(r, x).(rest := ReadLength(r, x).rest + b)
  {
    DropJoins(x, b, 4);
  }

  lemma IdIgnoresMore(cfg: Config, r: Reader, x: seq<byte>, b: seq<byte>)
    requires 0 < cfg.tor.pieceSize && 1 <= r.length && ReadId(cfg, r, x).ret != Later
    ensures ReadId(cfg, r, x + b) == ReadId(cfg, r, x).(rest := ReadId(cfg, r, x).rest + b)
  {
    hide ReadMessage;
    DropJoins(x, b, 1);
    assert (x + b)[0] == x[0];
    MessageIgnoresMore(cfg, r.(id := x[0]), x[1..], b);
  }

  lemma MessageIgnoresMore(cfg: Config, r: Reader, x: seq<byte>, b: seq<byte>)
    requires 0 < cfg.tor.pieceSize && 1 <= r.length
    ensures r.id != BT_PIECE && ReadMessage(cfg, r, x).ret != Later ==>
      ReadMessage(cfg, r, x + b) == ReadMessage(cfg, r, x).(rest := ReadMessage(cfg, r, x).rest + b)
  {
    hide Interpret, MessageLengthIsCorrect;
    var msglen := r.length - 1;
    if msglen <= |x| {
      DropJoins(x, b, msglen);
    }
  }

  lemma PieceIgnoresMore(cfg: Config, r: Reader, x: seq<byte>, b: seq<byte>)
    requires cfg.Valid() && Inv(r) && r.phase == AwaitingPiece && ReadPiece(cfg, r, x).ret != Later
    ensures ReadPiece(cfg, r, x + b) == ReadPiece(cfg, r, x).(rest := ReadPiece(cfg, r, x).rest + b)
  {
    hide CheckBlock;
    if r.req.length == 0 {
      DropJoins(x, b, 8);
      DropJoins(x, b, 4);
    } else {
      var n := r.req.length - |r.block|;
      DropJoins(x, b, n);
    }
  }

  /** Stopping for more bytes and going on when they come is reading them all at once. */
  lemma StepResumes(cfg: Config, c: Conn, b: seq<byte>)
    requires cfg.Valid() && Inv(c.r) && !c.failed && CanRead(cfg, c.r, c.inbuf).ret == Later
    ensures Inv(CanRead(cfg, c.r, c.inbuf).r)
    ensures var d := Advance(c, CanRead(cfg, c.r, c.inbuf));
      Drain(cfg, c.(inbuf := c.inbuf + b)) == Drain(cfg, d.(inbuf := d.inbuf + b))
  {
    hide Interpret, CheckBlock, MessageLengthIsCorrect;
    StepKeepsInv(cfg, c.r, c.inbuf);
    var s := CanRead(cfg, c.r, c.inbuf);
    if c.inbuf != [] && c.r.phase == AwaitingPiece && 0 < c.r.req.length {
      assert s.rest == [] && s.r.block == c.r.block + c.inbuf;
      if b == [] {
        assert c.inbuf + b == c.inbuf;
      } else {
        PieceResumes(cfg, c.r, c.inbuf, b);
        var d := Advance(c, s);
        assert d.events == c.events && d.inbuf + b == b;
        assert Advance(c.(inbuf := c.inbuf + b), CanRead(cfg, c.r, c.inbuf + b))
            == Advance(d.(inbuf := d.inbuf + b), CanRead(cfg, d.r, d.inbuf + b));
      }
    } else {
      assert s == Step(c.r, c.inbuf, [], 0, Later);
      assert Advance(c, s) == c;
    }
  }

  lemma PieceResumes(cfg: Config, r: Reader, x: seq<byte>, b: seq<byte>)
    requires cfg.Valid() && Inv(r) && r.phase == AwaitingPiece && 0 < r.req.length
    requires |r.block| + |x| < r.req.length
    ensures var s, t := ReadPiece(cfg, r, x + b), ReadPiece(cfg, r.(block := r.block + x), b);
      s == t.(pieceBytes := |x| + t.pieceBytes)
  {
    hide CheckBlock;
    var left := r.req.length - |r.block|;
    if left <= |x + b| {
      assert (x + b)[..left] == x + b[..left - |x|] && (x + b)[left..] == b[left - |x|..];
      assert r.block + (x + b)[..left] == r.block + x + b[..left - |x|];
    } else {
      assert (x + b)[..|x + b|] == x + b && b[..|b|] == b;
      assert r.block + (x + b) == r.block + x + b;
    }
  }

  /** The heart of it: draining a longer buffer is draining the shorter one and going on. */
  lemma {:induction false} DrainSplits(cfg: Config, c: Conn, b: seq<byte>)
    requires cfg.Valid() && Inv(c.r) && !c.failed
    ensures var d := Drain(cfg, c);
      if d.failed then Drain(cfg, c.(inbuf := c.inbuf + b)) == d.(inbuf := d.inbuf + b)
      else Inv(d.r) && Drain(cfg, c.(inbuf := c.inbuf + b)) == Drain(cfg, d.(inbuf := d.inbuf + b))
    decreases |c.inbuf|
  {
    hide CanRead, Inv;
    DrainKeepsInv(cfg, c);
    StepKeepsInv(cfg, c.r, c.inbuf);
    var s := CanRead(cfg, c.r, c.inbuf);
    if s.ret == Later {
      StepResumes(cfg, c, b);
    } else {
      StepIgnoresMore(cfg, c.r, c.inbuf, b);
      if s.ret == Now {
        if s.rest != [] {
          DrainSplits(cfg, Advance(c, s), b);
        } else if b == [] {
          assert s.rest + b == [];
          DrainOfNothing(cfg, Advance(c, s));
        }
      }
    }
  }

  lemma DrainOfNothing(cfg: Config, c: Conn)
    requires cfg.Valid() && Inv(c.r) && c.inbuf == [] && !c.failed
    ensures Drain(cfg, c) == c
  {
    hide Interpret, CheckBlock, MessageLengthIsCorrect;
  }

  /** Arrivals one after another; an error ends the connection. */
  ghost function ArriveAll(cfg: Config, c: Conn, chunks: seq<seq<byte>>): Conn
    requires cfg.Valid() && Inv(c.r)
    ensures !c.failed && !ArriveAll(cfg, c, chunks).failed ==> Inv(ArriveAll(cfg, c, chunks).r)
    decreases |chunks|
  {
    if chunks == [] then c
    else
      var d := Arrive(cfg, c, chunks[0]);
      DrainKeepsInv(cfg, c.(inbuf := c.inbuf + chunks[0], failed := false));
      if d.failed then d else ArriveAll(cfg, d, chunks[1..])
  }

  function Join(chunks: seq<seq<byte>>): seq<byte>
  {
    if chunks == [] then [] else chunks[0] + Join(chunks[1..])
  }

  /** A connection at rest: everything that could be read has been. */
  ghost predicate AtRest(cfg: Config, c: Conn)
    requires cfg.Valid()
  {
    Inv(c.r) && !c.failed && Drain(cfg, c) == c
  }

  lemma {:induction false} DrainRests(cfg: Config, c: Conn)
    requires cfg.Valid() && Inv(c.r) && !c.failed
    ensures !Drain(cfg, c).failed ==> AtRest(cfg, Drain(cfg, c))
  {
    DrainKeepsInv(cfg, c);
    DrainSplits(cfg, c, []);
    assert c.inbuf + [] == c.inbuf && Drain(cfg, c).inbuf + [] == Drain(cfg, c).inbuf;
  }

  /** However a byte stream is cut into arrivals, the reports, the reader's state and the bytes
      left over are those of a single arrival; only after an error do leftovers differ, by
      the bytes that had not arrived. */
  lemma {:induction false} ChunkingIsInvisible(cfg: Config, c: Conn, chunks: seq<seq<byte>>)
    requires cfg.Valid() && AtRest(cfg, c)
    ensures var whole, cut := Arrive(cfg, c, Join(chunks)), ArriveAll(cfg, c, chunks);
      && whole.failed == cut.failed
      && whole.events == cut.events && whole.r == cut.r && whole.pieceBytes == cut.pieceBytes
      && cut.inbuf <= whole.inbuf
      && (!whole.failed ==> whole == cut)
    decreases |chunks|
  {
    if chunks == [] {
      assert c.inbuf + [] == c.inbuf;
    } else {
      var c0 := c.(inbuf := c.inbuf + chunks[0]);
      var d, rest := Drain(cfg, c0), Join(chunks[1..]);
      DrainSplits(cfg, c0, rest);
      assert c.inbuf + (chunks[0] + rest) == c.inbuf + chunks[0] + rest;
      if !d.failed {
        DrainRests(cfg, c0);
        ChunkingIsInvisible(cfg, d, chunks[1..]);
      }
    }
  }

  // ----- reading back what was written -----

  /** `data` is one whole block of the torrent, at its place inside its piece. */
  ghost predicate IsWholeBlock(tor: Torrent, index: nat, offset: nat, data: seq<byte>)
    requires 0 < tor.blockSize && 0 < tor.pieceSize
  {
    && index < tor.PieceCount()
    && offset + |data| <= tor.PieceBytes(index)
    && exists b: nat :: b < tor.BlockCount() && tor.PieceOffset(index, offset) == tor.blockSize * b && |data| == tor.BlockBytes(b)
  }

  /** A message that a peer may send under BEP 3 and, on a connection that speaks it, the fast
      extension of BEP 6: it names pieces of the torrent, a bitfield has one bit for each of
      them and no spare byte, and a piece message carries a whole block to a client that knows
      the torrent and so can have asked for it. */
  ghost predicate WellFormed(cfg: Config, m: Message)
    requires cfg.Valid()
  {
    match m
    case Have(piece) => piece < cfg.tor.PieceCount()
    case Bitfield(bits) => |bits| == CeilDiv(cfg.tor.PieceCount(), 8)
    case Piece(index, offset, data) => cfg.hasMetadata && IsWholeBlock(cfg.tor, index, offset, data)
    case Suggest(_) => cfg.fext
    case AllowedFast(_) => cfg.fext
    case HaveAll => cfg.fext
    case HaveNone => cfg.fext
    case Reject(_) => cfg.fext
    case Ltep(payload) => 0 < |payload| < U32_MOD - 1
    case _ => true
  }

  function CeilDiv(n: nat, d: nat): nat
    requires 0 < d
  {
    if n % d == 0 then n / d else n / d + 1
  }

  /** The torrent is sound, and a metadata size announced before it is known has room for the
      20-byte hash of each piece, as BEP 3 lays the metadata out. */
  ghost predicate Sound(cfg: Config)
  {
    && cfg.Valid() && cfg.tor.Valid() && cfg.tor.PieceCount() < U32_MOD
    && (cfg.hasMetadata || cfg.metadataSizeHint == 0 || 20 * cfg.tor.PieceCount() <= cfg.metadataSizeHint)
  }

  /** What the reader lets through: its length check, its switch and its check of a block. */
  predicate Accepted(cfg: Config, m: Message)
    requires cfg.Valid()
  {
    if m.KeepAlive? then true
    else if m.Piece? then
      && 0 < |m.data| <= MAX_BLOCK_SIZE
      && CheckBlock(cfg, Request(m.index, m.offset, |m.data|), m.data).Got?
    else
      && |Payload(m)| + 1 < U32_MOD
      && MessageLengthIsCorrect(cfg, IdOf(m), |Payload(m)| + 1)
      && Interpret(cfg, IdOf(m), Payload(m)).Got?
  }

  lemma WholeBlockIsAccepted(cfg: Config, m: Message)
    requires Sound(cfg) && m.Piece? && WellFormed(cfg, m)
    ensures 0 < |m.data| <= MAX_BLOCK_SIZE && CheckBlock(cfg, Request(m.index, m.offset, |m.data|), m.data).Got?
  {
    var tor := cfg.tor;
    var b: nat :| b < tor.BlockCount() && tor.PieceOffset(m.index, m.offset) == tor.blockSize * b && |m.data| == tor.BlockBytes(b);
    BlockRange(tor, b);
    BlockOfIsFlat(tor, m.index, m.offset);
    DivIsUnique(tor.PieceOffset(m.index, m.offset), tor.blockSize, b);
    PieceBytesRange(tor, m.index);
    assert (m.offset + |m.data|) % U32_MOD <= m.offset + |m.data|;
  }

  /** The reader lets every well-formed message through. */
  lemma WellFormedIsAccepted(cfg: Config, m: Message)
    requires Sound(cfg) && WellFormed(cfg, m)
    ensures Accepted(cfg, m)
  {
    hide U32, ReadU32, CheckBlock, Torrent.PieceCount, Torrent.Valid, IsWholeBlock;
    match m
    case Have(piece) => U32RoundTrip(piece, []); assert U32(piece) + [] == U32(piece);
    case Bitfield(bits) => BitfieldFits(cfg, bits);
    case Piece(_, _, _) => WholeBlockIsAccepted(cfg, m);
    case _ =>
  }

  lemma BitfieldFits(cfg: Config, bits: seq<byte>)
    requires Sound(cfg) && |bits| == CeilDiv(cfg.tor.PieceCount(), 8)
    ensures |bits| + 1 < U32_MOD && MessageLengthIsCorrect(cfg, BT_BITFIELD, |bits| + 1)
  {
    LastPieceHolds(cfg.tor);
    hide Torrent.PieceCount, Torrent.Valid;
  }

  lemma InterpretInverts(cfg: Config, m: Message)
    requires cfg.Valid() && !m.KeepAlive? && !m.Piece? && |Payload(m)| + 1 < U32_MOD
    requires MessageLengthIsCorrect(cfg, IdOf(m), |Payload(m)| + 1) && Interpret(cfg, IdOf(m), Payload(m)).Got?
    ensures Interpret(cfg, IdOf(m), Payload(m)) == Got(m)
  {
    hide ReadU32, U32, MessageLengthIsCorrect, ReadU16, U16;
    match m
    case Have(p) => U32RoundTrip(p, []); assert U32(p) + [] == U32(p);
    case Suggest(p) => U32RoundTrip(p, []); assert U32(p) + [] == U32(p);
    case AllowedFast(p) => U32RoundTrip(p, []); assert U32(p) + [] == U32(p);
    case Port(p) => U16RoundTrip(p);
    case Ask(r) => RequestRoundTrip(r);
    case Cancel(r) => RequestRoundTrip(r);
    case Reject(r) => RequestRoundTrip(r);
    case _ =>
  }

  lemma RequestRoundTrip(r: Request)
    ensures ReadRequest(Bytes3(r)) == r
  {
    hide ReadU32, U32;
    var s := Bytes3(r);
    U32RoundTrip(r.index, U32(r.offset) + U32(r.length));
    U32RoundTrip(r.offset, U32(r.length));
    U32RoundTrip(r.length, []);
    assert s == U32(r.index) + (U32(r.offset) + U32(r.length));
    assert s[4..] == U32(r.offset) + U32(r.length) && s[8..] == U32(r.length) + [];
  }

  /** Between two messages. */
  ghost predicate Idle(c: Conn)
  {
    Inv(c.r) && c.r.phase == AwaitingLength && c.inbuf == [] && !c.failed
  }

  lemma ArriveJoins(cfg: Config, c: Conn, a: seq<byte>, b: seq<byte>)
    requires cfg.Valid() && Inv(c.r) && !c.failed && !Arrive(cfg, c, a).failed
    ensures Inv(Arrive(cfg, c, a).r) && Arrive(cfg, c, a + b) == Arrive(cfg, Arrive(cfg, c, a), b)
  {
    hide CanRead, Inv;
    DrainSplits(cfg, c.(inbuf := c.inbuf + a), b);
    assert c.inbuf + (a + b) == c.inbuf + a + b;
  }

  /** An arrival that is used up in one step. */
  lemma ArriveOnce(cfg: Config, c: Conn, x: seq<byte>)
    requires cfg.Valid() && Inv(c.r) && c.inbuf == [] && CanRead(cfg, c.r, x).rest == []
    ensures Arrive(cfg, c, x) == Advance(c.(inbuf := x), CanRead(cfg, c.r, x))
  {
    hide CanRead, Inv;
    assert c.inbuf + x == x;
  }

  /** The length prefix and the id of a message with a payload. */
  lemma HeaderIsRead(cfg: Config, c: Conn, len: u32, id: byte)
    requires cfg.Valid() && Idle(c) && 1 <= len && (id == BT_PIECE || 2 <= len)
    ensures var d := Arrive(cfg, c, U32(len) + [id]);
      && d == c.(r := d.r) && Inv(d.r)
      && d.r == c.r.(length := len, id := id, phase := if id == BT_PIECE then AwaitingPiece else AwaitingMessage)
  {
    hide ReadU32, U32, Interpret, MessageLengthIsCorrect, CheckBlock;
    U32RoundTrip(len, []);
    assert U32(len) + [] == U32(len) && U32(len)[4..] == [];
    ArriveOnce(cfg, c, U32(len));
    var d := Arrive(cfg, c, U32(len));
    assert d == c.(r := c.r.(length := len, phase := AwaitingId));
    ArriveJoins(cfg, c, U32(len), [id]);
    ArriveOnce(cfg, d, [id]);
  }

  /** A message with no payload, keepalives included. */
  lemma ShortMessageIsRead(cfg: Config, c: Conn, m: Message)
    requires cfg.Valid() && Idle(c) && Accepted(cfg, m) && !m.Piece? && Payload(m) == []
    ensures var d := Arrive(cfg, c, Encode(m));
      Idle(d) && d == c.(r := d.r, events := c.events + [Got(m)])
  {
    hide ReadU32, U32, Interpret, MessageLengthIsCorrect, CheckBlock;
    if m.KeepAlive? {
      U32RoundTrip(0, []);
      assert U32(0) + [] == U32(0) && U32(0)[4..] == [];
      ArriveOnce(cfg, c, U32(0));
    } else {
      InterpretInverts(cfg, m);
      U32RoundTrip(1, []);
      assert U32(1) + [] == U32(1) && U32(1)[4..] == [];
      ArriveOnce(cfg, c, U32(1));
      var d := Arrive(cfg, c, U32(1));
      assert d == c.(r := c.r.(length := 1, phase := AwaitingId));
      ArriveJoins(cfg, c, U32(1), [IdOf(m)]);
      assert [IdOf(m)][1..] == [];
      ArriveOnce(cfg, d, [IdOf(m)]);
      assert Encode(m) == U32(1) + [IdOf(m)];
    }
  }

  /** Any other message but a piece. */
  lemma LongMessageIsRead(cfg: Config, c: Conn, m: Message)
    requires cfg.Valid() && Idle(c) && Accepted(cfg, m) && !m.Piece? && Payload(m) != []
    ensures var d := Arrive(cfg, c, Encode(m));
      Idle(d) && d == c.(r := d.r, events := c.events + [Got(m)])
  {
    hide ReadU32, U32, Interpret, MessageLengthIsCorrect, CheckBlock;
    var len, x := |Payload(m)| + 1, Payload(m);
    HeaderIsRead(cfg, c, len, IdOf(m));
    var d := Arrive(cfg, c, U32(len) + [IdOf(m)]);
    InterpretInverts(cfg, m);
    assert x[..len - 1] == x && x[len - 1..] == [];
    ArriveJoins(cfg, c, U32(len) + [IdOf(m)], x);
    ArriveOnce(cfg, d, x);
  }

  /** The header of a piece message: index and offset, and the length that is left over
      from the message's, modulo 2^32. */
  lemma PieceHeaderIsRead(cfg: Config, c: Conn, len: u32, index: u32, offset: u32)
    requires cfg.Valid() && Idle(c) && 1 <= len
    ensures var d := Arrive(cfg, c, U32(len) + [BT_PIECE] + (U32(index) + U32(offset)));
      && Inv(d.r) && d == c.(r := d.r)
      && d.r == Reader(AwaitingPiece, len, BT_PIECE, Request(index, offset, (len - 9) % U32_MOD), [])
  {
    hide ReadU32, U32, CheckBlock;
    HeaderIsRead(cfg, c, len, BT_PIECE);
    var d, x := Arrive(cfg, c, U32(len) + [BT_PIECE]), U32(index) + U32(offset);
    U32RoundTrip(index, U32(offset));
    U32RoundTrip(offset, []);
    assert x[4..] == U32(offset) + [] && x[8..] == [];
    ArriveJoins(cfg, c, U32(len) + [BT_PIECE], x);
    ArriveOnce(cfg, d, x);
  }

  lemma PieceIsRead(cfg: Config, c: Conn, m: Message)
    requires cfg.Valid() && Idle(c) && Accepted(cfg, m) && m.Piece?
    ensures var d := Arrive(cfg, c, Encode(m));
      Idle(d) && d == c.(r := d.r, events := c.events + [Got(m)], pieceBytes := c.pieceBytes + |m.data|)
  {
    hide ReadU32, U32, ReqIsValid;
    var len, head := |m.data| + 9, U32(m.index) + U32(m.offset);
    assert (len - 9) % U32_MOD == |m.data|;
    PieceHeaderIsRead(cfg, c, len, m.index, m.offset);
    var d := Arrive(cfg, c, U32(len) + [BT_PIECE] + head);
    assert m.data[..|m.data|] == m.data && m.data[|m.data|..] == [] && [] + m.data == m.data;
    ArriveJoins(cfg, c, U32(len) + [BT_PIECE] + head, m.data);
    ArriveOnce(cfg, d, m.data);
    assert Encode(m) == U32(len) + [BT_PIECE] + head + m.data;
  }

  function EncodeAll(ms: seq<Message>): seq<byte>
    requires forall m | m in ms :: |Payload(m)| + 1 < U32_MOD
  {
    if ms == [] then [] else Encode(ms[0]) + EncodeAll(ms[1..])
  }

  /** What a stream of messages should be reported as. */
  function Reports(ms: seq<Message>): seq<Event>
  {
    seq(|ms|, i requires 0 <= i < |ms| => Got(ms[i]))
  }

  /** A stream of messages that pass the reader's checks is reported message for message, and
      leaves the reader ready for the next. */
  lemma {:induction false} AcceptedStreamIsRead(cfg: Config, c: Conn, ms: seq<Message>)
    requires cfg.Valid() && Idle(c) && forall m | m in ms :: Accepted(cfg, m)
    ensures forall m | m in ms :: |Payload(m)| + 1 < U32_MOD
    ensures var d := Arrive(cfg, c, EncodeAll(ms));
      Idle(d) && d.events == c.events + Reports(ms)
    decreases |ms|
  {
    hide Accepted, Encode;
    forall m | m in ms
      ensures |Payload(m)| + 1 < U32_MOD
    {
      PayloadFits(cfg, m);
    }
    if ms == [] {
      assert c.inbuf + [] == [];
      DrainOfNothing(cfg, c);
    } else {
      MessageIsRead(cfg, c, ms[0]);
      var d := Arrive(cfg, c, Encode(ms[0]));
      ArriveJoins(cfg, c, Encode(ms[0]), EncodeAll(ms[1..]));
      AcceptedStreamIsRead(cfg, d, ms[1..]);
      assert Reports(ms) == [Got(ms[0])] + Reports(ms[1..]);
    }
  }

  lemma PayloadFits(cfg: Config, m: Message)
    requires cfg.Valid() && Accepted(cfg, m)
    ensures |Payload(m)| + 1 < U32_MOD
  {
    hide CheckBlock, Interpret, MessageLengthIsCorrect;
  }

  lemma MessageIsRead(cfg: Config, c: Conn, m: Message)
    requires cfg.Valid() && Idle(c) && Accepted(cfg, m)
    ensures |Payload(m)| + 1 < U32_MOD
    ensures var d := Arrive(cfg, c, Encode(m));
      Idle(d) && d.events == c.events + [Got(m)]
  {
    PayloadFits(cfg, m);
    hide Accepted, Encode;
    if m.Piece? {
      PieceIsRead(cfg, c, m);
    } else if Payload(m) == [] {
      ShortMessageIsRead(cfg, c, m);
    } else {
      LongMessageIsRead(cfg, c, m);
    }
  }

  /** Any stream of well-formed messages is reported message for message. */
  lemma StreamIsRead(cfg: Config, c: Conn, ms: seq<Message>)
    requires Sound(cfg) && Idle(c) && forall m | m in ms :: WellFormed(cfg, m)
    ensures forall m | m in ms :: |Payload(m)| + 1 < U32_MOD
    ensures var d := Arrive(cfg, c, EncodeAll(ms));
      Idle(d) && d.events == c.events + Reports(ms)
  {
    hide WellFormed, Accepted, Encode;
    forall m | m in ms
      ensures Accepted(cfg, m)
    {
      WellFormedIsAccepted(cfg, m);
    }
    AcceptedStreamIsRead(cfg, c, ms);
  }

  /** The two results together: cut the stream of messages any way at all. */
  lemma MessagesSurviveTheWire(cfg: Config, ms: seq<Message>, chunks: seq<seq<byte>>)
    requires Sound(cfg) && forall m | m in ms :: WellFormed(cfg, m)
    requires (forall m | m in ms :: |Payload(m)| + 1 < U32_MOD) && Join(chunks) == EncodeAll(ms)
    ensures var d := ArriveAll(cfg, CONNECTED, chunks);
      Idle(d) && d.events == Reports(ms)
  {
    hide WellFormed, Payload, EncodeAll, Reports, Join, ArriveAll, Arrive;
    DrainOfNothing(cfg, CONNECTED);
    StreamIsRead(cfg, CONNECTED, ms);
    ChunkingIsInvisible(cfg, CONNECTED, chunks);
  }

  /** A piece message is read back exactly when it has some data.  With none its length is 9,
      which leaves the request length at the value that means "no header yet": the reader
      takes the next 8 bytes of the stream for another header. */
  lemma EmptyPieceIsLost(cfg: Config, c: Conn, index: u32, offset: u32)
    requires cfg.Valid() && Idle(c)
    ensures var d := Arrive(cfg, c, Encode(Piece(index, offset, [])));
      && !d.failed && d.events == c.events && d.r.phase == AwaitingPiece && d.r.req.length == 0
  {
    hide ReadU32, U32, CheckBlock;
    PieceHeaderIsRead(cfg, c, 9, index, offset);
    assert Encode(Piece(index, offset, [])) == U32(9) + [BT_PIECE] + (U32(index) + U32(offset));
  }

  lemma PieceIsReadIffNonempty(cfg: Config, c: Conn, index: u32, offset: u32, data: seq<byte>)
    requires Sound(cfg) && Idle(c)
    requires data != [] ==> WellFormed(cfg, Piece(index, offset, data))
    ensures |data| + 9 < U32_MOD
    ensures data != [] <==>
      Arrive(cfg, c, Encode(Piece(index, offset, data))).events == c.events + [Got(Piece(index, offset, data))]
  {
    hide Encode, WellFormed, Accepted;
    if data == [] {
      EmptyPieceIsLost(cfg, c, index, offset);
      assert |c.events + [Got(Piece(index, offset, data))]| != |c.events|;
    } else {
      WellFormedIsAccepted(cfg, Piece(index, offset, data));
      MessageIsRead(cfg, c, Piece(index, offset, data));
    }
  }
}
