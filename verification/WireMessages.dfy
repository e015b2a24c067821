/** The peer wire protocol as a format: the messages of BEP 3 ("peer messages") and of the
    fast extension (BEP 6), how peer-msgs.c encodes them, and what the reader reports. */
module WireMessages {
  import opened Geometry

  const BT_CHOKE := 0
  const BT_UNCHOKE := 1
  const BT_INTERESTED := 2
  const BT_NOT_INTERESTED := 3
  const BT_HAVE := 4
  const BT_BITFIELD := 5
  const BT_REQUEST := 6
  const BT_PIECE := 7
  const BT_CANCEL := 8
  const BT_PORT := 9
  const BT_FEXT_SUGGEST := 13
  const BT_FEXT_HAVE_ALL := 14
  const BT_FEXT_HAVE_NONE := 15
  const BT_FEXT_REJECT := 16
  const BT_FEXT_ALLOWED_FAST := 17
  const BT_LTEP := 20

  const U32_MOD := 0x1_0000_0000

  type u32 = n: int | 0 <= n < 0x1_0000_0000
  type u16 = n: int | 0 <= n < 0x1_0000

  /** struct peer_request */
  datatype Request = Request(index: u32, offset: u32, length: u32)

  /** A message, and also the report the reader makes of it. */
  datatype Message =
    | KeepAlive
    | Choke | Unchoke | Interested | NotInterested
    | Have(piece: u32)
    | Bitfield(bits: seq<byte>)
    | Ask(req: Request)
    | Piece(index: u32, offset: u32, data: seq<byte>)
    | Cancel(req: Request)
    | Port(port: u16)
    | Suggest(piece: u32)
    | HaveAll | HaveNone
    | Reject(req: Request)
    | AllowedFast(piece: u32)
    | Ltep(payload: seq<byte>)

  // ----- integers in network order -----

  function U32(n: u32): (s: seq<byte>)
    ensures |s| == 4
  {
    [n / 0x100_0000, n / 0x1_0000 % 0x100, n / 0x100 % 0x100, n % 0x100]
  }

  function ReadU32(s: seq<byte>): u32
    requires 4 <= |s|
  {
    (s[0] as int) * 0x100_0000 + (s[1] as int) * 0x1_0000 + (s[2] as int) * 0x100 + s[3]
  }

  function U16(n: u16): (s: seq<byte>)
    ensures |s| == 2
  {
    [n / 0x100, n % 0x100]
  }

  function ReadU16(s: seq<byte>): u16
    requires 2 <= |s|
  {
    (s[0] as int) * 0x100 + s[1]
  }

  lemma U32RoundTrip(n: u32, rest: seq<byte>)
    ensures ReadU32(U32(n) + rest) == n
  {
    assert n / 0x1_0000 == n / 0x100 / 0x100;
    assert n / 0x100_0000 == n / 0x1_0000 / 0x100;
  }

  lemma U16RoundTrip(n: u16)
    ensures ReadU16(U16(n)) == n
  {
  }

  // ----- encoding -----

  function Bytes3(r: Request): (s: seq<byte>)
    ensures |s| == 12
  {
    U32(r.index) + U32(r.offset) + U32(r.length)
  }

  /** The id of a message that has one. */
  function IdOf(m: Message): byte
    requires !m.KeepAlive?
  {
    match m
    case Choke => BT_CHOKE
    case Unchoke => BT_UNCHOKE
    case Interested => BT_INTERESTED
    case NotInterested => BT_NOT_INTERESTED
    case Have(_) => BT_HAVE
    case Bitfield(_) => BT_BITFIELD
    case Ask(_) => BT_REQUEST
    case Piece(_, _, _) => BT_PIECE
    case Cancel(_) => BT_CANCEL
    case Port(_) => BT_PORT
    case Suggest(_) => BT_FEXT_SUGGEST
    case HaveAll => BT_FEXT_HAVE_ALL
    case HaveNone => BT_FEXT_HAVE_NONE
    case Reject(_) => BT_FEXT_REJECT
    case AllowedFast(_) => BT_FEXT_ALLOWED_FAST
    case Ltep(_) => BT_LTEP
  }

  function Payload(m: Message): seq<byte>
  {
    match m
    case Have(p) => U32(p)
    case Bitfield(bits) => bits
    case Ask(r) => Bytes3(r)
    case Piece(i, o, data) => U32(i) + U32(o) + data
    case Cancel(r) => Bytes3(r)
    case Port(p) => U16(p)
    case Suggest(p) => U32(p)
    case Reject(r) => Bytes3(r)
    case AllowedFast(p) => U32(p)
    case Ltep(payload) => payload
    case _ => []
  }

  /** A message on the wire: its length, counting the id, then the id and the payload. */
  function Encode(m: Message): seq<byte>
    requires |Payload(m)| + 1 < U32_MOD
  {
    if m.KeepAlive? then U32(0) else U32(|Payload(m)| + 1) + [IdOf(m)] + Payload(m)
  }

  // ----- the layout of BEP 3 and BEP 6, byte by byte -----

  /** Four bytes in network order. */
  predicate IsWord(s: seq<byte>, n: int)
  {
    |s| == 4 && s[0] as int * 0x100_0000 + s[1] as int * 0x1_0000 + s[2] as int * 0x100 + s[3] as int == n
  }

  ghost predicate IsTriple(s: seq<byte>, r: Request)
  {
    |s| == 12 && IsWord(s[..4], r.index) && IsWord(s[4..8], r.offset) && IsWord(s[8..], r.length)
  }

  lemma WordsInOrder(n: u32)
    ensures IsWord(U32(n), n)
  {
    U32RoundTrip(n, []);
    assert U32(n) + [] == U32(n);
  }

  lemma TriplesInOrder(r: Request)
    ensures IsTriple(Bytes3(r), r)
  {
    hide U32, IsWord;
    var s := Bytes3(r);
    WordsInOrder(r.index);
    WordsInOrder(r.offset);
    WordsInOrder(r.length);
    assert s[..4] == U32(r.index) && s[4..8] == U32(r.offset) && s[8..] == U32(r.length);
  }

  lemma LengthOfWord(n: u32)
    requires n < 256
    ensures U32(n) == [0, 0, 0, n]
  {
  }

  lemma EncodedParts(m: Message)
    requires |Payload(m)| + 1 < U32_MOD && !m.KeepAlive?
    ensures var s := Encode(m);
      |s| == 5 + |Payload(m)| && s[..4] == U32(|Payload(m)| + 1) && s[4] == IdOf(m) && s[5..] == Payload(m)
  {
    hide U32, Payload, IdOf;
  }

  lemma HeadIs(s: seq<byte>, n: byte, id: byte)
    requires 5 <= |s| && s[..4] == [0, 0, 0, n] && s[4] == id
    ensures s[..5] == [0, 0, 0, n, id] && (|s| == 5 ==> s == [0, 0, 0, n, id])
  {
    assert s[..5] == s[..4] + [s[4]];
    assert |s| == 5 ==> s == s[..5];
  }

  /** Each message has the length, the id and the fields that the two standards give it. */
  lemma LayoutIsStandard(m: Message)
    requires |Payload(m)| + 1 < U32_MOD
    ensures var s := Encode(m);
      match m
      case KeepAlive => s == [0, 0, 0, 0]
      case Choke => s == [0, 0, 0, 1, 0]
      case Unchoke => s == [0, 0, 0, 1, 1]
      case Interested => s == [0, 0, 0, 1, 2]
      case NotInterested => s == [0, 0, 0, 1, 3]
      case Have(p) => |s| == 9 && s[..5] == [0, 0, 0, 5, 4] && IsWord(s[5..], p)
      case Bitfield(bits) => |s| == 5 + |bits| && IsWord(s[..4], |bits| + 1) && s[4] == 5 && s[5..] == bits
      case Ask(r) => |s| == 17 && s[..5] == [0, 0, 0, 13, 6] && IsTriple(s[5..], r)
      case Piece(i, o, data) =>
        |s| == 13 + |data| && IsWord(s[..4], |data| + 9) && s[4] == 7 && IsWord(s[5..9], i) && IsWord(s[9..13], o) && s[13..] == data
      case Cancel(r) => |s| == 17 && s[..5] == [0, 0, 0, 13, 8] && IsTriple(s[5..], r)
      case Port(p) => |s| == 7 && s[..5] == [0, 0, 0, 3, 9] && s[5] as int * 0x100 + s[6] as int == p
      case Suggest(p) => |s| == 9 && s[..5] == [0, 0, 0, 5, 13] && IsWord(s[5..], p)
      case HaveAll => s == [0, 0, 0, 1, 14]
      case HaveNone => s == [0, 0, 0, 1, 15]
      case Reject(r) => |s| == 17 && s[..5] == [0, 0, 0, 13, 16] && IsTriple(s[5..], r)
      case AllowedFast(p) => |s| == 9 && s[..5] == [0, 0, 0, 5, 17] && IsWord(s[5..], p)
      case Ltep(payload) => |s| == 5 + |payload| && IsWord(s[..4], |payload| + 1) && s[4] == 20 && s[5..] == payload
  {
    hide U32, IsWord, IsTriple, Bytes3, Encode;
    if m.KeepAlive? {
      LengthOfWord(0);
      NothingEncoded();
    } else {
      EncodedParts(m);
      WordsInOrder(|Payload(m)| + 1);
      var s := Encode(m);
      if |Payload(m)| < 255 {
        LengthOfWord(|Payload(m)| + 1);
        HeadIs(s, |Payload(m)| + 1, IdOf(m));
      }
      match m
      case Have(p) => WordsInOrder(p);
      case Suggest(p) => WordsInOrder(p);
      case AllowedFast(p) => WordsInOrder(p);
      case Ask(r) => TriplesInOrder(r);
      case Cancel(r) => TriplesInOrder(r);
      case Reject(r) => TriplesInOrder(r);
      case Piece(i, o, data) =>
        WordsInOrder(i);
        WordsInOrder(o);
        PieceParts(s, i, o, data);
      case _ =>
    }
  }

  lemma NothingEncoded()
    ensures Encode(KeepAlive) == U32(0)
  {
  }

  lemma PieceParts(s: seq<byte>, i: u32, o: u32, data: seq<byte>)
    requires 5 <= |s| && s[5..] == U32(i) + U32(o) + data
    ensures |s| == 13 + |data| && s[5..9] == U32(i) && s[9..13] == U32(o) && s[13..] == data
  {
    hide U32;
    var x := s[5..];
    assert s[5..9] == x[..4] && s[9..13] == x[4..8] && s[13..] == x[8..];
  }
}
