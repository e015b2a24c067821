/** UTF-16 and UTF-8 as ConvertUTF.c reads and writes them. */
module Utf {
  import opened Geometry

  type unit = n: int | 0 <= n < 0x10000

  datatype ConversionResult = ConversionOK | SourceExhausted | TargetExhausted | SourceIllegal

  predicate IsHigh(u: int) { 0xD800 <= u <= 0xDBFF }

  predicate IsLow(u: int) { 0xDC00 <= u <= 0xDFFF }

  /** A Unicode scalar value. */
  predicate IsScalar(ch: int)
  {
    0 <= ch < 0xD800 || 0xE000 <= ch < 0x110000
  }

  // ----- one character of UTF-16 -----

  /** What is found at the front of the source: a character and how long it is, or a reason
      to stop. */
  datatype Found = Char(ch: nat, length: nat) | Stop(why: ConversionResult)

  function Next16(s: seq<unit>, strict: bool): (f: Found)
    requires s != []
    ensures f.Char? ==> 0 < f.length <= |s| && f.ch < 0x110000
    ensures f.Stop? ==> f.why == SourceExhausted || f.why == SourceIllegal
  {
    if IsHigh(s[0]) then
      if |s| == 1 then Stop(SourceExhausted)
      else if IsLow(s[1]) then Char((s[0] as int - 0xD800) * 0x400 + (s[1] as int - 0xDC00) + 0x10000, 2)
      else if strict then Stop(SourceIllegal)
      else Char(s[0], 1)
    else if strict && IsLow(s[0]) then Stop(SourceIllegal)
    else Char(s[0], 1)
  }

  /** The one or two units of a character. */
  function Units(ch: nat): (s: seq<unit>)
    requires ch < 0x110000
    ensures 1 <= |s| <= 2
  {
    if ch <= 0xFFFF then [ch] else [(ch - 0x10000) / 0x400 + 0xD800, (ch - 0x10000) % 0x400 + 0xDC00]
  }

  // ----- one character of UTF-8 -----

  /** How many bytes a character takes. */
  function Length8(ch: nat): nat
  {
    if ch < 0x80 then 1 else if ch < 0x800 then 2 else if ch < 0x10000 then 3 else 4
  }

  /** `(UTF8) ((ch | byteMark) & byteMask)` */
  function Trail(ch: nat): byte
  {
    0x80 + ch % 0x40
  }

  function Bytes(ch: nat): (s: seq<byte>)
    requires ch < 0x110000
    ensures |s| == Length8(ch)
  {
    if ch < 0x80 then [ch]
    else if ch < 0x800 then [0xC0 + ch / 0x40, Trail(ch)]
    else if ch < 0x10000 then [0xE0 + ch / 0x1000, Trail(ch / 0x40), Trail(ch)]
    else [0xF0 + ch / 0x40000, Trail(ch / 0x1000), Trail(ch / 0x40), Trail(ch)]
  }

  /** trailingBytesForUTF8 */
  function TrailingBytes(b: byte): nat
  {
    if b < 0xC0 then 0 else if b < 0xE0 then 1 else if b < 0xF0 then 2 else if b < 0xF8 then 3 else if b < 0xFC then 4 else 5
  }

  /** isLegalUTF8, case by case from the last byte to the first */
  predicate IsLegal(s: seq<byte>, length: nat)
    requires 0 < length <= |s|
  {
    && length <= 4
    && (length == 4 ==> 0x80 <= s[3] <= 0xBF)
    && (length >= 3 ==> 0x80 <= s[2] <= 0xBF)
    && (length >= 2 ==>
          && s[1] <= 0xBF
          && (if s[0] == 0xE0 then s[1] >= 0xA0
              else if s[0] == 0xED then 0x80 <= s[1] <= 0x9F
              else if s[0] == 0xF0 then s[1] >= 0x90
              else if s[0] == 0xF4 then s[1] <= 0x8F
              else s[1] >= 0x80))
    && !(0x80 <= s[0] < 0xC2)
    && s[0] <= 0xF4
  }

  /** The bytes taken together, less the magic value of offsetsFromUTF8. */
  function Assemble(s: seq<byte>, extra: nat): int
    requires extra <= 3 && extra < |s|
  {
    if extra == 0 then s[0]
    else if extra == 1 then s[0] as int * 0x40 + s[1] as int - 0x3080
    else if extra == 2 then (s[0] as int * 0x40 + s[1] as int) * 0x40 + s[2] as int - 0xE2080
    else ((s[0] as int * 0x40 + s[1] as int) * 0x40 + s[2] as int) * 0x40 + s[3] as int - 0x3C82080
  }

  /** What is legal is a character, though not always one that should be. */
  lemma AssembleInRange(s: seq<byte>, extra: nat)
    requires extra < |s| && IsLegal(s, extra + 1) && TrailingBytes(s[0]) == extra
    ensures extra <= 3 && IsScalar(Assemble(s, extra))
  {
  }

  function Next8(s: seq<byte>): (f: Found)
    requires s != []
    ensures f.Char? ==> 0 < f.length <= |s| && IsScalar(f.ch)
    ensures f.Stop? ==> f.why == SourceExhausted || f.why == SourceIllegal
  {
    var extra := TrailingBytes(s[0]);
    if extra >= |s| then Stop(SourceExhausted)
    else if !IsLegal(s, extra + 1) then Stop(SourceIllegal)
    else
      AssembleInRange(s, extra);
      Char(Assemble(s, extra), extra + 1)
  }

  // ----- round trip of one character -----

  lemma BytesAreRead(ch: nat, rest: seq<byte>)
    requires IsScalar(ch)
    ensures Next8(Bytes(ch) + rest) == Char(ch, Length8(ch))
  {
    var s := Bytes(ch) + rest;
    Digits(ch);
    assert s[0] == Bytes(ch)[0];
    if ch >= 0x80 {
      assert s[1] == Bytes(ch)[1];
      if ch >= 0x800 {
        assert s[2] == Bytes(ch)[2];
        if ch >= 0x10000 {
          assert s[3] == Bytes(ch)[3];
        }
      }
    }
  }

  /** A number in base 64. */
  lemma Digits(ch: nat)
    ensures ch / 0x1000 == ch / 0x40 / 0x40 && ch / 0x40000 == ch / 0x1000 / 0x40
    ensures ch == ch / 0x40 * 0x40 + ch % 0x40
    ensures ch / 0x40 == ch / 0x1000 * 0x40 + ch / 0x40 % 0x40
    ensures ch / 0x1000 == ch / 0x40000 * 0x40 + ch / 0x1000 % 0x40
  {
  }

  lemma UnitsAreRead(ch: nat, rest: seq<unit>, strict: bool)
    requires IsScalar(ch)
    ensures Next16(Units(ch) + rest, strict) == Char(ch, |Units(ch)|)
  {
  }

  /** A well-formed character is the units of a scalar value. */
  lemma FoundIsUnits(s: seq<unit>)
    requires s != [] && Next16(s, true).Char?
    ensures var f := Next16(s, true); IsScalar(f.ch) && Units(f.ch) == s[..f.length] && Next16(s, false) == f
  {
  }

  // ----- well-formed text -----

  /** Well-formed UTF-16: no surrogate without its other half. */
  predicate WellFormed16(s: seq<unit>)
  {
    s != [] ==> var f := Next16(s, true); f.Char? && WellFormed16(s[f.length..])
  }

  /** UTF8-tail of RFC 3629 */
  predicate IsTail(b: byte)
  {
    0x80 <= b <= 0xBF
  }

  /** UTF8-char of section 4 of RFC 3629, as its rules UTF8-1 to UTF8-4 have it */
  predicate IsRfcChar(s: seq<byte>, n: nat)
    requires n <= |s|
  {
    || (n == 1 && s[0] <= 0x7F)
    || (n == 2 && 0xC2 <= s[0] <= 0xDF && IsTail(s[1]))
    || (n == 3 && s[0] == 0xE0 && 0xA0 <= s[1] <= 0xBF && IsTail(s[2]))
    || (n == 3 && (0xE1 <= s[0] <= 0xEC || 0xEE <= s[0] <= 0xEF) && IsTail(s[1]) && IsTail(s[2]))
    || (n == 3 && s[0] == 0xED && 0x80 <= s[1] <= 0x9F && IsTail(s[2]))
    || (n == 4 && s[0] == 0xF0 && 0x90 <= s[1] <= 0xBF && IsTail(s[2]) && IsTail(s[3]))
    || (n == 4 && 0xF1 <= s[0] <= 0xF3 && IsTail(s[1]) && IsTail(s[2]) && IsTail(s[3]))
    || (n == 4 && s[0] == 0xF4 && 0x80 <= s[1] <= 0x8F && IsTail(s[2]) && IsTail(s[3]))
  }

  /** UTF8-octets: a sequence of characters */
  predicate WellFormed8(s: seq<byte>)
  {
    s != [] ==>
      (|s| >= 1 && IsRfcChar(s, 1) && WellFormed8(s[1..]))
      || (|s| >= 2 && IsRfcChar(s, 2) && WellFormed8(s[2..]))
      || (|s| >= 3 && IsRfcChar(s, 3) && WellFormed8(s[3..]))
      || (|s| >= 4 && IsRfcChar(s, 4) && WellFormed8(s[4..]))
  }

  /** What isLegalUTF8 lets through that RFC 3629 does not: the second byte after F4 is not
      checked from below. */
  predicate IsStray(s: seq<byte>, n: nat)
    requires n <= |s|
  {
    n == 4 && s[0] == 0xF4 && s[1] < 0x80 && IsTail(s[2]) && IsTail(s[3])
  }

  /** A character is accepted exactly when it is one of RFC 3629's, or such a stray. */
  lemma LegalIsRfc(s: seq<byte>, n: nat)
    requires 0 < n <= |s|
    ensures TrailingBytes(s[0]) + 1 == n && IsLegal(s, n) <==> IsRfcChar(s, n) || IsStray(s, n)
  {
  }

  lemma LastDigit(a: nat, d: nat)
    requires d < 0x40
    ensures (a * 0x40 + d) / 0x40 == a && (a * 0x40 + d) % 0x40 == d
  {
  }

  /** The digits of an assembled number. */
  lemma AssembledDigits(a: nat, b: nat, c: nat, d: nat)
    requires b < 0x40 && c < 0x40 && d < 0x40
    ensures var ch := ((a * 0x40 + b) * 0x40 + c) * 0x40 + d;
      && ch % 0x40 == d && ch / 0x40 % 0x40 == c && ch / 0x1000 % 0x40 == b && ch / 0x40000 == a
      && ch / 0x1000 == a * 0x40 + b && ch / 0x40 == (a * 0x40 + b) * 0x40 + c
  {
    var ch := ((a * 0x40 + b) * 0x40 + c) * 0x40 + d;
    Digits(ch);
    LastDigit((a * 0x40 + b) * 0x40 + c, d);
    LastDigit(a * 0x40 + b, c);
    LastDigit(a, b);
  }

  /** A character of RFC 3629 is the bytes of the scalar value it is read as. */
  lemma RfcIsBytes(s: seq<byte>, n: nat)
    requires 0 < n <= |s| && IsRfcChar(s, n)
    ensures var f := Next8(s); f.Char? && f.length == n && Bytes(f.ch) == s[..n]
  {
    LegalIsRfc(s, n);
    if n == 2 {
      AssembledDigits(0, 0, s[0] - 0xC0, s[1] - 0x80);
    } else if n == 3 {
      AssembledDigits(0, s[0] - 0xE0, s[1] - 0x80, s[2] - 0x80);
    } else if n == 4 {
      AssembledDigits(s[0] - 0xF0, s[1] - 0x80, s[2] - 0x80, s[3] - 0x80);
    }
  }

  lemma StrayIsAccepted()
    ensures Next8([0xF4, 0x00, 0x80, 0x80]) == Char(0x80000, 4) && !WellFormed8([0xF4, 0x00, 0x80, 0x80])
  {
  }

  /** How far the text is legal: the offset tr_utf8_validate reports. */
  function LegalLength(s: seq<byte>): (n: nat)
    ensures n <= |s|
  {
    if s == [] then 0
    else match Next8(s)
      case Char(_, length) => length + LegalLength(s[length..])
      case Stop(_) => 0
  }

  /** Every well-formed sequence is accepted whole. */
  lemma {:induction false} WellFormedIsAccepted(s: seq<byte>)
    requires WellFormed8(s)
    ensures LegalLength(s) == |s|
  {
    if s != [] {
      var n := if |s| >= 1 && IsRfcChar(s, 1) && WellFormed8(s[1..]) then 1
        else if |s| >= 2 && IsRfcChar(s, 2) && WellFormed8(s[2..]) then 2
        else if |s| >= 3 && IsRfcChar(s, 3) && WellFormed8(s[3..]) then 3 else 4;
      LegalIsRfc(s, n);
      WellFormedIsAccepted(s[n..]);
    }
  }

  /** ... and what is accepted whole is well-formed when it holds no stray. */
  lemma {:induction false} AcceptedIsWellFormed(s: seq<byte>)
    requires LegalLength(s) == |s| && NoStray(s)
    ensures WellFormed8(s)
  {
    if s != [] {
      var n := TrailingBytes(s[0]) + 1;
      LegalIsRfc(s, n);
      AcceptedIsWellFormed(s[n..]);
    }
  }

  /** None of the characters read is a stray. */
  predicate NoStray(s: seq<byte>)
  {
    s != [] && Next8(s).Char? ==> !IsStray(s, Next8(s).length) && NoStray(s[Next8(s).length..])
  }

  lemma {:induction false} WellFormedHasNoStray(s: seq<byte>)
    requires WellFormed8(s)
    ensures NoStray(s)
  {
    if s != [] {
      var n := if |s| >= 1 && IsRfcChar(s, 1) && WellFormed8(s[1..]) then 1
        else if |s| >= 2 && IsRfcChar(s, 2) && WellFormed8(s[2..]) then 2
        else if |s| >= 3 && IsRfcChar(s, 3) && WellFormed8(s[3..]) then 3 else 4;
      LegalIsRfc(s, n);
      WellFormedHasNoStray(s[n..]);
    }
  }

  /** So what is accepted is well-formed if and only if it holds no stray, and what is
      well-formed is accepted and holds none. */
  lemma {:induction false} AcceptedExactly(s: seq<byte>)
    ensures LegalLength(s) == |s| ==> (WellFormed8(s) <==> NoStray(s))
    ensures WellFormed8(s) <==> LegalLength(s) == |s| && NoStray(s)
  {
    if WellFormed8(s) {
      WellFormedIsAccepted(s);
      WellFormedHasNoStray(s);
    } else if LegalLength(s) == |s| && NoStray(s) {
      AcceptedIsWellFormed(s);
    }
  }
}
