/** Bits packed into bytes, most significant first, and the masks and counts of bitfield.c. */
module Bits {
  type octet = bv8

  /** The k-th bit of a byte, as tr_bitfieldHas tests it. */
  predicate Bit(v: octet, k: nat)
    requires k < 8
  {
    (v << k) & 0x80 != 0
  }

  predicate BitAt(bits: seq<octet>, n: nat)
  {
    n / 8 < |bits| && Bit(bits[n / 8], n % 8)
  }

  /** get_bytes_needed */
  function BytesNeeded(bitCount: nat): nat
  {
    bitCount / 8 + if bitCount % 8 != 0 then 1 else 0
  }

  // ----- masks -----

  predicate IsOneBit(m: octet)
  {
    m == 0x80 || m == 0x40 || m == 0x20 || m == 0x10 || m == 0x08 || m == 0x04 || m == 0x02 || m == 0x01
  }

  /** The k-th bit, tested with a mask instead of a shift. */
  lemma BitAsMask(v: octet, k: nat) returns (m: octet)
    requires k < 8
    ensures m == 0x80 >> k && IsOneBit(m)
    ensures Bit(v, k) <==> v & m != 0
  {
    m := 0x80 >> k;
    if k == 0 {} else if k == 1 {} else if k == 2 {} else if k == 3 {} else if k == 4 {} else if k == 5 {} else if k == 6 {} else {}
  }

  lemma MaskOrAnd(v: octet, w: octet, m: octet)
    requires IsOneBit(m)
    ensures (v | w) & m != 0 <==> v & m != 0 || w & m != 0
    ensures (v & w) & m != 0 <==> v & m != 0 && w & m != 0
  {
  }

  function Or(v: octet, w: octet): octet
  {
    v | w
  }

  function And(v: octet, w: octet): octet
  {
    v & w
  }

  lemma OrAndBit(v: octet, w: octet, k: nat)
    requires k < 8
    ensures Bit(Or(v, w), k) <==> Bit(v, k) || Bit(w, k)
    ensures Bit(And(v, w), k) <==> Bit(v, k) && Bit(w, k)
  {
    hide Bit, IsOneBit;
    var m := BitAsMask(v, k);
    var m1 := BitAsMask(w, k);
    var m2 := BitAsMask(v | w, k);
    var m3 := BitAsMask(v & w, k);
    MaskOrAnd(v, w, m);
  }

  /** `0x80 >> i` */
  function BitMask(i: nat): octet
    requires i < 8
  {
    0x80 >> i
  }

  lemma OneBit(i: nat, k: nat)
    requires i < 8 && k < 8
    ensures Bit(BitMask(i), k) <==> k == i
  {
  }

  /** `~(0xff << (8 - i))`: the bits from the i-th on */
  function FromMask(i: nat): octet
    requires i < 8
  {
    !(0xff << (8 - i))
  }

  /** `0xff << (8 - i)`: the bits before the i-th */
  function BeforeMask(i: nat): octet
    requires i < 8
  {
    0xff << (8 - i)
  }

  /** `0xff << (7 - i)`: the bits up to the i-th */
  function UptoMask(i: nat): octet
    requires i < 8
  {
    0xff << (7 - i)
  }

  /** `~(0xff << (7 - i))`: the bits after the i-th */
  function AfterMask(i: nat): octet
    requires i < 8
  {
    !(0xff << (7 - i))
  }

  lemma RangeMasks(i: nat, k: nat)
    requires i < 8 && k < 8
    ensures Bit(FromMask(i), k) <==> i <= k
    ensures Bit(BeforeMask(i), k) <==> k < i
    ensures Bit(UptoMask(i), k) <==> k <= i
    ensures Bit(AfterMask(i), k) <==> i < k
  {
    if i == 0 {} else if i == 1 {} else if i == 2 {} else if i == 3 {} else if i == 4 {} else if i == 5 {} else if i == 6 {} else {}
  }

  /** Shifting out the bits before the i-th. */
  function DropHead(v: octet, i: nat): octet
    requires i < 8
  {
    (v << i) >> i
  }

  /** Shifting out the last j bits. */
  function DropTail(v: octet, j: nat): octet
    requires j < 8
  {
    (v >> j) << j
  }

  lemma HeadShiftedOut(v: octet, i: nat, k: nat)
    requires i < 8 && k < 8
    ensures Bit(DropHead(v, i), k) <==> i <= k && Bit(v, k)
  {
    if i == 0 {} else if i == 1 {} else if i == 2 {} else if i == 3 {} else if i == 4 {} else if i == 5 {} else if i == 6 {} else {}
  }

  lemma TailShiftedOut(v: octet, i: nat, k: nat)
    requires i < 8 && k < 8
    ensures Bit(DropTail(v, i), k) <==> k < 8 - i && Bit(v, k)
  {
    if i == 0 {} else if i == 1 {} else if i == 2 {} else if i == 3 {} else if i == 4 {} else if i == 5 {} else if i == 6 {} else {}
  }

  /** `0xff << i`: all but the last i bits */
  function HighMask(i: nat): octet
    requires i < 8
  {
    0xff << i
  }

  lemma HighBits(i: nat, k: nat)
    requires i < 8 && k < 8
    ensures Bit(HighMask(i), k) <==> k < 8 - i
  {
  }

  lemma ConstantBits(k: nat)
    requires k < 8
    ensures !Bit(0, k) && Bit(0xff, k)
  {
  }

  /** A byte is its eight bits. */
  lemma SameBitsSameByte(v: octet, w: octet)
    requires forall k | 0 <= k < 8 :: Bit(v, k) == Bit(w, k)
    ensures v == w
  {
    assert Bit(v, 0) == Bit(w, 0) && Bit(v, 1) == Bit(w, 1) && Bit(v, 2) == Bit(w, 2) && Bit(v, 3) == Bit(w, 3);
    assert Bit(v, 4) == Bit(w, 4) && Bit(v, 5) == Bit(w, 5) && Bit(v, 6) == Bit(w, 6) && Bit(v, 7) == Bit(w, 7);
  }

  lemma SameBitsSameBytes(a: seq<octet>, b: seq<octet>)
    requires |a| == |b| && forall n: nat :: BitAt(a, n) == BitAt(b, n)
    ensures a == b
  {
    hide Bit;
    forall i | 0 <= i < |a|
      ensures a[i] == b[i]
    {
      forall k | 0 <= k < 8
        ensures Bit(a[i], k) == Bit(b[i], k)
      {
        assert BitAt(a, 8 * i + k) == BitAt(b, 8 * i + k);
      }
      SameBitsSameByte(a[i], b[i]);
    }
  }

  // ----- counting -----

  /** Ones among the bits [lo, hi) of a byte. */
  function OnesIn(v: octet, lo: nat, hi: nat): nat
    requires hi <= 8
  {
    if hi <= lo then 0 else OnesIn(v, lo, hi - 1) + if Bit(v, hi - 1) then 1 else 0
  }

  /** trueBitCount, as a function rather than a table */
  function Ones(v: octet): nat
  {
    OnesIn(v, 0, 8)
  }

  /** Ones among the bits [begin, end) of an array. */
  function Count(bits: seq<octet>, begin: nat, end: nat): nat
  {
    if end <= begin then 0 else Count(bits, begin, end - 1) + if BitAt(bits, end - 1) then 1 else 0
  }

  ghost function OnesSet(bits: seq<octet>, begin: nat, end: nat): set<nat>
  {
    set n | begin <= n < end && BitAt(bits, n)
  }

  lemma {:induction false} CountIsCardinality(bits: seq<octet>, begin: nat, end: nat)
    ensures Count(bits, begin, end) == |OnesSet(bits, begin, end)|
  {
    hide BitAt;
    if begin < end {
      CountIsCardinality(bits, begin, end - 1);
      var s := OnesSet(bits, begin, end - 1);
      assert OnesSet(bits, begin, end) == if BitAt(bits, end - 1) then s + {end - 1} else s;
    } else {
      assert OnesSet(bits, begin, end) == {};
    }
  }

  lemma {:induction false} CountSplits(bits: seq<octet>, a: nat, b: nat, c: nat)
    requires a <= b <= c
    ensures Count(bits, a, c) == Count(bits, a, b) + Count(bits, b, c)
  {
    hide BitAt;
    if b < c {
      CountSplits(bits, a, b, c - 1);
    }
  }

  lemma {:induction false} CountNothing(bits: seq<octet>, begin: nat, end: nat)
    requires forall n | begin <= n < end :: !BitAt(bits, n)
    ensures Count(bits, begin, end) == 0
  {
    hide BitAt;
    if begin < end {
      CountNothing(bits, begin, end - 1);
    }
  }

  /** Within one byte the two counts are the same. */
  lemma {:induction false} CountInByte(bits: seq<octet>, i: nat, lo: nat, hi: nat)
    requires i < |bits| && hi <= 8
    ensures Count(bits, 8 * i + lo, 8 * i + hi) == OnesIn(bits[i], lo, hi)
  {
    hide Bit;
    if lo < hi {
      CountInByte(bits, i, lo, hi - 1);
      assert BitAt(bits, 8 * i + hi - 1) <==> Bit(bits[i], hi - 1);
    }
  }

  /** What is left after shifting out the bits outside [lo, hi). */
  lemma {:induction false} OnesMasked(v: octet, w: octet, lo: nat, hi: nat, m: nat)
    requires lo <= hi <= 8 && m <= 8 && forall k | 0 <= k < 8 :: Bit(w, k) <==> lo <= k < hi && Bit(v, k)
    ensures OnesIn(w, 0, m) == OnesIn(v, lo, if m < hi then m else hi)
  {
    hide Bit;
    if 0 < m {
      OnesMasked(v, w, lo, hi, m - 1);
    }
  }

  lemma OnesOfRange(v: octet, i: nat, j: nat)
    requires i < 8 && j < 8 && i <= 8 - j
    ensures Ones(DropTail(DropHead(v, i), j)) == OnesIn(v, i, 8 - j)
    ensures Ones(DropHead(v, i)) == OnesIn(v, i, 8)
    ensures Ones(DropTail(v, j)) == OnesIn(v, 0, 8 - j)
  {
    hide OnesIn, Bit, DropHead, DropTail;
    var a := DropHead(v, i);
    forall k | 0 <= k < 8
      ensures Bit(a, k) <==> i <= k && Bit(v, k)
      ensures Bit(DropTail(a, j), k) <==> k < 8 - j && Bit(a, k)
      ensures Bit(DropTail(v, j), k) <==> k < 8 - j && Bit(v, k)
    {
      HeadShiftedOut(v, i, k);
      TailShiftedOut(a, j, k);
      TailShiftedOut(v, j, k);
    }
    OnesMasked(v, DropTail(a, j), i, 8 - j, 8);
    OnesMasked(v, a, i, 8, 8);
    OnesMasked(v, DropTail(v, j), 0, 8 - j, 8);
  }

  /** countArray */
  method CountArray(bits: seq<octet>) returns (ret: nat)
    ensures ret == Count(bits, 0, 8 * |bits|)
  {
    hide Bit, OnesIn;
    ret := 0;
    var i: int := |bits|;
    while 0 < i
      invariant 0 <= i <= |bits| && ret == Count(bits, 8 * i, 8 * |bits|)
    {
      i := i - 1;
      CountSplits(bits, 8 * i, 8 * i + 8, 8 * |bits|);
      CountInByte(bits, i, 0, 8);
      ret := ret + Ones(bits[i]);
    }
  }

  /** countRange, for a range that begins inside the array: the array may be shorter than
      the range. */
  method CountRange(bits: seq<octet>, begin: nat, end: nat) returns (ret: nat)
    requires begin < end
    ensures ret == Count(bits, begin, end)
  {
    hide Bit, OnesIn, Ones, Count, DropHead, DropTail;
    var firstByte, lastByte := begin / 8, (end - 1) / 8;
    if firstByte >= |bits| {
      BeyondArray(bits, begin, end);
      return 0;
    }
    if firstByte == lastByte {
      var i, j := begin - firstByte * 8, (lastByte + 1) * 8 - end;
      ret := Ones(DropTail(DropHead(bits[firstByte], i), j));
      OnesOfRange(bits[firstByte], i, j);
      CountInByte(bits, firstByte, i, 8 - j);
    } else {
      var i := begin - firstByte * 8;
      ret := Ones(DropHead(bits[firstByte], i));
      OnesOfRange(bits[firstByte], i, 0);
      CountInByte(bits, firstByte, i, 8);
      var middle := CountMiddle(bits, firstByte, if |bits| < lastByte then |bits| else lastByte);
      ret := ret + middle;
      if lastByte < |bits| {
        var j := (lastByte + 1) * 8 - end;
        ret := ret + Ones(DropTail(bits[lastByte], j));
        OnesOfRange(bits[lastByte], 0, j);
        CountInByte(bits, lastByte, 0, 8 - j);
        CountSplits(bits, begin, 8 * lastByte, end);
        CountSplits(bits, begin, 8 * firstByte + 8, 8 * lastByte);
      } else {
        BeyondArray(bits, 8 * |bits|, end);
        CountSplits(bits, begin, 8 * |bits|, end);
        CountSplits(bits, begin, 8 * firstByte + 8, 8 * |bits|);
      }
    }
  }

  /** The middle loop of countRange. */
  method CountMiddle(bits: seq<octet>, firstByte: nat, walkEnd: nat) returns (ret: nat)
    requires firstByte < walkEnd <= |bits|
    ensures ret == Count(bits, 8 * firstByte + 8, 8 * walkEnd)
  {
    hide Bit, OnesIn;
    ret := 0;
    for i := firstByte + 1 to walkEnd
      invariant ret == Count(bits, 8 * firstByte + 8, 8 * i)
    {
      CountSplits(bits, 8 * firstByte + 8, 8 * i, 8 * i + 8);
      CountInByte(bits, i, 0, 8);
      ret := ret + Ones(bits[i]);
    }
  }

  lemma BeyondArray(bits: seq<octet>, begin: nat, end: nat)
    requires 8 * |bits| <= begin
    ensures Count(bits, begin, end) == 0
  {
    hide Bit;
    CountNothing(bits, begin, end);
  }
}
