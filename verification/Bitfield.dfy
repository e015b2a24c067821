/** struct tr_bitfield: a set of bit numbers, kept as a packed array only while it is neither
    empty nor full. */
module Bitfields {
  import opened Bits

  ghost predicate Within(begin: nat, k: nat, end: nat)
  {
    begin <= k < end
  }

  ghost function Upto(n: nat): set<nat>
  {
    set k | 0 <= k < n && Within(0, k, n)
  }

  ghost function Span(begin: nat, end: nat): set<nat>
  {
    set k | begin <= k < end && Within(begin, k, end)
  }

  /** The bits that are set. */
  ghost function SetOf(bits: seq<octet>): set<nat>
  {
    set n | 0 <= n < 8 * |bits| && BitAt(bits, n)
  }

  lemma InSetOf(bits: seq<octet>)
    ensures forall n: nat :: n in SetOf(bits) <==> BitAt(bits, n)
  {
    hide Bit, Or, And, BitMask, FromMask, BeforeMask, UptoMask, AfterMask, HighMask;
  }

  lemma UptoSize(n: nat)
    ensures |Upto(n)| == n
  {
    SpanSize(0, n);
    assert Upto(n) == Span(0, n);
  }

  lemma {:induction false} SpanSize(begin: nat, end: nat)
    requires begin <= end
    ensures |Span(begin, end)| == end - begin
  {
    if begin == end {
      assert Span(begin, end) == {};
    } else {
      SpanSize(begin, end - 1);
      assert Span(begin, end) == Span(begin, end - 1) + {end - 1};
    }
  }

  lemma SubsetSize(a: set<nat>, b: set<nat>)
    requires a <= b
    ensures |a| <= |b| && (|a| == |b| ==> a == b)
  {
    assert b == a + (b - a);
  }

  /** Counting the ones of the whole array, or of a range, is counting the set. */
  lemma CountIsSize(bits: seq<octet>, begin: nat, end: nat)
    ensures Count(bits, begin, end) == |SetOf(bits) * Span(begin, end)|
    ensures Count(bits, 0, 8 * |bits|) == |SetOf(bits)|
  {
    hide BitAt, Count;
    CountIsCardinality(bits, begin, end);
    CountIsCardinality(bits, 0, 8 * |bits|);
    InSetOf(bits);
    assert OnesSet(bits, begin, end) == SetOf(bits) * Span(begin, end);
    assert OnesSet(bits, 0, 8 * |bits|) == SetOf(bits);
  }

  // ----- arrays with bits set or cleared -----

  function Zeros(n: nat): seq<octet>
  {
    seq(n, _ => 0)
  }

  lemma ZeroExtended(bits: seq<octet>, n: nat)
    ensures SetOf(bits + Zeros(n)) == SetOf(bits)
  {
    hide Bit, Or, And, BitMask, FromMask, BeforeMask, UptoMask, AfterMask, HighMask;
    var more := bits + Zeros(n);
    InSetOf(bits);
    InSetOf(more);
    forall k: nat
      ensures BitAt(more, k) <==> BitAt(bits, k)
    {
      ConstantBits(k % 8);
      assert k / 8 < |bits| ==> more[k / 8] == bits[k / 8];
      assert |bits| <= k / 8 < |more| ==> more[k / 8] == 0;
    }
  }

  /** set_all_true */
  function AllTrue(bitCount: nat): (bits: seq<octet>)
    ensures |bits| == BytesNeeded(bitCount)
  {
    var n := BytesNeeded(bitCount);
    if n == 0 then []
    else seq(n - 1, _ => 0xff) + [HighMask(n * 8 - bitCount)]
  }

  lemma AllTrueIsFull(bitCount: nat)
    ensures SetOf(AllTrue(bitCount)) == Upto(bitCount)
  {
    hide Bit, Or, And, BitMask, FromMask, BeforeMask, UptoMask, AfterMask, HighMask;
    var bits := AllTrue(bitCount);
    InSetOf(bits);
    forall k: nat
      ensures BitAt(bits, k) <==> k < bitCount
    {
      ConstantBits(k % 8);
      if 0 < |bits| {
        HighBits(|bits| * 8 - bitCount, k % 8);
        assert k / 8 < |bits| - 1 ==> bits[k / 8] == 0xff;
      }
    }
  }

  /** `bits[nth >> 3] |= 0x80 >> (nth & 7)` */
  function WithBit(bits: seq<octet>, nth: nat): (r: seq<octet>)
    requires nth / 8 < |bits|
    ensures |r| == |bits|
  {
    bits[nth / 8 := Or(bits[nth / 8], BitMask(nth % 8))]
  }

  lemma WithBitAdds(bits: seq<octet>, nth: nat)
    requires nth / 8 < |bits|
    ensures SetOf(WithBit(bits, nth)) == SetOf(bits) + {nth}
  {
    hide Bit, Or, And, BitMask, FromMask, BeforeMask, UptoMask, AfterMask, HighMask;
    InSetOf(bits);
    InSetOf(WithBit(bits, nth));
    forall k: nat
      ensures BitAt(WithBit(bits, nth), k) <==> BitAt(bits, k) || k == nth
    {
      OneBit(nth % 8, k % 8);
      OrAndBit(bits[nth / 8], BitMask(nth % 8), k % 8);
    }
  }

  /** The stores of tr_bitfieldAddRange, for the inclusive range [begin, last]. */
  function WithRange(bits: seq<octet>, begin: nat, last: nat): (r: seq<octet>)
    requires begin <= last && last / 8 < |bits|
    ensures |r| == |bits|
  {
    var sb, eb := begin / 8, last / 8;
    var sm, em := FromMask(begin % 8), UptoMask(last % 8);
    if sb == eb then bits[sb := Or(bits[sb], And(sm, em))]
    else
      var ends := bits[sb := Or(bits[sb], sm)][eb := Or(bits[eb], em)];
      seq(|bits|, i requires 0 <= i < |bits| => if sb < i < eb then 0xff else ends[i])
  }

  lemma WithRangeAdds(bits: seq<octet>, begin: nat, last: nat)
    requires begin <= last && last / 8 < |bits|
    ensures SetOf(WithRange(bits, begin, last)) == SetOf(bits) + Span(begin, last + 1)
  {
    hide Bit, Or, And, BitMask, FromMask, BeforeMask, UptoMask, AfterMask, HighMask;
    var more := WithRange(bits, begin, last);
    InSetOf(bits);
    InSetOf(more);
    forall k: nat
      ensures BitAt(more, k) <==> BitAt(bits, k) || begin <= k <= last
    {
      RangeBit(bits, begin, last, k);
    }
  }

  lemma RangeBit(bits: seq<octet>, begin: nat, last: nat, k: nat)
    requires begin <= last && last / 8 < |bits|
    ensures BitAt(WithRange(bits, begin, last), k) <==> BitAt(bits, k) || begin <= k <= last
  {
    hide Bit, Or, And, BitMask, FromMask, BeforeMask, UptoMask, AfterMask, HighMask;
    var sb, eb := begin / 8, last / 8;
    var sm, em := FromMask(begin % 8), UptoMask(last % 8);
    if k / 8 < |bits| {
      var v, m := bits[k / 8], k % 8;
      RangeMasks(begin % 8, m);
      RangeMasks(last % 8, m);
      ConstantBits(m);
      OrAndBit(sm, em, m);
      OrAndBit(v, And(sm, em), m);
      OrAndBit(v, sm, m);
      OrAndBit(v, em, m);
    }
  }

  /** The stores of tr_bitfieldRemRange. */
  function WithoutRange(bits: seq<octet>, begin: nat, last: nat): (r: seq<octet>)
    requires begin <= last && last / 8 < |bits|
    ensures |r| == |bits|
  {
    var sb, eb := begin / 8, last / 8;
    var sm, em := BeforeMask(begin % 8), AfterMask(last % 8);
    if sb == eb then bits[sb := And(bits[sb], Or(sm, em))]
    else
      var ends := bits[sb := And(bits[sb], sm)][eb := And(bits[eb], em)];
      seq(|bits|, i requires 0 <= i < |bits| => if sb < i < eb then 0 else ends[i])
  }

  lemma RangeNoBit(bits: seq<octet>, begin: nat, last: nat, k: nat)
    requires begin <= last && last / 8 < |bits|
    ensures BitAt(WithoutRange(bits, begin, last), k) <==> BitAt(bits, k) && !(begin <= k <= last)
  {
    hide Bit, Or, And, BitMask, FromMask, BeforeMask, UptoMask, AfterMask, HighMask;
    var sb, eb := begin / 8, last / 8;
    var sm, em := BeforeMask(begin % 8), AfterMask(last % 8);
    if k / 8 < |bits| {
      var v, m := bits[k / 8], k % 8;
      RangeMasks(begin % 8, m);
      RangeMasks(last % 8, m);
      ConstantBits(m);
      OrAndBit(sm, em, m);
      OrAndBit(v, Or(sm, em), m);
      OrAndBit(v, sm, m);
      OrAndBit(v, em, m);
    }
  }

  lemma WithoutRangeRemoves(bits: seq<octet>, begin: nat, last: nat)
    requires begin <= last && last / 8 < |bits|
    ensures SetOf(WithoutRange(bits, begin, last)) == SetOf(bits) - Span(begin, last + 1)
  {
    hide Bit, Or, And, BitMask, FromMask, BeforeMask, UptoMask, AfterMask, HighMask;
    var less := WithoutRange(bits, begin, last);
    InSetOf(bits);
    InSetOf(less);
    forall k: nat
      ensures BitAt(less, k) <==> BitAt(bits, k) && !(begin <= k <= last)
    {
      RangeNoBit(bits, begin, last, k);
    }
  }

  /** Clearing the excess bits of a full-length array. */
  function Trimmed(raw: seq<octet>, bitCount: nat): (r: seq<octet>)
    requires |raw| == BytesNeeded(bitCount)
    ensures |r| == |raw|
  {
    var excess := |raw| * 8 - bitCount;
    if excess == 0 then raw else raw[|raw| - 1 := And(raw[|raw| - 1], HighMask(excess))]
  }

  lemma TrimmedKeeps(raw: seq<octet>, bitCount: nat)
    requires |raw| == BytesNeeded(bitCount)
    ensures SetOf(Trimmed(raw, bitCount)) == SetOf(raw) * Upto(bitCount)
  {
    hide Bit, Or, And, BitMask, FromMask, BeforeMask, UptoMask, AfterMask, HighMask;
    var excess, t := |raw| * 8 - bitCount, Trimmed(raw, bitCount);
    InSetOf(raw);
    InSetOf(t);
    forall k: nat
      ensures BitAt(t, k) <==> BitAt(raw, k) && k < bitCount
    {
      if excess != 0 {
        HighBits(excess, k % 8);
        OrAndBit(raw[|raw| - 1], HighMask(excess), k % 8);
      }
    }
  }

  /** The bytes of a set of bits, and the only ones of that length with no other bit set. */
  ghost predicate IsRaw(raw: seq<octet>, bitCount: nat, s: set<nat>)
  {
    |raw| == BytesNeeded(bitCount) && SetOf(raw) == s
  }

  lemma RawIsUnique(a: seq<octet>, b: seq<octet>, bitCount: nat, s: set<nat>)
    requires IsRaw(a, bitCount, s) && IsRaw(b, bitCount, s)
    ensures a == b
  {
    hide BitAt;
    InSetOf(a);
    InSetOf(b);
    SameBitsSameBytes(a, b);
  }

  class Bitfield {
    const bitCount: nat
    var bits: seq<octet>
    var trueCount: nat
    var haveAllHint: bool
    var haveNoneHint: bool

    /** The set this bitfield stands for, for a known number of bits. */
    ghost function Contents(): set<nat>
      reads this
    {
      if trueCount == bitCount then Upto(bitCount) else SetOf(bits)
    }

    /** The array fits, has no stray bits, and is there exactly while some but not all bits
        are set; the count is the size of the set. */
    ghost predicate Valid()
      reads this
    {
      && 0 < bitCount
      && |bits| <= BytesNeeded(bitCount)
      && SetOf(bits) <= Upto(bitCount)
      && trueCount == |Contents()|
      && (bits == [] <==> trueCount == 0 || trueCount == bitCount)
    }

    /** tr_bitfieldConstruct */
    constructor (bitCount: nat)
      requires 0 < bitCount
      ensures Valid() && this.bitCount == bitCount && Contents() == {}
    {
      this.bitCount := bitCount;
      trueCount, bits, haveAllHint, haveNoneHint := 0, [], false, false;
    }

    predicate HasAll()
      reads this
    {
      if bitCount != 0 then trueCount == bitCount else haveAllHint
    }

    predicate HasNone()
      reads this
    {
      if bitCount != 0 then trueCount == 0 else haveNoneHint
    }

    /** tr_bitfieldHasAll and tr_bitfieldHasNone say what they seem to. */
    lemma HasAllOrNone()
      requires Valid()
      ensures HasAll() <==> Contents() == Upto(bitCount)
      ensures HasNone() <==> Contents() == {}
      ensures Contents() <= Upto(bitCount)
    {
      UptoSize(bitCount);
      SubsetSize(Contents(), Upto(bitCount));
    }

    /** tr_bitfieldHas */
    predicate Has(n: nat)
      reads this
    {
      if HasAll() then true
      else if HasNone() then false
      else if n / 8 >= |bits| then false
      else Bit(bits[n / 8], n % 8)
    }

    lemma HasIsMember(n: nat)
      requires Valid() && n < bitCount
      ensures Has(n) <==> n in Contents()
    {
      hide Bit;
      InSetOf(bits);
      HasAllOrNone();
    }

    /** tr_bitfieldCountRange */
    method CountIn(begin: nat, end: nat) returns (n: nat)
      requires Valid() && begin < end
      ensures end <= bitCount ==> n == |Contents() * Span(begin, end)|
      ensures bitCount < end && HasAll() ==> n == end - begin
    {
      hide BitAt, Count;
      if HasAll() {
        SpanSize(begin, end);
        assert end <= bitCount ==> Upto(bitCount) * Span(begin, end) == Span(begin, end);
        return end - begin;
      }
      HasAllOrNone();
      if HasNone() {
        assert Contents() * Span(begin, end) == {};
        return 0;
      }
      n := CountRange(bits, begin, end);
      CountIsSize(bits, begin, end);
    }

    /** tr_bitfieldGetRaw */
    method GetRaw() returns (raw: seq<octet>)
      requires Valid()
      ensures IsRaw(raw, bitCount, Contents())
    {
      hide BitAt, AllTrue;
      HasAllOrNone();
      var n := BytesNeeded(bitCount);
      if bits != [] {
        ZeroExtended(bits, n - |bits|);
        raw := bits + Zeros(n - |bits|);
      } else if HasAll() {
        AllTrueIsFull(bitCount);
        raw := AllTrue(bitCount);
      } else {
        ZeroExtended([], n);
        raw := [] + Zeros(n);
      }
    }

    /** tr_bitfieldEnsureBitsAlloced.  The array may now be full or empty of ones, until the
        caller sets the new count. */
    method EnsureBitsAlloced(n: nat)
      requires Valid() && n <= bitCount
      modifies this`bits
      ensures SetOf(bits) == old(Contents())
      ensures BytesNeeded(n) <= |bits| <= BytesNeeded(bitCount)
    {
      hide BitAt, AllTrue;
      HasAllOrNone();
      BytesGrow(n, bitCount);
      var hasAll := HasAll();
      var needed := BytesNeeded(if hasAll then (if n < trueCount then trueCount else n) else n);
      if |bits| < needed {
        ZeroExtended(bits, needed - |bits|);
        bits := bits + Zeros(needed - |bits|);
        if hasAll {
          AllTrueIsFull(trueCount);
          bits := AllTrue(trueCount);
        }
      }
    }

    /** tr_bitfieldSetTrueCount, given the right count */
    method SetTrueCount(n: nat)
      requires 0 < bitCount && |bits| <= BytesNeeded(bitCount) && SetOf(bits) <= Upto(bitCount) && n == |SetOf(bits)|
      modifies this`bits, this`trueCount
      ensures Valid() && Contents() == old(SetOf(bits))
    {
      hide BitAt;
      UptoSize(bitCount);
      SubsetSize(SetOf(bits), Upto(bitCount));
      trueCount := n;
      if HasAll() || HasNone() {
        bits := [];
      }
    }

    /** tr_bitfieldSetHasNone */
    method SetHasNone()
      requires Valid()
      modifies this
      ensures Valid() && Contents() == {}
    {
      hide BitAt;
      bits, trueCount, haveAllHint, haveNoneHint := [], 0, false, true;
      assert SetOf([]) == {};
    }

    /** tr_bitfieldSetHasAll */
    method SetHasAll()
      requires Valid()
      modifies this
      ensures Valid() && Contents() == Upto(bitCount)
    {
      hide BitAt;
      UptoSize(bitCount);
      bits, trueCount, haveAllHint, haveNoneHint := [], bitCount, true, false;
      assert SetOf([]) == {};
    }

    /** tr_bitfieldSetRaw, bounded; what it requires is what it asserts. */
    method SetRaw(raw: seq<octet>)
      requires Valid() && BytesNeeded(bitCount) <= |raw|
      modifies this
      ensures Valid() && Contents() == SetOf(raw[..BytesNeeded(bitCount)]) * Upto(bitCount)
    {
      hide BitAt, Trimmed, Count;
      var byteCount := BytesNeeded(bitCount);
      TrimmedKeeps(raw[..byteCount], bitCount);
      bits := Trimmed(raw[..byteCount], bitCount);
      trueCount := 0;
      var count := CountArray(bits);
      CountIsSize(bits, 0, 0);
      SetTrueCount(count);
    }

    /** tr_bitfieldSetFromBitfield, from a bitfield that is full, empty, or fully allocated */
    method SetFromBitfield(src: Bitfield)
      requires Valid() && src.Valid() && src.bitCount == bitCount && src != this
      requires src.bits == [] || |src.bits| == BytesNeeded(bitCount)
      modifies this
      ensures Valid() && Contents() == src.Contents()
    {
      hide BitAt;
      src.HasAllOrNone();
      if src.HasAll() {
        SetHasAll();
      } else if src.HasNone() {
        SetHasNone();
      } else {
        assert src.bits[..|src.bits|] == src.bits;
        SetRaw(src.bits);
      }
    }

    /** tr_bitfieldAdd */
    method Add(nth: nat)
      requires Valid() && nth < bitCount
      modifies this`bits, this`trueCount
      ensures Valid() && Contents() == old(Contents()) + {nth}
    {
      hide Bit, WithBit;
      HasIsMember(nth);
      HasAllOrNone();
      if !Has(nth) {
        EnsureBitsAlloced(nth + 1);
        WithBitAdds(bits, nth);
        bits := WithBit(bits, nth);
        SetTrueCount(trueCount + 1);
      }
    }

    /** tr_bitfieldAddRange; a range that does not fit is ignored. */
    method AddRange(begin: nat, end: nat)
      requires Valid() && begin < end
      modifies this`bits, this`trueCount
      ensures Valid() && Contents() == if end <= bitCount then old(Contents()) + Span(begin, end) else old(Contents())
    {
      hide BitAt, WithRange, Span, Upto, SetOf, BytesNeeded;
      RangeFits(begin, end, bitCount);
      HasAllOrNone();
      var count := CountIn(begin, end);
      SpanSize(begin, end);
      PartSizes(Contents(), begin, end);
      var diff := end - begin - count;
      if diff == 0 {
        return;
      }
      if end - 1 >= bitCount || begin > end - 1 {
        return;
      }
      EnsureBitsAlloced(end);
      WithRangeAdds(bits, begin, end - 1);
      bits := WithRange(bits, begin, end - 1);
      SetTrueCount(trueCount + diff);
    }

    /** tr_bitfieldRemRange */
    method RemRange(begin: nat, end: nat)
      requires Valid() && begin < end
      modifies this`bits, this`trueCount
      ensures Valid() && Contents() == if end <= bitCount then old(Contents()) - Span(begin, end) else old(Contents())
    {
      hide BitAt, WithoutRange, Span, Upto, SetOf, BytesNeeded;
      RangeFits(begin, end, bitCount);
      HasAllOrNone();
      var diff := CountIn(begin, end);
      PartSizes(Contents(), begin, end);
      if diff == 0 {
        return;
      }
      if end - 1 >= bitCount || begin > end - 1 {
        return;
      }
      EnsureBitsAlloced(end);
      WithoutRangeRemoves(bits, begin, end - 1);
      bits := WithoutRange(bits, begin, end - 1);
      SetTrueCount(trueCount - diff);
    }
  }

  lemma BytesGrow(a: nat, b: nat)
    requires a <= b
    ensures BytesNeeded(a) <= BytesNeeded(b) && (0 < b ==> 0 < BytesNeeded(b))
    ensures forall k | 0 <= k < a :: k / 8 < BytesNeeded(a)
  {
  }

  lemma RangeFits(begin: nat, end: nat, bitCount: nat)
    requires begin < end
    ensures end <= bitCount ==> Span(begin, end) <= Upto(bitCount)
    ensures (end - 1) / 8 < BytesNeeded(end)
  {
  }

  /** How a range cuts a set. */
  lemma PartSizes(s: set<nat>, begin: nat, end: nat)
    requires begin < end
    ensures |s + Span(begin, end)| == |s| + (end - begin) - |s * Span(begin, end)|
    ensures |s - Span(begin, end)| == |s| - |s * Span(begin, end)|
    ensures |s * Span(begin, end)| == end - begin ==> s + Span(begin, end) == s
    ensures |s * Span(begin, end)| == 0 ==> s - Span(begin, end) == s
  {
    var r := Span(begin, end);
    SpanSize(begin, end);
    SubsetSize(s * r, r);
    assert s == (s - r) + s * r;
    assert s + r == (s - r) + r;
  }

  /** Reading a bitfield's bytes and setting another from them copies it. */
  method CopyRaw(src: Bitfield, dst: Bitfield)
    requires src.Valid() && dst.Valid() && src != dst && src.bitCount == dst.bitCount
    modifies dst
    ensures dst.Valid() && dst.Contents() == src.Contents()
  {
    hide BitAt, Bitfield.Contents;
    var raw := src.GetRaw();
    src.HasAllOrNone();
    assert raw[..|raw|] == raw;
    dst.SetRaw(raw);
  }
}
