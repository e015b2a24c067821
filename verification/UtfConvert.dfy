/** The two conversions of ConvertUTF.c between UTF-16 and UTF-8, as loops over buffers and as
    functions, and what they mean for each other. */
module UtfConvert {
  import opened Geometry
  import opened Utf

  /** What a conversion reports, how far it read, and what it wrote. */
  datatype Conversion<T> = Conversion(result: ConversionResult, used: nat, out: seq<T>)

  /** Room in the target: so much, or as much as is needed. */
  datatype Room = Some(n: nat) | NoLimit

  predicate Fits(room: Room, n: nat)
  {
    room.NoLimit? || n <= room.n
  }

  function Less(room: Room, n: nat): Room
    requires Fits(room, n)
  {
    if room.NoLimit? then NoLimit else Some(room.n - n)
  }

  function Prepend<T>(used: nat, out: seq<T>, c: Conversion<T>): Conversion<T>
  {
    Conversion(c.result, used + c.used, out + c.out)
  }

  /** ConvertUTF16toUTF8 */
  function To8(s: seq<unit>, strict: bool, room: Room): (c: Conversion<byte>)
    ensures c.used <= |s| && Fits(room, |c.out|)
  {
    if s == [] then Conversion(ConversionOK, 0, [])
    else
      match Next16(s, strict)
      case Stop(why) => Conversion(why, 0, [])
      case Char(ch, length) =>
        if Fits(room, Length8(ch)) then Prepend(length, Bytes(ch), To8(s[length..], strict, Less(room, Length8(ch))))
        else Conversion(TargetExhausted, 0, [])
  }

  /** ConvertUTF8toUTF16.  The source is found legal before the target is found full. */
  function To16(s: seq<byte>, room: Room): (c: Conversion<unit>)
    ensures c.used <= |s| && Fits(room, |c.out|)
  {
    if s == [] then Conversion(ConversionOK, 0, [])
    else
      match Next8(s)
      case Stop(why) => Conversion(why, 0, [])
      case Char(ch, length) =>
        if Fits(room, |Units(ch)|) then Prepend(length, Units(ch), To16(s[length..], Less(room, |Units(ch)|)))
        else Conversion(TargetExhausted, 0, [])
  }

  // ----- stopping and resuming -----

  /** With no limit, the conversion of s writes `out` for its first `used` and goes on from there. */
  predicate Continues8(s: seq<unit>, strict: bool, used: nat, out: seq<byte>)
  {
    used <= |s| && To8(s, strict, NoLimit) == Prepend(used, out, To8(s[used..], strict, NoLimit))
  }

  lemma Continue8(s: seq<unit>, strict: bool, u: nat, o: seq<byte>, v: nat, p: seq<byte>)
    requires Continues8(s, strict, u, o) && Continues8(s[u..], strict, v, p)
    ensures Continues8(s, strict, u + v, o + p)
  {
    hide To8;
    assert s[u..][v..] == s[u + v..];
    var rest := To8(s[u + v..], strict, NoLimit);
    assert o + (p + rest.out) == o + p + rest.out;
  }

  lemma ContinueNowhere8(s: seq<unit>, strict: bool)
    ensures Continues8(s, strict, 0, [])
  {
    hide To8;
    assert s[0..] == s;
  }

  /** Going on from where a conversion stopped for want of room gives what one with no limit gives. */
  lemma {:induction false} Resume8(s: seq<unit>, strict: bool, room: Room)
    ensures var c := To8(s, strict, room);
      if c.result == TargetExhausted then Continues8(s, strict, c.used, c.out) else To8(s, strict, NoLimit) == c
  {
    hide Next16, Bytes;
    ContinueNowhere8(s, strict);
    if s != [] && Next16(s, strict).Char? {
      var f := Next16(s, strict);
      if Fits(room, Length8(f.ch)) {
        var rest := Less(room, Length8(f.ch));
        Resume8(s[f.length..], strict, rest);
        var c := To8(s[f.length..], strict, rest);
        assert Continues8(s, strict, f.length, Bytes(f.ch));
        if c.result == TargetExhausted {
          Continue8(s, strict, f.length, Bytes(f.ch), c.used, c.out);
        }
      }
    }
  }

  /** Conversions one after another, each into a target of its own, until one does not
      exhaust its target. */
  function Resumed8(s: seq<unit>, strict: bool, rooms: seq<nat>): Conversion<byte>
  {
    if rooms == [] then Conversion(TargetExhausted, 0, [])
    else
      var c := To8(s, strict, Some(rooms[0]));
      if c.result == TargetExhausted then Prepend(c.used, c.out, Resumed8(s[c.used..], strict, rooms[1..])) else c
  }

  /** Wherever the targets end, the pieces make up the unbounded output. */
  lemma {:induction false} AnyStops8(s: seq<unit>, strict: bool, rooms: seq<nat>)
    ensures var c := Resumed8(s, strict, rooms);
      if c.result == TargetExhausted then Continues8(s, strict, c.used, c.out) else To8(s, strict, NoLimit) == c
  {
    hide To8;
    if rooms == [] {
      ContinueNowhere8(s, strict);
    } else {
      var c := To8(s, strict, Some(rooms[0]));
      Resume8(s, strict, Some(rooms[0]));
      if c.result == TargetExhausted {
        AnyStops8(s[c.used..], strict, rooms[1..]);
        var d := Resumed8(s[c.used..], strict, rooms[1..]);
        if d.result == TargetExhausted {
          Continue8(s, strict, c.used, c.out, d.used, d.out);
        }
      }
    }
  }

  /** With no limit, the conversion of s writes `out` for its first `used` and goes on from there. */
  predicate Continues16(s: seq<byte>, used: nat, out: seq<unit>)
  {
    used <= |s| && To16(s, NoLimit) == Prepend(used, out, To16(s[used..], NoLimit))
  }

  lemma Continue16(s: seq<byte>, u: nat, o: seq<unit>, v: nat, p: seq<unit>)
    requires Continues16(s, u, o) && Continues16(s[u..], v, p)
    ensures Continues16(s, u + v, o + p)
  {
    hide To16;
    assert s[u..][v..] == s[u + v..];
    var rest := To16(s[u + v..], NoLimit);
    assert o + (p + rest.out) == o + p + rest.out;
  }

  lemma ContinueNowhere16(s: seq<byte>)
    ensures Continues16(s, 0, [])
  {
    hide To16;
    assert s[0..] == s;
  }

  /** Going on from where a conversion stopped for want of room gives what one with no limit gives. */
  lemma {:induction false} Resume16(s: seq<byte>, room: Room)
    ensures var c := To16(s, room);
      if c.result == TargetExhausted then Continues16(s, c.used, c.out) else To16(s, NoLimit) == c
  {
    hide Next8, Units;
    ContinueNowhere16(s);
    if s != [] && Next8(s).Char? {
      var f := Next8(s);
      if Fits(room, |Units(f.ch)|) {
        var rest := Less(room, |Units(f.ch)|);
        Resume16(s[f.length..], rest);
        var c := To16(s[f.length..], rest);
        assert Continues16(s, f.length, Units(f.ch));
        if c.result == TargetExhausted {
          Continue16(s, f.length, Units(f.ch), c.used, c.out);
        }
      }
    }
  }

  /** Conversions one after another, each into a target of its own, until one does not
      exhaust its target. */
  function Resumed16(s: seq<byte>, rooms: seq<nat>): Conversion<unit>
  {
    if rooms == [] then Conversion(TargetExhausted, 0, [])
    else
      var c := To16(s, Some(rooms[0]));
      if c.result == TargetExhausted then Prepend(c.used, c.out, Resumed16(s[c.used..], rooms[1..])) else c
  }

  /** Wherever the targets end, the pieces make up the unbounded output. */
  lemma {:induction false} AnyStops16(s: seq<byte>, rooms: seq<nat>)
    ensures var c := Resumed16(s, rooms);
      if c.result == TargetExhausted then Continues16(s, c.used, c.out) else To16(s, NoLimit) == c
  {
    hide To16;
    if rooms == [] {
      ContinueNowhere16(s);
    } else {
      var c := To16(s, Some(rooms[0]));
      Resume16(s, Some(rooms[0]));
      if c.result == TargetExhausted {
        AnyStops16(s[c.used..], rooms[1..]);
        var d := Resumed16(s[c.used..], rooms[1..]);
        if d.result == TargetExhausted {
          Continue16(s, c.used, c.out, d.used, d.out);
        }
      }
    }
  }

  // ----- there and back -----

  /** Well-formed UTF-16 goes to well-formed UTF-8 that validates, and back to itself. */
  lemma {:induction false} RoundTrip(s: seq<unit>, strict: bool)
    requires WellFormed16(s)
    ensures var c := To8(s, strict, NoLimit);
      && c.result == ConversionOK && c.used == |s|
      && LegalLength(c.out) == |c.out|
      && WellFormed8(c.out)
      && To16(c.out, NoLimit) == Conversion(ConversionOK, |c.out|, s)
  {
    if s != [] {
      var f := Next16(s, true);
      FoundIsUnits(s);
      RoundTrip(s[f.length..], strict);
      assert s == Units(f.ch) + s[f.length..];
      OneMoreCharacter(f.ch, To8(s[f.length..], strict, NoLimit).out, s[f.length..]);
    }
  }

  /** One more character in front of UTF-8 text that is well-formed and reads as `rest`. */
  lemma OneMoreCharacter(ch: nat, tail: seq<byte>, rest: seq<unit>)
    requires IsScalar(ch) && LegalLength(tail) == |tail| && WellFormed8(tail)
    requires To16(tail, NoLimit) == Conversion(ConversionOK, |tail|, rest)
    ensures LegalLength(Bytes(ch) + tail) == |Bytes(ch) + tail| && WellFormed8(Bytes(ch) + tail)
    ensures To16(Bytes(ch) + tail, NoLimit) == Conversion(ConversionOK, |Bytes(ch) + tail|, Units(ch) + rest)
  {
    var out := Bytes(ch) + tail;
    BytesAreRead(ch, tail);
    ScalarIsRfc(ch, tail);
    hide Next8, Bytes, Units, IsRfcChar;
    assert out[Length8(ch)..] == tail;
  }

  /** ... and well-formed UTF-8 goes to UTF-16 and back to itself. */
  lemma {:induction false} RoundTripBack(s: seq<byte>, strict: bool)
    requires WellFormed8(s)
    ensures var c := To16(s, NoLimit);
      c.result == ConversionOK && c.used == |s| && To8(c.out, strict, NoLimit) == Conversion(ConversionOK, |c.out|, s)
  {
    hide Next8, Bytes, Units, IsRfcChar, To8;
    NothingToDo(strict);
    if s != [] {
      var n := FirstChar(s);
      RfcIsBytes(s, n);
      RoundTripBack(s[n..], strict);
      assert s == s[..n] + s[n..];
      OneMoreUnit(Next8(s).ch, To16(s[n..], NoLimit).out, s[n..], strict);
    }
  }

  lemma NothingToDo(strict: bool)
    ensures To8([], strict, NoLimit) == Conversion(ConversionOK, 0, [])
  {
  }

  lemma FirstChar(s: seq<byte>) returns (n: nat)
    requires s != [] && WellFormed8(s)
    ensures 0 < n <= |s| && IsRfcChar(s, n) && WellFormed8(s[n..])
  {
    n := if |s| >= 1 && IsRfcChar(s, 1) && WellFormed8(s[1..]) then 1
      else if |s| >= 2 && IsRfcChar(s, 2) && WellFormed8(s[2..]) then 2
      else if |s| >= 3 && IsRfcChar(s, 3) && WellFormed8(s[3..]) then 3 else 4;
  }

  lemma OneMoreUnit(ch: nat, tail: seq<unit>, rest: seq<byte>, strict: bool)
    requires IsScalar(ch) && To8(tail, strict, NoLimit) == Conversion(ConversionOK, |tail|, rest)
    ensures To8(Units(ch) + tail, strict, NoLimit) == Conversion(ConversionOK, |Units(ch) + tail|, Bytes(ch) + rest)
  {
    var out := Units(ch) + tail;
    UnitsAreRead(ch, tail, strict);
    hide Next16, Bytes, Units;
    assert out[|Units(ch)|..] == tail;
  }

  lemma ScalarIsRfc(ch: nat, rest: seq<byte>)
    requires IsScalar(ch)
    ensures IsRfcChar(Bytes(ch) + rest, Length8(ch))
  {
  }

  // ----- the loops -----

  /** One turn of the loop of ConvertUTF16toUTF8, `out` having been written for the first `used`. */
  lemma Turn8(s: seq<unit>, used: nat, out: seq<byte>, strict: bool, room: nat)
    requires used < |s|
    ensures var f := Next16(s[used..], strict); var c := Prepend(used, out, To8(s[used..], strict, Some(room)));
      if f.Stop? then c == Conversion(f.why, used, out)
      else if room < Length8(f.ch) then c == Conversion(TargetExhausted, used, out)
      else used + f.length <= |s| && c == Prepend(used + f.length, out + Bytes(f.ch), To8(s[used + f.length..], strict, Some(room - Length8(f.ch))))
  {
    hide Next16, Bytes, Length8;
    var f := Next16(s[used..], strict);
    assert f.Char? ==> s[used..][f.length..] == s[used + f.length..];
  }

  /** ... and of ConvertUTF8toUTF16. */
  lemma Turn16(s: seq<byte>, used: nat, out: seq<unit>, room: nat)
    requires used < |s|
    ensures var f := Next8(s[used..]); var c := Prepend(used, out, To16(s[used..], Some(room)));
      if f.Stop? then c == Conversion(f.why, used, out)
      else if room < |Units(f.ch)| then c == Conversion(TargetExhausted, used, out)
      else used + f.length <= |s| && c == Prepend(used + f.length, out + Units(f.ch), To16(s[used + f.length..], Some(room - |Units(f.ch)|)))
  {
    hide Next8, Units;
    var f := Next8(s[used..]);
    assert f.Char? ==> s[used..][f.length..] == s[used + f.length..];
  }

  lemma SliceGrows<T>(a: seq<T>, b: seq<T>, t0: nat, t: nat, u: nat)
    requires t0 <= t <= u <= |a| == |b| && forall i | t0 <= i < t :: a[i] == b[i]
    ensures b[t0..u] == a[t0..t] + b[t..u]
  {
  }

  lemma PrependNothing<T>(c: Conversion<T>)
    ensures Prepend(0, [], c) == c
  {
  }

  /** The switch that writes a character's bytes, the last one first. */
  method WriteBytes(target: array<byte>, end: nat, ch0: nat, bytesToWrite: nat)
    requires ch0 < 0x110000 && bytesToWrite == Length8(ch0) <= end <= target.Length
    modifies target
    ensures target[end - bytesToWrite..end] == Bytes(ch0)
    ensures forall i | 0 <= i < target.Length && !(end - bytesToWrite <= i < end) :: target[i] == old(target[i])
  {
    var ch, t := ch0, end;
    Digits(ch0);
    if bytesToWrite >= 4 {
      t := t - 1;
      target[t] := Trail(ch);
      ch := ch / 0x40;
    }
    if bytesToWrite >= 3 {
      t := t - 1;
      target[t] := Trail(ch);
      ch := ch / 0x40;
    }
    if bytesToWrite >= 2 {
      t := t - 1;
      target[t] := Trail(ch);
      ch := ch / 0x40;
    }
    t := t - 1;
    target[t] := ch + FirstByteMark(bytesToWrite);
  }

  /** firstByteMark, or-ed into bits that are clear */
  function FirstByteMark(bytesToWrite: nat): nat
  {
    if bytesToWrite == 2 then 0xC0 else if bytesToWrite == 3 then 0xE0 else if bytesToWrite == 4 then 0xF0 else 0
  }

  /** ConvertUTF16toUTF8: the source from the start, the target from t0 up to targetEnd. */
  method ConvertUTF16toUTF8(s: seq<unit>, target: array<byte>, t0: nat, targetEnd: nat, strict: bool)
    returns (result: ConversionResult, source: nat, t: nat)
    requires t0 <= targetEnd <= target.Length
    modifies target
    ensures t0 <= t <= targetEnd
    ensures Conversion(result, source, target[t0..t]) == To8(s, strict, Some(targetEnd - t0))
    ensures forall i | 0 <= i < target.Length && !(t0 <= i < t) :: target[i] == old(target[i])
  {
    hide Next16, Bytes, Length8, To8, Prepend;
    source, t := 0, t0;
    ghost var whole := To8(s, strict, Some(targetEnd - t0));
    PrependNothing(whole);
    assert s[0..] == s && target[t0..t0] == [];
    while source < |s|
      invariant source <= |s| && t0 <= t <= targetEnd
      invariant whole == Prepend(source, target[t0..t], To8(s[source..], strict, Some(targetEnd - t)))
      invariant forall i | 0 <= i < target.Length && !(t0 <= i < t) :: target[i] == old(target[i])
    {
      ghost var before := target[..];
      Turn8(s, source, target[t0..t], strict, targetEnd - t);
      var f := Next16(s[source..], strict);
      if f.Stop? {
        return f.why, source, t;
      }
      var bytesToWrite := Length8(f.ch);
      if t + bytesToWrite > targetEnd {
        return TargetExhausted, source, t;
      }
      WriteBytes(target, t + bytesToWrite, f.ch, bytesToWrite);
      SliceGrows(before, target[..], t0, t, t + bytesToWrite);
      source, t := source + f.length, t + bytesToWrite;
    }
    AtEnd8(s, source, target[t0..t], strict, targetEnd - t);
    result := ConversionOK;
  }

  lemma AtEnd8(s: seq<unit>, used: nat, out: seq<byte>, strict: bool, room: nat)
    requires used == |s|
    ensures Prepend(used, out, To8(s[used..], strict, Some(room))) == Conversion(ConversionOK, used, out)
  {
  }

  lemma AtEnd16(s: seq<byte>, used: nat, out: seq<unit>, room: nat)
    requires used == |s|
    ensures Prepend(used, out, To16(s[used..], Some(room))) == Conversion(ConversionOK, used, out)
  {
  }

  /** ConvertUTF8toUTF16.  What it does about surrogates and about values beyond the last code
      point, which the flags decide, never comes up: the assertion shows it. */
  method ConvertUTF8toUTF16(s: seq<byte>, target: array<unit>, t0: nat, targetEnd: nat)
    returns (result: ConversionResult, source: nat, t: nat)
    requires t0 <= targetEnd <= target.Length
    modifies target
    ensures t0 <= t <= targetEnd
    ensures Conversion(result, source, target[t0..t]) == To16(s, Some(targetEnd - t0))
    ensures forall i | 0 <= i < target.Length && !(t0 <= i < t) :: target[i] == old(target[i])
  {
    hide Next8, To16, Prepend;
    source, t := 0, t0;
    ghost var whole := To16(s, Some(targetEnd - t0));
    PrependNothing(whole);
    assert s[0..] == s && target[t0..t0] == [];
    while source < |s|
      invariant source <= |s| && t0 <= t <= targetEnd
      invariant whole == Prepend(source, target[t0..t], To16(s[source..], Some(targetEnd - t)))
      invariant forall i | 0 <= i < target.Length && !(t0 <= i < t) :: target[i] == old(target[i])
    {
      ghost var before := target[..];
      Turn16(s, source, target[t0..t], targetEnd - t);
      var f := Next8(s[source..]);
      if f.Stop? {
        return f.why, source, t;
      }
      if t >= targetEnd {
        return TargetExhausted, source, t;
      }
      assert !IsHigh(f.ch) && !IsLow(f.ch) && f.ch <= 0x10FFFF;
      var n := t;
      if f.ch <= 0xFFFF {
        target[t] := f.ch;
        t := t + 1;
      } else {
        if t + 1 >= targetEnd {
          return TargetExhausted, source, t;
        }
        var ch := f.ch - 0x10000;
        target[t] := ch / 0x400 + 0xD800;
        target[t + 1] := ch % 0x400 + 0xDC00;
        t := t + 2;
      }
      assert target[n..t] == Units(f.ch);
      SliceGrows(before, target[..], t0, n, t);
      source := source + f.length;
    }
    AtEnd16(s, source, target[t0..t], targetEnd - t);
    result := ConversionOK;
  }

  /** One turn of the loop of tr_utf8_validate. */
  lemma TurnLegal(s: seq<byte>, used: nat)
    requires used < |s|
    ensures var length := TrailingBytes(s[used]) + 1;
      LegalLength(s[used..]) ==
        if used + length <= |s| && IsLegal(s[used..], length) then length + LegalLength(s[used + length..]) else 0
  {
    hide IsLegal, Assemble;
    var rest, length := s[used..], TrailingBytes(s[used]) + 1;
    assert rest[0] == s[used];
    if length <= |rest| {
      assert rest[length..] == s[used + length..];
    }
  }

  /** tr_utf8_validate, for text of a known length */
  method Validate(s: seq<byte>) returns (ok: bool, end: nat)
    ensures end == LegalLength(s) && (ok <==> LegalLength(s) == |s|)
  {
    hide IsLegal, LegalLength, TrailingBytes;
    NothingIllegal();
    if s == [] {
      return true, 0;
    }
    var source := 0;
    assert s[0..] == s;
    while true
      invariant 0 <= source < |s| && LegalLength(s) == source + LegalLength(s[source..])
      decreases |s| - source
    {
      TurnLegal(s, source);
      var length := TrailingBytes(s[source]) + 1;
      if source + length > |s| {
        return false, source;
      }
      if !IsLegal(s[source..], length) {
        return false, source;
      }
      source := source + length;
      if source >= |s| {
        assert s[source..] == [];
        return true, source;
      }
    }
  }

  lemma NothingIllegal()
    ensures LegalLength([]) == 0
  {
  }
}
