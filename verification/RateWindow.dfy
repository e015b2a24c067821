/** The rate window of bandwidth.c: ten slots of 200 ms stand for the history of the last two
    seconds, and one answer is cached. */
module RateWindows {
  const HISTORY_MSEC := 2000
  const GRANULARITY_MSEC := 200
  const HISTORY_SIZE := 10
  const U32 := 0x1_0000_0000
  const U64 := 0x1_0000_0000_0000_0000

  datatype Transfer = Transfer(date: nat, size: nat)

  /** One call of bytesUsed. */
  datatype Use = Use(time: nat, size: nat)

  /** Bytes used at `since` or later. */
  function UsedSince(log: seq<Use>, since: int): nat
  {
    if log == [] then 0
    else UsedSince(log[..|log| - 1], since) + if since <= log[|log| - 1].time then log[|log| - 1].size else 0
  }

  /** `now - interval_msec` in 64 bits: before the clock reaches 2000 it wraps around. */
  function Cutoff(now: nat): nat
  {
    if now < HISTORY_MSEC then now + U64 - HISTORY_MSEC else now - HISTORY_MSEC
  }

  /** What the slots hold that were begun after the cutoff. */
  function RecentBytes(slots: seq<Transfer>, cutoff: nat): nat
  {
    if slots == [] || slots[|slots| - 1].date <= cutoff then 0
    else RecentBytes(slots[..|slots| - 1], cutoff) + slots[|slots| - 1].size
  }

  /** `(unsigned int) ((bytes * 1000u) / interval_msec)` in 64 bits */
  function SpeedOf(bytes: nat): nat
  {
    ((bytes * 1000) % U64 / HISTORY_MSEC) % U32
  }

  /** This is the whole number of bytes a second that so many bytes in two seconds come to. */
  predicate IsRate(speed: nat, bytes: nat)
  {
    2000 * speed <= 1000 * bytes < 2000 * (speed + 1)
  }

  /** As long as 32 bits hold it. */
  lemma SpeedIsRate(bytes: nat)
    requires bytes < 2 * U32
    ensures IsRate(SpeedOf(bytes), bytes)
  {
  }

  /** More bytes are no slower. */
  lemma RateBetween(speed: nat, low: nat, bytes: nat, high: nat)
    requires IsRate(speed, bytes) && low <= bytes <= high
    ensures 2000 * speed <= 1000 * high && 1000 * low < 2000 * (speed + 1)
  {
  }

  // ----- what all the slots ever begun say about the uses -----

  function SumFrom(slots: seq<Transfer>, k: nat): nat
    requires k <= |slots|
  {
    if k == |slots| then 0 else SumFrom(slots[..|slots| - 1], k) + slots[|slots| - 1].size
  }

  /** Slots are begun more than 200 ms apart; the first is there from the start. */
  ghost predicate Spaced(slots: seq<Transfer>)
  {
    && 0 < |slots| && slots[0].date == 0
    && forall i, j | 0 <= i < j < |slots| :: slots[i].date + (j - i) * 201 <= slots[j].date
  }

  /** The slots from each one on hold what was used since it was begun. */
  ghost predicate SumsAgree(slots: seq<Transfer>, log: seq<Use>)
  {
    forall k | 0 <= k < |slots| :: SumFrom(slots, k) == UsedSince(log, slots[k].date)
  }

  /** No use falls between the 200 ms that belong to one slot and the next slot. */
  ghost predicate NoGap(log: seq<Use>, date: nat, next: nat)
  {
    forall i | 0 <= i < |log| && log[i].time < next :: log[i].time <= date + GRANULARITY_MSEC
  }

  ghost predicate NoGaps(slots: seq<Transfer>, log: seq<Use>)
    requires 0 < |slots|
  {
    && (forall k, m {:trigger slots[k], slots[m]} | 0 <= k && m == k + 1 < |slots| :: NoGap(log, slots[k].date, slots[m].date))
    && (forall i | 0 <= i < |log| :: log[i].time <= slots[|slots| - 1].date + GRANULARITY_MSEC)
  }

  ghost predicate Holds(slots: seq<Transfer>, log: seq<Use>)
  {
    0 < |slots| && SumsAgree(slots, log) && NoGaps(slots, log)
  }

  lemma {:induction false} UsedSinceMono(log: seq<Use>, a: int, b: int)
    requires forall i | 0 <= i < |log| :: a <= log[i].time ==> b <= log[i].time
    ensures UsedSince(log, a) <= UsedSince(log, b)
  {
    if log != [] {
      UsedSinceMono(log[..|log| - 1], a, b);
    }
  }

  /** The first slot begun after the cutoff. */
  lemma {:induction false} RecentIsTail(slots: seq<Transfer>, cutoff: nat) returns (k: nat)
    requires Spaced(slots)
    ensures 0 < k <= |slots| && RecentBytes(slots, cutoff) == SumFrom(slots, k)
    ensures slots[k - 1].date <= cutoff && (k < |slots| ==> cutoff < slots[k].date)
  {
    if slots[|slots| - 1].date <= cutoff {
      k := |slots|;
    } else {
      k := RecentIsTail(slots[..|slots| - 1], cutoff);
    }
  }

  /** The window's total lies between the bytes of the last 1800 ms and those of the last
      2000 ms.  (A use at `time` is within the last n ms when now - n < time.) */
  lemma WindowIsAccurate(slots: seq<Transfer>, log: seq<Use>, now: nat)
    requires Spaced(slots) && Holds(slots, log) && HISTORY_MSEC <= now
    ensures UsedSince(log, now - (HISTORY_MSEC - GRANULARITY_MSEC) + 1) <= RecentBytes(slots, Cutoff(now))
    ensures RecentBytes(slots, Cutoff(now)) <= UsedSince(log, now - HISTORY_MSEC + 1)
  {
    var late, early := now - (HISTORY_MSEC - GRANULARITY_MSEC) + 1, now - HISTORY_MSEC + 1;
    var k := RecentIsTail(slots, Cutoff(now));
    if k < |slots| {
      forall i | 0 <= i < |log| && late <= log[i].time
        ensures slots[k].date <= log[i].time
      {
        assert NoGap(log, slots[k - 1].date, slots[k].date);
      }
      UsedSinceMono(log, late, slots[k].date);
      UsedSinceMono(log, slots[k].date, early);
    } else {
      NoneSince(log, late);
    }
  }

  lemma {:induction false} NoneSince(log: seq<Use>, since: int)
    requires forall i | 0 <= i < |log| :: log[i].time < since
    ensures UsedSince(log, since) == 0
  {
    if log != [] {
      NoneSince(log[..|log| - 1], since);
    }
  }

  /** Before the clock reaches 2000 the cutoff wraps, and the window sees nothing. */
  lemma EarlyWindowIsEmpty(slots: seq<Transfer>, now: nat)
    requires Spaced(slots) && now < HISTORY_MSEC && slots[|slots| - 1].date <= now
    ensures RecentBytes(slots, Cutoff(now)) == 0
  {
  }

  /** So the window is accurate exactly when the clock has reached 2000, or nothing was used
      so far that it should have counted. */
  lemma AccurateWhen(slots: seq<Transfer>, log: seq<Use>, now: nat)
    requires Spaced(slots) && Holds(slots, log) && slots[|slots| - 1].date <= now
    ensures UsedSince(log, now - (HISTORY_MSEC - GRANULARITY_MSEC) + 1) <= RecentBytes(slots, Cutoff(now)) <= UsedSince(log, now - HISTORY_MSEC + 1)
      <==> HISTORY_MSEC <= now || UsedSince(log, now - (HISTORY_MSEC - GRANULARITY_MSEC) + 1) == 0
  {
    if HISTORY_MSEC <= now {
      WindowIsAccurate(slots, log, now);
    } else {
      EarlyWindowIsEmpty(slots, now);
    }
  }

  /** One byte used a second after the clock's start, and asked for at once, is missed. */
  lemma EarlyUseIsMissed()
    ensures var slots, log := [Transfer(0, 0), Transfer(1000, 1)], [Use(1000, 1)];
      Spaced(slots) && Holds(slots, log) && RecentBytes(slots, Cutoff(1000)) < UsedSince(log, 1000 - 1800 + 1)
  {
    var slots, log := [Transfer(0, 0), Transfer(1000, 1)], [Use(1000, 1)];
    assert slots[..1] == [Transfer(0, 0)] && log[..0] == [];
    assert SumFrom(slots, 2) == 0 && SumFrom(slots[..1], 1) == 0;
  }

  // ----- adding a use -----

  lemma {:induction false} GrowLast(slots: seq<Transfer>, k: nat, size: nat)
    requires 0 < |slots| && k < |slots|
    ensures var last := slots[|slots| - 1];
      SumFrom(slots[|slots| - 1 := last.(size := last.size + size)], k) == SumFrom(slots, k) + size
  {
    var last := slots[|slots| - 1];
    assert slots[|slots| - 1 := last.(size := last.size + size)][..|slots| - 1] == slots[..|slots| - 1];
  }

  lemma GapsStay(slots: seq<Transfer>, log: seq<Use>, now: nat, size: nat)
    requires Spaced(slots) && NoGaps(slots, log) && slots[|slots| - 1].date <= now
    ensures forall k, m {:trigger slots[k], slots[m]} | 0 <= k && m == k + 1 < |slots| :: NoGap(log + [Use(now, size)], slots[k].date, slots[m].date)
  {
    forall k, m {:trigger slots[k], slots[m]} | 0 <= k && m == k + 1 < |slots|
      ensures NoGap(log + [Use(now, size)], slots[k].date, slots[m].date)
    {
      assert NoGap(log, slots[k].date, slots[m].date) && slots[m].date <= slots[|slots| - 1].date;
    }
  }

  lemma DatesAscend(slots: seq<Transfer>)
    requires Spaced(slots)
    ensures forall k | 0 <= k < |slots| :: slots[k].date <= slots[|slots| - 1].date
  {
  }

  lemma SpacedSame(slots: seq<Transfer>, size: nat)
    requires Spaced(slots)
    ensures Spaced(slots[|slots| - 1 := slots[|slots| - 1].(size := size)])
  {
    var grown := slots[|slots| - 1 := slots[|slots| - 1].(size := size)];
    assert forall k | 0 <= k < |slots| :: grown[k].date == slots[k].date;
  }

  /** A use within 200 ms goes into the newest slot. */
  lemma UseGrows(slots: seq<Transfer>, log: seq<Use>, now: nat, size: nat)
    requires Spaced(slots) && Holds(slots, log) && slots[|slots| - 1].date <= now <= slots[|slots| - 1].date + GRANULARITY_MSEC
    ensures var last := slots[|slots| - 1]; var grown := slots[|slots| - 1 := last.(size := last.size + size)];
      Spaced(grown) && Holds(grown, log + [Use(now, size)])
  {
    hide NoGap, Spaced;
    var last := slots[|slots| - 1];
    var grown, log' := slots[|slots| - 1 := last.(size := last.size + size)], log + [Use(now, size)];
    assert log'[..|log|] == log;
    SpacedSame(slots, last.size + size);
    DatesAscend(slots);
    GapsStay(slots, log, now, size);
    assert forall k | 0 <= k < |grown| :: grown[k].date == slots[k].date;
    forall k | 0 <= k < |grown|
      ensures SumFrom(grown, k) == UsedSince(log', grown[k].date)
    {
      GrowLast(slots, k, size);
    }
  }

  lemma SumsMore(slots: seq<Transfer>, log: seq<Use>, now: nat, size: nat)
    requires Spaced(slots) && Holds(slots, log) && slots[|slots| - 1].date + GRANULARITY_MSEC < now
    ensures SumsAgree(slots + [Transfer(now, size)], log + [Use(now, size)])
  {
    var more, log' := slots + [Transfer(now, size)], log + [Use(now, size)];
    assert log'[..|log|] == log && more[..|slots|] == slots;
    hide NoGap;
    forall k | 0 <= k < |more|
      ensures SumFrom(more, k) == UsedSince(log', more[k].date)
    {
      if k == |slots| {
        NoneSince(log, now);
      } else {
        assert slots[k].date <= slots[|slots| - 1].date;
      }
    }
  }

  lemma SpacedMore(slots: seq<Transfer>, t: Transfer)
    requires Spaced(slots) && slots[|slots| - 1].date + GRANULARITY_MSEC < t.date
    ensures Spaced(slots + [t])
  {
    assert forall i | 0 <= i < |slots| :: slots[i].date + (|slots| - 1 - i) * 201 <= slots[|slots| - 1].date;
  }

  /** A later one begins a slot. */
  lemma UseBegins(slots: seq<Transfer>, log: seq<Use>, now: nat, size: nat)
    requires Spaced(slots) && Holds(slots, log) && slots[|slots| - 1].date + GRANULARITY_MSEC < now
    ensures Spaced(slots + [Transfer(now, size)]) && Holds(slots + [Transfer(now, size)], log + [Use(now, size)])
  {
    SumsMore(slots, log, now, size);
    GapsStay(slots, log, now, size);
    SpacedMore(slots, Transfer(now, size));
    hide SumsAgree, Spaced;
  }

  // ----- the ring -----

  lemma SumFromEnd(slots: seq<Transfer>)
    ensures SumFrom(slots, |slots|) == 0
  {
  }

  lemma {:induction false} SumFromStep(slots: seq<Transfer>, k: nat)
    requires k < |slots|
    ensures SumFrom(slots, k) == SumFrom(slots, k + 1) + slots[k].size
  {
    if k + 1 < |slots| {
      SumFromStep(slots[..|slots| - 1], k);
    }
  }

  /** Ten slots back, every slot is more than 2000 ms older. */
  lemma TenIsEnough(slots: seq<Transfer>, now: nat)
    requires Spaced(slots) && slots[|slots| - 1].date <= now && HISTORY_SIZE < |slots|
    ensures slots[|slots| - 1 - HISTORY_SIZE].date <= Cutoff(now)
  {
  }

  /** A walk back over m slots that stopped before an old one saw all the recent ones. */
  lemma {:induction false} WalkSeesAll(slots: seq<Transfer>, cutoff: nat, m: nat)
    requires Spaced(slots) && m < |slots| && slots[|slots| - 1 - m].date <= cutoff
    requires forall k | |slots| - m <= k < |slots| :: cutoff < slots[k].date
    ensures RecentBytes(slots, cutoff) == SumFrom(slots, |slots| - m)
  {
    if m != 0 {
      WalkSeesAll(slots[..|slots| - 1], cutoff, m - 1);
    }
  }

  /** The ring holds the last ten slots. */
  ghost predicate Ring(transfers: seq<Transfer>, newest: nat, slots: seq<Transfer>)
  {
    && |transfers| == HISTORY_SIZE && 0 < |slots|
    && newest == (|slots| - 1) % HISTORY_SIZE
    && (forall k | 0 <= k < |slots| && |slots| - HISTORY_SIZE <= k :: transfers[k % HISTORY_SIZE] == slots[k])
  }

  /** The place in the ring of the slot m places before the newest one. */
  function Place(n: nat, m: nat): nat
    requires m < n
  {
    (n - 1 - m) % HISTORY_SIZE
  }

  lemma PlaceHolds(transfers: seq<Transfer>, newest: nat, slots: seq<Transfer>, m: nat)
    requires Ring(transfers, newest, slots) && m < |slots| && m < HISTORY_SIZE
    ensures Place(|slots|, m) < |transfers| && transfers[Place(|slots|, m)] == slots[|slots| - 1 - m]
    ensures newest == Place(|slots|, 0)
  {
  }

  lemma OneBack(a: nat)
    requires 0 < a
    ensures (a - 1) % HISTORY_SIZE == (if a % HISTORY_SIZE == 0 then HISTORY_SIZE - 1 else a % HISTORY_SIZE - 1)
  {
  }

  lemma AllTheWay(a: nat, d: nat)
    requires 0 < d <= HISTORY_SIZE
    ensures (a + d) % HISTORY_SIZE == a % HISTORY_SIZE <==> d == HISTORY_SIZE
  {
  }

  lemma PlaceBefore(n: nat, m: nat)
    requires m + 1 < n && m < HISTORY_SIZE
    ensures Place(n, m + 1) == (if Place(n, m) == 0 then HISTORY_SIZE - 1 else Place(n, m) - 1)
    ensures Place(n, m + 1) == Place(n, 0) <==> m + 1 == HISTORY_SIZE
  {
    OneBack(n - 1 - m);
    AllTheWay(n - 2 - m, m + 1);
  }

  lemma RingGrows(transfers: seq<Transfer>, newest: nat, slots: seq<Transfer>, t: Transfer)
    requires Ring(transfers, newest, slots)
    ensures newest < |transfers| && transfers[newest] == slots[|slots| - 1]
    ensures Ring(transfers[newest := t], newest, slots[|slots| - 1 := t])
  {
    forall k | 0 <= k < |slots| - 1 && |slots| - HISTORY_SIZE <= k
      ensures k % HISTORY_SIZE != newest
    {
      AllTheWay(k, |slots| - 1 - k);
    }
  }

  lemma RingBegins(transfers: seq<Transfer>, newest: nat, slots: seq<Transfer>, t: Transfer)
    requires Ring(transfers, newest, slots)
    ensures |transfers| == HISTORY_SIZE && newest < HISTORY_SIZE
    ensures var next := if newest + 1 == HISTORY_SIZE then 0 else newest + 1;
      Ring(transfers[next := t], next, slots + [t])
  {
    var next := if newest + 1 == HISTORY_SIZE then 0 else newest + 1;
    OneBack(|slots|);
    forall k | 0 <= k < |slots| && |slots| - HISTORY_SIZE < k
      ensures k % HISTORY_SIZE != next
    {
      AllTheWay(k, |slots| - k);
    }
  }

  lemma OldestIsOld(slots: seq<Transfer>)
    requires Spaced(slots)
    ensures 0 < |slots| && slots[0].date == 0
  {
  }

  /** struct bratecontrol.  `slots` are all the slots ever begun, `log` all the uses, and
      `clock` the time of the last one. */
  class RateWindow {
    var newest: nat
    var transfers: array<Transfer>
    var cacheTime: nat
    var cacheVal: nat
    ghost var slots: seq<Transfer>
    ghost var log: seq<Use>
    ghost var clock: nat

    ghost predicate Valid()
      reads this, transfers
    {
      && Ring(transfers[..], newest, slots)
      && Spaced(slots) && Holds(slots, log)
      && slots[|slots| - 1].date <= clock
      && (cacheTime != 0 ==> cacheVal == SpeedOf(RecentBytes(slots, Cutoff(cacheTime))))
    }

    constructor ()
      ensures Valid() && fresh(transfers) && log == [] && clock == 0
    {
      transfers := new Transfer[HISTORY_SIZE](i => Transfer(0, 0));
      newest, cacheTime, cacheVal := 0, 0, 0;
      slots, log, clock := [Transfer(0, 0)], [], 0;
    }

    /** bytesUsed */
    method BytesUsed(now: nat, size: nat)
      requires Valid() && clock <= now
      modifies this, transfers
      ensures Valid() && transfers == old(transfers)
      ensures log == old(log) + [Use(now, size)] && clock == now
    {
      hide Spaced, Holds, Ring;
      OldestIsOld(slots);
      ghost var last, was := slots[|slots| - 1], transfers[..];
      RingGrows(was, newest, slots, last.(size := last.size + size));
      if transfers[newest].date + GRANULARITY_MSEC >= now {
        UseGrows(slots, log, now, size);
        slots := slots[|slots| - 1 := last.(size := last.size + size)];
        transfers[newest] := transfers[newest].(size := transfers[newest].size + size);
        assert transfers[..] == was[newest := last.(size := last.size + size)];
      } else {
        UseBegins(slots, log, now, size);
        RingBegins(was, newest, slots, Transfer(now, size));
        slots := slots + [Transfer(now, size)];
        newest := newest + 1;
        if newest == HISTORY_SIZE {
          newest := 0;
        }
        transfers[newest] := Transfer(now, size);
        assert transfers[..] == was[newest := Transfer(now, size)];
      }
      log, clock := log + [Use(now, size)], now;
      cacheTime := 0;
    }

    /** The loop of getSpeed_Bps: back from the newest slot to the first old one. */
    method SumRing(now: nat) returns (bytes: nat)
      requires Valid() && clock <= now
      ensures bytes == RecentBytes(slots, Cutoff(now))
    {
      hide Holds, SpeedOf, RecentBytes, SumFrom, Spaced, Ring, Place, Cutoff;
      OldestIsOld(slots);
      PlaceHolds(transfers[..], newest, slots, 0);
      var i, cutoff := newest, Cutoff(now);
      bytes := 0;
      ghost var m, n := 0, |slots|;
      SumFromEnd(slots);
      while true
        invariant 0 <= m < HISTORY_SIZE && m < n && i == Place(n, m)
        invariant bytes == SumFrom(slots, n - m)
        invariant forall k | n - m <= k < n :: cutoff < slots[k].date
        decreases HISTORY_SIZE - m
      {
        PlaceHolds(transfers[..], newest, slots, m);
        if transfers[i].date <= cutoff {
          WalkSeesAll(slots, cutoff, m);
          break;
        }
        SumFromStep(slots, n - 1 - m);
        PlaceBefore(n, m);
        bytes := bytes + transfers[i].size;
        i := i - 1;
        if i == -1 {
          i := HISTORY_SIZE - 1;
        }
        m := m + 1;
        if i == newest {
          TenIsEnough(slots, now);
          WalkSeesAll(slots, cutoff, m);
          break;
        }
      }
    }

    /** getSpeed_Bps over HISTORY_MSEC; a cached answer is what a fresh sum would give. */
    method GetSpeed(now: nat) returns (speed: nat)
      requires Valid() && clock <= now && 0 < now
      modifies this`cacheTime, this`cacheVal
      ensures Valid()
      ensures speed == SpeedOf(RecentBytes(slots, Cutoff(now)))
      ensures HISTORY_MSEC <= now ==>
        UsedSince(log, now - (HISTORY_MSEC - GRANULARITY_MSEC) + 1) <= RecentBytes(slots, Cutoff(now)) <= UsedSince(log, now - HISTORY_MSEC + 1)
      ensures HISTORY_MSEC <= now && UsedSince(log, now - 2000 + 1) < 2 * U32 ==>
        2000 * speed <= 1000 * UsedSince(log, now - 2000 + 1) && 1000 * UsedSince(log, now - 1800 + 1) < 2000 * (speed + 1)
    {
      hide IsRate, Holds, SpeedOf, RecentBytes, Ring, Spaced, Cutoff, UsedSince;
      if HISTORY_MSEC <= now {
        WindowIsAccurate(slots, log, now);
      }
      if now != cacheTime {
        var bytes := SumRing(now);
        cacheVal := SpeedOf(bytes);
        cacheTime := now;
      }
      speed := cacheVal;
      if HISTORY_MSEC <= now && UsedSince(log, now - 2000 + 1) < 2 * U32 {
        ghost var bytes := RecentBytes(slots, Cutoff(now));
        SpeedIsRate(bytes);
        RateBetween(speed, UsedSince(log, now - 1800 + 1), bytes, UsedSince(log, now - 2000 + 1));
      }
    }
  }
}
