/** The table tr_peerMgrGetNextRequests fills for its caller: a list of blocks, or a list of
    inclusive intervals, two entries each. */
module RequestOutput {
  import opened RequestTable

  datatype Interval = Interval(first: nat, last: nat)

  ghost predicate InInterval(v: Interval, x: nat) {
    v.first <= x <= v.last
  }

  ghost predicate InSome(s: seq<Interval>, x: nat) {
    exists k :: 0 <= k < |s| && InInterval(s[k], x)
  }

  ghost predicate WithinPieces(s: seq<Interval>, per: nat)
    requires 0 < per
  {
    forall k | 0 <= k < |s| :: s[k].first <= s[k].last && PieceOf(s[k].first, per) == PieceOf(s[k].last, per)
  }

  ghost predicate Apart(v: Interval, w: Interval) {
    v.last < w.first || w.last < v.first
  }

  ghost predicate Disjoint(s: seq<Interval>) {
    forall j, k | 0 <= j < k < |s| :: Apart(s[j], s[k])
  }

  ghost predicate CoversExactly(s: seq<Interval>, added: set<nat>) {
    forall x: nat :: x in added <==> InSome(s, x)
  }

  /** The first `got` pairs of entries, read as intervals. */
  function Intervals(s: seq<nat>, got: nat): (t: seq<Interval>)
    requires 2 * got <= |s|
    ensures |t| == got
  {
    seq(got, k requires 0 <= k < got => Interval(s[2 * k], s[2 * k + 1]))
  }

  /** The first `got` entries list `added` without repetition. */
  ghost predicate IsBlockList(s: seq<nat>, got: nat, added: set<nat>)
  {
    && got <= |s|
    && (forall i, j | 0 <= i < j < got :: s[i] != s[j])
    && (forall x :: x in added <==> x in s[..got])
  }

  /** The first `got` pairs are disjoint intervals, each inside one piece, that together
      make up `added`. */
  ghost predicate IsIntervalList(s: seq<nat>, got: nat, added: set<nat>, per: nat)
    requires 0 < per
  {
    && 2 * got <= |s|
    && WithinPieces(Intervals(s, got), per)
    && Disjoint(Intervals(s, got))
    && CoversExactly(Intervals(s, got), added)
  }

  lemma NoOutput(s: seq<nat>, per: nat)
    requires 0 < per
    ensures IsBlockList(s, 0, {}) && IsIntervalList(s, 0, {}, per)
  {
  }

  lemma AppendBlock(s: seq<nat>, got: nat, added: set<nat>, b: nat)
    requires IsBlockList(s, got, added) && got < |s| && b !in added
    ensures IsBlockList(s[got := b], got + 1, added + {b})
  {
    var t := s[got := b];
    assert t[..got + 1] == s[..got] + [b];
    forall i | 0 <= i < got
      ensures t[i] != b
    {
      assert s[..got][i] == s[i];
    }
  }

  lemma OneMore(s: seq<Interval>, added: set<nat>, b: nat)
    requires Disjoint(s) && CoversExactly(s, added) && b !in added
    ensures Disjoint(s + [Interval(b, b)]) && CoversExactly(s + [Interval(b, b)], added + {b})
  {
    var t := s + [Interval(b, b)];
    forall k | 0 <= k < |s|
      ensures Apart(s[k], Interval(b, b))
    {
      assert !InInterval(s[k], b);
    }
    forall x: nat
      ensures x in added + {b} <==> InSome(t, x)
    {
      assert InInterval(t[|s|], x) <==> x == b;
      if InSome(s, x) {
        var k :| 0 <= k < |s| && InInterval(s[k], x);
        assert InInterval(t[k], x);
      }
    }
  }

  lemma OneLonger(s: seq<Interval>, added: set<nat>, b: nat)
    requires 0 < |s| && Disjoint(s) && CoversExactly(s, added) && b !in added
    requires s[|s| - 1].first <= s[|s| - 1].last && s[|s| - 1].last + 1 == b
    requires forall k | 0 <= k < |s| :: s[k].first <= s[k].last
    ensures Disjoint(s[|s| - 1 := Interval(s[|s| - 1].first, b)])
    ensures CoversExactly(s[|s| - 1 := Interval(s[|s| - 1].first, b)], added + {b})
  {
    var last := |s| - 1;
    var t := s[last := Interval(s[last].first, b)];
    forall k | 0 <= k < last
      ensures Apart(t[k], t[last])
    {
      assert !InInterval(s[k], b) && Apart(s[k], s[last]);
    }
    forall x: nat
      ensures x in added + {b} <==> InSome(t, x)
    {
      assert InInterval(t[last], x) <==> InInterval(s[last], x) || x == b;
      if InSome(s, x) {
        var k :| 0 <= k < |s| && InInterval(s[k], x);
        assert InInterval(t[k], x);
      }
    }
  }

  lemma BeginInterval(s: seq<nat>, got: nat, added: set<nat>, per: nat, b: nat)
    requires 0 < per && IsIntervalList(s, got, added, per) && 2 * got + 1 < |s| && b !in added
    ensures IsIntervalList(s[2 * got := b][2 * got + 1 := b], got + 1, added + {b}, per)
  {
    hide PieceOf, Disjoint, CoversExactly;
    var t := s[2 * got := b][2 * got + 1 := b];
    assert Intervals(t, got + 1) == Intervals(s, got) + [Interval(b, b)];
    OneMore(Intervals(s, got), added, b);
  }

  lemma ExtendInterval(s: seq<nat>, got: nat, added: set<nat>, per: nat, b: nat)
    requires 0 < per && 0 < got && IsIntervalList(s, got, added, per) && b !in added
    requires s[2 * got - 1] + 1 == b && PieceOf(b, per) == PieceOf(s[2 * got - 1], per)
    ensures IsIntervalList(s[2 * got - 1 := b], got, added + {b}, per)
  {
    hide PieceOf, Disjoint, CoversExactly;
    var t, u := s[2 * got - 1 := b], Intervals(s, got);
    assert u[got - 1] == Interval(s[2 * got - 2], s[2 * got - 1]);
    assert Intervals(t, got) == u[got - 1 := Interval(u[got - 1].first, b)];
    OneLonger(u, added, b);
  }
}
