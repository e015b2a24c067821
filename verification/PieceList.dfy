/** The weighted piece list of peer-mgr.c: the order pieces are requested in, and the two
    ways the list is put back in order without sorting it all again. */
module PieceList {
  import opened Geometry
  import opened Search
  import opened RequestTable

  /** struct weighted_piece */
  datatype WeightedPiece = WeightedPiece(index: nat, salt: int, requestCount: int)

  /** What the request code reads of the torrent: which blocks it has, which pieces it does
      not want, and what weighs one piece against another. */
  datatype Progress = Progress(
    tor: Torrent, complete: set<nat>, dnd: set<nat>, priority: map<nat, int>, replication: map<nat, int>,
    leftUntilDone: nat, isSeed: bool)
  {
    /** tr_torrentMissingBlocksInPiece */
    function Missing(piece: nat): nat
      requires 0 < tor.blockSize && 0 < tor.pieceSize
    {
      |set b | tor.PieceFirst(piece) <= b <= tor.PieceLast(piece) && b !in complete|
    }

    function Priority(piece: nat): int
    {
      if piece in priority then priority[piece] else 0
    }

    function Replication(piece: nat): int
    {
      if piece in replication then replication[piece] else 0
    }
  }

  /** The primary key of comparePieceByWeight: pieces nearest to being fully requested come
      first, and fully requested ones last. */
  function Weight(env: Progress, p: WeightedPiece): int
    requires env.tor.Valid()
  {
    var missing := env.Missing(p.index);
    if missing > p.requestCount then missing - p.requestCount else env.tor.BlockCountInPiece() + p.requestCount
  }

  /** comparePieceByWeight */
  function CompareByWeight(env: Progress, a: WeightedPiece, b: WeightedPiece): int
    requires env.tor.Valid()
  {
    var ia, ib := Weight(env, a), Weight(env, b);
    if ia != ib then (if ia < ib then -1 else 1)
    else if env.Priority(a.index) != env.Priority(b.index) then (if env.Priority(a.index) > env.Priority(b.index) then -1 else 1)
    else if env.Replication(a.index) != env.Replication(b.index) then (if env.Replication(a.index) < env.Replication(b.index) then -1 else 1)
    else if a.salt != b.salt then (if a.salt < b.salt then -1 else 1)
    else 0
  }

  /** The list is in the order pieces are to be requested. */
  ghost predicate InOrder(env: Progress, s: seq<WeightedPiece>)
    requires env.tor.Valid()
  {
    forall i, j | 0 <= i < j < |s| :: CompareByWeight(env, s[i], s[j]) <= 0
  }

  lemma CompareIsTotal(env: Progress, a: WeightedPiece, b: WeightedPiece, c: WeightedPiece)
    requires env.tor.Valid()
    ensures CompareByWeight(env, a, b) <= 0 || CompareByWeight(env, b, a) <= 0
    ensures CompareByWeight(env, a, b) <= 0 <==> 0 <= CompareByWeight(env, b, a)
    ensures CompareByWeight(env, a, b) <= 0 && CompareByWeight(env, b, c) <= 0 ==> CompareByWeight(env, a, c) <= 0
    ensures CompareByWeight(env, a, b) < 0 && CompareByWeight(env, b, c) <= 0 ==> CompareByWeight(env, a, c) < 0
    ensures CompareByWeight(env, a, b) <= 0 && CompareByWeight(env, b, c) < 0 ==> CompareByWeight(env, a, c) < 0
  {
    hide Weight, Torrent.Valid;
  }

  /** In an ordered list any piece can be searched for. */
  lemma OrderedIsSearchable(env: Progress, s: seq<WeightedPiece>, key: WeightedPiece, cmp: WeightedPiece -> int)
    requires env.tor.Valid() && InOrder(env, s)
    requires forall p :: cmp(p) == CompareByWeight(env, p, key)
    ensures Partitioned(s, cmp)
  {
    hide CompareByWeight, Torrent.Valid;
    forall i, j | 0 <= i < j < |s|
      ensures (0 <= cmp(s[i]) ==> 0 <= cmp(s[j])) && (0 < cmp(s[i]) ==> 0 < cmp(s[j]))
    {
      CompareIsTotal(env, s[i], s[j], key);
      CompareIsTotal(env, s[j], key, s[i]);
      CompareIsTotal(env, key, s[i], s[j]);
    }
  }

  /** `pos` is the lower bound of `key` in s. */
  ghost predicate IsPlace(env: Progress, s: seq<WeightedPiece>, key: WeightedPiece, pos: nat)
    requires env.tor.Valid()
  {
    && pos <= |s|
    && (forall i | 0 <= i < pos :: CompareByWeight(env, s[i], key) < 0)
    && (forall i | pos <= i < |s| :: 0 <= CompareByWeight(env, s[i], key))
  }

  /** tr_lowerBound with comparePieceByWeight; on a list out of order, some position. */
  method FindPlace(env: Progress, s: seq<WeightedPiece>, key: WeightedPiece) returns (pos: nat)
    requires env.tor.Valid()
    ensures pos <= |s| && (InOrder(env, s) ==> IsPlace(env, s, key, pos))
  {
    hide CompareByWeight, Torrent.Valid, InOrder;
    var cmp := (p: WeightedPiece) => CompareByWeight(env, p, key);
    if InOrder(env, s) {
      OrderedIsSearchable(env, s, key, cmp);
    }
    var exact;
    pos, exact := LowerBound(s, cmp);
  }

  /** Putting a piece at its lower bound keeps the order. */
  lemma InsertKeepsOrder(env: Progress, s: seq<WeightedPiece>, key: WeightedPiece, pos: nat)
    requires env.tor.Valid() && InOrder(env, s) && IsPlace(env, s, key, pos)
    ensures InOrder(env, s[..pos] + [key] + s[pos..])
  {
    hide CompareByWeight, Torrent.Valid;
    var t := s[..pos] + [key] + s[pos..];
    forall i, j | 0 <= i < j < |t|
      ensures CompareByWeight(env, t[i], t[j]) <= 0
    {
      if i == pos {
        CompareIsTotal(env, key, s[j - 1], key);
      } else if j != pos {
        var i', j' := if i < pos then i else i - 1, if j < pos then j else j - 1;
        assert t[i] == s[i'] && t[j] == s[j'];
      }
    }
  }

  /** Neighbours in order, in a list otherwise in order, put the whole list in order. */
  lemma NeighboursSuffice(env: Progress, s: seq<WeightedPiece>, pos: nat)
    requires env.tor.Valid() && pos < |s| && InOrder(env, s[..pos] + s[pos + 1..])
    requires 0 < pos ==> CompareByWeight(env, s[pos - 1], s[pos]) <= 0
    requires pos + 1 < |s| ==> CompareByWeight(env, s[pos], s[pos + 1]) <= 0
    ensures InOrder(env, s)
  {
    hide CompareByWeight, Torrent.Valid;
    var t := s[..pos] + s[pos + 1..];
    forall i, j | 0 <= i < j < |s|
      ensures CompareByWeight(env, s[i], s[j]) <= 0
    {
      if j == pos {
        assert i < pos - 1 ==> CompareByWeight(env, t[i], t[pos - 1]) <= 0;
        CompareIsTotal(env, s[i], s[pos - 1], s[pos]);
      } else if i == pos {
        assert pos + 1 < j ==> CompareByWeight(env, t[pos], t[j - 1]) <= 0;
        CompareIsTotal(env, s[pos], s[pos + 1], s[j]);
      } else {
        assert CompareByWeight(env, t[if i < pos then i else i - 1], t[if j < pos then j else j - 1]) <= 0;
      }
    }
  }

  // ----- elements in and out of the array -----

  /** tr_removeElementFromArray on the first n elements. */
  method EraseAt(a: array<WeightedPiece>, n: nat, k: nat)
    requires k < n <= a.Length
    modifies a
    ensures a[..n - 1] == old(a[..k]) + old(a[k + 1..n])
  {
    forall i | k <= i < n - 1 { a[i] := a[i + 1]; }
    assert a[..n - 1] == old(a[..k]) + old(a[k + 1..n]);
  }

  /** The memmove and store that put an element at `pos` of the first n. */
  method InsertAt(a: array<WeightedPiece>, n: nat, pos: nat, x: WeightedPiece)
    requires pos <= n < a.Length
    modifies a
    ensures a[..n + 1] == old(a[..pos]) + [x] + old(a[pos..n])
  {
    forall i | pos <= i < n { a[i + 1] := a[i]; }
    a[pos] := x;
    assert a[..n + 1] == old(a[..pos]) + [x] + old(a[pos..n]);
  }

  lemma PartsOf(a: array<WeightedPiece>, n: nat, k: nat)
    requires k <= n <= a.Length
    ensures a[..n][..k] == a[..k] && a[..n][k..] == a[k..n]
  {
  }

  lemma ReinsertPermutes(s: seq<WeightedPiece>, k: nat, pos: nat)
    requires k < |s| && pos < |s|
    ensures var rest := s[..k] + s[k + 1..];
      multiset(rest[..pos] + [s[k]] + rest[pos..]) == multiset(s)
  {
    var rest := s[..k] + s[k + 1..];
    MultisetRemove(s, k);
    assert rest == rest[..pos] + rest[pos..];
  }

  /** The end of pieceListResortPiece: out of the first n and back in at its lower bound. */
  method Reinsert(a: array<WeightedPiece>, n: nat, k: nat, env: Progress)
    requires k < n <= a.Length && env.tor.Valid()
    modifies a
    ensures multiset(a[..n]) == multiset(old(a[..n]))
    ensures InOrder(env, old(a[..n])[..k] + old(a[..n])[k + 1..]) ==> InOrder(env, a[..n])
  {
    hide CompareByWeight, Torrent.Valid, InOrder, IsPlace;
    ghost var was := a[..n];
    ghost var rest := was[..k] + was[k + 1..];
    PartsOf(a, n, k);
    PartsOf(a, n, k + 1);
    var tmp := a[k];
    EraseAt(a, n, k);
    var pos := FindPlace(env, a[..n - 1], tmp);
    PartsOf(a, n - 1, pos);
    InsertAt(a, n - 1, pos, tmp);
    ReinsertPermutes(was, k, pos);
    if InOrder(env, rest) {
      InsertKeepsOrder(env, rest, tmp, pos);
    }
  }

  // ----- the adaptive insertion pass -----

  /** s with s[i] moved `d` places to the right. */
  function Moved(s: seq<WeightedPiece>, i: nat, d: nat): seq<WeightedPiece>
    requires i + d < |s|
  {
    s[..i] + s[i + 1..i + d + 1] + [s[i]] + s[i + d + 1..]
  }

  /** The memmove and store of one step. */
  method MoveRight(a: array<WeightedPiece>, i: nat, d: nat)
    requires i + d < a.Length
    modifies a
    ensures a[..] == Moved(old(a[..]), i, d)
  {
    var piece := a[i];
    forall k | 0 <= k < d { a[i + k] := a[i + 1 + k]; }
    a[i + d] := piece;
    assert a[..] == Moved(old(a[..]), i, d);
  }

  lemma MovedParts(s: seq<WeightedPiece>, n: nat, i: nat, d: nat)
    requires i + d < n <= |s|
    ensures var tail := s[i + 1..n];
      Moved(s, i, d) == s[..i] + (tail[..d] + [s[i]] + tail[d..]) + s[n..]
  {
    var tail := s[i + 1..n];
    assert tail[..d] == s[i + 1..i + d + 1];
    assert s[i + d + 1..] == tail[d..] + s[n..];
  }

  lemma MovedWhere(a: seq<WeightedPiece>, b: seq<WeightedPiece>, c: seq<WeightedPiece>, t: seq<WeightedPiece>)
    requires t == a + b + c
    ensures t[..|a|] == a && t[|a|..|a| + |b|] == b && t[..|a| + |b|] == a + b && t[|a| + |b|..] == c
  {
  }

  lemma MovedElements(s: seq<WeightedPiece>, n: nat, i: nat, d: nat)
    requires i + d < n <= |s|
    ensures var tail := s[i + 1..n];
      multiset(s[..i] + (tail[..d] + [s[i]] + tail[d..])) == multiset(s[..n])
  {
    var tail := s[i + 1..n];
    assert s[..n] == s[..i] + [s[i]] + tail && tail == tail[..d] + tail[d..];
  }

  /** One step: s[i] goes d places into the tail s[i+1..n]. */
  lemma MovedStep(env: Progress, s: seq<WeightedPiece>, n: nat, i: nat, d: nat)
    requires env.tor.Valid() && i + d < n <= |s|
    ensures var t := Moved(s, i, d);
      t[..i] == s[..i] && t[n..] == s[n..] && multiset(t[..n]) == multiset(s[..n])
    ensures InOrder(env, s[i + 1..n]) && IsPlace(env, s[i + 1..n], s[i], d) ==> InOrder(env, Moved(s, i, d)[i..n])
  {
    hide CompareByWeight, InOrder, IsPlace, Moved;
    var t, tail := Moved(s, i, d), s[i + 1..n];
    var core := tail[..d] + [s[i]] + tail[d..];
    MovedParts(s, n, i, d);
    MovedWhere(s[..i], core, s[n..], t);
    MovedElements(s, n, i, d);
    if InOrder(env, tail) && IsPlace(env, tail, s[i], d) {
      InsertKeepsOrder(env, tail, s[i], d);
    }
  }

  /** The pass that ends tr_peerMgrGetNextRequests, `i` pieces having been looked at.  When
      only those may have changed weight, inserting them right to left restores the order. */
  method ResortLeading(a: array<WeightedPiece>, n: nat, i: nat, env: Progress)
    requires env.tor.Valid() && i <= n <= a.Length && 0 < n
    modifies a
    ensures multiset(a[..n]) == multiset(old(a[..n])) && a[n..] == old(a[n..])
    ensures InOrder(env, old(a[i..n])) ==> InOrder(env, a[..n])
  {
    hide CompareByWeight, InOrder, IsPlace, Moved;
    ghost var sorted := InOrder(env, a[i..n]);
    var k := if i == n then i - 1 else i;
    if i == n {
      NothingOutOfOrder(env, a[k..n]);
    }
    while 0 < k
      invariant 0 <= k <= i && k < n
      invariant a[n..] == old(a[n..])
      invariant multiset(a[..n]) == multiset(old(a[..n]))
      invariant sorted ==> InOrder(env, a[k..n])
    {
      k := k - 1;
      ghost var s := a[..];
      assert a[k + 1..n] == s[k + 1..n];
      var newpos := FindPlace(env, a[k + 1..n], a[k]);
      MovedStep(env, s, n, k, newpos);
      if 0 < newpos {
        MoveRight(a, k, newpos);
      } else {
        MovedNowhere(s, k);
      }
      assert a[n..] == a[..][n..] && a[..n] == a[..][..n] && a[k..n] == a[..][k..n];
    }
    assert a[0..n] == a[..n];
  }

  lemma MovedNowhere(s: seq<WeightedPiece>, i: nat)
    requires i < |s|
    ensures Moved(s, i, 0) == s
  {
  }

  lemma NothingOutOfOrder(env: Progress, s: seq<WeightedPiece>)
    requires env.tor.Valid() && |s| <= 1
    ensures InOrder(env, s)
  {
  }
}
