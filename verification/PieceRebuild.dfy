/** How pieceListRebuild makes a new piece list while keeping what the old one knew. */
module PieceRebuild {
  import opened Geometry
  import opened RequestTable
  import opened PieceList
  import opened SwarmTables
  import Search

  /** A piece that is wanted and not complete. */
  predicate Wanted(env: Progress, piece: nat)
    requires 0 < env.tor.blockSize && 0 < env.tor.pieceSize
  {
    piece !in env.dnd && 0 < env.Missing(piece)
  }

  ghost predicate Ascending(s: seq<nat>) {
    forall i, j | 0 <= i < j < |s| :: s[i] < s[j]
  }

  ghost predicate ByIndex(s: seq<WeightedPiece>) {
    forall i, j | 0 <= i < j < |s| :: s[i].index < s[j].index
  }

  /** p is the old list's entry for its piece, or is new to the list. */
  ghost predicate Inherits(p: WeightedPiece, was: seq<WeightedPiece>) {
    p in was || (p.requestCount == 0 && forall q | q in was :: q.index != p.index)
  }

  /** The list holds each wanted piece once, with its old entry if it had one. */
  ghost predicate IsRebuilt(env: Progress, list: seq<WeightedPiece>, was: seq<WeightedPiece>)
    requires 0 < env.tor.blockSize && 0 < env.tor.pieceSize
  {
    && (forall p | p in list :: p.index < env.tor.PieceCount() && Wanted(env, p.index) && Inherits(p, was))
    && (forall q: nat | q < env.tor.PieceCount() && Wanted(env, q) :: exists p :: p in list && p.index == q)
    && (forall i, j | 0 <= i < j < |list| :: list[i].index != list[j].index)
  }

  /** The pool of wanted, incomplete pieces. */
  method BuildPool(env: Progress) returns (pool: seq<nat>)
    requires 0 < env.tor.blockSize && 0 < env.tor.pieceSize
    ensures Ascending(pool)
    ensures forall q: nat :: q in pool <==> q < env.tor.PieceCount() && Wanted(env, q)
    ensures |pool| <= env.tor.PieceCount()
  {
    hide Progress.Missing;
    pool := [];
    for i := 0 to env.tor.PieceCount()
      invariant Ascending(pool) && |pool| <= i
      invariant forall q: nat :: q in pool <==> q < i && Wanted(env, q)
    {
      if i !in env.dnd {
        if env.Missing(i) != 0 {
          forall k | 0 <= k < |pool|
            ensures pool[k] < i
          {
            assert pool[k] in pool;
          }
          pool := pool + [i];
        }
      }
    }
  }

  /** The entries of a new list, with random salts. */
  method Fresh(pool: seq<nat>, salts: seq<int>) returns (a: array<WeightedPiece>)
    requires |pool| <= |salts|
    ensures fresh(a) && a.Length == |pool|
    ensures forall k | 0 <= k < |pool| :: a[k] == WeightedPiece(pool[k], salts[k], 0)
  {
    a := new WeightedPiece[|pool|](k requires 0 <= k < |pool| => WeightedPiece(pool[k], salts[k], 0));
  }

  lemma NotListed(o: seq<WeightedPiece>, a: nat, index: nat)
    requires ByIndex(o) && a < |o| && index < o[a].index && forall i | 0 <= i < a :: o[i].index < index
    ensures forall q | q in o :: q.index != index
  {
    forall i | a < i < |o|
      ensures o[a].index < o[i].index
    {
    }
  }

  /** The merge: entries the old list has, sorted by index, take the place of new ones. */
  method Merge(o: seq<WeightedPiece>, n: array<WeightedPiece>)
    requires ByIndex(o) && ByIndex(n[..])
    requires forall k | 0 <= k < n.Length :: n[k].requestCount == 0
    modifies n
    ensures forall k | 0 <= k < n.Length :: n[k].index == old(n[k].index) && Inherits(n[k], o)
  {
    assert forall i, j | 0 <= i < j < n.Length :: n[i].index < n[j].index by {
      assert forall i | 0 <= i < n.Length :: n[..][i] == n[i];
    }
    var a, c := 0, 0;
    while a != |o| && c != n.Length
      invariant 0 <= a <= |o| && 0 <= c <= n.Length
      invariant forall k | 0 <= k < n.Length :: n[k].index == old(n[k].index)
      invariant forall k | c <= k < n.Length :: n[k].requestCount == 0
      invariant forall i, k | 0 <= i < a && c <= k < n.Length :: o[i].index < n[k].index
      invariant forall k | 0 <= k < c :: Inherits(n[k], o)
      decreases |o| - a + n.Length - c
    {
      if o[a].index < n[c].index {
        a := a + 1;
      } else if o[a].index > n[c].index {
        NotListed(o, a, n[c].index);
        c := c + 1;
      } else {
        n[c] := o[a];
        assert n[c] in o;
        a, c := a + 1, c + 1;
      }
    }
  }

  /** A list with the right pieces, as built by Fresh and Merge. */
  lemma MergedIsRebuilt(env: Progress, list: seq<WeightedPiece>, pool: seq<nat>, was: seq<WeightedPiece>)
    requires 0 < env.tor.blockSize && 0 < env.tor.pieceSize
    requires |list| == |pool| && Ascending(pool)
    requires forall q: nat :: q in pool <==> q < env.tor.PieceCount() && Wanted(env, q)
    requires forall k | 0 <= k < |pool| :: list[k].index == pool[k] && Inherits(list[k], was)
    ensures IsRebuilt(env, list, was)
  {
    hide Inherits, Wanted;
    forall p | p in list
      ensures p.index in pool && Inherits(p, was)
    {
      var k :| 0 <= k < |list| && list[k] == p;
    }
    forall q: nat | q < env.tor.PieceCount() && Wanted(env, q)
      ensures exists p :: p in list && p.index == q
    {
      var k :| 0 <= k < |pool| && pool[k] == q;
      assert list[k] in list;
    }
  }

  /** What is rebuilt does not depend on the order of either list. */
  lemma RebuiltPermutes(env: Progress, list: seq<WeightedPiece>, list': seq<WeightedPiece>, was: seq<WeightedPiece>, was': seq<WeightedPiece>)
    requires 0 < env.tor.blockSize && 0 < env.tor.pieceSize
    requires IsRebuilt(env, list, was) && multiset(list) == multiset(list') && multiset(was) == multiset(was')
    ensures IsRebuilt(env, list', was')
  {
    hide Wanted;
    assert forall p :: p in list <==> p in multiset(list');
    assert forall p :: p in was <==> p in multiset(was');
    forall i, j | 0 <= i < j < |list'|
      ensures list'[i].index != list'[j].index
    {
      var p, q := Search.PermutedPair(list, list', i, j);
    }
  }

  /** A rebuilt list still counts no more requests than there are. */
  lemma RebuiltIsOk(env: Progress, list: seq<WeightedPiece>, was: seq<WeightedPiece>, rs: seq<BlockRequest>, per: nat)
    requires 0 < env.tor.blockSize && 0 < env.tor.pieceSize && 0 < per
    requires IsRebuilt(env, list, was) && ListOk(was, rs, [], per, env.tor.PieceCount())
    ensures ListOk(list, rs, [], per, env.tor.PieceCount())
  {
    hide Wanted;
    forall i | 0 <= i < |list|
      ensures Bounded(list[i], rs, [], per, env.tor.PieceCount())
    {
      assert list[i] in list;
      if list[i] in was {
        var k :| 0 <= k < |was| && was[k] == list[i];
      }
    }
  }

  /** Sorting a list without repetitions by index. */
  method SortByIndex(s: seq<WeightedPiece>) returns (r: seq<WeightedPiece>)
    requires forall i, j | 0 <= i < j < |s| :: s[i].index != s[j].index
    ensures ByIndex(r) && multiset(r) == multiset(s) && |r| == |s|
  {
    r := Search.QSort(s, (a: WeightedPiece, b: WeightedPiece) => a.index <= b.index);
    forall i, j | 0 <= i < j < |r|
      ensures r[i].index < r[j].index
    {
      var p, q := Search.PermutedPair(s, r, i, j);
    }
  }
}
