/** What ties the request table, the per-peer counters and the piece list of a swarm
    together, and what each kind of change does to it. */
module SwarmTables {
  import opened Geometry
  import opened RequestTable
  import opened PieceList
  import Search

  ghost predicate TableOk(rs: seq<BlockRequest>, tor: Torrent)
  {
    && tor.Valid() && SortedReqs(rs) && AtMostTwo(rs)
    && forall i | 0 <= i < |rs| :: rs[i].peer != 0 && rs[i].block < tor.BlockCount()
  }

  function PendingOf(pending: map<nat, int>, peer: nat): int
  {
    if peer in pending then pending[peer] else 0
  }

  /** Each peer's counter is its number of entries, in the table and among `extra` ones
      already taken out of it. */
  ghost predicate PendingOk(pending: map<nat, int>, rs: seq<BlockRequest>, extra: seq<BlockRequest>)
  {
    forall p: nat :: PendingOf(pending, p) == PeerCount(rs, p) + PeerCount(extra, p)
  }

  ghost predicate Bounded(p: WeightedPiece, rs: seq<BlockRequest>, extra: seq<BlockRequest>, per: nat, pieces: nat)
  {
    0 < per && p.index < pieces
    && 0 <= p.requestCount <= PieceCountOf(rs, per, p.index) + PieceCountOf(extra, per, p.index)
  }

  /** Each piece is listed at most once, with a request count that never exceeds the number of
      requests outstanding in it. */
  ghost predicate ListOk(list: seq<WeightedPiece>, rs: seq<BlockRequest>, extra: seq<BlockRequest>, per: nat, pieces: nat)
  {
    && (forall i | 0 <= i < |list| :: Bounded(list[i], rs, extra, per, pieces))
    && (forall i, j | 0 <= i < j < |list| :: list[i].index != list[j].index)
  }

  lemma ListOkPermutes(list: seq<WeightedPiece>, list': seq<WeightedPiece>, rs: seq<BlockRequest>, extra: seq<BlockRequest>,
                       per: nat, pieces: nat)
    requires ListOk(list, rs, extra, per, pieces) && multiset(list) == multiset(list')
    ensures ListOk(list', rs, extra, per, pieces)
  {
    hide Bounded;
    forall i | 0 <= i < |list'|
      ensures Bounded(list'[i], rs, extra, per, pieces)
    {
      var k := Search.PermutedElement(list, list', i);
    }
    forall i, j | 0 <= i < j < |list'|
      ensures list'[i].index != list'[j].index
    {
      var p, q := Search.PermutedPair(list, list', i, j);
    }
  }

  // ----- adding -----

  /** Adding a request adds one to the counts it belongs to. */
  lemma AddKeepsCounts(rs: seq<BlockRequest>, pos: nat, r: BlockRequest, per: nat)
    requires pos <= |rs| && 0 < per
    ensures forall p: nat :: PeerCount(Inserted(rs, pos, r), p) == PeerCount(rs, p) + if r.peer == p then 1 else 0
    ensures forall q: nat :: PieceCountOf(Inserted(rs, pos, r), per, q) == PieceCountOf(rs, per, q) + if PieceOf(r.block, per) == q then 1 else 0
  {
    var ss := Inserted(rs, pos, r);
    assert ss[..pos] + ss[pos + 1..] == rs;
    CountsChange(ss, pos, per);
  }

  lemma AddKeepsPending(pending: map<nat, int>, rs: seq<BlockRequest>, pos: nat, r: BlockRequest)
    requires PendingOk(pending, rs, []) && pos <= |rs|
    ensures PendingOk(pending[r.peer := PendingOf(pending, r.peer) + 1], Inserted(rs, pos, r), [])
  {
    AddKeepsCounts(rs, pos, r, 1);
  }

  /** ... and the list may count it, at its piece if that is listed. */
  lemma AddKeepsList(list: seq<WeightedPiece>, k: nat, rs: seq<BlockRequest>, pos: nat, r: BlockRequest, per: nat, pieces: nat)
    requires ListOk(list, rs, [], per, pieces) && k < |list| && pos <= |rs| && 0 < per
    requires PieceOf(r.block, per) == list[k].index
    ensures ListOk(list[k := list[k].(requestCount := list[k].requestCount + 1)], Inserted(rs, pos, r), [], per, pieces)
  {
    AddKeepsCounts(rs, pos, r, per);
    hide PieceCountOf, PieceOf, Inserted;
    var list' := list[k := list[k].(requestCount := list[k].requestCount + 1)];
    forall i | 0 <= i < |list'|
      ensures Bounded(list'[i], Inserted(rs, pos, r), [], per, pieces)
    {
      assert Bounded(list[i], rs, [], per, pieces);
    }
  }

  // ----- removing -----

  lemma RemoveKeepsCounts(rs: seq<BlockRequest>, pos: nat, per: nat)
    requires pos < |rs| && 0 < per
    ensures forall p: nat :: PeerCount(rs, p) == PeerCount(Removed(rs, pos), p) + PeerCount([rs[pos]], p)
    ensures forall q: nat :: PieceCountOf(rs, per, q) == PieceCountOf(Removed(rs, pos), per, q) + PieceCountOf([rs[pos]], per, q)
  {
    CountsChange(rs, pos, per);
    CountsOfOne(rs[pos], per);
  }

  /** Taking an entry out of the table leaves it owed to the list and to its peer. */
  lemma RemoveOwes(list: seq<WeightedPiece>, pending: map<nat, int>, rs: seq<BlockRequest>, pos: nat, per: nat, pieces: nat)
    requires ListOk(list, rs, [], per, pieces) && PendingOk(pending, rs, []) && pos < |rs| && 0 < per
    ensures ListOk(list, Removed(rs, pos), [rs[pos]], per, pieces)
    ensures PendingOk(pending, Removed(rs, pos), [rs[pos]])
    ensures 0 < PendingOf(pending, rs[pos].peer)
  {
    RemoveKeepsCounts(rs, pos, per);
    CountsOfOne(rs[pos], per);
    hide PieceCountOf, PeerCount, PieceOf, Removed;
    assert PeerCount([], rs[pos].peer) == 0 by { NoneCounted([], rs[pos].peer); }
    forall i | 0 <= i < |list|
      ensures Bounded(list[i], Removed(rs, pos), [rs[pos]], per, pieces)
    {
      assert Bounded(list[i], rs, [], per, pieces);
      EmptyCounts(list[i].index, per);
    }
    forall p: nat
      ensures PendingOf(pending, p) == PeerCount(Removed(rs, pos), p) + PeerCount([rs[pos]], p)
    {
      NoneCounted([], p);
    }
  }

  lemma EmptyCounts(q: nat, per: nat)
    requires 0 < per
    ensures PieceCountOf([], per, q) == 0 && PeerCount([], q) == 0
  {
  }

  /** Settling what is owed to a peer. */
  lemma PendingSettles(pending: map<nat, int>, rs: seq<BlockRequest>, r: BlockRequest, extra: seq<BlockRequest>)
    requires PendingOk(pending, rs, [r] + extra)
    ensures 0 < PendingOf(pending, r.peer)
    ensures PendingOk(pending[r.peer := PendingOf(pending, r.peer) - 1], rs, extra)
  {
    CountsOfOne(r, 1);
    forall p: nat
      ensures PeerCount([r] + extra, p) == PeerCount([r], p) + PeerCount(extra, p)
    {
      PeerCountAppend([r], extra, p);
    }
  }

  /** The entry of a piece with its request count lowered, if it was above zero. */
  function Lowered(list: seq<WeightedPiece>, piece: nat): seq<WeightedPiece>
  {
    seq(|list|, i requires 0 <= i < |list| =>
      if list[i].index == piece && 0 < list[i].requestCount then list[i].(requestCount := list[i].requestCount - 1) else list[i])
  }

  /** Settling what is owed to the list. */
  lemma ListSettles(list: seq<WeightedPiece>, rs: seq<BlockRequest>, r: BlockRequest, extra: seq<BlockRequest>, per: nat, pieces: nat)
    requires 0 < per && ListOk(list, rs, [r] + extra, per, pieces)
    ensures ListOk(Lowered(list, PieceOf(r.block, per)), rs, extra, per, pieces)
  {
    CountsOfOne(r, per);
    hide PieceCountOf, PieceOf;
    var list' := Lowered(list, PieceOf(r.block, per));
    forall i | 0 <= i < |list'|
      ensures Bounded(list'[i], rs, extra, per, pieces)
    {
      assert Bounded(list[i], rs, [r] + extra, per, pieces);
      PieceCountAppend([r], extra, per, list[i].index);
    }
  }

  /** Lowering a count never hurts. */
  lemma LoweredKeepsList(list: seq<WeightedPiece>, rs: seq<BlockRequest>, per: nat, pieces: nat, piece: nat)
    requires ListOk(list, rs, [], per, pieces)
    ensures ListOk(Lowered(list, piece), rs, [], per, pieces)
  {
    hide PieceCountOf, PieceOf;
    var list' := Lowered(list, piece);
    forall i | 0 <= i < |list'|
      ensures Bounded(list'[i], rs, [], per, pieces)
    {
      assert Bounded(list[i], rs, [], per, pieces);
    }
  }

  // ----- splitting the table in two -----

  /** What makes refillUpkeep cancel a request: its age, unless the peer is a web seed, or is
      sending that very block. */
  datatype Expiry = Expiry(tooOld: int, msgsPeers: set<nat>, reading: set<(nat, nat)>)

  predicate Stale(r: BlockRequest, e: Expiry)
  {
    r.peer in e.msgsPeers && r.sentAt <= e.tooOld && (r.peer, r.block) !in e.reading
  }

  /** An entry as old as that, of a peer that takes messages and is not sending the block. */
  ghost predicate IsOverdue(r: BlockRequest, tooOld: int, msgsPeers: set<nat>, reading: set<(nat, nat)>)
  {
    r.sentAt <= tooOld && r.peer in msgsPeers && !exists q :: q in reading && q.0 == r.peer && q.1 == r.block
  }

  lemma StaleIsOverdue(r: BlockRequest, e: Expiry)
    ensures Stale(r, e) <==> IsOverdue(r, e.tooOld, e.msgsPeers, e.reading)
  {
    assert forall q | q in e.reading && q.0 == r.peer && q.1 == r.block :: q == (r.peer, r.block);
  }

  /** The entries of rs that are stale, or that are not, in order. */
  function Sift(rs: seq<BlockRequest>, e: Expiry, stale: bool): seq<BlockRequest>
  {
    if rs == [] then []
    else Sift(rs[..|rs| - 1], e, stale) + if Stale(rs[|rs| - 1], e) == stale then [rs[|rs| - 1]] else []
  }

  lemma {:induction false} SiftMembers(rs: seq<BlockRequest>, e: Expiry, stale: bool, r: BlockRequest)
    ensures r in Sift(rs, e, stale) <==> r in rs && Stale(r, e) == stale
  {
    hide Stale;
    if rs != [] {
      assert rs == rs[..|rs| - 1] + [rs[|rs| - 1]];
      SiftMembers(rs[..|rs| - 1], e, stale, r);
    }
  }

  lemma {:induction false} SiftSizes(rs: seq<BlockRequest>, e: Expiry)
    ensures |Sift(rs, e, false)| + |Sift(rs, e, true)| == |rs|
  {
    hide Stale;
    if rs != [] {
      SiftSizes(rs[..|rs| - 1], e);
    }
  }

  /** A sublist, with its elements' places in the whole. */
  lemma {:induction false} SiftPlaces(rs: seq<BlockRequest>, e: Expiry, stale: bool) returns (at: seq<nat>)
    ensures |at| == |Sift(rs, e, stale)|
    ensures forall i | 0 <= i < |at| :: at[i] < |rs| && rs[at[i]] == Sift(rs, e, stale)[i]
    ensures forall i, j | 0 <= i < j < |at| :: at[i] < at[j]
  {
    hide Stale;
    if rs == [] {
      at := [];
    } else {
      at := SiftPlaces(rs[..|rs| - 1], e, stale);
      if Stale(rs[|rs| - 1], e) == stale {
        at := at + [|rs| - 1];
      }
    }
  }

  lemma SiftIsTable(rs: seq<BlockRequest>, e: Expiry, stale: bool, tor: Torrent)
    requires TableOk(rs, tor)
    ensures TableOk(Sift(rs, e, stale), tor)
  {
    hide Torrent.Valid, Sift;
    var at := SiftPlaces(rs, e, stale);
    var ks := Sift(rs, e, stale);
    forall i, k {:trigger ks[i], ks[k]} | 0 <= i && k == i + 2 < |ks|
      ensures ks[i].block != ks[k].block
    {
      assert at[i] < at[i + 1] < at[k];
      FarApart(rs, at[i], at[k]);
    }
  }

  lemma {:induction false} SiftCounts(rs: seq<BlockRequest>, e: Expiry, per: nat, q: nat)
    requires 0 < per
    ensures PeerCount(rs, q) == PeerCount(Sift(rs, e, false), q) + PeerCount(Sift(rs, e, true), q)
    ensures PieceCountOf(rs, per, q) == PieceCountOf(Sift(rs, e, false), per, q) + PieceCountOf(Sift(rs, e, true), per, q)
  {
    hide PieceOf, Stale;
    if rs != [] {
      var init, last := rs[..|rs| - 1], rs[|rs| - 1];
      SiftCounts(init, e, per, q);
      CountsOfOne(last, per);
      var which := Stale(last, e);
      PeerCountAppend(Sift(init, e, which), [last], q);
      PieceCountAppend(Sift(init, e, which), [last], per, q);
      assert Sift(init, e, !which) + [] == Sift(init, e, !which);
    }
  }

  /** Splitting the table leaves the dropped entries owed. */
  lemma SplitOwes(list: seq<WeightedPiece>, pending: map<nat, int>, rs: seq<BlockRequest>, e: Expiry, per: nat, pieces: nat)
    requires ListOk(list, rs, [], per, pieces) && PendingOk(pending, rs, []) && 0 < per
    ensures ListOk(list, Sift(rs, e, false), Sift(rs, e, true), per, pieces)
    ensures PendingOk(pending, Sift(rs, e, false), Sift(rs, e, true))
  {
    hide PieceCountOf, PeerCount, Sift, PieceOf;
    forall i | 0 <= i < |list|
      ensures Bounded(list[i], Sift(rs, e, false), Sift(rs, e, true), per, pieces)
    {
      assert Bounded(list[i], rs, [], per, pieces);
      EmptyCounts(list[i].index, per);
      SiftCounts(rs, e, per, list[i].index);
    }
    forall p: nat
      ensures PendingOf(pending, p) == PeerCount(Sift(rs, e, false), p) + PeerCount(Sift(rs, e, true), p)
    {
      EmptyCounts(p, 1);
      SiftCounts(rs, e, 1, p);
    }
  }
}
