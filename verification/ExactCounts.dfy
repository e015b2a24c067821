/** When the request counts of the piece list are exactly the requests outstanding, and what
    makes them fall short. */
module ExactCounts {
  import opened Geometry
  import opened RequestTable
  import opened PieceList
  import opened SwarmTables
  import opened PieceRebuild
  import opened NextRequests

  /** Every listed piece counts the requests outstanding in it. */
  ghost predicate Exact(list: seq<WeightedPiece>, rs: seq<BlockRequest>, per: nat)
    requires 0 < per
  {
    forall p | p in list :: p.requestCount == PieceCountOf(rs, per, p.index)
  }

  lemma ExactPermutes(list: seq<WeightedPiece>, list': seq<WeightedPiece>, rs: seq<BlockRequest>, per: nat)
    requires 0 < per && multiset(list) == multiset(list')
    ensures Exact(list, rs, per) <==> Exact(list', rs, per)
  {
    assert forall p :: p in list <==> p in multiset(list');
  }

  // ----- a request that goes takes its count along -----

  /** The entry that Lowered makes of one. */
  function LoweredEntry(p: WeightedPiece, piece: nat): WeightedPiece
  {
    if p.index == piece && 0 < p.requestCount then p.(requestCount := p.requestCount - 1) else p
  }

  lemma LoweredMembers(list: seq<WeightedPiece>, piece: nat)
    ensures forall p | p in list :: LoweredEntry(p, piece) in Lowered(list, piece)
    ensures forall q | q in Lowered(list, piece) :: exists p :: p in list && q == LoweredEntry(p, piece)
  {
    var l := Lowered(list, piece);
    assert forall i | 0 <= i < |list| :: l[i] == LoweredEntry(list[i], piece);
    forall p | p in list
      ensures LoweredEntry(p, piece) in l
    {
      var i :| 0 <= i < |list| && list[i] == p;
      assert l[i] in l;
    }
    forall q | q in l
      ensures exists p :: p in list && q == LoweredEntry(p, piece)
    {
      var i :| 0 <= i < |l| && l[i] == q;
      assert list[i] in list;
    }
  }

  /** A removal that finds its request keeps the counts exact. */
  lemma RemovalKeepsExact(list: seq<WeightedPiece>, rs: seq<BlockRequest>, pos: nat, per: nat)
    requires 0 < per && pos < |rs| && Exact(list, rs, per)
    ensures Exact(Lowered(list, PieceOf(rs[pos].block, per)), Removed(rs, pos), per)
  {
    hide PieceCountOf, PieceOf, Lowered, Removed;
    RemoveKeepsCounts(rs, pos, per);
    CountsOfOne(rs[pos], per);
    LoweredMembers(list, PieceOf(rs[pos].block, per));
  }

  /** One that finds none, as after a reject of something that was not asked for, keeps them
      exact if and only if its piece counts nothing. */
  lemma StrayRemovalExactly(list: seq<WeightedPiece>, rs: seq<BlockRequest>, piece: nat, per: nat)
    requires 0 < per && Exact(list, rs, per)
    ensures Exact(Lowered(list, piece), rs, per) <==> forall p | p in list && p.index == piece :: p.requestCount <= 0
  {
    hide PieceCountOf, PieceOf, Lowered;
    LoweredMembers(list, piece);
  }

  /** What Swarm.RemoveRequestFromTables does to the counts. */
  lemma RejectExactly(list: seq<WeightedPiece>, list': seq<WeightedPiece>, rs: seq<BlockRequest>, ss: seq<BlockRequest>,
                      block: nat, peer: nat, per: nat)
    requires 0 < per && SortedReqs(rs) && SortedReqs(ss) && Exact(list, rs, per)
    requires forall r :: r in ss <==> r in rs && !(r.block == block && r.peer == peer)
    requires multiset(list') == multiset(Lowered(list, PieceOf(block, per)))
    ensures Exact(list', ss, per) <==>
      Requested(rs, block, peer) || forall p | p in list && p.index == PieceOf(block, per) :: p.requestCount <= 0
  {
    hide PieceCountOf, PieceOf, Lowered, SortedReqs;
    ExactPermutes(list', Lowered(list, PieceOf(block, per)), ss, per);
    if pos :| 0 <= pos < |rs| && rs[pos].block == block && rs[pos].peer == peer {
      RemovedIsSorted(rs, pos);
      RemovedMembers(rs, pos);
      SameMembersSameTable(Removed(rs, pos), ss);
      RemovalKeepsExact(list, rs, pos, per);
    } else {
      NoneRemoved(rs, ss, block, peer);
      SameMembersSameTable(rs, ss);
      StrayRemovalExactly(list, rs, PieceOf(block, per), per);
    }
  }

  lemma NoneRemoved(rs: seq<BlockRequest>, ss: seq<BlockRequest>, block: nat, peer: nat)
    requires forall r :: r in ss <==> r in rs && !(r.block == block && r.peer == peer)
    requires !Requested(rs, block, peer)
    ensures forall r :: r in ss <==> r in rs
  {
  }

  ghost predicate SameMembers(rs: seq<BlockRequest>, ss: seq<BlockRequest>)
  {
    forall r :: r in rs <==> r in ss
  }

  /** A table is the list of its members in order. */
  lemma {:induction false} SameMembersSameTable(rs: seq<BlockRequest>, ss: seq<BlockRequest>)
    requires SortedReqs(rs) && SortedReqs(ss) && SameMembers(rs, ss)
    ensures rs == ss
  {
    hide SortedReqs, SameMembers;
    EmptyTogether(rs, ss);
    if rs != [] {
      SameLast(rs, ss);
      WithoutLast(rs);
      WithoutLast(ss);
      RestsAgree(rs, ss);
      SameMembersSameTable(rs[..|rs| - 1], ss[..|ss| - 1]);
      assert rs == rs[..|rs| - 1] + [rs[|rs| - 1]] && ss == ss[..|ss| - 1] + [ss[|ss| - 1]];
    }
  }

  lemma EmptyTogether(rs: seq<BlockRequest>, ss: seq<BlockRequest>)
    requires SameMembers(rs, ss)
    ensures rs == [] <==> ss == []
  {
    assert rs != [] ==> rs[0] in ss;
    assert ss != [] ==> ss[0] in rs;
  }

  lemma RestsAgree(rs: seq<BlockRequest>, ss: seq<BlockRequest>)
    requires SortedReqs(rs) && SortedReqs(ss) && SameMembers(rs, ss)
    requires rs != [] && ss != [] && rs[|rs| - 1] == ss[|ss| - 1]
    ensures SameMembers(rs[..|rs| - 1], ss[..|ss| - 1])
  {
    hide SortedReqs;
    WithoutLast(rs);
    WithoutLast(ss);
    var a, b := rs[..|rs| - 1], ss[..|ss| - 1];
    forall r
      ensures r in a <==> r in b
    {
      assert r in rs <==> r in ss;
    }
  }

  lemma SameLast(rs: seq<BlockRequest>, ss: seq<BlockRequest>)
    requires SortedReqs(rs) && SortedReqs(ss) && SameMembers(rs, ss) && rs != [] && ss != []
    ensures rs[|rs| - 1] == ss[|ss| - 1]
  {
    var x, y := rs[|rs| - 1], ss[|ss| - 1];
    assert x in ss && y in rs;
    var i :| 0 <= i < |ss| && ss[i] == x;
    var j :| 0 <= j < |rs| && rs[j] == y;
    KeysAscend(ss, i, |ss| - 1);
    KeysAscend(rs, j, |rs| - 1);
  }

  lemma WithoutLast(rs: seq<BlockRequest>)
    requires SortedReqs(rs) && rs != []
    ensures SortedReqs(rs[..|rs| - 1])
    ensures forall r :: r in rs[..|rs| - 1] <==> r in rs && r != rs[|rs| - 1]
  {
    var init, last := rs[..|rs| - 1], rs[|rs| - 1];
    assert rs == init + [last];
    forall r | r in init
      ensures r != last
    {
      var k :| 0 <= k < |init| && init[k] == r;
      KeysDiffer(rs, k, |rs| - 1);
    }
  }

  // ----- the list is built anew -----

  /** A rebuilt list is exact if and only if nothing is outstanding in the pieces that were
      not listed before: a piece that left the list comes back with a count of zero. */
  lemma RebuildExactly(env: Progress, list: seq<WeightedPiece>, was: seq<WeightedPiece>, rs: seq<BlockRequest>, per: nat)
    requires 0 < per && 0 < env.tor.blockSize && 0 < env.tor.pieceSize
    requires IsRebuilt(env, list, was) && Exact(was, rs, per)
    ensures Exact(list, rs, per) <==>
      forall p | p in list && (forall q | q in was :: q.index != p.index) :: PieceCountOf(rs, per, p.index) == 0
  {
    hide Wanted, PieceCountOf;
  }

  // ----- a round of asking -----

  /** The requests outstanding in a piece. */
  ghost function InPiece(rs: seq<BlockRequest>, per: nat, piece: nat): set<BlockRequest>
    requires 0 < per
  {
    set r | r in rs && PieceOf(r.block, per) == piece
  }

  lemma {:induction false} CountIsSize(rs: seq<BlockRequest>, per: nat, piece: nat)
    requires 0 < per && SortedReqs(rs)
    ensures PieceCountOf(rs, per, piece) == |InPiece(rs, per, piece)|
  {
    hide PieceOf;
    if rs != [] {
      var init, last := rs[..|rs| - 1], rs[|rs| - 1];
      WithoutLast(rs);
      CountIsSize(init, per, piece);
      if PieceOf(last.block, per) == piece {
        assert InPiece(rs, per, piece) == InPiece(init, per, piece) + {last};
      } else {
        assert InPiece(rs, per, piece) == InPiece(init, per, piece);
      }
    }
  }

  ghost function RequestsFor(blocks: set<nat>, peer: nat, now: int): set<BlockRequest>
  {
    set b | b in blocks :: BlockRequest(b, peer, now)
  }

  lemma {:induction false} OneRequestEach(blocks: set<nat>, peer: nat, now: int)
    ensures |RequestsFor(blocks, peer, now)| == |blocks|
    decreases |blocks|
  {
    if blocks == {} {
      assert RequestsFor(blocks, peer, now) == {};
    } else {
      var b :| b in blocks;
      OneRequestEach(blocks - {b}, peer, now);
      assert RequestsFor(blocks, peer, now) == RequestsFor(blocks - {b}, peer, now) + {BlockRequest(b, peer, now)};
    }
  }

  lemma EntryIsRequested(rs: seq<BlockRequest>, r: BlockRequest)
    ensures r in rs ==> Requested(rs, r.block, r.peer)
  {
  }

  /** Blocks newly asked of a peer add that many to what is outstanding in their piece. */
  lemma AskedAdds(rs: seq<BlockRequest>, ss: seq<BlockRequest>, peer: nat, now: int, added: set<nat>, per: nat, piece: nat)
    requires 0 < per && SortedReqs(rs) && SortedReqs(ss) && Asked(rs, ss, peer, now, added)
    requires forall b | b in added :: !Requested(rs, b, peer)
    ensures PieceCountOf(ss, per, piece) == PieceCountOf(rs, per, piece) + |AddedIn(added, per, piece)|
  {
    hide PieceOf, SortedReqs, PieceCountOf;
    var a, mine := InPiece(rs, per, piece), RequestsFor(AddedIn(added, per, piece), peer, now);
    CountIsSize(rs, per, piece);
    CountIsSize(ss, per, piece);
    OneRequestEach(AddedIn(added, per, piece), peer, now);
    forall q | q in mine
      ensures q !in a
    {
      EntryIsRequested(rs, q);
    }
    assert InPiece(ss, per, piece) == a + mine && a !! mine;
  }

  /** tr_peerMgrGetNextRequests keeps the counts exact. */
  lemma RoundKeepsExact(r: Round, rs: seq<BlockRequest>, pending: int, s: seq<nat>, got: nat, order: seq<nat>,
                        list: seq<WeightedPiece>, list': seq<WeightedPiece>)
    requires 0 < r.per && SortedReqs(r.requests) && SortedReqs(rs) && InRound(r, rs, pending, s, got, order)
    requires Exact(list, r.requests, r.per) && multiset(list') == multiset(Credited(list, Blocks(order), r.per))
    ensures Exact(list', rs, r.per)
  {
    hide SortedReqs, Credited, Asked, PieceCountOf, Filled;
    NewRequests(r, order);
    ExactPermutes(list', Credited(list, Blocks(order), r.per), rs, r.per);
    forall p | p in Credited(list, Blocks(order), r.per)
      ensures p.requestCount == PieceCountOf(rs, r.per, p.index)
    {
      var q := CreditedFrom(list, Blocks(order), r.per, p);
      AskedAdds(r.requests, rs, r.peer, r.now, Blocks(order), r.per, p.index);
    }
  }

  lemma CreditedFrom(list: seq<WeightedPiece>, added: set<nat>, per: nat, p: WeightedPiece) returns (q: WeightedPiece)
    requires 0 < per && p in Credited(list, added, per)
    ensures q in list && q.index == p.index && p.requestCount == q.requestCount + |AddedIn(added, per, q.index)|
  {
    hide PieceOf, AddedIn;
    var i :| 0 <= i < |list| && Credited(list, added, per)[i] == p;
    q := list[i];
  }

  lemma NewRequests(r: Round, order: seq<nat>)
    requires 0 < r.per && Justified(r, order)
    ensures forall b | b in Blocks(order) :: !Requested(r.requests, b, r.peer)
  {
    hide FastEnough, AskedOnce;
    forall b | b in order
      ensures !Requested(r.requests, b, r.peer)
    {
      var i :| 0 <= i < |order| && order[i] == b;
      assert MayAsk(r.env, r.requests, order[i], r.peer, r.endgame, FastEnough(r, order[..i]));
    }
  }
}
