/** The table of outstanding block requests of peer-mgr.c, as a sorted list, and the
    counts kept beside it. */
module RequestTable {
  import opened Geometry
  import Search

  /** struct block_request; peers are numbered, and 0 is the null peer. */
  datatype BlockRequest = BlockRequest(block: nat, peer: nat, sentAt: int)

  /** compareReqByBlock against the key (block, peer). */
  function CompareReq(r: BlockRequest, block: nat, peer: nat): int
  {
    if r.block != block then (if r.block < block then -1 else 1)
    else if r.peer != peer then (if r.peer < peer then -1 else 1)
    else 0
  }

  ghost predicate SortedReqs(rs: seq<BlockRequest>)
  {
    forall i, j | 0 <= i < j < |rs| :: CompareReq(rs[i], rs[j].block, rs[j].peer) < 0
  }

  /** No three requests in a row, and so in a sorted table no three at all, are for one block. */
  ghost predicate AtMostTwo(rs: seq<BlockRequest>)
  {
    forall i, k {:trigger rs[i], rs[k]} | 0 <= i && k == i + 2 < |rs| :: rs[i].block != rs[k].block
  }

  ghost predicate Requested(rs: seq<BlockRequest>, block: nat, peer: nat)
  {
    exists i :: 0 <= i < |rs| && rs[i].block == block && rs[i].peer == peer
  }

  lemma KeysDiffer(rs: seq<BlockRequest>, i: nat, j: nat)
    requires SortedReqs(rs) && i < |rs| && j < |rs| && i != j
    ensures rs[i].block != rs[j].block || rs[i].peer != rs[j].peer
  {
    KeysAscend(rs, i, j);
    KeysAscend(rs, j, i);
  }

  lemma KeysAscend(rs: seq<BlockRequest>, i: nat, j: nat)
    requires SortedReqs(rs) && i < |rs| && j < |rs|
    ensures i < j ==> CompareReq(rs[i], rs[j].block, rs[j].peer) < 0
  {
  }

  ghost predicate SplitsAt(rs: seq<BlockRequest>, block: nat, peer: nat, pos: nat)
  {
    && pos <= |rs|
    && (forall i | 0 <= i < pos :: CompareReq(rs[i], block, peer) < 0)
    && (forall i | pos <= i < |rs| :: 0 <= CompareReq(rs[i], block, peer))
  }

  lemma SortedIsSearchable(rs: seq<BlockRequest>, cmp: BlockRequest -> int, block: nat, peer: nat)
    requires SortedReqs(rs) && forall r :: cmp(r) == CompareReq(r, block, peer)
    ensures Search.Partitioned(rs, cmp)
  {
  }

  /** rs[pos..pos+n] are exactly the requests for `block`. */
  ghost predicate IsGroup(rs: seq<BlockRequest>, block: nat, pos: nat, n: nat)
  {
    && pos + n <= |rs|
    && (forall i | pos <= i < pos + n :: rs[i].block == block)
    && (forall i | 0 <= i < |rs| && !(pos <= i < pos + n) :: rs[i].block != block)
  }

  lemma GroupEnds(rs: seq<BlockRequest>, block: nat, pos: nat, i: nat)
    requires SortedReqs(rs) && SplitsAt(rs, block, 0, pos) && pos <= i <= |rs|
    requires (forall k | pos <= k < i :: rs[k].block == block) && (i < |rs| ==> rs[i].block != block)
    ensures IsGroup(rs, block, pos, i - pos)
  {
    forall k | i < k < |rs|
      ensures rs[k].block != block
    {
      assert CompareReq(rs[i], rs[k].block, rs[k].peer) < 0;
    }
  }

  lemma GroupIsSmall(rs: seq<BlockRequest>, block: nat, pos: nat, n: nat)
    requires AtMostTwo(rs) && IsGroup(rs, block, pos, n)
    ensures n <= 2
  {
    assert pos + 2 < |rs| ==> rs[pos].block != rs[pos + 2].block;
  }

  // ----- counting -----

  /** How many requests are pending at a peer. */
  function PeerCount(rs: seq<BlockRequest>, peer: nat): nat
  {
    if rs == [] then 0 else PeerCount(rs[..|rs| - 1], peer) + if rs[|rs| - 1].peer == peer then 1 else 0
  }

  /** tr_torBlockPiece, for pieces of `per` blocks. */
  function PieceOf(block: nat, per: nat): nat
    requires 0 < per
  {
    block / per
  }

  /** How many requests are outstanding in a piece of `per` blocks. */
  function PieceCountOf(rs: seq<BlockRequest>, per: nat, piece: nat): nat
    requires 0 < per
  {
    if rs == [] then 0 else PieceCountOf(rs[..|rs| - 1], per, piece) + if PieceOf(rs[|rs| - 1].block, per) == piece then 1 else 0
  }

  lemma {:induction false} PeerCountAppend(rs: seq<BlockRequest>, qs: seq<BlockRequest>, peer: nat)
    ensures PeerCount(rs + qs, peer) == PeerCount(rs, peer) + PeerCount(qs, peer)
  {
    if qs == [] {
      assert rs + qs == rs;
    } else {
      assert (rs + qs)[..|rs + qs| - 1] == rs + qs[..|qs| - 1];
      PeerCountAppend(rs, qs[..|qs| - 1], peer);
    }
  }

  lemma {:induction false} PieceCountAppend(rs: seq<BlockRequest>, qs: seq<BlockRequest>, per: nat, piece: nat)
    requires 0 < per
    ensures PieceCountOf(rs + qs, per, piece) == PieceCountOf(rs, per, piece) + PieceCountOf(qs, per, piece)
  {
    hide PieceOf;
    if qs == [] {
      assert rs + qs == rs;
    } else {
      assert (rs + qs)[..|rs + qs| - 1] == rs + qs[..|qs| - 1];
      PieceCountAppend(rs, qs[..|qs| - 1], per, piece);
    }
  }

  lemma CountsOfOne(r: BlockRequest, per: nat)
    requires 0 < per
    ensures forall p: nat :: PeerCount([r], p) == if r.peer == p then 1 else 0
    ensures forall q: nat :: PieceCountOf([r], per, q) == if PieceOf(r.block, per) == q then 1 else 0
  {
    hide PieceOf;
    assert [r][..0] == [];
  }

  /** Taking one request in or out of the table changes the counts by that one. */
  lemma CountsChange(rs: seq<BlockRequest>, k: nat, per: nat)
    requires k < |rs| && 0 < per
    ensures forall p: nat :: PeerCount(rs, p) == PeerCount(rs[..k] + rs[k + 1..], p) + if rs[k].peer == p then 1 else 0
    ensures forall q: nat :: PieceCountOf(rs, per, q) == PieceCountOf(rs[..k] + rs[k + 1..], per, q) + if PieceOf(rs[k].block, per) == q then 1 else 0
  {
    hide PieceOf;
    var a, b := rs[..k], rs[k + 1..];
    assert rs == a + ([rs[k]] + b);
    CountsOfOne(rs[k], per);
    forall p: nat
      ensures PeerCount(rs, p) == PeerCount(a + b, p) + if rs[k].peer == p then 1 else 0
    {
      PeerCountAppend(a, [rs[k]] + b, p);
      PeerCountAppend([rs[k]], b, p);
      PeerCountAppend(a, b, p);
    }
    forall q: nat
      ensures PieceCountOf(rs, per, q) == PieceCountOf(a + b, per, q) + if PieceOf(rs[k].block, per) == q then 1 else 0
    {
      PieceCountAppend(a, [rs[k]] + b, per, q);
      PieceCountAppend([rs[k]], b, per, q);
      PieceCountAppend(a, b, per, q);
    }
  }

  lemma {:induction false} NoneCounted(rs: seq<BlockRequest>, peer: nat)
    requires forall i | 0 <= i < |rs| :: rs[i].peer != peer
    ensures PeerCount(rs, peer) == 0
  {
    if rs != [] {
      NoneCounted(rs[..|rs| - 1], peer);
    }
  }

  // ----- inserting and removing -----

  function Inserted(rs: seq<BlockRequest>, pos: nat, r: BlockRequest): seq<BlockRequest>
    requires pos <= |rs|
  {
    rs[..pos] + [r] + rs[pos..]
  }

  function Removed(rs: seq<BlockRequest>, pos: nat): seq<BlockRequest>
    requires pos < |rs|
  {
    rs[..pos] + rs[pos + 1..]
  }

  lemma InsertKeepsSorted(rs: seq<BlockRequest>, pos: nat, r: BlockRequest)
    requires SortedReqs(rs) && SplitsAt(rs, r.block, r.peer, pos) && !Requested(rs, r.block, r.peer)
    ensures SortedReqs(Inserted(rs, pos, r))
  {
    var ss := Inserted(rs, pos, r);
    forall i | pos <= i < |rs|
      ensures 0 < CompareReq(rs[i], r.block, r.peer)
    {
    }
    forall i, j | 0 <= i < j < |ss|
      ensures CompareReq(ss[i], ss[j].block, ss[j].peer) < 0
    {
      if i == pos {
        assert ss[j] == rs[j - 1];
      } else if j == pos {
        assert ss[i] == rs[i];
      } else {
        assert ss[i] == rs[if i < pos then i else i - 1] && ss[j] == rs[if j < pos then j else j - 1];
      }
    }
  }

  /** At most one entry of rs is for this block. */
  ghost predicate AtMostOne(rs: seq<BlockRequest>, block: nat)
  {
    forall i, k {:trigger rs[i], rs[k]} | 0 <= i && k == i + 1 < |rs| :: rs[i].block != block || rs[k].block != block
  }

  /** A request for a block that has at most one other keeps every block at two. */
  lemma InsertKeepsAtMostTwo(rs: seq<BlockRequest>, pos: nat, r: BlockRequest)
    requires SortedReqs(rs) && AtMostTwo(rs) && SplitsAt(rs, r.block, r.peer, pos) && AtMostOne(rs, r.block)
    ensures AtMostTwo(Inserted(rs, pos, r))
  {
    var ss := Inserted(rs, pos, r);
    hide SplitsAt;
    forall i, k {:trigger ss[i], ss[k]} | 0 <= i && k == i + 2 < |ss|
      ensures ss[i].block != ss[k].block
    {
      if k < pos || pos < i {
        var d := if k < pos then 0 else 1;
        assert ss[i] == rs[i - d] && ss[k] == rs[k - d];
      } else if i == pos || k == pos {
        assert rs[i].block != r.block || rs[i + 1].block != r.block;
        AroundPlace(rs, pos, r, i);
      } else {
        assert ss[i] == rs[i] && ss[k] == rs[i + 1] && ss[i + 1] == r;
        AroundPlace(rs, pos, r, i);
      }
    }
  }

  /** What lies around the place of a key is on the right side of it. */
  lemma AroundPlace(rs: seq<BlockRequest>, pos: nat, r: BlockRequest, i: nat)
    requires SortedReqs(rs) && SplitsAt(rs, r.block, r.peer, pos) && i + 1 < |rs|
    ensures rs[i].block <= rs[i + 1].block
    ensures i < pos ==> rs[i].block <= r.block
    ensures pos <= i ==> r.block <= rs[i].block
    ensures pos <= i + 1 ==> r.block <= rs[i + 1].block
    ensures i + 1 < pos ==> rs[i + 1].block <= r.block
  {
    assert CompareReq(rs[i], rs[i + 1].block, rs[i + 1].peer) < 0;
  }

  /** Any sub-list of a table in order is a table. */
  lemma RemoveKeepsTable(rs: seq<BlockRequest>, pos: nat)
    requires SortedReqs(rs) && AtMostTwo(rs) && pos < |rs|
    ensures SortedReqs(Removed(rs, pos)) && AtMostTwo(Removed(rs, pos))
  {
    var ss := Removed(rs, pos);
    forall i, j | 0 <= i < j < |ss|
      ensures CompareReq(ss[i], ss[j].block, ss[j].peer) < 0
    {
      assert ss[i] == rs[if i < pos then i else i + 1] && ss[j] == rs[if j < pos then j else j + 1];
    }
    forall i, k {:trigger ss[i], ss[k]} | 0 <= i && k == i + 2 < |ss|
      ensures ss[i].block != ss[k].block
    {
      var i', k' := if i < pos then i else i + 1, if k < pos then k else k + 1;
      assert ss[i] == rs[i'] && ss[k] == rs[k'];
      FarApart(rs, i', k');
    }
  }

  lemma FarApart(rs: seq<BlockRequest>, i: nat, k: nat)
    requires SortedReqs(rs) && AtMostTwo(rs) && i + 2 <= k < |rs|
    ensures rs[i].block != rs[k].block
  {
    assert rs[i].block != rs[i + 2].block;
    assert i + 2 < k ==> CompareReq(rs[i + 2], rs[k].block, rs[k].peer) < 0;
    assert CompareReq(rs[i], rs[i + 2].block, rs[i + 2].peer) < 0;
  }

  lemma RemovedIsSorted(rs: seq<BlockRequest>, pos: nat)
    requires SortedReqs(rs) && pos < |rs|
    ensures SortedReqs(Removed(rs, pos))
  {
    assert forall i | 0 <= i < |rs| - 1 :: Removed(rs, pos)[i] == rs[if i < pos then i else i + 1];
  }

  /** In a table an entry occurs once, and no other entry has its key. */
  lemma RemovedMembers(rs: seq<BlockRequest>, pos: nat)
    requires SortedReqs(rs) && pos < |rs|
    ensures forall r :: r in Removed(rs, pos) <==> r in rs && !(r.block == rs[pos].block && r.peer == rs[pos].peer)
  {
    hide SortedReqs;
    var ss := Removed(rs, pos);
    forall r | r in rs && !(r.block == rs[pos].block && r.peer == rs[pos].peer)
      ensures r in ss
    {
      var k :| 0 <= k < |rs| && rs[k] == r;
      assert ss[if k < pos then k else k - 1] == r;
    }
    forall r | r in ss
      ensures r in rs && !(r.block == rs[pos].block && r.peer == rs[pos].peer)
    {
      var k :| 0 <= k < |ss| && ss[k] == r;
      var j := if k < pos then k else k + 1;
      assert rs[j] == r;
      KeysDiffer(rs, j, pos);
    }
  }
}
