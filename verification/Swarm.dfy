/** The block-request scheduler of peer-mgr.c. */
module SwarmModule {
  import opened Geometry
  import opened RequestTable
  import opened PieceList
  import opened SwarmTables
  import opened PieceRebuild
  import opened RequestOutput
  import opened NextRequests
  import opened PieceOrder
  import Search

  const REQUEST_TTL_SECS := 90

  class Swarm {
    const tor: Torrent
    var requests: seq<BlockRequest>
    /** pendingReqsToPeer of each peer */
    var pending: map<nat, int>
    var pieces: array<WeightedPiece>
    var pieceCount: nat
    /** whether pieceSortState is PIECES_SORTED_BY_WEIGHT */
    var sortedByWeight: bool
    var endgame: int
    /** cancel messages sent, as (peer, block) */
    var cancels: seq<(nat, nat)>

    ghost predicate TablesOk()
      reads this`requests, this`pending
    {
      TableOk(requests, tor) && PendingOk(pending, requests, [])
    }

    ghost predicate Valid()
      reads this`requests, this`pending, this`pieces, this`pieceCount, pieces
    {
      && TablesOk()
      && pieceCount <= pieces.Length
      && 0 < tor.BlockCountInPiece()
      && ListOk(List(), requests, [], tor.BlockCountInPiece(), tor.PieceCount())
    }

    function List(): seq<WeightedPiece>
      requires pieceCount <= pieces.Length
      reads this`pieces, this`pieceCount, pieces
    {
      pieces[..pieceCount]
    }

    constructor (tor: Torrent)
      requires tor.Valid()
      ensures Valid() && fresh(pieces) && this.tor == tor && requests == [] && List() == []
    {
      this.tor := tor;
      requests, pending, cancels := [], map[], [];
      pieces := new WeightedPiece[0];
      pieceCount, sortedByWeight, endgame := 0, false, 0;
      new;
      PieceIsBlocks(tor);
      forall p: nat
        ensures PeerCount([], p) == 0
      {
        EmptyCounts(p, 1);
      }
    }

    function Pending(peer: nat): int
      reads this`pending
    {
      PendingOf(pending, peer)
    }

    // ----- the request table -----

    /** requestListAdd */
    method RequestListAdd(block: nat, peer: nat, now: int)
      requires TablesOk() && peer != 0 && block < tor.BlockCount()
      requires !Requested(requests, block, peer) && AtMostOne(requests, block)
      modifies this`requests, this`pending
      ensures TablesOk()
      ensures exists pos :: 0 <= pos <= |old(requests)| && requests == Inserted(old(requests), pos, BlockRequest(block, peer, now))
      ensures Pending(peer) == old(Pending(peer)) + 1
    {
      hide SortedReqs, AtMostTwo, PendingOk, Torrent.FilesAreContiguous;
      var key := BlockRequest(block, peer, now);
      var cmp := (r: BlockRequest) => CompareReq(r, block, peer);
      SortedIsSearchable(requests, cmp, block, peer);
      var pos, exact := Search.LowerBound(requests, cmp);
      InsertKeepsSorted(requests, pos, key);
      InsertKeepsAtMostTwo(requests, pos, key);
      AddKeepsPending(pending, requests, pos, key);
      requests := requests[..pos] + [key] + requests[pos..];
      pending := pending[peer := PendingOf(pending, peer) + 1];
    }

    /** requestListLookup */
    method RequestListLookup(block: nat, peer: nat) returns (pos: int)
      requires SortedReqs(requests)
      ensures -1 <= pos < |requests|
      ensures 0 <= pos ==> requests[pos].block == block && requests[pos].peer == peer
      ensures pos < 0 <==> !Requested(requests, block, peer)
    {
      var cmp := (r: BlockRequest) => CompareReq(r, block, peer);
      SortedIsSearchable(requests, cmp, block, peer);
      pos := Search.BSearch(requests, cmp);
    }

    /** getBlockRequestPeers: the peers a block is requested from, in table order. */
    method GetBlockRequestPeers(block: nat) returns (peers: seq<nat>, ghost pos: nat)
      requires TablesOk()
      ensures IsGroup(requests, block, pos, |peers|) && |peers| <= 2
      ensures forall i | 0 <= i < |peers| :: peers[i] == requests[pos + i].peer
    {
      hide Torrent.Valid, PendingOk, AtMostTwo, SortedReqs, IsGroup;
      var cmp := (r: BlockRequest) => CompareReq(r, block, 0);
      SortedIsSearchable(requests, cmp, block, 0);
      var first, exact := Search.LowerBound(requests, cmp);
      pos := first;
      peers := [];
      var i := first;
      while i < |requests| && requests[i].block == block
        invariant first <= i <= |requests| && |peers| == i - first
        invariant forall k | first <= k < i :: requests[k].block == block && peers[k - first] == requests[k].peer
      {
        peers := peers + [requests[i].peer];
        i := i + 1;
      }
      GroupEnds(requests, block, pos, i);
      GroupIsSmall(requests, block, pos, |peers|);
    }

    /** decrementPendingReqCount */
    method DecrementPendingReqCount(peer: nat)
      modifies this`pending
      ensures pending == if 0 < old(Pending(peer)) then old(pending)[peer := old(Pending(peer)) - 1] else old(pending)
    {
      if 0 < Pending(peer) {
        pending := pending[peer := Pending(peer) - 1];
      }
    }

    /** requestListRemove: the entry goes, and so does one from its peer's counter; a request
        that is not in the table is not an error. */
    method RequestListRemove(block: nat, peer: nat) returns (pos: int)
      requires TablesOk()
      modifies this`requests, this`pending
      ensures TablesOk()
      ensures pos < 0 <==> !Requested(old(requests), block, peer)
      ensures pos < 0 ==> requests == old(requests) && pending == old(pending)
      ensures 0 <= pos ==> pos < |old(requests)| && requests == Removed(old(requests), pos)
      ensures 0 <= pos ==> old(requests)[pos].block == block && old(requests)[pos].peer == peer
    {
      hide SortedReqs, AtMostTwo, PendingOk, Torrent.Valid;
      pos := RequestListLookup(block, peer);
      if 0 <= pos {
        RemoveKeepsTable(requests, pos);
        RemoveOwes([], pending, requests, pos, 1, 0);
        assert [requests[pos]] + [] == [requests[pos]];
        PendingSettles(pending, Removed(requests, pos), requests[pos], []);
        DecrementPendingReqCount(requests[pos].peer);
        requests := requests[..pos] + requests[pos + 1..];
      }
    }

    // ----- the endgame -----

    /** updateEndgame.  `peers` are the swarm's peers and `webseeds` the number of web seeds
        that are transferring. */
    method UpdateEndgame(env: Progress, peers: seq<nat>, webseeds: nat)
      modifies this`endgame
      ensures endgame == EndgameAfter(old(endgame), |requests| * tor.blockSize < env.leftUntilDone, |requests|,
        ActivePeers(pending, peers) + webseeds)
    {
      if |requests| * tor.blockSize < env.leftUntilDone {
        endgame := 0;
      } else if endgame == 0 {
        var numDownloading := 0;
        for i := 0 to |peers|
          invariant numDownloading == ActivePeers(pending, peers[..i])
        {
          assert peers[..i + 1][..i] == peers[..i];
          if 0 < Pending(peers[i]) {
            numDownloading := numDownloading + 1;
          }
        }
        assert peers[..|peers|] == peers;
        numDownloading := numDownloading + webseeds;
        endgame := |requests| / Max(numDownloading, 1);
      }
    }

    // ----- the piece list -----

    /** pieceListSort by weight */
    method PieceListSort(env: Progress)
      requires pieceCount <= pieces.Length && env.tor.Valid()
      modifies this`sortedByWeight, pieces
      ensures sortedByWeight && InOrder(env, List()) && multiset(List()) == multiset(old(List()))
      ensures AllListed(env, List()) ==> NoneBehind(env, List())
    {
      hide CompareByWeight, Torrent.Valid;
      var leq := (a: WeightedPiece, b: WeightedPiece) => CompareByWeight(env, a, b) <= 0;
      WeightIsPreorder(env, leq);
      var sorted := Search.QSort(pieces[..pieceCount], leq);
      forall k | 0 <= k < pieceCount { pieces[k] := sorted[k]; }
      assert List() == sorted;
      InOrderTells(env, List());
      sortedByWeight := true;
    }

    /** The new list, merged with the old one. */
    method NewList(env: Progress, salts: seq<int>) returns (list: array<WeightedPiece>)
      requires pieceCount <= pieces.Length && env.tor == tor && tor.Valid() && tor.PieceCount() <= |salts|
      requires forall i, j | 0 <= i < j < pieceCount :: pieces[i].index != pieces[j].index
      ensures fresh(list) && IsRebuilt(env, list[..], List())
    {
      hide CompareByWeight, Torrent.Valid, Wanted, Inherits, IsRebuilt, Progress.Missing;
      TorrentHasSizes();
      var pool := BuildPool(env);
      list := Fresh(pool, salts);
      var o := [];
      if pieceCount != 0 {
        o := SortByIndex(pieces[..pieceCount]);
      }
      Merge(o, list);
      MergedIsRebuilt(env, list[..], pool, o);
      RebuiltPermutes(env, list[..], list[..], o, List());
    }

    /** pieceListRebuild, with the salts tr_cryptoWeakRandInt returns. */
    method PieceListRebuild(env: Progress, salts: seq<int>)
      requires Valid() && env.tor == tor && tor.PieceCount() <= |salts|
      modifies this`pieces, this`pieceCount, this`sortedByWeight, pieces
      ensures Valid() && (pieces == old(pieces) || fresh(pieces))
      ensures env.isSeed ==> List() == old(List()) && sortedByWeight == old(sortedByWeight)
      ensures !env.isSeed ==> sortedByWeight && InOrder(env, List()) && IsRebuilt(env, List(), old(List()))
    {
      hide CompareByWeight, Torrent.Valid, InOrder, IsRebuilt, TablesOk, ListOk;
      TorrentIsValid();
      TorrentHasSizes();
      if env.isSeed { return; }
      ghost var rs, per, was := requests, tor.BlockCountInPiece(), List();
      DistinctIndices(was, rs, [], per, tor.PieceCount());
      var list := NewList(env, salts);
      RebuiltIsOk(env, list[..], was, rs, per);
      pieces, pieceCount := list, list.Length;
      assert List() == list[..];
      ghost var before := List();
      PieceListSort(env);
      RebuiltPermutes(env, before, List(), was, was);
      ListOkPermutes(before, List(), rs, [], per, tor.PieceCount());
    }

    lemma TorrentHasSizes()
      requires tor.Valid()
      ensures 0 < tor.blockSize && 0 < tor.pieceSize && 0 < tor.BlockCountInPiece()
    {
      PieceIsBlocks(tor);
    }

    lemma TorrentIsValid()
      requires TablesOk()
      ensures tor.Valid()
    {
    }

    /** pieceListLookup, returning a position instead of a pointer. */
    method PieceListLookup(index: nat) returns (k: int)
      requires pieceCount <= pieces.Length
      ensures -1 <= k < pieceCount
      ensures 0 <= k ==> pieces[k].index == index
      ensures k < 0 ==> forall i | 0 <= i < pieceCount :: pieces[i].index != index
    {
      for i := 0 to pieceCount
        invariant forall j | 0 <= j < i :: pieces[j].index != index
      {
        if pieces[i].index == index {
          return i;
        }
      }
      return -1;
    }

    /** pieceListRemovePiece */
    method PieceListRemovePiece(piece: nat)
      requires Valid()
      modifies this`pieceCount, pieces
      ensures Valid()
      ensures forall p :: p in List() <==> p in old(List()) && p.index != piece
    {
      hide TablesOk, Bounded;
      var k := PieceListLookup(piece);
      if 0 <= k {
        ghost var was := List();
        EraseAt(pieces, pieceCount, k);
        pieceCount := pieceCount - 1;
        assert List() == was[..k] + was[k + 1..];
        assert was == was[..k] + [was[k]] + was[k + 1..];
      }
    }

    /** pieceListResortPiece: when only the piece at k is out of place, the list is in order after. */
    method PieceListResortPiece(k: int, env: Progress)
      requires pieceCount <= pieces.Length && env.tor.Valid() && -1 <= k < pieceCount
      modifies this`sortedByWeight, pieces
      ensures multiset(List()) == multiset(old(List()))
      ensures k < 0 ==> List() == old(List()) && sortedByWeight == old(sortedByWeight)
      ensures 0 <= k ==> sortedByWeight
      ensures 0 <= k && !old(sortedByWeight) ==> InOrder(env, List())
      ensures 0 <= k && InOrder(env, old(List())[..k] + old(List())[k + 1..]) ==> InOrder(env, List())
    {
      hide CompareByWeight, Torrent.Valid, InOrder;
      if k < 0 { return; }
      var isSorted := true;
      if isSorted && 0 < k && CompareByWeight(env, pieces[k - 1], pieces[k]) > 0 {
        isSorted := false;
      }
      if isSorted && k < pieceCount - 1 && CompareByWeight(env, pieces[k], pieces[k + 1]) > 0 {
        isSorted := false;
      }
      if !sortedByWeight {
        PieceListSort(env);
        isSorted := true;
      } else if isSorted {
        if InOrder(env, List()[..k] + List()[k + 1..]) {
          NeighboursSuffice(env, List(), k);
        }
      }
      if !isSorted {
        Reinsert(pieces, pieceCount, k, env);
      }
    }

    /** pieceListRemoveRequest: one request fewer for the piece of this block. */
    method PieceListRemoveRequest(block: nat, env: Progress)
      requires pieceCount <= pieces.Length && env.tor.Valid() && 0 < tor.blockSize && 0 < tor.BlockCountInPiece()
      requires forall i, j | 0 <= i < j < pieceCount :: pieces[i].index != pieces[j].index
      modifies this`sortedByWeight, pieces
      ensures multiset(List()) == multiset(Lowered(old(List()), PieceOf(block, tor.BlockCountInPiece())))
    {
      hide CompareByWeight, Torrent.Valid, InOrder, PieceOf;
      var index := PieceOf(block, tor.BlockCountInPiece());
      ghost var was := List();
      var k := PieceListLookup(index);
      if 0 <= k && 0 < pieces[k].requestCount {
        pieces[k] := pieces[k].(requestCount := pieces[k].requestCount - 1);
        assert List() == Lowered(was, index);
        PieceListResortPiece(k, env);
      } else {
        assert List() == Lowered(was, index);
      }
    }

    // ----- choosing what to request next -----

    /** The tests that skip a block. */
    method ShouldAsk(b: nat, peer: nat, numwant: nat, got: nat, env: Progress) returns (ask: bool)
      requires TablesOk()
      ensures ask <==> MayAsk(env, requests, b, peer, endgame, endgame <= Pending(peer) + numwant - got)
      ensures ask ==> !Requested(requests, b, peer) && AtMostOne(requests, b)
    {
      hide Torrent.Valid, PendingOk, Unasked, AskedOnce, Requested, AtMostOne, SortedReqs, AtMostTwo, IsGroup;
      if b in env.complete { return false; }
      var peers, pos := GetBlockRequestPeers(b);
      GroupTells(requests, b, peers, pos, peer);
      if |peers| != 0 {
        if endgame == 0 { return false; }
        if |peers| > 1 { return false; }
        if peer == peers[0] { return false; }
        if Pending(peer) + numwant - got < endgame { return false; }
      }
      ask := true;
    }

    /** "update our own tables" */
    method TakeBlock(k: nat, b: nat, peer: nat, now: int)
      requires Valid() && k < pieceCount && peer != 0 && b < tor.BlockCount()
      requires PieceOf(b, tor.BlockCountInPiece()) == pieces[k].index
      requires !Requested(requests, b, peer) && AtMostOne(requests, b)
      modifies this`requests, this`pending, pieces
      ensures Valid() && Pending(peer) == old(Pending(peer)) + 1
      ensures forall r :: r in requests <==> r in old(requests) || r == BlockRequest(b, peer, now)
      ensures List() == old(List())[k := old(pieces[k]).(requestCount := old(pieces[k]).requestCount + 1)]
    {
      hide TableOk, PendingOk, ListOk, Requested, AtMostOne, PieceOf;
      TorrentIsValid();
      ghost var rs, list, r := requests, List(), BlockRequest(b, peer, now);
      RequestListAdd(b, peer, now);
      ghost var pos :| 0 <= pos <= |rs| && requests == Inserted(rs, pos, r);
      InsertedMembers(rs, pos, r);
      AddKeepsList(list, k, rs, pos, r, tor.BlockCountInPiece(), tor.PieceCount());
      pieces[k] := pieces[k].(requestCount := pieces[k].requestCount + 1);
      assert List() == list[k := list[k].(requestCount := list[k].requestCount + 1)];
    }

    /** This is the round a caller of these arguments is in. */
    ghost predicate IsRound(r: Round, peer: nat, numwant: nat, setme: array<nat>, intervals: bool, env: Progress, now: int)
      reads this`endgame
    {
      && r.env == env && r.endgame == endgame && r.peer == peer && r.now == now && r.numwant == numwant
      && r.intervals == intervals && 0 < tor.blockSize && r.per == tor.BlockCountInPiece()
      && 0 < r.per && env.tor == tor && peer != 0 && Room(intervals, numwant) <= setme.Length
    }

    /** The body of the block loop, for block b of the piece at k. */
    method AskForBlock(k: nat, b: nat, first: nat, peer: nat, numwant: nat, setme: array<nat>, got0: nat, intervals: bool,
                       env: Progress, now: int, ghost r: Round, ghost order0: seq<nat>)
      returns (got: nat, ghost order: seq<nat>, ghost more: set<nat>)
      requires Valid() && k < pieceCount && b < tor.BlockCount() && IsRound(r, peer, numwant, setme, intervals, env, now)
      requires InRound(r, requests, Pending(peer), setme[..], got0, order0)
      requires first <= b && PieceOf(b, r.per) == pieces[k].index
      requires 0 < b ==> (first < b <==> PieceOf(b - 1, r.per) == PieceOf(b, r.per))
      requires got0 <= numwant && (got0 < numwant || (intervals && 0 < got0 && first < b && setme[2 * got0 - 1] + 1 == b))
      modifies this`requests, this`pending, pieces, setme
      ensures Valid() && InRound(r, requests, Pending(peer), setme[..], got, order)
      ensures got0 <= got <= numwant
      ensures setme[Room(intervals, numwant)..] == old(setme[Room(intervals, numwant)..])
      ensures more <= {b} && Blocks(order) == Blocks(order0) + more
      ensures List() == WithMore(old(List()), k, |more|)
      ensures b in env.complete || !Unasked(requests, b)
      ensures forall q | q in old(requests) :: q in requests
    {
      hide TablesOk, ListOk, Torrent.Valid, Torrent.BlockCount, Torrent.BlockCountInPiece, Torrent.PieceCount, PieceOf,
        Filled, Justified, FastEnough;
      got, order, more := got0, order0, {};
      ghost var rs, s := requests, setme[..];
      StandsAt(r, rs, Pending(peer), s, got, order);
      var ask := ShouldAsk(b, peer, numwant, got, env);
      if !ask { return; }
      AskedIsRequested(r, rs, order0, b);
      got := Record(setme, got, numwant, intervals, b, first, r, order0);
      TakeBlock(k, b, peer, now);
      assert BlockRequest(b, peer, now) in requests;
      order, more := order0 + [b], {b};
      OneMoreBlock(order0, b);
      RoundGoesOn(r, rs, requests, old(Pending(peer)), s, setme[..], got0, got, order0, b);
    }

    /** The block loop for the piece at k.  It goes on past `got == numwant` as long as it
        can lengthen the last interval. */
    method AskInPiece(k: nat, peer: nat, numwant: nat, setme: array<nat>, got0: nat, intervals: bool, env: Progress, now: int,
                      ghost r: Round, ghost order0: seq<nat>)
      returns (got: nat, ghost order: seq<nat>, ghost mine: set<nat>)
      requires Valid() && k < pieceCount && got0 < numwant && IsRound(r, peer, numwant, setme, intervals, env, now)
      requires InRound(r, requests, Pending(peer), setme[..], got0, order0)
      modifies this`requests, this`pending, pieces, setme
      ensures Valid() && got0 <= got <= numwant
      ensures InRound(r, requests, Pending(peer), setme[..], got, order)
      ensures setme[Room(intervals, numwant)..] == old(setme[Room(intervals, numwant)..])
      ensures Blocks(order) == Blocks(order0) + mine
      ensures forall x | x in mine :: PieceOf(x, tor.BlockCountInPiece()) == old(pieces[k].index)
      ensures List() == WithMore(old(List()), k, |mine|)
      ensures got < numwant ==> Covered(env, requests, old(pieces[k].index))
    {
      hide TablesOk, ListOk, Torrent.Valid, Torrent.PieceFirst, Torrent.PieceLast, Torrent.BlockCount,
        Torrent.BlockCountInPiece, Torrent.PieceCount;
      hide Valid, IsRound, PieceOf, InRound, CoveredUpTo, Unasked, Blocks, WithMore, Between;
      RoundFits(r, peer, numwant, setme, intervals, env, now);
      ghost var per, list := tor.BlockCountInPiece(), List();
      var index := pieces[k].index;
      IndexInRange(k);
      var first, last := tor.PieceFirst(index), tor.PieceLast(index);
      NoMore(list, k, first, index, per);
      got, order, mine := got0, order0, {};
      var b := first;
      NothingCovered(env, requests, first);
      OutputFits(r, requests, Pending(peer), setme[..], got, order);
      while b <= last && (got < numwant || (intervals && setme[2 * got - 1] + 1 == b))
        invariant first <= b <= last + 1
        invariant Valid() && got0 <= got <= numwant && Room(intervals, got) <= setme.Length && (got == numwant ==> first < b)
        invariant InRound(r, requests, Pending(peer), setme[..], got, order)
        invariant setme[Room(intervals, numwant)..] == old(setme[Room(intervals, numwant)..])
        invariant Blocks(order) == Blocks(order0) + mine
        invariant Between(mine, first, b, index, per)
        invariant List() == WithMore(list, k, |mine|)
        invariant CoveredUpTo(env, requests, first, b)
        decreases last + 1 - b
      {
        BlockInPiece(b, index);
        ghost var rs, more := requests, {};
        got, order, more := AskForBlock(k, b, first, peer, numwant, setme, got, intervals, env, now, r, order);
        OneMoreCovered(env, rs, requests, first, b);
        MoreAndMore(list, k, mine, more, first, b, index, per);
        mine := mine + more;
        b := b + 1;
      }
      AllInPiece(mine, first, b, index, per);
    }

    lemma RoundFits(r: Round, peer: nat, numwant: nat, setme: array<nat>, intervals: bool, env: Progress, now: int)
      requires Valid() && IsRound(r, peer, numwant, setme, intervals, env, now)
      ensures tor.Valid() && 0 < tor.blockSize && 0 < tor.pieceSize && 0 < tor.BlockCountInPiece()
      ensures r.per == tor.BlockCountInPiece() && r.env == env && env.tor == tor && r.intervals == intervals
      ensures pieceCount <= pieces.Length && Room(intervals, numwant) <= setme.Length
    {
      hide TablesOk, ListOk;
      TorrentIsValid();
      TorrentHasSizes();
    }

    lemma IndexInRange(k: nat)
      requires Valid() && k < pieceCount
      ensures pieces[k].index < tor.PieceCount() && tor.Valid()
      ensures tor.PieceFirst(pieces[k].index) <= tor.PieceLast(pieces[k].index)
    {
      hide TableOk, PendingOk, Torrent.Valid;
      TorrentIsValid();
      assert Bounded(List()[k], requests, [], tor.BlockCountInPiece(), tor.PieceCount());
      PieceRange(tor, pieces[k].index);
    }

    lemma BlockInPiece(b: nat, index: nat)
      requires Valid() && index < tor.PieceCount() && tor.PieceFirst(index) <= b <= tor.PieceLast(index)
      ensures b < tor.BlockCount() && PieceOf(b, tor.BlockCountInPiece()) == index
      ensures 0 < b ==> (tor.PieceFirst(index) < b <==> PieceOf(b - 1, tor.BlockCountInPiece()) == index)
    {
      hide TableOk, PendingOk, ListOk, Torrent.Valid;
      TorrentIsValid();
      PieceRange(tor, index);
      BlockPieceIsRange(tor, b, index);
      if 0 < b {
        BlockPieceIsRange(tor, b - 1, index);
      }
    }

    /** tr_peerMgrGetNextRequests.  `have` is what the peer has; `list` is the piece list the
        requests are chosen from, and `order` the blocks asked for, in order. */
    method GetNextRequests(peer: nat, have: set<nat>, numwant: nat, setme: array<nat>, intervals: bool, env: Progress, now: int,
                           peers: seq<nat>, webseeds: nat, salts: seq<int>)
      returns (got: nat, ghost list: seq<WeightedPiece>, ghost order: seq<nat>)
      requires Valid() && env.tor == tor && peer != 0 && 0 < numwant && Room(intervals, numwant) <= setme.Length
      requires tor.PieceCount() <= |salts|
      modifies this`requests, this`pending, this`pieces, this`pieceCount, this`sortedByWeight, this`endgame, pieces, setme
      ensures Valid() && got <= numwant
      ensures endgame == EndgameAfter(old(endgame), |old(requests)| * tor.blockSize < env.leftUntilDone, |old(requests)|,
        ActivePeers(old(pending), peers) + webseeds)
      ensures setme[Room(intervals, numwant)..] == old(setme[Room(intervals, numwant)..])
      ensures InRound(Round(env, old(requests), old(Pending(peer)), endgame, peer, now, numwant, intervals, tor.BlockCountInPiece()),
        requests, Pending(peer), setme[..], got, order)
      ensures old(pieceCount) != 0 ==> multiset(list) == multiset(old(List()))
      ensures old(pieceCount) == 0 && !env.isSeed ==> IsRebuilt(env, list, [])
      ensures ChosenFrom(Blocks(order), list, have, tor.BlockCountInPiece())
      ensures got < numwant ==> CoveredIn(env, requests, list, have)
      ensures FrontFirst(env, requests, list, have, Blocks(order), tor.BlockCountInPiece())
      ensures (old(sortedByWeight) ==> InOrder(env, old(List()))) ==> InOrder(env, list) && NoneBehind(env, list)
      ensures multiset(List()) == multiset(Credited(list, Blocks(order), tor.BlockCountInPiece()))
      ensures (old(sortedByWeight) ==> InOrder(env, old(List()))) ==> InOrder(env, List()) && NoneBehind(env, List())
    {
      hide TablesOk, ListOk, Torrent.Valid, PieceOf, InRound, InOrder, NoneBehind, CompareByWeight, Credited, ChosenFrom, CoveredIn,
        FrontFirst, IsRebuilt, EndgameAfter, ActivePeers;
      Prepare(env, peers, webseeds, salts);
      ListIsDistinct();
      TorrentHasSizes();
      list := List();
      OrderTells(env);
      var i;
      got, i, order := AskAround(peer, have, numwant, setme, intervals, env, now);
      NoneAsked(Round(env, old(requests), old(Pending(peer)), endgame, peer, now, numwant, intervals, tor.BlockCountInPiece()),
        requests, Pending(peer), setme[..], got, order);
      NothingCredited(list, tor.BlockCountInPiece());
      if InOrder(env, list) {
        SuffixInOrder(env, list, i);
      }
      if 0 < got {
        RestoreOrder(i, env);
      }
      OrderTells(env);
    }

    lemma OrderTells(env: Progress)
      requires Valid() && env.tor == tor
      ensures tor.Valid() && (InOrder(env, List()) ==> NoneBehind(env, List()))
    {
      hide TableOk, PendingOk, InOrder, NoneBehind, Torrent.FilesAreContiguous;
      TorrentIsValid();
      InOrderTells(env, List());
      forall i | 0 <= i < |List()|
        ensures IsListed(env, List()[i])
      {
        assert Bounded(List()[i], requests, [], tor.BlockCountInPiece(), tor.PieceCount());
      }
    }

    /** The walk through the pieces; `i` of them were looked at. */
    method AskAround(peer: nat, have: set<nat>, numwant: nat, setme: array<nat>, intervals: bool, env: Progress, now: int)
      returns (got: nat, i: nat, ghost order: seq<nat>)
      requires Valid() && env.tor == tor && peer != 0 && 0 < numwant && Room(intervals, numwant) <= setme.Length
      modifies this`requests, this`pending, pieces, setme
      ensures Valid() && got <= numwant && (0 < got ==> 0 < i) && i <= pieceCount
      ensures setme[Room(intervals, numwant)..] == old(setme[Room(intervals, numwant)..])
      ensures InRound(Round(env, old(requests), old(Pending(peer)), endgame, peer, now, numwant, intervals, tor.BlockCountInPiece()),
        requests, Pending(peer), setme[..], got, order)
      ensures ChosenFrom(Blocks(order), old(List()), have, tor.BlockCountInPiece())
      ensures got < numwant ==> CoveredIn(env, requests, old(List()), have)
      ensures FrontFirst(env, requests, old(List()), have, Blocks(order), tor.BlockCountInPiece())
      ensures List() == Credited(old(List()), Blocks(order), tor.BlockCountInPiece()) && List()[i..] == old(List())[i..]
    {
      hide TablesOk, ListOk, Torrent.Valid, PieceOf, InRound, Blocks, Credited, NotYet, ChosenFrom, CoveredIn, Covered,
        FrontFirst;
      ListIsDistinct();
      TorrentHasSizes();
      ghost var per, base, list := tor.BlockCountInPiece(), requests, List();
      ghost var r := Round(env, base, Pending(peer), endgame, peer, now, numwant, intervals, per);
      i, order, got := 0, [], 0;
      NothingAsked(r, setme[..]);
      NothingCredited(list, per);
      NoneChosen(env, base, list, have, per);
      while i < pieceCount && got < numwant
        invariant 0 <= i <= pieceCount && Valid() && got <= numwant && (0 < got ==> 0 < i)
        invariant setme[Room(intervals, numwant)..] == old(setme[Room(intervals, numwant)..])
        invariant InRound(r, requests, Pending(peer), setme[..], got, order)
        invariant |List()| == |list| && List() == Credited(list, Blocks(order), per) && List()[i..] == list[i..]
        invariant NotYet(Blocks(order), list, i, per) && ChosenFrom(Blocks(order), list[..i], have, per)
        invariant got < numwant ==> CoveredIn(env, requests, list[..i], have)
        invariant 0 < i ==> CoveredIn(env, requests, list[..i - 1], have)
      {
        assert List()[i..][0] == list[i..][0];
        NotInPiece(Blocks(order), list, i, per);
        if pieces[i].index in have {
          ghost var mine, rs, was, n := {}, requests, order, Pending(peer);
          AskedTells(r, rs, n, setme[..], got, order);
          got, order, mine := AskInPiece(i, peer, numwant, setme, got, intervals, env, now, r, order);
          AskedTells(r, requests, Pending(peer), setme[..], got, order);
          CreditOne(list, Blocks(was), mine, i, per);
          AskedInPiece(env, base, rs, requests, peer, now, Blocks(was), mine, list, i, have, per);
        } else {
          NothingToAsk(env, requests, Blocks(order), list, i, have, per);
        }
        i := i + 1;
      }
      assert list[..|list|] == list;
      FrontGoesFirst(env, requests, list, have, Blocks(order), per, i);
      ChosenFromMore(Blocks(order), list, i, have, per);
    }

    /** The adaptive insertion pass, after the first i pieces were looked at. */
    method RestoreOrder(i: nat, env: Progress)
      requires Valid() && env.tor == tor && 0 < i <= pieceCount
      modifies pieces
      ensures Valid() && multiset(List()) == multiset(old(List()))
      ensures InOrder(env, old(List()[i..])) ==> InOrder(env, List())
    {
      hide TablesOk, ListOk, Torrent.Valid, InOrder, CompareByWeight;
      ListIsDistinct();
      TorrentHasSizes();
      ghost var list := List();
      assert pieces[i..pieceCount] == list[i..];
      ResortLeading(pieces, pieceCount, i, env);
      ListOkPermutes(list, List(), requests, [], tor.BlockCountInPiece(), tor.PieceCount());
    }

    /** "prep the pieces list" */
    method Prepare(env: Progress, peers: seq<nat>, webseeds: nat, salts: seq<int>)
      requires Valid() && env.tor == tor && tor.PieceCount() <= |salts|
      modifies this`pieces, this`pieceCount, this`sortedByWeight, this`endgame, pieces
      ensures Valid() && (pieces == old(pieces) || fresh(pieces))
      ensures endgame == EndgameAfter(old(endgame), |requests| * tor.blockSize < env.leftUntilDone, |requests|,
        ActivePeers(pending, peers) + webseeds)
      ensures old(pieceCount) != 0 ==> multiset(List()) == multiset(old(List()))
      ensures old(pieceCount) == 0 && !env.isSeed ==> IsRebuilt(env, List(), [])
      ensures (old(sortedByWeight) ==> InOrder(env, old(List()))) ==> InOrder(env, List())
    {
      hide TablesOk, ListOk, Torrent.Valid, InOrder, IsRebuilt;
      TorrentIsValid();
      TorrentHasSizes();
      if pieceCount == 0 {
        assert List() == [];
        PieceListRebuild(env, salts);
      }
      ghost var list := List();
      if !sortedByWeight {
        PieceListSort(env);
        ListOkPermutes(list, List(), requests, [], tor.BlockCountInPiece(), tor.PieceCount());
      }
      UpdateEndgame(env, peers, webseeds);
    }

    lemma ListIsDistinct()
      requires Valid()
      ensures tor.Valid() && 0 < tor.BlockCountInPiece()
      ensures forall i, j | 0 <= i < j < |List()| :: List()[i].index != List()[j].index
    {
      hide TableOk, PendingOk, Torrent.Valid;
      TorrentIsValid();
      DistinctIndices(List(), requests, [], tor.BlockCountInPiece(), tor.PieceCount());
    }

    // ----- taking requests back -----

    /** pieceListRemoveRequest settles what a removed entry is owed. */
    method SettleList(block: nat, ghost r: BlockRequest, ghost rs: seq<BlockRequest>, ghost extra: seq<BlockRequest>, env: Progress)
      requires pieceCount <= pieces.Length && env.tor.Valid() && 0 < tor.blockSize && 0 < tor.BlockCountInPiece()
      requires r.block == block && ListOk(List(), rs, [r] + extra, tor.BlockCountInPiece(), tor.PieceCount()) && 0 < tor.pieceSize
      modifies this`sortedByWeight, pieces
      ensures ListOk(List(), rs, extra, tor.BlockCountInPiece(), tor.PieceCount())
      ensures multiset(List()) == multiset(Lowered(old(List()), PieceOf(block, tor.BlockCountInPiece())))
    {
      ghost var was, per := List(), tor.BlockCountInPiece();
      ListSettles(was, rs, r, extra, per, tor.PieceCount());
      assert forall i, j | 0 <= i < j < pieceCount :: pieces[i].index != pieces[j].index by {
        assert forall i | 0 <= i < pieceCount :: was[i] == pieces[i];
      }
      hide ListOk, Lowered, PieceOf, Torrent.Valid;
      PieceListRemoveRequest(block, env);
      ListOkPermutes(Lowered(was, PieceOf(block, per)), List(), rs, extra, per, tor.PieceCount());
    }

    /** removeRequestFromTables */
    method RemoveRequestFromTables(block: nat, peer: nat, env: Progress)
      requires Valid() && env.tor.Valid()
      modifies this`requests, this`pending, this`sortedByWeight, pieces
      ensures Valid()
      ensures forall r :: r in requests <==> r in old(requests) && !(r.block == block && r.peer == peer)
      ensures multiset(List()) == multiset(Lowered(old(List()), PieceOf(block, tor.BlockCountInPiece())))
    {
      hide ListOk, Bounded, TableOk, PendingOk, Removed, Lowered;
      TableIsSorted(requests, tor);
      ghost var rs, list, per, n := requests, List(), tor.BlockCountInPiece(), tor.PieceCount();
      ghost var owed := pending;
      var pos := RequestListRemove(block, peer);
      if 0 <= pos {
        RemoveOwes(list, owed, rs, pos, per, n);
        RemovedMembers(rs, pos);
        assert [rs[pos]] + [] == [rs[pos]];
        SettleList(block, rs[pos], requests, [], env);
      } else {
        LoweredKeepsList(list, rs, per, n, PieceOf(block, per));
        DistinctIndices(list, rs, [], per, n);
        PieceListRemoveRequest(block, env);
        ListOkPermutes(Lowered(list, PieceOf(block, per)), List(), rs, [], per, n);
      }
    }

    /** peerDeclinedAllRequests: a peer choked us or went away. */
    method PeerDeclinedAllRequests(peer: nat, env: Progress)
      requires Valid() && env.tor.Valid()
      modifies this`requests, this`pending, this`sortedByWeight, pieces
      ensures Valid()
      ensures forall r :: r in requests <==> r in old(requests) && r.peer != peer
    {
      hide ListOk, TableOk, PendingOk, Torrent.Valid;
      var blocks := [];
      for i := 0 to |requests|
        invariant forall b :: b in blocks <==> exists k :: 0 <= k < i && requests[k].peer == peer && requests[k].block == b
      {
        if peer == requests[i].peer {
          blocks := blocks + [requests[i].block];
        }
      }
      ghost var rs := requests;
      for i := 0 to |blocks|
        invariant Valid()
        invariant forall r :: r in requests <==> r in rs && !(r.peer == peer && r.block in blocks[..i])
      {
        RemoveRequestFromTables(blocks[i], peer, env);
        assert blocks[..i + 1] == blocks[..i] + [blocks[i]];
      }
      assert blocks[..|blocks|] == blocks;
      forall r | r in rs && r.peer == peer
        ensures r.block in blocks
      {
        var k :| 0 <= k < |rs| && rs[k] == r;
      }
    }

    /** cancelAllRequestsForBlock: the block arrived, so nobody else need send it. */
    method CancelAllRequestsForBlock(block: nat, noNotify: nat, msgsPeers: set<nat>, env: Progress)
      requires Valid() && env.tor.Valid()
      modifies this`requests, this`pending, this`sortedByWeight, this`cancels, pieces
      ensures Valid()
      ensures forall r :: r in requests <==> r in old(requests) && r.block != block
      ensures forall c :: c in cancels <==>
        c in old(cancels) || (c.1 == block && c.0 != noNotify && c.0 in msgsPeers && Requested(old(requests), block, c.0))
    {
      hide ListOk, TableOk, PendingOk, Torrent.Valid;
      ghost var rs, sent := requests, cancels;
      var peers, pos := GetBlockRequestPeers(block);
      GroupMembers(rs, block, peers, pos);
      for i := 0 to |peers|
        invariant Valid()
        invariant forall r :: r in requests <==> r in rs && !(r.block == block && r.peer in peers[..i])
        invariant forall c :: c in cancels <==> c in sent || (c.1 == block && c.0 != noNotify && c.0 in msgsPeers && c.0 in peers[..i])
      {
        var p := peers[i];
        if p != noNotify && p in msgsPeers {
          cancels := cancels + [(p, block)];
        }
        RemoveRequestFromTables(block, p, env);
        assert peers[..i + 1] == peers[..i] + [p];
      }
      assert peers[..|peers|] == peers;
    }

    /** The first loop of refillUpkeep: stale requests leave the table. */
    method Prune(e: Expiry) returns (cancel: seq<BlockRequest>)
      modifies this`requests
      ensures requests == Sift(old(requests), e, false) && cancel == Sift(old(requests), e, true)
    {
      hide Stale;
      var keep := [];
      cancel := [];
      for i := 0 to |requests|
        invariant keep == Sift(requests[..i], e, false) && cancel == Sift(requests[..i], e, true)
      {
        assert requests[..i + 1][..i] == requests[..i];
        if Stale(requests[i], e) {
          cancel := cancel + [requests[i]];
        } else {
          keep := keep + [requests[i]];
        }
      }
      assert requests[..|requests|] == requests;
      requests := keep;
    }

    /** The second loop: a cancel message for each, and one less pending at its peer. */
    method SendCancels(cancel: seq<BlockRequest>)
      requires PendingOk(pending, requests, cancel)
      modifies this`pending, this`cancels
      ensures PendingOk(pending, requests, [])
      ensures cancels == old(cancels) + CancelsFor(cancel)
    {
      hide PendingOk;
      assert cancel[0..] == cancel;
      for i := 0 to |cancel|
        invariant PendingOk(pending, requests, cancel[i..])
        invariant cancels == old(cancels) + CancelsFor(cancel[..i])
      {
        assert cancel[i..] == [cancel[i]] + cancel[i + 1..] && cancel[..i + 1] == cancel[..i] + [cancel[i]];
        cancels := cancels + [(cancel[i].peer, cancel[i].block)];
        PendingSettles(pending, requests, cancel[i], cancel[i + 1..]);
        DecrementPendingReqCount(cancel[i].peer);
      }
      assert cancel[..|cancel|] == cancel && cancel[|cancel|..] == [];
    }

    /** The third loop: one request fewer for each one's piece. */
    method SettleAll(cancel: seq<BlockRequest>, env: Progress)
      requires pieceCount <= pieces.Length && env.tor.Valid() && 0 < tor.blockSize && 0 < tor.BlockCountInPiece() && 0 < tor.pieceSize
      requires ListOk(List(), requests, cancel, tor.BlockCountInPiece(), tor.PieceCount())
      modifies this`sortedByWeight, pieces
      ensures ListOk(List(), requests, [], tor.BlockCountInPiece(), tor.PieceCount())
    {
      hide ListOk, Torrent.Valid;
      assert cancel[0..] == cancel;
      for i := 0 to |cancel|
        invariant ListOk(List(), requests, cancel[i..], tor.BlockCountInPiece(), tor.PieceCount())
      {
        assert cancel[i..] == [cancel[i]] + cancel[i + 1..];
        SettleList(cancel[i].block, cancel[i], requests, cancel[i + 1..], env);
      }
      assert cancel[|cancel|..] == [];
    }

    /** refillUpkeep for one swarm: requests that have waited too long are cancelled. */
    method RefillUpkeep(now: int, msgsPeers: set<nat>, reading: set<(nat, nat)>, env: Progress)
      requires Valid() && env.tor.Valid()
      modifies this`requests, this`pending, this`sortedByWeight, this`cancels, pieces
      ensures Valid()
      ensures forall r :: r in requests <==> r in old(requests) && !IsOverdue(r, now - 90, msgsPeers, reading)
      ensures old(cancels) <= cancels && |cancels| - |old(cancels)| == |old(requests)| - |requests|
      ensures forall c :: c in cancels[|old(cancels)|..] <==>
        exists r :: r in old(requests) && IsOverdue(r, now - 90, msgsPeers, reading) && c == (r.peer, r.block)
    {
      hide ListOk, TableOk, PendingOk, Stale, Sift, IsOverdue, CancelsFor;
      var e := Expiry(now - REQUEST_TTL_SECS, msgsPeers, reading);
      ghost var rs := requests;
      TableIsSorted(rs, tor);
      SplitOwes(List(), pending, rs, e, tor.BlockCountInPiece(), tor.PieceCount());
      SiftIsTable(rs, e, false, tor);
      forall r
        ensures r in Sift(rs, e, false) <==> r in rs && !IsOverdue(r, now - 90, msgsPeers, reading)
      {
        SiftMembers(rs, e, false, r);
        StaleIsOverdue(r, e);
      }
      SiftSizes(rs, e);
      ghost var sent := cancels;
      OverdueCancels(rs, e);
      var cancel := Prune(e);
      SendCancels(cancel);
      assert cancels[|sent|..] == CancelsFor(cancel);
      SettleAll(cancel, env);
    }
  }

  function CancelsFor(rs: seq<BlockRequest>): seq<(nat, nat)>
  {
    seq(|rs|, i requires 0 <= i < |rs| => (rs[i].peer, rs[i].block))
  }

  /** A cancel goes out for each overdue request. */
  lemma OverdueCancels(rs: seq<BlockRequest>, e: Expiry)
    ensures |CancelsFor(Sift(rs, e, true))| == |Sift(rs, e, true)|
    ensures forall c :: c in CancelsFor(Sift(rs, e, true)) <==>
      exists r :: r in rs && IsOverdue(r, e.tooOld, e.msgsPeers, e.reading) && c == (r.peer, r.block)
  {
    hide Sift, Stale, IsOverdue;
    var late := Sift(rs, e, true);
    forall r
      ensures r in late <==> r in rs && IsOverdue(r, e.tooOld, e.msgsPeers, e.reading)
    {
      SiftMembers(rs, e, true, r);
      StaleIsOverdue(r, e);
    }
    forall c
      ensures c in CancelsFor(late) <==> exists r :: r in late && c == (r.peer, r.block)
    {
      if r :| r in late && c == (r.peer, r.block) {
        var i :| 0 <= i < |late| && late[i] == r;
        assert CancelsFor(late)[i] == c;
      }
    }
  }

  /** got is the caller's count after recording b: a new block, a new interval, or the last
      interval one block longer. */
  method Record(setme: array<nat>, got0: nat, numwant: nat, intervals: bool, b: nat, first: nat, ghost r: Round, ghost order: seq<nat>)
    returns (got: nat)
    requires 0 < r.per && r.intervals == intervals && Filled(r, setme[..], got0, order) && b !in Blocks(order) && first <= b
    requires Room(intervals, numwant) <= setme.Length && got0 <= numwant
    requires got0 < numwant || (intervals && 0 < got0 && setme[2 * got0 - 1] + 1 == b && first < b)
    requires 0 < b ==> (first < b <==> PieceOf(b - 1, r.per) == PieceOf(b, r.per))
    modifies setme
    ensures Filled(r, setme[..], got, order + [b]) && got0 <= got <= numwant
    ensures setme[Room(intervals, numwant)..] == old(setme[Room(intervals, numwant)..])
  {
    hide IsIntervalList, IsBlockList, PieceOf, Entries, Blocks;
    got := got0;
    ghost var s: seq<nat>, added, per := setme[..], Blocks(order), r.per;
    TableFits(intervals, s, got, added, per);
    OneMoreBlock(order, b);
    OneMoreEntry(order, b, intervals, per);
    EntriesCount(order, intervals, per);
    if !intervals {
      AppendBlock(s, got, added, b);
      setme[got] := b;
      got := got + 1;
      assert setme[..] == s[got0 := b];
    } else if got != 0 && setme[2 * got - 1] + 1 == b && b != first {
      ExtendInterval(s, got, added, per, b);
      setme[2 * got - 1] := setme[2 * got - 1] + 1;
      assert setme[..] == s[2 * got - 1 := b];
    } else {
      BeginInterval(s, got, added, per, b);
      setme[2 * got] := b;
      setme[2 * got + 1] := b;
      got := got + 1;
      assert setme[..] == s[2 * got0 := b][2 * got0 + 1 := b];
    }
  }

  lemma TableIsSorted(rs: seq<BlockRequest>, tor: Torrent)
    requires TableOk(rs, tor)
    ensures SortedReqs(rs) && tor.Valid()
  {
  }

  lemma DistinctIndices(list: seq<WeightedPiece>, rs: seq<BlockRequest>, extra: seq<BlockRequest>, per: nat, pieces: nat)
    requires ListOk(list, rs, extra, per, pieces)
    ensures forall i, j | 0 <= i < j < |list| :: list[i].index != list[j].index
  {
    hide Bounded;
  }

  /** The peers of a block's group are those it is requested from. */
  lemma GroupMembers(rs: seq<BlockRequest>, block: nat, peers: seq<nat>, pos: nat)
    requires IsGroup(rs, block, pos, |peers|)
    requires forall i | 0 <= i < |peers| :: peers[i] == rs[pos + i].peer
    ensures forall p :: p in peers <==> Requested(rs, block, p)
    ensures forall r | r in rs && r.block == block :: r.peer in peers
  {
    forall k | 0 <= k < |rs| && rs[k].block == block
      ensures rs[k].peer in peers
    {
      assert peers[k - pos] == rs[k].peer;
    }
  }

  function Max(a: int, b: int): int
  {
    if a < b then b else a
  }

  /** No endgame while some of what is wanted has not been asked for; after that, the requests
      per source when it began. */
  function EndgameAfter(was: int, unasked: bool, requests: nat, sources: nat): int
  {
    if unasked then 0 else if was != 0 then was else requests / Max(sources, 1)
  }

  /** When the endgame begins its value is what each source has on average, rounded down; it goes
      on with that value, and ends when something wanted is not asked for. */
  lemma EndgameIsShare(was: int, unasked: bool, requests: nat, sources: nat)
    ensures unasked ==> EndgameAfter(was, unasked, requests, sources) == 0
    ensures !unasked && was != 0 ==> EndgameAfter(was, unasked, requests, sources) == was
    ensures !unasked && was == 0 ==>
      var e, n := EndgameAfter(was, unasked, requests, sources), if sources == 0 then 1 else sources;
      e * n <= requests < (e + 1) * n
  {
    var n := Max(sources, 1);
    DivBounds(requests, n);
    assert (requests / n + 1) * n == n * (requests / n) + n;
  }

  /** The positions of the peers that have requests pending. */
  ghost function Active(pending: map<nat, int>, peers: seq<nat>): set<int>
  {
    set i | 0 <= i < |peers| && 0 < PendingOf(pending, peers[i])
  }

  lemma {:induction false} ActivePeersCount(pending: map<nat, int>, peers: seq<nat>)
    ensures ActivePeers(pending, peers) == |Active(pending, peers)|
  {
    if peers != [] {
      var init, last := peers[..|peers| - 1], |peers| - 1;
      ActivePeersCount(pending, init);
      assert Active(pending, peers) == Active(pending, init) + if 0 < PendingOf(pending, peers[last]) then {last} else {};
    }
  }

  /** How many of these peers have requests pending. */
  function ActivePeers(pending: map<nat, int>, peers: seq<nat>): nat
  {
    if peers == [] then 0
    else ActivePeers(pending, peers[..|peers| - 1]) + if 0 < PendingOf(pending, peers[|peers| - 1]) then 1 else 0
  }

  lemma WeightIsPreorder(env: Progress, leq: (WeightedPiece, WeightedPiece) -> bool)
    requires env.tor.Valid() && forall a, b :: leq(a, b) == (CompareByWeight(env, a, b) <= 0)
    ensures Search.TotalPreorder(leq)
  {
    hide CompareByWeight, Torrent.Valid;
    forall a, b, c
      ensures leq(a, b) || leq(b, a)
      ensures leq(a, b) && leq(b, c) ==> leq(a, c)
    {
      CompareIsTotal(env, a, b, c);
    }
  }
}
