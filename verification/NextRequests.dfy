/** What tr_peerMgrGetNextRequests may ask a peer for, and what a round of asking does to the
    tables. */
module NextRequests {
  import opened Geometry
  import opened RequestTable
  import opened PieceList
  import opened SwarmTables
  import opened RequestOutput

  /** Nobody has been asked for this block. */
  ghost predicate Unasked(rs: seq<BlockRequest>, b: nat) {
    forall r | r in rs :: r.block != b
  }

  /** At most one peer has been asked for this block. */
  ghost predicate AskedOnce(rs: seq<BlockRequest>, b: nat) {
    forall r, q | r in rs && q in rs && r.block == b && q.block == b :: r.peer == q.peer
  }

  /** `ss` is `rs` with `peer` asked for the blocks of `added` as well. */
  ghost predicate Asked(rs: seq<BlockRequest>, ss: seq<BlockRequest>, peer: nat, now: int, added: set<nat>) {
    forall r :: r in ss <==> r in rs || (r.peer == peer && r.sentAt == now && r.block in added)
  }

  /** A missing block may be asked for when nobody else was asked; in the endgame, and of a
      peer that is fast enough, also when one other peer was. */
  ghost predicate MayAsk(env: Progress, rs: seq<BlockRequest>, b: nat, peer: nat, endgame: int, quick: bool) {
    && b !in env.complete
    && (Unasked(rs, b) || (endgame != 0 && quick && AskedOnce(rs, b) && !Requested(rs, b, peer)))
  }

  // ----- a round of asking -----

  /** What a round of asking one peer began with, and what its caller wants. */
  datatype Round = Round(env: Progress, requests: seq<BlockRequest>, pending: int, endgame: int,
                         peer: nat, now: int, numwant: nat, intervals: bool, per: nat)

  /** b goes on where the blocks asked for so far end, in the same piece. */
  predicate Continues(order: seq<nat>, b: nat, per: nat)
    requires 0 < per
  {
    order != [] && order[|order| - 1] + 1 == b && PieceOf(order[|order| - 1], per) == PieceOf(b, per)
  }

  /** How many blocks, or how many intervals, these are in the order they were asked for. */
  function Entries(order: seq<nat>, intervals: bool, per: nat): nat
    requires 0 < per
  {
    if order == [] then 0
    else
      var init := order[..|order| - 1];
      Entries(init, intervals, per) + if intervals && Continues(init, order[|order| - 1], per) then 0 else 1
  }

  function Blocks(order: seq<nat>): set<nat> {
    set b | b in order
  }

  ghost predicate NoRepeats(order: seq<nat>) {
    forall i, j | 0 <= i < j < |order| :: order[i] != order[j]
  }

  /** The peer is fast enough for the endgame, after these blocks were asked for: its pending
      requests, these among them, and what is still wanted are not fewer than `endgame`. */
  predicate FastEnough(r: Round, order: seq<nat>)
    requires 0 < r.per
  {
    r.endgame <= r.pending + |order| + r.numwant - Entries(order, r.intervals, r.per)
  }

  /** Each block might be asked for when its turn came. */
  ghost predicate Justified(r: Round, order: seq<nat>)
    requires 0 < r.per
  {
    forall i | 0 <= i < |order| ::
      MayAsk(r.env, r.requests, order[i], r.peer, r.endgame, FastEnough(r, order[..i]))
  }

  /** The caller's table lists the blocks asked for, the last one last. */
  ghost predicate Filled(r: Round, s: seq<nat>, got: nat, order: seq<nat>)
    requires 0 < r.per
  {
    && Output(r.intervals, s, got, Blocks(order), r.per)
    && got == Entries(order, r.intervals, r.per)
    && (order != [] ==> 0 < got)
    && (r.intervals && order != [] ==> s[2 * got - 1] == order[|order| - 1])
  }

  /** Where a round stands when the blocks of `order` were asked for. */
  ghost predicate InRound(r: Round, rs: seq<BlockRequest>, pending: int, s: seq<nat>, got: nat, order: seq<nat>)
    requires 0 < r.per
  {
    && Asked(r.requests, rs, r.peer, r.now, Blocks(order))
    && NoRepeats(order) && pending == r.pending + |order|
    && Justified(r, order)
    && Filled(r, s, got, order)
  }

  /** Every block from `first` up to `end` is there or asked for. */
  ghost predicate CoveredUpTo(env: Progress, rs: seq<BlockRequest>, first: nat, end: int) {
    forall b: nat | first <= b < end :: b in env.complete || !Unasked(rs, b)
  }

  ghost predicate Covered(env: Progress, rs: seq<BlockRequest>, piece: nat)
    requires 0 < env.tor.blockSize && 0 < env.tor.pieceSize
  {
    CoveredUpTo(env, rs, env.tor.PieceFirst(piece), env.tor.PieceLast(piece) + 1)
  }

  /** The caller's table, in either form. */
  ghost predicate Output(intervals: bool, s: seq<nat>, got: nat, added: set<nat>, per: nat)
    requires 0 < per
  {
    if intervals then IsIntervalList(s, got, added, per) else IsBlockList(s, got, added)
  }

  /** How much of the caller's table may be written. */
  function Room(intervals: bool, numwant: nat): nat {
    if intervals then 2 * numwant else numwant
  }

  function AddedIn(added: set<nat>, per: nat, piece: nat): set<nat>
    requires 0 < per
  {
    set x | x in added && PieceOf(x, per) == piece
  }

  /** Each listed piece with the requests just made in it counted. */
  function Credited(list: seq<WeightedPiece>, added: set<nat>, per: nat): seq<WeightedPiece>
    requires 0 < per
  {
    seq(|list|, i requires 0 <= i < |list| =>
      list[i].(requestCount := list[i].requestCount + |AddedIn(added, per, list[i].index)|))
  }

  /** No block of `added` is in one of the pieces from the i-th on. */
  ghost predicate NotYet(added: set<nat>, list: seq<WeightedPiece>, i: nat, per: nat)
    requires 0 < per && i <= |list|
  {
    forall x, j | x in added && i <= j < |list| :: PieceOf(x, per) != list[j].index
  }

  lemma NothingCredited(list: seq<WeightedPiece>, per: nat)
    requires 0 < per
    ensures Credited(list, {}, per) == list
  {
    forall i | 0 <= i < |list|
      ensures AddedIn({}, per, list[i].index) == {}
    {
    }
  }

  /** The list with n requests more counted for its k-th piece. */
  function WithMore(list: seq<WeightedPiece>, k: nat, n: nat): (l: seq<WeightedPiece>)
    requires k < |list|
    ensures |l| == |list| && l[k].index == list[k].index && l[k + 1..] == list[k + 1..]
  {
    list[k := list[k].(requestCount := list[k].requestCount + n)]
  }

  /** These blocks of a piece come before b. */
  ghost predicate Between(mine: set<nat>, first: nat, b: nat, piece: nat, per: nat)
    requires 0 < per
  {
    forall x | x in mine :: first <= x < b && PieceOf(x, per) == piece
  }

  lemma NoMore(list: seq<WeightedPiece>, k: nat, first: nat, piece: nat, per: nat)
    requires k < |list| && 0 < per
    ensures WithMore(list, k, 0) == list && Between({}, first, first, piece, per)
  {
  }

  lemma MoreAndMore(list: seq<WeightedPiece>, k: nat, mine: set<nat>, more: set<nat>, first: nat, b: nat, piece: nat, per: nat)
    requires k < |list| && 0 < per && more <= {b} && first <= b && PieceOf(b, per) == piece
    requires Between(mine, first, b, piece, per)
    ensures WithMore(WithMore(list, k, |mine|), k, |more|) == WithMore(list, k, |mine + more|)
    ensures Between(mine + more, first, b + 1, piece, per)
  {
    hide PieceOf;
  }

  lemma AllInPiece(mine: set<nat>, first: nat, b: nat, piece: nat, per: nat)
    requires 0 < per && Between(mine, first, b, piece, per)
    ensures forall x | x in mine :: PieceOf(x, per) == piece
  {
    hide PieceOf;
  }

  /** Blocks asked for in the i-th piece are credited to it alone. */
  lemma CreditOne(list: seq<WeightedPiece>, added: set<nat>, mine: set<nat>, i: nat, per: nat)
    requires 0 < per && i < |list| && NotYet(added, list, i, per)
    requires forall x | x in mine :: PieceOf(x, per) == list[i].index
    requires forall j, k | 0 <= j < k < |list| :: list[j].index != list[k].index
    ensures var c := Credited(list, added, per);
      Credited(list, added + mine, per) == WithMore(c, i, |mine|)
    ensures NotYet(added + mine, list, i + 1, per)
  {
    hide PieceOf;
    assert AddedIn(added + mine, per, list[i].index) == mine && AddedIn(added, per, list[i].index) == {};
    forall j | 0 <= j < |list| && j != i
      ensures AddedIn(added + mine, per, list[j].index) == AddedIn(added, per, list[j].index)
    {
      assert list[j].index != list[i].index;
    }
  }

  /** A block that was not asked for in this round stands as it did before. */
  lemma UntouchedBlock(rs: seq<BlockRequest>, ss: seq<BlockRequest>, peer: nat, now: int, added: set<nat>, b: nat)
    requires Asked(rs, ss, peer, now, added) && b !in added
    ensures Unasked(ss, b) == Unasked(rs, b) && AskedOnce(ss, b) == AskedOnce(rs, b)
    ensures Requested(ss, b, peer) == Requested(rs, b, peer)
  {
    if Requested(ss, b, peer) {
      var i :| 0 <= i < |ss| && ss[i].block == b && ss[i].peer == peer;
      assert ss[i] in rs;
    }
    if Requested(rs, b, peer) {
      var i :| 0 <= i < |rs| && rs[i].block == b && rs[i].peer == peer;
      assert rs[i] in ss;
    }
  }

  lemma AskOne(rs: seq<BlockRequest>, ss: seq<BlockRequest>, tt: seq<BlockRequest>, peer: nat, now: int, added: set<nat>, b: nat)
    requires Asked(rs, ss, peer, now, added)
    requires forall r :: r in tt <==> r in ss || r == BlockRequest(b, peer, now)
    ensures Asked(rs, tt, peer, now, added + {b})
  {
  }

  /** The requests for a block are one group of the table, so counting them tells how many
      peers were asked. */
  lemma GroupTells(rs: seq<BlockRequest>, block: nat, peers: seq<nat>, pos: nat, peer: nat)
    requires SortedReqs(rs) && IsGroup(rs, block, pos, |peers|)
    requires forall i | 0 <= i < |peers| :: peers[i] == rs[pos + i].peer
    ensures peers == [] <==> Unasked(rs, block)
    ensures |peers| <= 1 <==> AskedOnce(rs, block)
    ensures |peers| <= 1 ==> AtMostOne(rs, block)
    ensures |peers| == 1 ==> (peers[0] == peer <==> Requested(rs, block, peer))
    ensures |peers| == 0 ==> !Requested(rs, block, peer)
  {
    assert 0 < |peers| ==> rs[pos] in rs && rs[pos].block == block;
    assert 1 < |peers| ==> CompareReq(rs[pos], rs[pos + 1].block, rs[pos + 1].peer) < 0 && rs[pos + 1] in rs;
    forall r, q | |peers| <= 1 && r in rs && q in rs && r.block == block && q.block == block
      ensures r == q
    {
      var i :| 0 <= i < |rs| && rs[i] == r;
      var j :| 0 <= j < |rs| && rs[j] == q;
    }
  }

  lemma InsertedMembers(rs: seq<BlockRequest>, pos: nat, r: BlockRequest)
    requires pos <= |rs|
    ensures forall q :: q in Inserted(rs, pos, r) <==> q in rs || q == r
  {
    assert rs == rs[..pos] + rs[pos..];
  }

  lemma NothingCovered(env: Progress, rs: seq<BlockRequest>, first: nat)
    ensures CoveredUpTo(env, rs, first, first)
  {
  }

  lemma NothingAsked(r: Round, s: seq<nat>)
    requires 0 < r.per
    ensures InRound(r, r.requests, r.pending, s, 0, []) && Blocks([]) == {}
  {
    NoOutput(s, r.per);
  }

  /** Outside interval mode every block is an entry, so that how fast the peer must be is the
      same for every block of the round. */
  lemma {:induction false} EntriesCount(order: seq<nat>, intervals: bool, per: nat)
    requires 0 < per
    ensures Entries(order, intervals, per) <= |order|
    ensures order != [] ==> 0 < Entries(order, intervals, per)
    ensures !intervals ==> Entries(order, intervals, per) == |order|
  {
    if order != [] {
      EntriesCount(order[..|order| - 1], intervals, per);
    }
  }

  /** Outside the endgame no block is asked of a second peer. */
  lemma OnePeerEach(r: Round, order: seq<nat>)
    requires 0 < r.per && r.endgame == 0 && Justified(r, order)
    ensures forall b | b in order :: Unasked(r.requests, b)
  {
    hide Unasked, AskedOnce, Requested, FastEnough;
  }

  lemma TableFits(intervals: bool, s: seq<nat>, got: nat, added: set<nat>, per: nat)
    requires 0 < per && Output(intervals, s, got, added, per)
    ensures Room(intervals, got) <= |s|
  {
  }

  lemma OutputFits(r: Round, rs: seq<BlockRequest>, pending: int, s: seq<nat>, got: nat, order: seq<nat>)
    requires 0 < r.per && InRound(r, rs, pending, s, got, order)
    ensures Room(r.intervals, got) <= |s|
  {
    hide Justified, Asked, Entries;
  }

  lemma NoneAsked(r: Round, rs: seq<BlockRequest>, pending: int, s: seq<nat>, got: nat, order: seq<nat>)
    requires 0 < r.per && InRound(r, rs, pending, s, got, order)
    ensures got == 0 ==> Blocks(order) == {}
  {
    hide Justified, Asked, Entries, Output;
  }

  lemma AskedTells(r: Round, rs: seq<BlockRequest>, pending: int, s: seq<nat>, got: nat, order: seq<nat>)
    requires 0 < r.per && InRound(r, rs, pending, s, got, order)
    ensures Asked(r.requests, rs, r.peer, r.now, Blocks(order))
  {
  }

  /** The tests of the code are those of the round. */
  lemma StandsAt(r: Round, rs: seq<BlockRequest>, pending: int, s: seq<nat>, got: nat, order: seq<nat>)
    requires 0 < r.per && InRound(r, rs, pending, s, got, order)
    ensures r.endgame <= pending + r.numwant - got <==> FastEnough(r, order)
    ensures Filled(r, s, got, order)
  {
    hide Justified, Asked, Entries, Output;
  }

  lemma OneMoreBlock(order: seq<nat>, b: nat)
    ensures Blocks(order + [b]) == Blocks(order) + {b}
    ensures NoRepeats(order) && b !in order ==> NoRepeats(order + [b])
  {
  }

  lemma OneMoreEntry(order: seq<nat>, b: nat, intervals: bool, per: nat)
    requires 0 < per
    ensures Entries(order + [b], intervals, per)
      == Entries(order, intervals, per) + if intervals && Continues(order, b, per) then 0 else 1
  {
    assert (order + [b])[..|order|] == order;
  }

  /** A block that may be asked for, given what was asked so far, might have been asked for
      at the start of the round. */
  lemma OneMoreJustified(r: Round, rs: seq<BlockRequest>, order: seq<nat>, b: nat)
    requires 0 < r.per && Asked(r.requests, rs, r.peer, r.now, Blocks(order)) && b !in Blocks(order)
    requires Justified(r, order) && MayAsk(r.env, rs, b, r.peer, r.endgame, FastEnough(r, order))
    ensures Justified(r, order + [b])
  {
    UntouchedBlock(r.requests, rs, r.peer, r.now, Blocks(order), b);
    hide Asked, Unasked, AskedOnce, Requested, FastEnough;
    forall i | 0 <= i < |order + [b]|
      ensures MayAsk(r.env, r.requests, (order + [b])[i], r.peer, r.endgame, FastEnough(r, (order + [b])[..i]))
    {
      assert (order + [b])[..i] == order[..i];
      assert order[..|order|] == order;
    }
  }

  lemma AskedIsRequested(r: Round, rs: seq<BlockRequest>, order: seq<nat>, b: nat)
    requires Asked(r.requests, rs, r.peer, r.now, Blocks(order))
    ensures b in order <==> b in Blocks(order)
    ensures b in order ==> Requested(rs, b, r.peer)
  {
    if b in order {
      assert BlockRequest(b, r.peer, r.now) in rs;
    }
  }

  /** Asking for one block more. */
  lemma RoundGoesOn(r: Round, rs: seq<BlockRequest>, ss: seq<BlockRequest>, pending: int, s: seq<nat>, t: seq<nat>,
                    got: nat, more: nat, order: seq<nat>, b: nat)
    requires 0 < r.per && InRound(r, rs, pending, s, got, order) && !Requested(rs, b, r.peer)
    requires MayAsk(r.env, rs, b, r.peer, r.endgame, FastEnough(r, order))
    requires forall q :: q in ss <==> q in rs || q == BlockRequest(b, r.peer, r.now)
    requires Filled(r, t, more, order + [b])
    ensures InRound(r, ss, pending + 1, t, more, order + [b])
  {
    hide MayAsk, Filled, Justified, FastEnough;
    AskedIsRequested(r, rs, order, b);
    OneMoreBlock(order, b);
    OneMoreJustified(r, rs, order, b);
    AskOne(r.requests, rs, ss, r.peer, r.now, Blocks(order), b);
  }

  /** Asking for b, or passing over it because it is there or asked for, covers it. */
  lemma OneMoreCovered(env: Progress, rs: seq<BlockRequest>, ss: seq<BlockRequest>, first: nat, b: nat)
    requires CoveredUpTo(env, rs, first, b) && (forall r | r in rs :: r in ss)
    requires b in env.complete || !Unasked(ss, b)
    ensures CoveredUpTo(env, ss, first, b + 1)
  {
    forall x: nat | first <= x < b && x !in env.complete
      ensures !Unasked(ss, x)
    {
      assert !Unasked(rs, x);
    }
  }

  lemma StaysCovered(env: Progress, base: seq<BlockRequest>, rs: seq<BlockRequest>, ss: seq<BlockRequest>, peer: nat, now: int,
                     was: set<nat>, added: set<nat>)
    requires 0 < env.tor.blockSize && 0 < env.tor.pieceSize
    requires Asked(base, rs, peer, now, was) && Asked(base, ss, peer, now, added) && was <= added
    ensures forall piece: nat :: Covered(env, rs, piece) ==> Covered(env, ss, piece)
  {
    forall b | !Unasked(rs, b)
      ensures !Unasked(ss, b)
    {
      var r :| r in rs && r.block == b;
      assert r in ss;
    }
    hide Unasked, Asked, Torrent.PieceFirst, Torrent.PieceLast;
  }

  /** The blocks asked for are in listed pieces that the peer has. */
  ghost predicate ChosenFrom(added: set<nat>, list: seq<WeightedPiece>, have: set<nat>, per: nat)
    requires 0 < per
  {
    forall x | x in added :: exists p :: p in list && p.index in have && p.index == PieceOf(x, per)
  }

  /** Nothing is left to ask for in the listed pieces that the peer has. */
  ghost predicate CoveredIn(env: Progress, rs: seq<BlockRequest>, list: seq<WeightedPiece>, have: set<nat>)
    requires 0 < env.tor.blockSize && 0 < env.tor.pieceSize
  {
    forall p | p in list && p.index in have :: Covered(env, rs, p.index)
  }

  lemma NoneChosen(env: Progress, rs: seq<BlockRequest>, list: seq<WeightedPiece>, have: set<nat>, per: nat)
    requires 0 < per && 0 < env.tor.blockSize && 0 < env.tor.pieceSize
    ensures NotYet({}, list, 0, per) && ChosenFrom({}, list[..0], have, per) && CoveredIn(env, rs, list[..0], have)
  {
  }

  lemma NotInPiece(added: set<nat>, list: seq<WeightedPiece>, i: nat, per: nat)
    requires 0 < per && i < |list| && NotYet(added, list, i, per)
    ensures forall x | x in added :: PieceOf(x, per) != list[i].index
    ensures NotYet(added, list, i + 1, per)
  {
    hide PieceOf;
  }

  /** After asking in the i-th piece. */
  lemma AskedInPiece(env: Progress, base: seq<BlockRequest>, rs: seq<BlockRequest>, ss: seq<BlockRequest>, peer: nat, now: int,
                     added: set<nat>, mine: set<nat>, list: seq<WeightedPiece>, i: nat, have: set<nat>, per: nat)
    requires 0 < per && 0 < env.tor.blockSize && 0 < env.tor.pieceSize && i < |list| && list[i].index in have
    requires Asked(base, rs, peer, now, added) && Asked(base, ss, peer, now, added + mine)
    requires forall x | x in mine :: PieceOf(x, per) == list[i].index
    requires ChosenFrom(added, list[..i], have, per)
    ensures ChosenFrom(added + mine, list[..i + 1], have, per)
    ensures CoveredIn(env, rs, list[..i], have) ==> CoveredIn(env, ss, list[..i], have)
    ensures CoveredIn(env, rs, list[..i], have) && Covered(env, ss, list[i].index) ==> CoveredIn(env, ss, list[..i + 1], have)
  {
    hide PieceOf, Asked, Covered;
    StaysCovered(env, base, rs, ss, peer, now, added, added + mine);
    assert list[..i + 1] == list[..i] + [list[i]];
    assert list[i] in list[..i + 1];
  }

  /** After passing over the i-th piece. */
  lemma NothingToAsk(env: Progress, rs: seq<BlockRequest>, added: set<nat>, list: seq<WeightedPiece>, i: nat, have: set<nat>, per: nat)
    requires 0 < per && 0 < env.tor.blockSize && 0 < env.tor.pieceSize && i < |list| && list[i].index !in have
    ensures ChosenFrom(added, list[..i], have, per) ==> ChosenFrom(added, list[..i + 1], have, per)
    ensures CoveredIn(env, rs, list[..i], have) ==> CoveredIn(env, rs, list[..i + 1], have)
  {
    hide PieceOf, Covered;
    assert list[..i + 1] == list[..i] + [list[i]];
  }

  lemma ChosenFromMore(added: set<nat>, list: seq<WeightedPiece>, i: nat, have: set<nat>, per: nat)
    requires 0 < per && i <= |list| && ChosenFrom(added, list[..i], have, per)
    ensures ChosenFrom(added, list, have, per)
  {
    hide PieceOf;
    assert forall p | p in list[..i] :: p in list;
  }

  /** When a block of some listed piece was asked for, nothing is left to ask for in the pieces
      before it. */
  ghost predicate FrontFirst(env: Progress, rs: seq<BlockRequest>, list: seq<WeightedPiece>, have: set<nat>, added: set<nat>, per: nat)
    requires 0 < per && 0 < env.tor.blockSize && 0 < env.tor.pieceSize
  {
    forall i, j, x | 0 <= i < j < |list| && x in added && PieceOf(x, per) == list[j].index && list[i].index in have ::
      Covered(env, rs, list[i].index)
  }

  lemma FrontGoesFirst(env: Progress, rs: seq<BlockRequest>, list: seq<WeightedPiece>, have: set<nat>, added: set<nat>, per: nat, n: nat)
    requires 0 < per && 0 < env.tor.blockSize && 0 < env.tor.pieceSize && n <= |list|
    requires ChosenFrom(added, list[..n], have, per) && (0 < n ==> CoveredIn(env, rs, list[..n - 1], have))
    requires forall i, j | 0 <= i < j < |list| :: list[i].index != list[j].index
    ensures FrontFirst(env, rs, list, have, added, per)
  {
    hide PieceOf, Covered;
    forall i, j, x | 0 <= i < j < |list| && x in added && PieceOf(x, per) == list[j].index && list[i].index in have
      ensures Covered(env, rs, list[i].index)
    {
      var p :| p in list[..n] && p.index in have && p.index == PieceOf(x, per);
      var k :| 0 <= k < n && list[..n][k] == p;
      assert k == j;
      assert list[..n - 1][i] == list[i];
    }
  }

  lemma SuffixInOrder(env: Progress, s: seq<WeightedPiece>, i: nat)
    requires env.tor.Valid() && i <= |s| && InOrder(env, s)
    ensures InOrder(env, s[i..])
  {
    hide CompareByWeight, Torrent.Valid;
  }
}
