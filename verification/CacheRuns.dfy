/** The values behind cache.c: sorted lists of dirty blocks, the runs they fall into,
    what flushing runs out of order does to the list, and what lookups and stores do to
    the view a reader has. */
module CacheRuns {
  import opened Geometry
  import opened Storage
  import opened Overlays
  import opened PtrArrays
  import Search

  /** What the cache asks of the rest of the program: the clock, and which
      (torrent, piece) pairs are complete. */
  datatype Env = Env(now: int, complete: set<(nat, nat)>)

  /** struct run_info */
  datatype RunInfo = RunInfo(
    pos: nat, len: nat, rank: int, lastBlockTime: int, isMultiPiece: bool, isPieceDone: bool)

  const MULTIFLAG := 0x1000
  const DONEFLAG := 0x2000
  const SESSIONFLAG := 0x4000

  /** `rank | flag` for a power of two, on any two's-complement rank. */
  function OrFlag(rank: int, flag: int): int
    requires 0 < flag
  {
    if (rank / flag) % 2 == 1 then rank else rank + flag
  }

  /** C division, which truncates toward zero. */
  function TruncDiv(a: int, b: int): int
    requires 0 < b
  {
    if 0 <= a then a / b else -((-a) / b)
  }

  /** Setting a flag sets that one bit: the digits above it and below it stay. */
  lemma FlagIsOneBit(rank: int, flag: int)
    requires 0 < flag
    ensures OrFlag(rank, flag) / flag == 2 * (rank / flag / 2) + 1 && OrFlag(rank, flag) % flag == rank % flag
  {
    var q := rank / flag;
    DivBounds(rank, flag);
    assert flag * (q + 1) == flag * q + flag;
    DivIsUnique(rank + flag, flag, q + 1);
    assert (rank + flag) % flag == rank + flag - flag * (q + 1) && rank % flag == rank - flag * q;
  }

  /** What is left over of a division in C has the sign of what was divided. */
  lemma TruncatesTowardZero(a: int)
    ensures 0 <= a ==> 32 * TruncDiv(a, 32) <= a < 32 * TruncDiv(a, 32) + 32
    ensures a <= 0 ==> 32 * TruncDiv(a, 32) - 32 < a <= 32 * TruncDiv(a, 32)
  {
  }

  // ----- order of the blocks -----

  /** cache_block_compare against the key (torrent id, block). */
  function Compare(b: CacheBlock, id: nat, block: nat): int
  {
    if b.tor.uniqueId != id then (if b.tor.uniqueId < id then -1 else 1)
    else if b.block != block then (if b.block < block then -1 else 1)
    else 0
  }

  ghost predicate Sorted(bs: seq<CacheBlock>)
  {
    forall i, j | 0 <= i < j < |bs| :: Compare(bs[i], bs[j].tor.uniqueId, bs[j].block) < 0
  }

  /** The torrent is one of the session's. */
  ghost predicate Known(tor: Torrent, torrents: map<nat, Torrent>)
  {
    tor.uniqueId in torrents && torrents[tor.uniqueId] == tor && tor.Valid()
  }

  /** (piece, offset) is the start of `block`, whose bytes number `length`. */
  ghost predicate AtBlock(tor: Torrent, piece: nat, offset: nat, length: nat, block: nat)
  {
    && tor.Valid()
    && piece < tor.PieceCount() && block < tor.BlockCount()
    && tor.PieceOffset(piece, offset) == tor.blockSize * block
    && length == tor.BlockBytes(block)
  }

  ghost predicate WellFormed(b: CacheBlock, torrents: map<nat, Torrent>)
  {
    Known(b.tor, torrents) && |b.data| == b.length && AtBlock(b.tor, b.piece, b.offset, b.length, b.block)
  }

  ghost predicate AllWellFormed(bs: seq<CacheBlock>, torrents: map<nat, Torrent>)
  {
    Sorted(bs) && forall i | 0 <= i < |bs| :: WellFormed(bs[i], torrents)
  }

  lemma WellFormedIsLaid(bs: seq<CacheBlock>, torrents: map<nat, Torrent>)
    requires AllWellFormed(bs, torrents)
    ensures Laid(bs)
    ensures forall i | 0 <= i < |bs| :: End(bs[i]) <= bs[i].tor.totalSize
  {
    forall i, j | 0 <= i < j < |bs| && bs[i].tor == bs[j].tor
      ensures End(bs[i]) <= Start(bs[j])
    {
      assert WellFormed(bs[i], torrents) && WellFormed(bs[j], torrents);
      BlocksDisjoint(bs[i].tor, bs[i].block, bs[j].block);
    }
    forall i | 0 <= i < |bs|
      ensures End(bs[i]) <= bs[i].tor.totalSize
    {
      assert WellFormed(bs[i], torrents);
      BlockRange(bs[i].tor, bs[i].block);
    }
  }

  /** An aligned address names its block. */
  lemma AtBlockNames(tor: Torrent, piece: nat, offset: nat, length: nat, block: nat)
    requires AtBlock(tor, piece, offset, length, block)
    ensures tor.BlockOf(piece, offset) == block
    ensures 0 < length <= MAX_BLOCK_SIZE && tor.PieceOffset(piece, offset) + length <= tor.totalSize
  {
    BlockRange(tor, block);
    BlockOfIsFlat(tor, piece, offset);
    DivIsUnique(tor.PieceOffset(piece, offset), tor.blockSize, block);
  }

  // ----- runs -----

  ghost predicate Contiguous(bs: seq<CacheBlock>, pos: nat, n: nat)
  {
    && 0 < n && pos + n <= |bs|
    && forall i | pos <= i < pos + n :: bs[i].tor == bs[pos].tor && bs[i].block == bs[pos].block + (i - pos)
  }

  lemma ContiguousAbuts(bs: seq<CacheBlock>, torrents: map<nat, Torrent>, pos: nat, n: nat)
    requires AllWellFormed(bs, torrents) && Contiguous(bs, pos, n)
    ensures Abuts(bs, pos, n)
    ensures Start(bs[pos]) + |RunData(bs, pos, n)| <= bs[pos].tor.totalSize
  {
    forall i, j | pos <= i && j == i + 1 < pos + n
      ensures End(bs[i]) == Start(bs[j])
    {
      assert WellFormed(bs[i], torrents) && WellFormed(bs[j], torrents);
      BlockRange(bs[i].tor, bs[i].block);
    }
    RunDataEnds(bs, pos, n);
    WellFormedIsLaid(bs, torrents);
  }

  /** The run at `pos` cannot be extended to the right. */
  ghost predicate StopsAt(bs: seq<CacheBlock>, pos: nat, n: nat)
    requires 0 < n && pos + n <= |bs|
  {
    pos + n < |bs| ==> bs[pos + n].tor != bs[pos].tor || bs[pos + n].block != bs[pos].block + n
  }

  function SumLens(rs: seq<RunInfo>): nat
  {
    if rs == [] then 0 else SumLens(rs[..|rs| - 1]) + rs[|rs| - 1].len
  }

  /** Each of `rs` is a contiguous run of `bs`, and no two share a position. */
  ghost predicate DisjointRuns(bs: seq<CacheBlock>, rs: seq<RunInfo>)
  {
    && (forall i | 0 <= i < |rs| :: Contiguous(bs, rs[i].pos, rs[i].len))
    && (forall i, j | 0 <= i < |rs| && 0 <= j < |rs| && i != j ::
          rs[i].pos + rs[i].len <= rs[j].pos || rs[j].pos + rs[j].len <= rs[i].pos)
  }

  /** A run that could be longer at neither end. */
  ghost predicate MaximalRun(bs: seq<CacheBlock>, r: RunInfo)
  {
    && Contiguous(bs, r.pos, r.len) && StopsAt(bs, r.pos, r.len)
    && (0 < r.pos ==> bs[r.pos - 1].tor != bs[r.pos].tor || bs[r.pos - 1].block + 1 != bs[r.pos].block)
  }

  ghost predicate MaximalRuns(bs: seq<CacheBlock>, rs: seq<RunInfo>)
  {
    forall i | 0 <= i < |rs| :: MaximalRun(bs, rs[i])
  }

  /** What getBlockRun and calcRuns record about a run. */
  ghost predicate Describes(bs: seq<CacheBlock>, r: RunInfo, env: Env)
    requires 0 < r.len && r.pos + r.len <= |bs|
  {
    var last := bs[r.pos + r.len - 1];
    && r.lastBlockTime == last.time
    && (r.isPieceDone <==> (last.tor.uniqueId, last.piece) in env.complete)
    && (r.isMultiPiece <==> last.piece != bs[r.pos].piece)
    && r.rank == Rank(r, env)
  }

  /** The ranking of calcRuns: longer and staler runs rank higher, runs that cross a
      piece above all those, and runs of complete pieces above everything. */
  function Rank(r: RunInfo, env: Env): int
  {
    var age := r.len + TruncDiv(env.now - r.lastBlockTime, 32);
    var done := if r.isPieceDone then OrFlag(age, DONEFLAG) else age;
    if r.isMultiPiece then OrFlag(done, MULTIFLAG) else done
  }

  /** calcRuns' result: all positions partitioned into maximal runs, highest rank first. */
  ghost predicate IsRunList(bs: seq<CacheBlock>, rs: seq<RunInfo>, env: Env)
  {
    && DisjointRuns(bs, rs) && MaximalRuns(bs, rs)
    && SumLens(rs) == |bs|
    && (forall i | 0 <= i < |rs| :: Describes(bs, rs[i], env))
    && forall i, j | 0 <= i < j < |rs| :: rs[j].rank <= rs[i].rank
  }

  ghost function BlocksOf(bs: seq<CacheBlock>, r: RunInfo): seq<CacheBlock>
    requires r.pos + r.len <= |bs|
  {
    bs[r.pos..r.pos + r.len]
  }

  /** All the blocks that runs of `bs` name. */
  ghost function Named(bs: seq<CacheBlock>, rs: seq<RunInfo>): set<CacheBlock>
    requires forall i | 0 <= i < |rs| :: rs[i].pos + rs[i].len <= |bs|
  {
    if rs == [] then {}
    else Named(bs, rs[..|rs| - 1]) + Search.Elems(BlocksOf(bs, rs[|rs| - 1]))
  }

  /** `cs` is `bs` less the blocks the runs `rs` named in it. */
  ghost predicate Dropped(bs: seq<CacheBlock>, cs: seq<CacheBlock>, rs: seq<RunInfo>)
    requires forall i | 0 <= i < |rs| :: rs[i].pos + rs[i].len <= |bs|
  {
    forall b :: b in cs <==> b in bs && b !in Named(bs, rs)
  }

  // ----- flushing runs out of order -----

  ghost predicate Overlaps(r: RunInfo, s: RunInfo)
  {
    s.pos < r.pos + r.len && r.pos < s.pos + s.len
  }

  /** Where a run ends up when the blocks of `gone` are erased. */
  function Renumbered(r: RunInfo, gone: RunInfo): RunInfo
  {
    if gone.pos < r.pos && gone.len <= r.pos then r.(pos := r.pos - gone.len) else r
  }

  /** With the first i of the runs flushed: bs is the cache at the start and rs the runs then;
      cs and qs are the cache and the runs now.  The runs still to come name the same
      blocks as at the start. */
  ghost predicate Pending(bs: seq<CacheBlock>, rs: seq<RunInfo>, cs: seq<CacheBlock>, qs: seq<RunInfo>, i: nat)
  {
    && i <= |rs| == |qs|
    && DisjointRuns(bs, rs)
    && (forall j, k | i <= j < |qs| && i <= k < |qs| && j != k :: !Overlaps(qs[j], qs[k]))
    && (forall j | i <= j < |qs| :: qs[j].pos + qs[j].len <= |cs| && qs[j].len == rs[j].len)
    && (forall j | i <= j < |qs| :: BlocksOf(cs, qs[j]) == BlocksOf(bs, rs[j]))
    && Dropped(bs, cs, rs[..i])
    && |cs| + SumLens(rs[..i]) == |bs|
  }

  lemma PendingStarts(bs: seq<CacheBlock>, rs: seq<RunInfo>)
    requires DisjointRuns(bs, rs)
    ensures Pending(bs, rs, bs, rs, 0)
  {
    RunsNonempty(bs, rs);
    hide Contiguous;
  }

  lemma WellFormedIsSorted(bs: seq<CacheBlock>, torrents: map<nat, Torrent>)
    requires AllWellFormed(bs, torrents)
    ensures Sorted(bs)
  {
    hide WellFormed, Sorted;
  }

  /** The next run to flush is a run of the cache as it is now. */
  lemma PendingRun(bs: seq<CacheBlock>, rs: seq<RunInfo>, cs: seq<CacheBlock>, qs: seq<RunInfo>, i: nat)
    requires Pending(bs, rs, cs, qs, i) && i < |qs|
    ensures Contiguous(cs, qs[i].pos, qs[i].len)
    ensures forall j | i < j < |qs| && qs[i].pos < qs[j].pos :: qs[i].len <= qs[j].pos
  {
    hide Dropped, SumLens;
    RunsNonempty(bs, rs);
    SameSlice(bs, rs[i], cs, qs[i]);
    assert forall j | i < j < |qs| :: !Overlaps(qs[i], qs[j]);
  }

  lemma SameSlice(bs: seq<CacheBlock>, r: RunInfo, cs: seq<CacheBlock>, q: RunInfo)
    requires Contiguous(bs, r.pos, r.len) && q.len == r.len && q.pos + q.len <= |cs|
    requires BlocksOf(cs, q) == BlocksOf(bs, r)
    ensures Contiguous(cs, q.pos, q.len)
  {
    assert cs[q.pos] == BlocksOf(cs, q)[0] == bs[r.pos];
    forall k | q.pos <= k < q.pos + q.len
      ensures cs[k].tor == cs[q.pos].tor && cs[k].block == cs[q.pos].block + (k - q.pos)
    {
      assert cs[k] == BlocksOf(cs, q)[k - q.pos] == BlocksOf(bs, r)[k - q.pos];
    }
  }

  /** Erasing one run moves the blocks of another, if at all, to its new place. */
  lemma SliceMoves(cs: seq<CacheBlock>, g: RunInfo, q: RunInfo)
    requires 0 < g.len && 0 < q.len && !Overlaps(g, q)
    requires g.pos + g.len <= |cs| && q.pos + q.len <= |cs|
    ensures var q', ds := Renumbered(q, g), Without(cs, g.pos, g.len);
      q'.pos + q'.len <= |ds| && BlocksOf(ds, q') == BlocksOf(cs, q)
  {
    var ds := Without(cs, g.pos, g.len);
    if g.pos < q.pos {
      assert ds[q.pos - g.len..q.pos - g.len + q.len] == cs[q.pos..q.pos + q.len];
    } else {
      assert ds[q.pos..q.pos + q.len] == cs[q.pos..q.pos + q.len];
    }
  }

  lemma PendingStep(bs: seq<CacheBlock>, rs: seq<RunInfo>, cs: seq<CacheBlock>, qs: seq<RunInfo>, qs': seq<RunInfo>, i: nat)
    requires Pending(bs, rs, cs, qs, i) && i < |qs| == |qs'| && Sorted(cs)
    requires forall j | i < j < |qs| :: qs'[j] == Renumbered(qs[j], qs[i])
    ensures Pending(bs, rs, Without(cs, qs[i].pos, qs[i].len), qs', i + 1)
  {
    hide Contiguous, Sorted, Dropped, SumLens, BlocksOf;
    var g, ds := qs[i], Without(cs, qs[i].pos, qs[i].len);
    RunsNonempty(bs, rs);
    forall j | i < j < |qs|
      ensures qs'[j].pos + qs'[j].len <= |ds| && BlocksOf(ds, qs'[j]) == BlocksOf(cs, qs[j])
    {
      SliceMoves(cs, g, qs[j]);
    }
    forall j, k | i < j < |qs| && i < k < |qs| && j != k
      ensures !Overlaps(qs'[j], qs'[k])
    {
      assert !Overlaps(g, qs[j]) && !Overlaps(g, qs[k]) && !Overlaps(qs[j], qs[k]);
    }
    DroppedStep(bs, rs, cs, g, i);
    SumLensStep(rs, i);
  }

  lemma RunsNonempty(bs: seq<CacheBlock>, rs: seq<RunInfo>)
    requires DisjointRuns(bs, rs)
    ensures forall j | 0 <= j < |rs| :: 0 < rs[j].len && rs[j].pos + rs[j].len <= |bs|
  {
  }

  lemma SumLensStep(rs: seq<RunInfo>, i: nat)
    requires i < |rs|
    ensures SumLens(rs[..i + 1]) == SumLens(rs[..i]) + rs[i].len
  {
    assert rs[..i + 1][..i] == rs[..i];
  }

  lemma SortedIsDistinct(bs: seq<CacheBlock>, i: nat, j: nat)
    requires Sorted(bs) && i < |bs| && j < |bs| && i != j
    ensures bs[i] != bs[j]
  {
    assert i < j ==> Compare(bs[i], bs[j].tor.uniqueId, bs[j].block) < 0;
    assert j < i ==> Compare(bs[j], bs[i].tor.uniqueId, bs[i].block) < 0;
  }

  /** In a sorted list, erasing positions erases exactly the blocks there. */
  lemma WithoutMembers(cs: seq<CacheBlock>, g: RunInfo)
    requires Sorted(cs) && g.pos + g.len <= |cs|
    ensures forall b :: b in Without(cs, g.pos, g.len) <==> b in cs && b !in BlocksOf(cs, g)
  {
    hide Sorted;
    var left, gone := Without(cs, g.pos, g.len), BlocksOf(cs, g);
    forall b | b in cs
      ensures b in left || b in gone
    {
      var k :| 0 <= k < |cs| && cs[k] == b;
      assert g.pos <= k < g.pos + g.len ==> gone[k - g.pos] == b;
      assert k < g.pos ==> left[k] == b;
      assert g.pos + g.len <= k ==> left[k - g.len] == b;
    }
    forall i, j | 0 <= i < |left| && 0 <= j < |gone|
      ensures left[i] in cs && left[i] != gone[j]
    {
      var k := if i < g.pos then i else i + g.len;
      assert left[i] == cs[k] && gone[j] == cs[g.pos + j];
      SortedIsDistinct(cs, k, g.pos + j);
    }
  }

  lemma DroppedStep(bs: seq<CacheBlock>, rs: seq<RunInfo>, cs: seq<CacheBlock>, g: RunInfo, i: nat)
    requires i < |rs| && Sorted(cs) && g.pos + g.len <= |cs|
    requires forall j | 0 <= j < |rs| :: rs[j].pos + rs[j].len <= |bs|
    requires Dropped(bs, cs, rs[..i]) && BlocksOf(cs, g) == BlocksOf(bs, rs[i])
    ensures Dropped(bs, Without(cs, g.pos, g.len), rs[..i + 1])
  {
    WithoutMembers(cs, g);
    hide Sorted, BlocksOf, Without;
    assert rs[..i + 1][..i] == rs[..i];
  }

  lemma PendingEnds(bs: seq<CacheBlock>, rs: seq<RunInfo>, cs: seq<CacheBlock>, qs: seq<RunInfo>, i: nat)
    ensures Pending(bs, rs, cs, qs, i) && i == |rs| ==>
      && (forall j | 0 <= j < |rs| :: rs[j].pos + rs[j].len <= |bs|)
      && Dropped(bs, cs, rs) && |cs| + SumLens(rs) == |bs|
  {
    hide Dropped, SumLens;
    assert i == |rs| ==> rs[..i] == rs;
  }

  function CacheCutoff(maxBlocks: nat): nat
  {
    1 + maxBlocks / 4
  }

  /** Trimming dropped the n highest-ranked runs: more than a quarter of the limit went, and
      without the last of them no more than a quarter would have. */
  ghost predicate TrimmedTo(bs: seq<CacheBlock>, cs: seq<CacheBlock>, rs: seq<RunInfo>, n: nat, env: Env, maxBlocks: int)
  {
    && IsRunList(bs, rs, env) && 0 < n <= |rs|
    && 4 * SumLens(rs[..n - 1]) <= maxBlocks < 4 * SumLens(rs[..n])
    && Dropped(bs, cs, rs[..n])
  }

  /** Of two runs without flags that are of one age the longer outranks the other, and of two of
      one length the one that is staler by 32 seconds or more. */
  lemma LongerOutranks(q: RunInfo, r: RunInfo, env: Env)
    requires !IsFlagged(q) && !IsFlagged(r)
    ensures q.lastBlockTime == r.lastBlockTime ==> (r.len < q.len <==> Rank(r, env) < Rank(q, env))
    ensures q.lastBlockTime + 32 <= r.lastBlockTime <= env.now && q.len == r.len ==> Rank(r, env) < Rank(q, env)
    ensures q.lastBlockTime <= r.lastBlockTime && r.len <= q.len ==> Rank(r, env) <= Rank(q, env)
  {
  }

  lemma PrefixDisjoint(bs: seq<CacheBlock>, rs: seq<RunInfo>, n: nat)
    requires DisjointRuns(bs, rs) && n <= |rs|
    ensures DisjointRuns(bs, rs[..n])
    ensures forall i | 0 <= i < |rs| :: rs[i].pos + rs[i].len <= |bs|
  {
  }

  predicate IsFlagged(r: RunInfo)
  {
    r.isPieceDone || r.isMultiPiece
  }

  /** Flushing the done runs dropped the longest flagged prefix of the ranked runs. */
  ghost predicate FlushedDone(bs: seq<CacheBlock>, cs: seq<CacheBlock>, rs: seq<RunInfo>, n: nat, env: Env)
  {
    && IsRunList(bs, rs, env) && n <= |rs|
    && (forall k | 0 <= k < n :: IsFlagged(rs[k]))
    && (n < |rs| ==> !IsFlagged(rs[n]))
    && Dropped(bs, cs, rs[..n])
  }

  /** The leading flagged runs can be flushed, and that is what tr_cacheFlushDone does. */
  lemma DoneRuns(bs: seq<CacheBlock>, rs: seq<RunInfo>, n: nat, env: Env)
    requires IsRunList(bs, rs, env) && n <= |rs|
    requires (forall k | 0 <= k < n :: IsFlagged(rs[k])) && (n < |rs| ==> !IsFlagged(rs[n]))
    ensures DisjointRuns(bs, rs[..n]) && forall i | 0 <= i < |rs| :: rs[i].pos + rs[i].len <= |bs|
    ensures forall cs | Dropped(bs, cs, rs[..n]) :: FlushedDone(bs, cs, rs, n, env)
  {
    PrefixDisjoint(bs, rs, n);
    hide Describes, Named, MaximalRuns, Contiguous;
  }

  lemma NothingDone(bs: seq<CacheBlock>, env: Env)
    ensures bs == [] ==> FlushedDone(bs, bs, [], 0, env)
  {
  }

  /** Runs with other ranks name the same blocks. */
  lemma {:induction false} ReRanked(bs: seq<CacheBlock>, rs: seq<RunInfo>, qs: seq<RunInfo>)
    requires |qs| == |rs| && forall k | 0 <= k < |rs| :: qs[k] == rs[k].(rank := qs[k].rank)
    requires forall k | 0 <= k < |rs| :: rs[k].pos + rs[k].len <= |bs|
    ensures DisjointRuns(bs, rs) ==> DisjointRuns(bs, qs)
    ensures SumLens(qs) == SumLens(rs) && Named(bs, qs) == Named(bs, rs)
  {
    hide Contiguous;
    if rs != [] {
      ReRanked(bs, rs[..|rs| - 1], qs[..|rs| - 1]);
    }
  }

  lemma ReRankedDrops(bs: seq<CacheBlock>, cs: seq<CacheBlock>, rs: seq<RunInfo>, qs: seq<RunInfo>)
    requires |qs| == |rs| && forall k | 0 <= k < |rs| :: qs[k] == rs[k].(rank := qs[k].rank)
    requires forall k | 0 <= k < |rs| :: rs[k].pos + rs[k].len <= |bs|
    requires Dropped(bs, cs, qs)
    ensures Dropped(bs, cs, rs)
  {
    ReRanked(bs, rs, qs);
  }

  /** bs[k] belongs to a contiguous run with some block no later than `last`, from `pos` on. */
  ghost predicate RunsOn(bs: seq<CacheBlock>, pos: nat, k: nat, last: int)
  {
    exists j :: pos <= j <= k && Contiguous(bs, j, k - j + 1) && bs[j].block <= last
  }

  /** What is left after flushing the blocks of `tor` in [first, last] and whatever runs on
      from them: nothing in the range, everything of any other torrent or before the range,
      and what comes after it but for the rest of a run that begins in it. */
  ghost predicate RangeGone(bs: seq<CacheBlock>, cs: seq<CacheBlock>, tor: Torrent, first: nat, last: int)
  {
    && (forall b | b in cs :: b in bs && !(b.tor == tor && first <= b.block <= last))
    && (forall b | b in bs && (b.tor != tor || b.block < first) :: b in cs)
    && (forall k | 0 <= k < |bs| && bs[k] !in cs :: RunsOn(bs, 0, k, last))
  }

  ghost predicate AllRunOn(bs: seq<CacheBlock>, pos: nat, m: nat, last: int)
  {
    m <= |bs| && forall k | pos <= k < m :: RunsOn(bs, pos, k, last)
  }

  /** `cs` is `bs` without its blocks from pos up to m, all of `tor` and each run on from one
      no later than `last`. */
  ghost predicate Emptied(bs: seq<CacheBlock>, cs: seq<CacheBlock>, tor: Torrent, pos: nat, m: nat, last: int)
  {
    && pos <= m <= |bs| && cs == bs[..pos] + bs[m..]
    && AllRunOn(bs, pos, m, last)
    && (forall k | pos <= k < m :: bs[k].tor == tor)
  }

  lemma NothingEmptied(bs: seq<CacheBlock>, tor: Torrent, first: nat, pos: nat, last: int)
    requires SplitsAt(bs, tor.uniqueId, first, pos)
    ensures pos <= |bs| && Emptied(bs, bs, tor, pos, pos, last)
  {
  }

  lemma EmptiedMore(bs: seq<CacheBlock>, cs: seq<CacheBlock>, tor: Torrent, pos: nat, m: nat, n: nat, last: int)
    requires Emptied(bs, cs, tor, pos, m, last) && Contiguous(cs, pos, n)
    requires cs[pos].tor == tor && cs[pos].block <= last
    ensures Emptied(bs, cs[..pos] + cs[pos + n..], tor, pos, m + n, last)
  {
    MovedRun(bs, cs, pos, m, n);
    RunOnStep(bs, pos, m, n, last);
    hide AllRunOn, Contiguous;
  }

  lemma GoneRunOn(bs: seq<CacheBlock>, pos: nat, m: nat, last: int)
    requires AllRunOn(bs, pos, m, last) && pos <= m
    ensures forall k | 0 <= k < |bs| && bs[k] !in bs[..pos] + bs[m..] :: RunsOn(bs, 0, k, last)
  {
    hide Contiguous;
    var cs := bs[..pos] + bs[m..];
    forall k | 0 <= k < |bs| && (k < pos || m <= k)
      ensures bs[k] in cs
    {
      assert bs[k] == cs[if k < pos then k else pos + (k - m)];
    }
    forall k | pos <= k < m
      ensures RunsOn(bs, 0, k, last)
    {
      assert RunsOn(bs, pos, k, last);
    }
  }

  /** A run of what is left after a stretch was erased is a run of what there was. */
  lemma MovedRun(bs: seq<CacheBlock>, cs: seq<CacheBlock>, pos: nat, m: nat, n: nat)
    requires pos <= m <= |bs| && cs == bs[..pos] + bs[m..] && Contiguous(cs, pos, n)
    ensures m + n <= |bs| && bs[m] == cs[pos] && Contiguous(bs, m, n)
    ensures forall k | m <= k < m + n :: bs[k].tor == cs[pos].tor
    ensures cs[..pos] + cs[pos + n..] == bs[..pos] + bs[m + n..]
  {
    assert forall k | m <= k < |bs| :: bs[k] == cs[pos + (k - m)];
  }

  lemma RunOnStep(bs: seq<CacheBlock>, pos: nat, m: nat, n: nat, last: int)
    requires AllRunOn(bs, pos, m, last) && pos <= m && Contiguous(bs, m, n) && bs[m].block <= last
    ensures AllRunOn(bs, pos, m + n, last)
  {
    forall k | m <= k < m + n
      ensures RunsOn(bs, pos, k, last)
    {
      assert Contiguous(bs, m, k - m + 1);
    }
  }

  /** Torrent ids tell torrents apart. */
  lemma IdsAreTorrents(bs: seq<CacheBlock>, torrents: map<nat, Torrent>, tor: Torrent)
    requires AllWellFormed(bs, torrents) && Known(tor, torrents)
    ensures forall i | 0 <= i < |bs| :: bs[i].tor == tor <==> bs[i].tor.uniqueId == tor.uniqueId
  {
    hide AtBlock;
  }

  lemma BlockNumbersInRange(bs: seq<CacheBlock>, torrents: map<nat, Torrent>)
    requires AllWellFormed(bs, torrents)
    ensures forall i | 0 <= i < |bs| :: 0 < bs[i].tor.blockSize && bs[i].block < bs[i].tor.BlockCount()
  {
    assert forall i | 0 <= i < |bs| :: WellFormed(bs[i], torrents);
  }

  lemma RangeIsGone(bs: seq<CacheBlock>, pos: nat, m: nat, tor: Torrent, first: nat, last: int)
    requires Sorted(bs) && SplitsAt(bs, tor.uniqueId, first, pos) && pos <= m <= |bs|
    requires forall i | 0 <= i < |bs| :: bs[i].tor == tor <==> bs[i].tor.uniqueId == tor.uniqueId
    requires forall k | pos <= k < m :: bs[k].tor == tor
    requires m < |bs| ==> !(bs[m].tor == tor && first <= bs[m].block <= last)
    requires AllRunOn(bs, pos, m, last)
    ensures RangeGone(bs, bs[..pos] + bs[m..], tor, first, last)
  {
    hide Contiguous, Sorted, SplitsAt, AllRunOn, RunsOn;
    var cs := bs[..pos] + bs[m..];
    GoneRunOn(bs, pos, m, last);
    forall i | 0 <= i < |cs|
      ensures cs[i] in bs && !(cs[i].tor == tor && first <= cs[i].block <= last)
    {
      LeftOutside(bs, pos, m, tor, first, last, if i < pos then i else m + (i - pos));
    }
    forall k | 0 <= k < |bs| && (bs[k].tor != tor || bs[k].block < first)
      ensures bs[k] in cs
    {
      InRangeAfter(bs, pos, tor, first, k);
      assert cs[if k < pos then k else pos + (k - m)] == bs[k];
    }
  }

  /** The end of tr_cacheFlushFile and tr_cacheFlushTorrent: the walk met a block outside. */
  lemma FlushedFrom(bs: seq<CacheBlock>, cs: seq<CacheBlock>, torrents: map<nat, Torrent>, pos: nat, m: nat,
                    tor: Torrent, first: nat, last: int)
    requires AllWellFormed(bs, torrents) && Known(tor, torrents) && SplitsAt(bs, tor.uniqueId, first, pos)
    requires Emptied(bs, cs, tor, pos, m, last)
    requires pos < |cs| ==> !(cs[pos].tor == tor && first <= cs[pos].block <= last)
    ensures RangeGone(bs, cs, tor, first, last)
  {
    WellFormedIsSorted(bs, torrents);
    IdsAreTorrents(bs, torrents, tor);
    hide AllWellFormed, Known, AllRunOn, RangeGone, SplitsAt, Sorted;
    assert m < |bs| ==> cs[pos] == bs[m];
    RangeIsGone(bs, pos, m, tor, first, last);
  }

  lemma InRangeAfter(bs: seq<CacheBlock>, pos: nat, tor: Torrent, first: nat, k: nat)
    requires SplitsAt(bs, tor.uniqueId, first, pos) && k < |bs|
    ensures pos <= k && bs[k].tor == tor ==> first <= bs[k].block
  {
    assert pos <= k ==> 0 <= Compare(bs[k], tor.uniqueId, first);
  }

  lemma LeftOutside(bs: seq<CacheBlock>, pos: nat, m: nat, tor: Torrent, first: nat, last: int, k: nat)
    requires Sorted(bs) && SplitsAt(bs, tor.uniqueId, first, pos) && pos <= m <= |bs|
    requires forall i | 0 <= i < |bs| :: bs[i].tor == tor <==> bs[i].tor.uniqueId == tor.uniqueId
    requires m < |bs| ==> !(bs[m].tor == tor && first <= bs[m].block <= last)
    requires k < |bs| && (k < pos || m <= k)
    ensures !(bs[k].tor == tor && first <= bs[k].block <= last)
  {
    if k < pos {
      assert Compare(bs[k], tor.uniqueId, first) < 0;
    } else if m < k {
      assert Compare(bs[m], bs[k].tor.uniqueId, bs[k].block) < 0;
      assert 0 <= Compare(bs[m], tor.uniqueId, first);
    }
  }

  // ----- permutations of run lists -----

  lemma {:induction false} SumLensAppend(rs: seq<RunInfo>, ss: seq<RunInfo>)
    ensures SumLens(rs + ss) == SumLens(rs) + SumLens(ss)
  {
    if ss == [] {
      assert rs + ss == rs;
    } else {
      assert (rs + ss)[..|rs + ss| - 1] == rs + ss[..|ss| - 1];
      SumLensAppend(rs, ss[..|ss| - 1]);
    }
  }

  lemma SumLensRemove(rs: seq<RunInfo>, k: nat)
    requires k < |rs|
    ensures SumLens(rs) == SumLens(rs[..k] + rs[k + 1..]) + rs[k].len
  {
    SumLensStep(rs, k);
    hide SumLens;
    assert rs == rs[..k + 1] + rs[k + 1..];
    SumLensAppend(rs[..k + 1], rs[k + 1..]);
    SumLensAppend(rs[..k], rs[k + 1..]);
  }

  lemma SameLength(rs: seq<RunInfo>, ss: seq<RunInfo>)
    requires multiset(rs) == multiset(ss)
    ensures |rs| == |ss|
  {
    assert |multiset(rs)| == |rs| && |multiset(ss)| == |ss|;
  }

  lemma {:induction false} SumLensPermutes(rs: seq<RunInfo>, ss: seq<RunInfo>)
    requires multiset(rs) == multiset(ss)
    ensures SumLens(rs) == SumLens(ss)
  {
    hide SumLens;
    SameLength(rs, ss);
    if rs != [] {
      var k := Search.PermutedElement(ss, rs, 0);
      Search.RestsPermute(rs, ss, 0, k);
      SumLensPermutes(rs[..0] + rs[1..], ss[..k] + ss[k + 1..]);
      SumLensRemove(rs, 0);
      SumLensRemove(ss, k);
    }
  }

  /** Sorting a list of disjoint runs keeps them disjoint. */
  lemma DisjointPermutes(bs: seq<CacheBlock>, rs: seq<RunInfo>, ss: seq<RunInfo>, env: Env)
    requires DisjointRuns(bs, rs) && MaximalRuns(bs, rs) && multiset(rs) == multiset(ss)
    requires forall i | 0 <= i < |rs| :: Describes(bs, rs[i], env)
    ensures DisjointRuns(bs, ss) && MaximalRuns(bs, ss)
    ensures forall i | 0 <= i < |ss| :: Describes(bs, ss[i], env)
  {
    hide Describes, Rank, StopsAt;
    forall i | 0 <= i < |ss|
      ensures MaximalRun(bs, ss[i]) && Describes(bs, ss[i], env)
    {
      var k := Search.PermutedElement(rs, ss, i);
    }
    forall i, j | 0 <= i < j < |ss|
      ensures ss[i].pos + ss[i].len <= ss[j].pos || ss[j].pos + ss[j].len <= ss[i].pos
    {
      var p, q := Search.PermutedPair(rs, ss, i, j);
    }
  }

  // ----- looking blocks up and storing them -----

  /** `pos` is where a block with this key is or would go. */
  ghost predicate SplitsAt(bs: seq<CacheBlock>, id: nat, block: nat, pos: nat)
  {
    && pos <= |bs|
    && (forall i | 0 <= i < pos :: Compare(bs[i], id, block) < 0)
    && (forall i | pos <= i < |bs| :: 0 <= Compare(bs[i], id, block))
  }

  lemma SortedIsSearchable(bs: seq<CacheBlock>, cmp: CacheBlock -> int, id: nat, block: nat)
    requires Sorted(bs) && forall b :: cmp(b) == Compare(b, id, block)
    ensures Search.Partitioned(bs, cmp) && AtMostOneMatch(bs, cmp)
  {
  }

  /** `cs` has the block (tor, piece, offset) at p, and is otherwise `bs`. */
  ghost predicate Stored(bs: seq<CacheBlock>, cs: seq<CacheBlock>, p: nat)
  {
    && p < |cs|
    && (cs[..p] + cs[p + 1..] == bs
        || (|cs| == |bs| && cs == bs[p := cs[p]] && cs[p].tor == bs[p].tor && cs[p].block == bs[p].block
            && Start(cs[p]) == Start(bs[p]) && End(cs[p]) == End(bs[p])))
  }

  /** `ds` is `bs` with `key` in it at p, if no block of its torrent and number was there. */
  ghost predicate FoundOrInserted(bs: seq<CacheBlock>, ds: seq<CacheBlock>, key: CacheBlock, p: nat)
  {
    || (p < |bs| && ds == bs && Compare(bs[p], key.tor.uniqueId, key.block) == 0)
    || (p <= |bs| && SplitsAt(bs, key.tor.uniqueId, key.block, p) && ds == bs[..p] + [key] + bs[p..]
        && forall i | 0 <= i < |bs| :: Compare(bs[i], key.tor.uniqueId, key.block) != 0)
  }

  lemma FoundKeepsWellFormed(bs: seq<CacheBlock>, cs: seq<CacheBlock>, p: nat, torrents: map<nat, Torrent>,
                             tor: Torrent, piece: nat, offset: nat, block: nat, data: seq<byte>, now: int)
    requires AllWellFormed(bs, torrents) && Known(tor, torrents) && AtBlock(tor, piece, offset, |data|, block)
    requires p < |bs| && Compare(bs[p], tor.uniqueId, block) == 0 && cs == bs[p := bs[p].(time := now, data := data)]
    ensures AllWellFormed(cs, torrents) && Stored(bs, cs, p)
    ensures cs[p].tor == tor && cs[p].data == data && Start(cs[p]) == tor.PieceOffset(piece, offset)
  {
    hide AtBlock;
    assert WellFormed(bs[p], torrents);
    SameBlockSamePlace(bs[p], tor, piece, offset, data, block);
  }

  lemma InsertedKeepsWellFormed(bs: seq<CacheBlock>, cs: seq<CacheBlock>, p: nat, torrents: map<nat, Torrent>,
                                tor: Torrent, piece: nat, offset: nat, block: nat, data: seq<byte>, now: int)
    requires AllWellFormed(bs, torrents) && Known(tor, torrents) && AtBlock(tor, piece, offset, |data|, block)
    requires SplitsAt(bs, tor.uniqueId, block, p) && forall i | 0 <= i < |bs| :: Compare(bs[i], tor.uniqueId, block) != 0
    requires cs == bs[..p] + [CacheBlock(tor, piece, offset, |data|, now, block, data)] + bs[p..]
    ensures AllWellFormed(cs, torrents) && Stored(bs, cs, p)
    ensures cs[p].tor == tor && cs[p].data == data && Start(cs[p]) == tor.PieceOffset(piece, offset)
  {
    hide AtBlock, Known, Compare;
    assert cs[..p] + cs[p + 1..] == bs;
    InsertedKeepsSorted(bs, cs, p, cs[p]);
    forall i | 0 <= i < |cs|
      ensures WellFormed(cs[i], torrents)
    {
      assert i != p ==> cs[i] == bs[if i < p then i else i - 1];
    }
  }

  lemma InsertedKeepsSorted(bs: seq<CacheBlock>, cs: seq<CacheBlock>, p: nat, b: CacheBlock)
    requires Sorted(bs) && SplitsAt(bs, b.tor.uniqueId, b.block, p) && cs == bs[..p] + [b] + bs[p..]
    requires forall i | 0 <= i < |bs| :: Compare(bs[i], b.tor.uniqueId, b.block) != 0
    ensures Sorted(cs)
  {
    forall i, j | 0 <= i < j < |cs|
      ensures Compare(cs[i], cs[j].tor.uniqueId, cs[j].block) < 0
    {
      var h, k := if i < p then i else i - 1, if j < p then j else j - 1;
      assert i != p ==> cs[i] == bs[h];
      assert j != p ==> cs[j] == bs[k];
    }
  }

  lemma StoreKeepsWellFormed(bs: seq<CacheBlock>, ds: seq<CacheBlock>, cs: seq<CacheBlock>, p: nat, torrents: map<nat, Torrent>,
                             tor: Torrent, piece: nat, offset: nat, block: nat, data: seq<byte>, now: int)
    requires AllWellFormed(bs, torrents) && Known(tor, torrents) && AtBlock(tor, piece, offset, |data|, block)
    requires FoundOrInserted(bs, ds, CacheBlock(tor, piece, offset, |data|, now, block, []), p)
    requires p < |ds| && cs == ds[p := ds[p].(time := now, data := data)]
    ensures AllWellFormed(cs, torrents) && Stored(bs, cs, p)
    ensures cs[p].tor == tor && cs[p].data == data && Start(cs[p]) == tor.PieceOffset(piece, offset)
  {
    hide AtBlock, AllWellFormed, Stored, Known, Compare, SplitsAt;
    if p < |bs| && Compare(bs[p], tor.uniqueId, block) == 0 && ds == bs {
      FoundKeepsWellFormed(bs, cs, p, torrents, tor, piece, offset, block, data, now);
    } else {
      assert cs == bs[..p] + [CacheBlock(tor, piece, offset, |data|, now, block, data)] + bs[p..];
      InsertedKeepsWellFormed(bs, cs, p, torrents, tor, piece, offset, block, data, now);
    }
  }

  lemma SameBlockSamePlace(b: CacheBlock, tor: Torrent, piece: nat, offset: nat, data: seq<byte>, block: nat)
    requires AtBlock(b.tor, b.piece, b.offset, b.length, b.block) && AtBlock(tor, piece, offset, |data|, block)
    requires b.tor == tor && b.block == block
    ensures Start(b) == tor.PieceOffset(piece, offset) && b.length == |data|
  {
  }

  lemma StoreUpdatesView(bs: seq<CacheBlock>, cs: seq<CacheBlock>, p: nat, torrents: map<nat, Torrent>, flats: map<nat, seq<byte>>)
    requires AllWellFormed(bs, torrents) && AllWellFormed(cs, torrents) && Stored(bs, cs, p) && FlatsFit(torrents, flats)
    ensures ViewOf(cs, torrents, flats)
         == WriteTo(ViewOf(bs, torrents, flats), cs[p].tor.uniqueId, Start(cs[p]), cs[p].data)
  {
    hide AtBlock, Overlay, Splice;
    WellFormedIsLaid(bs, torrents);
    WellFormedIsLaid(cs, torrents);
    assert WellFormed(cs[p], torrents);
    forall id | id in torrents
      ensures id == cs[p].tor.uniqueId ==>
        Overlay(cs, torrents[id], flats[id]) == Splice(Overlay(bs, torrents[id], flats[id]), Start(cs[p]), cs[p].data)
      ensures id != cs[p].tor.uniqueId ==>
        Overlay(cs, torrents[id], flats[id]) == Overlay(bs, torrents[id], flats[id])
    {
      if id == cs[p].tor.uniqueId {
        WriteUpdatesOverlay(bs, cs, p, flats[id]);
      } else {
        WriteKeepsOthers(bs, cs, p, torrents[id], flats[id]);
      }
    }
  }

  /** A block found in the cache shows through the view. */
  lemma CachedHit(bs: seq<CacheBlock>, torrents: map<nat, Torrent>, flats: map<nat, seq<byte>>,
                  tor: Torrent, piece: nat, offset: nat, block: nat, len: nat, i: nat)
    requires AllWellFormed(bs, torrents) && FlatsFit(torrents, flats) && Known(tor, torrents)
    requires AtBlock(tor, piece, offset, tor.BlockBytes(block), block) && len <= tor.BlockBytes(block)
    requires i < |bs| && Compare(bs[i], tor.uniqueId, block) == 0
    ensures len <= |bs[i].data|
    ensures ReadFrom(ViewOf(bs, torrents, flats), tor.uniqueId, tor.PieceOffset(piece, offset), len) == bs[i].data[..len]
  {
    hide AllWellFormed, WellFormed, AtBlock, Compare, Overlay, Torrent.Valid, Torrent.BlockBytes, Torrent.PieceOffset;
    WellFormedIsLaid(bs, torrents);
    IsWellFormed(bs, torrents, i);
    FoundAtPlace(bs[i], torrents, tor, piece, offset, block);
    OverlayShowsBlock(bs, i, flats[tor.uniqueId]);
    var v, at := Overlay(bs, tor, flats[tor.uniqueId]), tor.PieceOffset(piece, offset);
    SliceBegins(v, at, len, |bs[i].data|);
  }

  lemma SliceBegins(v: seq<byte>, at: nat, n: nat, m: nat)
    requires n <= m && at + m <= |v|
    ensures v[at..at + n] == v[at..at + m][..n]
  {
  }

  lemma IsWellFormed(bs: seq<CacheBlock>, torrents: map<nat, Torrent>, i: nat)
    requires AllWellFormed(bs, torrents) && i < |bs|
    ensures WellFormed(bs[i], torrents)
  {
  }

  lemma FoundAtPlace(b: CacheBlock, torrents: map<nat, Torrent>, tor: Torrent, piece: nat, offset: nat, block: nat)
    requires WellFormed(b, torrents) && Known(tor, torrents) && Compare(b, tor.uniqueId, block) == 0
    requires AtBlock(tor, piece, offset, tor.BlockBytes(block), block)
    ensures b.tor == tor && Start(b) == tor.PieceOffset(piece, offset) && |b.data| == tor.BlockBytes(block)
  {
  }

  /** A block not found in the cache leaves the disk showing. */
  lemma CachedMiss(bs: seq<CacheBlock>, torrents: map<nat, Torrent>, flats: map<nat, seq<byte>>,
                   tor: Torrent, piece: nat, offset: nat, block: nat, len: nat)
    requires AllWellFormed(bs, torrents) && FlatsFit(torrents, flats) && Known(tor, torrents)
    requires AtBlock(tor, piece, offset, tor.BlockBytes(block), block) && len <= tor.BlockBytes(block)
    requires forall i | 0 <= i < |bs| :: Compare(bs[i], tor.uniqueId, block) != 0
    ensures tor.PieceOffset(piece, offset) + len <= |flats[tor.uniqueId]|
    ensures ReadFrom(ViewOf(bs, torrents, flats), tor.uniqueId, tor.PieceOffset(piece, offset), len)
      == flats[tor.uniqueId][tor.PieceOffset(piece, offset)..][..len]
  {
    BlockRange(tor, block);
    var flat, at := flats[tor.uniqueId], tor.PieceOffset(piece, offset);
    forall i, k | at <= k < at + len
      ensures !Covers(bs, i, tor, k)
    {
      NotCovered(bs, torrents, i, tor, block, at, k);
    }
    hide AtBlock, AllWellFormed;
    assert forall k | at <= k < at + len :: ByteAt(bs, tor, flat, k) == flat[k];
  }

  lemma NotCovered(bs: seq<CacheBlock>, torrents: map<nat, Torrent>, i: int, tor: Torrent, block: nat, at: nat, k: int)
    requires AllWellFormed(bs, torrents) && Known(tor, torrents) && block < tor.BlockCount()
    requires at == tor.blockSize * block && at <= k < at + tor.BlockBytes(block)
    ensures Covers(bs, i, tor, k) ==> Compare(bs[i], tor.uniqueId, block) == 0
  {
    if 0 <= i < |bs| && bs[i].tor == tor {
      assert WellFormed(bs[i], torrents);
      if bs[i].block < block {
        BlocksDisjoint(tor, bs[i].block, block);
      } else if block < bs[i].block {
        BlocksDisjoint(tor, block, bs[i].block);
      }
    }
  }

  // ----- the view of all torrents -----

  /** The overlay of every torrent of the session. */
  ghost function ViewOf(bs: seq<CacheBlock>, torrents: map<nat, Torrent>, flats: map<nat, seq<byte>>): map<nat, seq<byte>>
    requires flats.Keys == torrents.Keys
  {
    map id | id in torrents :: Overlay(bs, torrents[id], flats[id])
  }

  /** The flat arrays after a write of `d` at position `at` of one of them. */
  function WriteTo(v: map<nat, seq<byte>>, id: nat, at: nat, d: seq<byte>): map<nat, seq<byte>>
  {
    if id in v && at + |d| <= |v[id]| then v[id := Splice(v[id], at, d)] else v
  }

  /** `len` bytes of one of the flat arrays. */
  function ReadFrom(v: map<nat, seq<byte>>, id: nat, at: nat, len: nat): seq<byte>
  {
    if id in v && at + len <= |v[id]| then v[id][at..at + len] else []
  }

  ghost predicate FlatsFit(torrents: map<nat, Torrent>, flats: map<nat, seq<byte>>)
  {
    && flats.Keys == torrents.Keys
    && forall id | id in torrents :: torrents[id].uniqueId == id && |flats[id]| == torrents[id].totalSize
  }

  /** Moving a run of blocks to disk leaves every torrent's view as it was. */
  lemma FlushKeepsAll(bs: seq<CacheBlock>, torrents: map<nat, Torrent>, pos: nat, n: nat, flats: map<nat, seq<byte>>)
    requires AllWellFormed(bs, torrents) && Contiguous(bs, pos, n) && FlatsFit(torrents, flats)
    ensures AllWellFormed(Without(bs, pos, n), torrents)
    ensures var t := bs[pos].tor;
      && t.uniqueId in flats && Start(bs[pos]) + |RunData(bs, pos, n)| <= |flats[t.uniqueId]|
      && ViewOf(Without(bs, pos, n), torrents, flats[t.uniqueId := Splice(flats[t.uniqueId], Start(bs[pos]), RunData(bs, pos, n))])
         == ViewOf(bs, torrents, flats)
  {
    hide RunData, Splice, Overlay, AtBlock;
    WellFormedIsLaid(bs, torrents);
    ContiguousAbuts(bs, torrents, pos, n);
    var t := bs[pos].tor;
    assert WellFormed(bs[pos], torrents);
    FlushKeepsOverlay(bs, pos, n, flats[t.uniqueId]);
    forall id | id in torrents && id != t.uniqueId
      ensures Overlay(Without(bs, pos, n), torrents[id], flats[id]) == Overlay(bs, torrents[id], flats[id])
    {
      FlushKeepsOthers(bs, pos, n, torrents[id], flats[id]);
    }
  }

  lemma BlockSizes(bs: seq<CacheBlock>, torrents: map<nat, Torrent>)
    requires AllWellFormed(bs, torrents)
    ensures forall i | 0 <= i < |bs| :: |bs[i].data| <= MAX_BLOCK_SIZE
  {
    forall i | 0 <= i < |bs|
      ensures |bs[i].data| <= MAX_BLOCK_SIZE
    {
      assert WellFormed(bs[i], torrents);
      BlockRange(bs[i].tor, bs[i].block);
    }
  }

  /** A cached block's address is one tr_ioWrite accepts. */
  lemma AtRun(bs: seq<CacheBlock>, torrents: map<nat, Torrent>, pos: nat)
    requires AllWellFormed(bs, torrents) && pos < |bs|
    ensures Known(bs[pos].tor, torrents) && bs[pos].piece < bs[pos].tor.PieceCount()
    ensures Start(bs[pos]) == bs[pos].tor.PieceOffset(bs[pos].piece, bs[pos].offset) < bs[pos].tor.totalSize
  {
    assert WellFormed(bs[pos], torrents);
    BlockRange(bs[pos].tor, bs[pos].block);
  }

  /** The runs found so far, left to right, end exactly at `pos`. */
  ghost predicate InOrder(bs: seq<CacheBlock>, rs: seq<RunInfo>, pos: nat, env: Env)
  {
    && pos <= |bs|
    && (forall i | 0 <= i < |rs| :: Contiguous(bs, rs[i].pos, rs[i].len) && StopsAt(bs, rs[i].pos, rs[i].len))
    && (forall i | 0 <= i < |rs| :: Describes(bs, rs[i], env))
    && (forall i | 0 <= i < |rs| :: Joins(rs, i, pos))
    && (if rs == [] then pos == 0 else rs[0].pos == 0)
  }

  /** The i-th run ends where the next begins, and the last at pos. */
  predicate Joins(rs: seq<RunInfo>, i: nat, pos: nat)
    requires i < |rs|
  {
    rs[i].pos + rs[i].len == if i + 1 < |rs| then rs[i + 1].pos else pos
  }

  lemma InOrderStarts(bs: seq<CacheBlock>, env: Env)
    ensures InOrder(bs, [], 0, env) && SumLens([]) == 0
  {
  }

  lemma InOrderAt(bs: seq<CacheBlock>, rs: seq<RunInfo>, pos: nat, env: Env, i: nat)
    requires InOrder(bs, rs, pos, env) && i < |rs|
    ensures Contiguous(bs, rs[i].pos, rs[i].len) && StopsAt(bs, rs[i].pos, rs[i].len) && Describes(bs, rs[i], env)
    ensures Joins(rs, i, pos)
  {
    hide Describes, StopsAt, Joins;
  }

  lemma InOrderExtends(bs: seq<CacheBlock>, rs: seq<RunInfo>, pos: nat, r: RunInfo, env: Env)
    requires InOrder(bs, rs, pos, env) && r.pos == pos
    requires Contiguous(bs, r.pos, r.len) && StopsAt(bs, r.pos, r.len) && Describes(bs, r, env)
    ensures InOrder(bs, rs + [r], pos + r.len, env)
    ensures SumLens(rs + [r]) == SumLens(rs) + r.len
  {
    hide Describes, StopsAt;
    var ss := rs + [r];
    assert ss[..|rs|] == rs;
    forall i | 0 <= i < |ss|
      ensures Contiguous(bs, ss[i].pos, ss[i].len) && StopsAt(bs, ss[i].pos, ss[i].len) && Describes(bs, ss[i], env)
      ensures Joins(ss, i, pos + r.len)
    {
      if i < |rs| {
        InOrderAt(bs, rs, pos, env, i);
        assert ss[i] == rs[i];
        assert ss[i + 1] == if i + 1 < |rs| then rs[i + 1] else r;
      } else {
        assert ss[i] == r;
      }
    }
  }

  lemma {:induction false} InOrderEnds(bs: seq<CacheBlock>, rs: seq<RunInfo>, pos: nat, env: Env, i: nat, j: nat)
    requires InOrder(bs, rs, pos, env) && i < j < |rs|
    ensures rs[i].pos + rs[i].len <= rs[j].pos
    decreases j
  {
    InOrderAt(bs, rs, pos, env, j - 1);
    if i < j - 1 {
      InOrderEnds(bs, rs, pos, env, i, j - 1);
    }
  }

  lemma InOrderIsDisjoint(bs: seq<CacheBlock>, rs: seq<RunInfo>, pos: nat, env: Env)
    requires InOrder(bs, rs, pos, env)
    ensures DisjointRuns(bs, rs) && MaximalRuns(bs, rs)
    ensures forall i | 0 <= i < |rs| :: Describes(bs, rs[i], env)
  {
    hide Describes, Rank;
    forall i, j | 0 <= i < j < |rs|
      ensures rs[i].pos + rs[i].len <= rs[j].pos
    {
      InOrderEnds(bs, rs, pos, env, i, j);
    }
    forall i | 0 <= i < |rs| && 0 < rs[i].pos
      ensures bs[rs[i].pos - 1].tor != bs[rs[i].pos].tor || bs[rs[i].pos - 1].block + 1 != bs[rs[i].pos].block
    {
      assert 0 < i;
      var q := rs[i - 1];
      InOrderAt(bs, rs, pos, env, i - 1);
      assert bs[q.pos + q.len - 1].block == bs[q.pos].block + (q.len - 1);
    }
  }
}
