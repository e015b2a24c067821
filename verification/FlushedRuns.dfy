/** What tr_cacheFlushDone leaves behind: it flushes the leading flagged runs of the ranked
    list, and so all flagged runs only if no other run comes before one of them. */
module FlushedRuns {
  import opened Geometry
  import opened Overlays
  import opened CacheRuns
  import Search

  /** r describes a maximal run of the cached blocks. */
  ghost predicate IsRun(bs: seq<CacheBlock>, r: RunInfo, env: Env)
  {
    MaximalRun(bs, r) && Describes(bs, r, env)
  }

  /** By their lengths, ages and completeness, every run of a complete piece or of several
      pieces strictly outranks every other run. */
  ghost predicate Separated(bs: seq<CacheBlock>, env: Env)
  {
    forall q, r | IsRun(bs, q, env) && IsRun(bs, r, env) && IsFlagged(q) && !IsFlagged(r) :: r.rank < q.rank
  }

  /** No block of a flagged run of bs is among cs. */
  ghost predicate NoneDoneLeft(bs: seq<CacheBlock>, cs: seq<CacheBlock>, env: Env)
  {
    forall r, k | IsRun(bs, r, env) && IsFlagged(r) && r.pos <= k < r.pos + r.len :: bs[k] !in cs
  }

  /** Whatever order the sort leaves equally ranked runs in, all flagged runs are flushed. */
  ghost predicate AlwaysFlushesAll(bs: seq<CacheBlock>, env: Env)
  {
    forall cs, rs, n | FlushedDone(bs, cs, rs, n, env) :: NoneDoneLeft(bs, cs, env)
  }

  lemma NothingCached(env: Env)
    ensures NoneDoneLeft([], [], env)
  {
  }

  // ----- a run list lists every run -----

  /** Two maximal runs that share a position are the same run. */
  lemma RunIsUnique(bs: seq<CacheBlock>, q: RunInfo, r: RunInfo, k: nat, env: Env)
    requires IsRun(bs, q, env) && IsRun(bs, r, env) && q.pos <= k < q.pos + q.len && r.pos <= k < r.pos + r.len
    ensures q == r
  {
    StartsTogether(bs, q, r, k);
    StartsTogether(bs, r, q, k);
    EndsTogether(bs, q, r);
    EndsTogether(bs, r, q);
  }

  /** Inside a contiguous run each block follows the one before it. */
  lemma StepInside(bs: seq<CacheBlock>, pos: nat, len: nat, k: nat)
    requires Contiguous(bs, pos, len)
    ensures pos < k < pos + len ==> bs[k - 1].tor == bs[k].tor && bs[k - 1].block + 1 == bs[k].block
    ensures pos < k < pos + len ==> bs[k].tor == bs[pos].tor && bs[k].block == bs[pos].block + (k - pos)
  {
  }

  lemma StartsTogether(bs: seq<CacheBlock>, q: RunInfo, r: RunInfo, k: nat)
    requires MaximalRun(bs, q) && MaximalRun(bs, r) && q.pos <= k < q.pos + q.len && r.pos <= k < r.pos + r.len
    ensures r.pos <= q.pos
  {
    StepInside(bs, q.pos, q.len, r.pos);
  }

  lemma EndsTogether(bs: seq<CacheBlock>, q: RunInfo, r: RunInfo)
    requires MaximalRun(bs, q) && MaximalRun(bs, r) && q.pos == r.pos
    ensures r.len <= q.len
  {
    StepInside(bs, r.pos, r.len, q.pos + q.len);
  }

  ghost function Positions(rs: seq<RunInfo>): set<int>
  {
    if rs == [] then {}
    else Positions(rs[..|rs| - 1]) + Search.Span(rs[|rs| - 1].pos, rs[|rs| - 1].pos + rs[|rs| - 1].len)
  }

  lemma {:induction false} InPositions(rs: seq<RunInfo>, k: int)
    ensures k in Positions(rs) <==> exists i :: 0 <= i < |rs| && rs[i].pos <= k < rs[i].pos + rs[i].len
  {
    if rs != [] {
      var init, last := rs[..|rs| - 1], rs[|rs| - 1];
      InPositions(init, k);
      assert forall i | 0 <= i < |init| :: init[i] == rs[i];
    }
  }

  lemma NoPositions()
    ensures Positions([]) == {} && SumLens([]) == 0
  {
  }

  /** Runs that do not overlap cover as many positions as their lengths add up to. */
  lemma {:induction false} PositionCount(rs: seq<RunInfo>)
    requires forall i, j | 0 <= i < j < |rs| :: rs[i].pos + rs[i].len <= rs[j].pos || rs[j].pos + rs[j].len <= rs[i].pos
    ensures |Positions(rs)| == SumLens(rs)
  {
    hide Search.Span;
    NoPositions();
    if rs != [] {
      var init, last := rs[..|rs| - 1], rs[|rs| - 1];
      PositionCount(init);
      Search.SpanSize(last.pos, last.pos + last.len);
      LastApart(rs);
    }
  }

  /** A last run that overlaps none before it shares no position with them. */
  lemma LastApart(rs: seq<RunInfo>)
    requires rs != []
    requires var last := rs[|rs| - 1];
      forall i | 0 <= i < |rs| - 1 :: rs[i].pos + rs[i].len <= last.pos || last.pos + last.len <= rs[i].pos
    ensures var last := rs[|rs| - 1];
      Positions(rs[..|rs| - 1]) !! Search.Span(last.pos, last.pos + last.len)
  {
    hide Positions;
    var init, last := rs[..|rs| - 1], rs[|rs| - 1];
    forall k | k in Search.Span(last.pos, last.pos + last.len)
      ensures k !in Positions(init)
    {
      InPositions(init, k);
    }
  }

  lemma SubsetOfSameSize(a: set<int>, b: set<int>)
    requires a <= b && |a| == |b|
    ensures a == b
  {
    assert b == a + (b - a);
  }

  /** So lengths that add up to the whole cover the whole. */
  lemma EveryPositionListed(bs: seq<CacheBlock>, rs: seq<RunInfo>, k: nat) returns (i: nat)
    requires DisjointRuns(bs, rs) && SumLens(rs) == |bs| && k < |bs|
    ensures i < |rs| && rs[i].pos <= k < rs[i].pos + rs[i].len
  {
    PositionCount(rs);
    Search.SpanSize(0, |bs|);
    forall k | k in Positions(rs)
      ensures k in Search.Span(0, |bs|)
    {
      InPositions(rs, k);
    }
    SubsetOfSameSize(Positions(rs), Search.Span(0, |bs|));
    InPositions(rs, k);
    i :| 0 <= i < |rs| && rs[i].pos <= k < rs[i].pos + rs[i].len;
  }

  lemma EveryRunListed(bs: seq<CacheBlock>, rs: seq<RunInfo>, r: RunInfo, env: Env) returns (i: nat)
    requires IsRunList(bs, rs, env) && IsRun(bs, r, env)
    ensures i < |rs| && rs[i] == r
  {
    hide Describes, SumLens, StopsAt;
    i := EveryPositionListed(bs, rs, r.pos);
    RunIsUnique(bs, rs[i], r, r.pos, env);
  }

  /** The blocks of the runs dropped, and of no others, are gone. */
  lemma {:induction false} InNamed(bs: seq<CacheBlock>, rs: seq<RunInfo>, b: CacheBlock)
    requires forall i | 0 <= i < |rs| :: rs[i].pos + rs[i].len <= |bs|
    ensures b in Named(bs, rs) <==> exists i, k :: 0 <= i < |rs| && rs[i].pos <= k < rs[i].pos + rs[i].len && bs[k] == b
  {
    if rs != [] {
      var init, last := rs[..|rs| - 1], rs[|rs| - 1];
      InNamed(bs, init, b);
      assert forall i | 0 <= i < |init| :: init[i] == rs[i];
      var data := BlocksOf(bs, last);
      if b in data {
        var j :| 0 <= j < |data| && data[j] == b;
        assert bs[last.pos + j] == b && rs[|rs| - 1] == last;
      }
      if k :| last.pos <= k < last.pos + last.len && bs[k] == b {
        assert data[k - last.pos] == b;
      }
    }
  }

  // ----- separated ranks suffice -----

  /** When every complete or piece-spanning run outranks every other run, the flagged prefix of
      the ranked list has all of them. */
  lemma FlushDoneReachesAll(bs: seq<CacheBlock>, cs: seq<CacheBlock>, rs: seq<RunInfo>, n: nat, env: Env)
    requires FlushedDone(bs, cs, rs, n, env) && Separated(bs, env)
    ensures forall k | 0 <= k < |rs| :: IsFlagged(rs[k]) <==> k < n
    ensures NoneDoneLeft(bs, cs, env)
  {
    hide Describes, Named, StopsAt, SumLens;
    ListedRuns(bs, rs, env);
    forall k | n <= k < |rs|
      ensures !IsFlagged(rs[k])
    {
      assert IsRun(bs, rs[k], env) && IsRun(bs, rs[n], env);
    }
    forall r, k | IsRun(bs, r, env) && IsFlagged(r) && r.pos <= k < r.pos + r.len
      ensures bs[k] !in cs
    {
      var i := EveryRunListed(bs, rs, r, env);
      assert i < n && rs[..n][i] == r;
      InNamed(bs, rs[..n], bs[k]);
      assert bs[k] in Named(bs, rs[..n]);
    }
  }

  lemma ListedRuns(bs: seq<CacheBlock>, rs: seq<RunInfo>, env: Env)
    requires IsRunList(bs, rs, env)
    ensures forall k | 0 <= k < |rs| :: IsRun(bs, rs[k], env) && rs[k].pos + rs[k].len <= |bs|
  {
    hide Describes, SumLens, StopsAt;
  }

  // ----- and are needed -----

  /** When some other run outranks a flagged one, that one is missed, however ties are ordered. */
  lemma FlushDoneMisses(bs: seq<CacheBlock>, cs: seq<CacheBlock>, rs: seq<RunInfo>, n: nat, env: Env, q: nat, r: nat)
    requires FlushedDone(bs, cs, rs, n, env)
    requires q < |rs| && r < |rs| && IsFlagged(rs[q]) && !IsFlagged(rs[r]) && rs[q].rank < rs[r].rank
    ensures n <= r < q
  {
    hide DisjointRuns, MaximalRuns, Describes, Dropped;
  }

  /** A sort may put equally ranked runs in this order: the unflagged ones first. */
  predicate Before(q: RunInfo, r: RunInfo)
  {
    r.rank < q.rank || (r.rank == q.rank && (IsFlagged(q) ==> IsFlagged(r)))
  }

  ghost predicate InSortOrder(rs: seq<RunInfo>)
  {
    forall i, j | 0 <= i < j < |rs| :: Before(rs[i], rs[j])
  }

  lemma OrderTells(rs: seq<RunInfo>, i: nat, j: nat)
    requires InSortOrder(rs) && i < |rs| && j < |rs|
    ensures i < j ==> Before(rs[i], rs[j])
  {
  }

  lemma {:induction false} SortRuns(rs: seq<RunInfo>) returns (ss: seq<RunInfo>)
    ensures multiset(ss) == multiset(rs) && InSortOrder(ss)
  {
    if rs == [] {
      ss := [];
    } else {
      var init, last := rs[..|rs| - 1], rs[|rs| - 1];
      assert rs == init + [last];
      ss := SortRuns(init);
      ss := InsertRun(ss, last);
    }
  }

  lemma {:induction false} InsertRun(ss: seq<RunInfo>, r: RunInfo) returns (ts: seq<RunInfo>)
    requires InSortOrder(ss)
    ensures multiset(ts) == multiset(ss) + multiset{r} && InSortOrder(ts)
  {
    if ss == [] || Before(ss[|ss| - 1], r) {
      ts := ss + [r];
      assert forall i | 0 <= i < |ss| :: ts[i] == ss[i];
    } else {
      var init, last := ss[..|ss| - 1], ss[|ss| - 1];
      assert ss == init + [last];
      ts := InsertRun(init, r);
      forall i | 0 <= i < |ts|
        ensures Before(ts[i], last)
      {
        assert ts[i] in multiset(init) + multiset{r};
      }
      ts := ts + [last];
    }
  }

  /** The run that begins at a position. */
  lemma RunFrom(bs: seq<CacheBlock>, pos: nat) returns (len: nat)
    requires pos < |bs|
    ensures Contiguous(bs, pos, len) && StopsAt(bs, pos, len)
  {
    len := 1;
    while pos + len < |bs| && bs[pos + len].tor == bs[pos].tor && bs[pos + len].block == bs[pos].block + len
      invariant Contiguous(bs, pos, len)
    {
      len := len + 1;
    }
  }

  ghost function Described(bs: seq<CacheBlock>, pos: nat, len: nat, env: Env): RunInfo
    requires 0 < len && pos + len <= |bs|
  {
    var last := bs[pos + len - 1];
    var r := RunInfo(pos, len, 0, last.time, last.piece != bs[pos].piece, (last.tor.uniqueId, last.piece) in env.complete);
    r.(rank := Rank(r, env))
  }

  lemma DescribedTruly(bs: seq<CacheBlock>, pos: nat, len: nat, env: Env)
    requires 0 < len && pos + len <= |bs|
    ensures Describes(bs, Described(bs, pos, len, env), env)
    ensures Described(bs, pos, len, env).pos == pos && Described(bs, pos, len, env).len == len
  {
  }

  /** Any cache has a run list. */
  lemma ListRuns(bs: seq<CacheBlock>, env: Env) returns (rs: seq<RunInfo>)
    ensures InOrder(bs, rs, |bs|, env) && SumLens(rs) == |bs|
  {
    hide InOrder, Describes, Described, StopsAt;
    rs := [];
    var pos := 0;
    InOrderStarts(bs, env);
    while pos < |bs|
      invariant pos <= |bs| && InOrder(bs, rs, pos, env) && SumLens(rs) == pos
    {
      var len := RunFrom(bs, pos);
      var r := Described(bs, pos, len, env);
      DescribedTruly(bs, pos, len, env);
      InOrderExtends(bs, rs, pos, r, env);
      rs, pos := rs + [r], pos + len;
    }
  }

  /** Any cache has a ranked run list in which, among equals, unflagged runs come first. */
  lemma RankRuns(bs: seq<CacheBlock>, env: Env) returns (rs: seq<RunInfo>)
    ensures IsRunList(bs, rs, env) && InSortOrder(rs)
  {
    hide InOrder, Describes, DisjointRuns, MaximalRuns;
    var unsorted := ListRuns(bs, env);
    rs := SortRuns(unsorted);
    InOrderIsDisjoint(bs, unsorted, |bs|, env);
    SumLensPermutes(unsorted, rs);
    DisjointPermutes(bs, unsorted, rs, env);
  }

  /** How many leading runs are flagged. */
  lemma FlaggedPrefix(rs: seq<RunInfo>) returns (n: nat)
    ensures n <= |rs| && (forall k | 0 <= k < n :: IsFlagged(rs[k])) && (n < |rs| ==> !IsFlagged(rs[n]))
  {
    n := 0;
    while n < |rs| && IsFlagged(rs[n])
      invariant n <= |rs| && forall k | 0 <= k < n :: IsFlagged(rs[k])
    {
      n := n + 1;
    }
  }

  lemma {:induction false} Drop(bs: seq<CacheBlock>, gone: set<CacheBlock>) returns (cs: seq<CacheBlock>)
    ensures forall b :: b in cs <==> b in bs && b !in gone
  {
    if bs == [] {
      cs := [];
    } else {
      var init, last := bs[..|bs| - 1], bs[|bs| - 1];
      assert bs == init + [last];
      cs := Drop(init, gone);
      cs := if last in gone then cs else cs + [last];
    }
  }

  /** A run that some other run ties with or outranks may be left. */
  lemma UnseparatedIsLeft(bs: seq<CacheBlock>, env: Env, q: RunInfo, r: RunInfo)
    requires Sorted(bs) && IsRun(bs, q, env) && IsRun(bs, r, env) && IsFlagged(q) && !IsFlagged(r) && q.rank <= r.rank
    ensures !AlwaysFlushesAll(bs, env)
  {
    hide Describes, Named, StopsAt, Compare, Sorted, SumLens;
    var rs := RankRuns(bs, env);
    var n := FlaggedPrefix(rs);
    ListedRuns(bs, rs, env);
    var cs := Drop(bs, Named(bs, rs[..n]));
    assert FlushedDone(bs, cs, rs, n, env);
    var i := EveryRunListed(bs, rs, q, env);
    var j := EveryRunListed(bs, rs, r, env);
    OrderTells(rs, i, j);
    assert n <= j < i;
    StaysCached(bs, rs, n, i);
    assert bs[q.pos] in cs;
    assert !NoneDoneLeft(bs, cs, env);
  }

  /** A block of a run that was not dropped is not among those dropped. */
  lemma StaysCached(bs: seq<CacheBlock>, rs: seq<RunInfo>, n: nat, i: nat)
    requires Sorted(bs) && DisjointRuns(bs, rs) && n <= i < |rs|
    ensures forall k | 0 <= k < n :: rs[..n][k].pos + rs[..n][k].len <= |bs|
    ensures bs[rs[i].pos] !in Named(bs, rs[..n])
  {
    hide Named, Compare;
    InNamed(bs, rs[..n], bs[rs[i].pos]);
    forall h, k | 0 <= h < n && rs[h].pos <= k < rs[h].pos + rs[h].len
      ensures bs[k] != bs[rs[i].pos]
    {
      SortedIsDistinct(bs, k, rs[i].pos);
    }
  }

  /** tr_cacheFlushDone flushes every done run, whatever order the sort gives, if and only if
      every such run strictly outranks every other. */
  lemma FlushDoneExactly(bs: seq<CacheBlock>, env: Env)
    requires Sorted(bs)
    ensures AlwaysFlushesAll(bs, env) <==> Separated(bs, env)
  {
    hide IsRun, FlushedDone, Sorted, NoneDoneLeft;
    if Separated(bs, env) {
      forall cs, rs, n | FlushedDone(bs, cs, rs, n, env)
        ensures NoneDoneLeft(bs, cs, env)
      {
        FlushDoneReachesAll(bs, cs, rs, n, env);
      }
    } else {
      var q, r :| IsRun(bs, q, env) && IsRun(bs, r, env) && IsFlagged(q) && !IsFlagged(r) && q.rank <= r.rank;
      UnseparatedIsLeft(bs, env, q, r);
    }
  }

  /** A run is flagged when its last block's piece is complete, or is not its first block's. */
  lemma FlagsMean(bs: seq<CacheBlock>, r: RunInfo, env: Env)
    requires IsRun(bs, r, env)
    ensures var first, last := bs[r.pos], bs[r.pos + r.len - 1];
      IsFlagged(r) <==> (last.tor.uniqueId, last.piece) in env.complete || first.piece != last.piece
  {
    hide StopsAt;
  }

  /** A run's length and age decide whether the ranks separate: below 4096 they do. */
  lemma RanksSeparate(q: RunInfo, r: RunInfo, env: Env)
    requires IsFlagged(q) && !IsFlagged(r)
    requires q.lastBlockTime <= env.now && r.lastBlockTime <= env.now
    requires r.len + (env.now - r.lastBlockTime) / 32 < 4096
    ensures Rank(r, env) < Rank(q, env)
  {
  }

  // ----- caches it happens in -----

  /** Four one-byte blocks, two to a piece. */
  function Tiny(): Torrent
  {
    Torrent(1, 2, 1, 4, [FileInfo(0, 4)])
  }

  /** Its first and third block, the third written just now. */
  function TwoBlocks(now: int): seq<CacheBlock>
  {
    [CacheBlock(Tiny(), 0, 0, 1, 0, 0, [7]), CacheBlock(Tiny(), 1, 0, 1, now, 2, [9])]
  }

  function Stale(now: int): RunInfo
  {
    RunInfo(0, 1, 1 + TruncDiv(now, 32), 0, false, false)
  }

  function Done(now: int): RunInfo
  {
    RunInfo(1, 1, 1 + DONEFLAG, now, false, true)
  }

  lemma TinyIsSound()
    ensures Tiny().Valid() && Tiny().uniqueId == 1 && Tiny().pieceSize == 2 && Tiny().blockSize == 1
    ensures Tiny().PieceCount() == 2 && Tiny().BlockCount() == 4
    ensures forall b: nat | b < 4 :: Tiny().BlockBytes(b) == 1
  {
    assert (4 + 2 - 1) / 2 == 2 && (4 + 1 - 1) / 1 == 4 && 4 % 1 == 0 && 2 % 1 == 0;
  }

  lemma TinyBlocks()
    ensures AtBlock(Tiny(), 0, 0, 1, 0) && AtBlock(Tiny(), 1, 0, 1, 2) && Known(Tiny(), map[1 := Tiny()])
  {
    TinyIsSound();
    hide Torrent.Valid, Torrent.PieceCount, Torrent.BlockCount, Torrent.BlockBytes;
    var t := Tiny();
    assert t == Torrent(1, 2, 1, 4, [FileInfo(0, 4)]);
  }

  lemma TwoBlocksAreCached(now: int)
    ensures AllWellFormed(TwoBlocks(now), map[1 := Tiny()])
  {
    hide Tiny, AtBlock, Known;
    TinyBlocks();
  }

  /** The two blocks are two runs, in the order of their ranks. */
  lemma TwoRuns(now: int, rs: seq<RunInfo>)
    requires 0 <= now && Done(now).rank <= Stale(now).rank
    requires rs == [Stale(now), Done(now)] || (rs == [Done(now), Stale(now)] && Done(now).rank == Stale(now).rank)
    ensures IsRunList(TwoBlocks(now), rs, Env(now, {(1, 1)}))
  {
    var bs, env := TwoBlocks(now), Env(now, {(1, 1)});
    assert rs[..1] == [rs[0]] && [rs[0]][..0] == [];
    assert SumLens(rs[..1]) == 1;
    hide Tiny;
    assert Describes(bs, Stale(now), env) && Describes(bs, Done(now), env);
    assert Contiguous(bs, 0, 1) && Contiguous(bs, 1, 1) && StopsAt(bs, 0, 1) && StopsAt(bs, 1, 1);
  }

  lemma StaleRank()
    ensures Stale(640000).rank == 20001 && Done(640000).rank == 8193
    ensures Stale(262144).rank == 8193 && Done(262144).rank == 8193
    ensures forall now :: !IsFlagged(Stale(now)) && IsFlagged(Done(now))
  {
  }

  lemma StaleFirst(now: int)
    requires 0 <= now && Done(now).rank <= Stale(now).rank
    ensures FlushedDone(TwoBlocks(now), TwoBlocks(now), [Stale(now), Done(now)], 0, Env(now, {(1, 1)}))
    ensures !NoneDoneLeft(TwoBlocks(now), TwoBlocks(now), Env(now, {(1, 1)}))
  {
    hide IsRunList, FlushedDone, NoneDoneLeft, TwoBlocks, Stale, Done;
    StaleRank();
    var rs := [Stale(now), Done(now)];
    TwoRuns(now, rs);
    NothingFlushed(TwoBlocks(now), rs, Env(now, {(1, 1)}), 1);
  }

  /** In a well-formed cache, a single block stored long ago outranks the block of a complete
      piece: the cache is left as it was. */
  lemma StaleRunHidesDone()
    ensures AllWellFormed(TwoBlocks(640000), map[1 := Tiny()])
    ensures Stale(640000).rank == 20001 && Done(640000).rank == 8193
    ensures FlushedDone(TwoBlocks(640000), TwoBlocks(640000), [Stale(640000), Done(640000)], 0, Env(640000, {(1, 1)}))
    ensures !NoneDoneLeft(TwoBlocks(640000), TwoBlocks(640000), Env(640000, {(1, 1)}))
  {
    hide AllWellFormed, FlushedDone, NoneDoneLeft, TwoBlocks, Stale, Done, Tiny;
    StaleRank();
    TwoBlocksAreCached(640000);
    StaleFirst(640000);
  }

  /** When the two are ranked alike, both orders are sorted: one flushes the done block and the
      other leaves it. */
  lemma TieIsUndecided()
    ensures AllWellFormed(TwoBlocks(262144), map[1 := Tiny()])
    ensures Stale(262144).rank == Done(262144).rank
    ensures FlushedDone(TwoBlocks(262144), TwoBlocks(262144), [Stale(262144), Done(262144)], 0, Env(262144, {(1, 1)}))
    ensures !NoneDoneLeft(TwoBlocks(262144), TwoBlocks(262144), Env(262144, {(1, 1)}))
    ensures FlushedDone(TwoBlocks(262144), TwoBlocks(262144)[..1], [Done(262144), Stale(262144)], 1, Env(262144, {(1, 1)}))
  {
    hide AllWellFormed, FlushedDone, NoneDoneLeft, TwoBlocks, Stale, Done, Tiny, IsRunList;
    StaleRank();
    TwoBlocksAreCached(262144);
    StaleFirst(262144);
    DoneFlushed(262144);
  }

  /** A list with an unflagged run in front flushes nothing, and leaves any flagged run. */
  lemma NothingFlushed(bs: seq<CacheBlock>, rs: seq<RunInfo>, env: Env, i: nat)
    requires IsRunList(bs, rs, env) && 0 < i < |rs| && !IsFlagged(rs[0]) && IsFlagged(rs[i])
    ensures FlushedDone(bs, bs, rs, 0, env) && !NoneDoneLeft(bs, bs, env)
  {
    hide Describes, StopsAt;
    assert rs[..0] == [];
    assert IsRun(bs, rs[i], env) && rs[i].pos <= rs[i].pos < rs[i].pos + rs[i].len;
  }

  lemma DoneFlushed(now: int)
    requires 0 <= now && Done(now).rank == Stale(now).rank
    ensures |TwoBlocks(now)| == 2
    ensures FlushedDone(TwoBlocks(now), TwoBlocks(now)[..1], [Done(now), Stale(now)], 1, Env(now, {(1, 1)}))
  {
    hide IsRunList, Tiny;
    var bs, rs := TwoBlocks(now), [Done(now), Stale(now)];
    TwoRuns(now, rs);
    assert rs[..1] == [Done(now)];
    forall b
      ensures b in Named(bs, rs[..1]) <==> b == bs[1]
    {
      InNamed(bs, rs[..1], b);
    }
  }
}
