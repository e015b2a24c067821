/** The write-back block cache of cache.c: a sorted array of dirty blocks, grouped
    into runs that are ranked and flushed out of order.  The simple form it must
    agree with is one flat byte array per torrent. */
module BlockCache {
  import opened Geometry
  import opened Storage
  import opened Overlays
  import opened PtrArrays
  import opened CacheRuns
  import opened FlushedRuns
  import opened CacheAccess
  import Search

  class Cache {
    const blocks: PtrArray<CacheBlock>
    const disk: Disk
    /** the session's torrents, by id */
    const torrents: map<nat, Torrent>
    var maxBlocks: int
    var maxBytes: int
    var diskWrites: nat
    var diskWriteBytes: nat
    var cacheWrites: nat
    var cacheWriteBytes: nat

    ghost predicate Valid()
      reads disk, blocks, blocks.items
    {
      && blocks.Valid()
      && AllWellFormed(blocks.Contents(), torrents)
      && Backed()
    }

    /** The disk holds every torrent of the session. */
    ghost predicate Backed()
      reads disk
    {
      forall id | id in torrents :: torrents[id].uniqueId == id && disk.Backs(torrents[id])
    }

    /** What readers see: for every torrent of the session, one flat byte array. */
    ghost function View(): (v: map<nat, seq<byte>>)
      requires Valid()
      reads disk, blocks, blocks.items
      ensures v.Keys == torrents.Keys
      ensures forall id | id in v :: |v[id]| == torrents[id].totalSize
    {
      ViewOf(blocks.Contents(), torrents, Flats())
    }

    ghost function Flats(): (f: map<nat, seq<byte>>)
      requires Backed()
      reads disk
      ensures FlatsFit(torrents, f)
      ensures f.Keys == torrents.Keys
      ensures forall id | id in f :: |f[id]| == torrents[id].totalSize
    {
      map id | id in torrents :: disk.Flat(torrents[id])
    }

    /** tr_cacheNew */
    constructor (maxBytes: nat, disk: Disk, torrents: map<nat, Torrent>)
      requires forall id | id in torrents :: torrents[id].uniqueId == id && disk.Backs(torrents[id])
      ensures Valid() && fresh(blocks) && fresh(blocks.items) && blocks.Contents() == []
      ensures this.disk == disk && this.torrents == torrents && maxBlocks == maxBytes / MAX_BLOCK_SIZE
      ensures View() == map id | id in torrents :: disk.Flat(torrents[id])
    {
      this.blocks := new PtrArray<CacheBlock>();
      this.disk := disk;
      this.torrents := torrents;
      this.maxBytes := maxBytes;
      this.maxBlocks := maxBytes / MAX_BLOCK_SIZE;
      diskWrites, diskWriteBytes, cacheWrites, cacheWriteBytes := 0, 0, 0, 0;
      new;
      forall id | id in torrents
        ensures Overlay([], torrents[id], disk.Flat(torrents[id])) == disk.Flat(torrents[id])
      {
      }
    }

    /** getBlockRun: how many blocks continue contiguously from `pos`. */
    method GetBlockRun(pos: nat, env: Env) returns (info: RunInfo)
      requires blocks.Valid() && pos < blocks.count
      ensures info.pos == pos && Contiguous(blocks.Contents(), pos, info.len)
      ensures StopsAt(blocks.Contents(), pos, info.len)
      ensures Describes(blocks.Contents(), info.(rank := Rank(info, env)), env)
    {
      ghost var bs := blocks.Contents();
      var ref := blocks.items[pos];
      var i, block := pos, ref.block;
      while i < blocks.count && blocks.items[i].block == block && blocks.items[i].tor == ref.tor
        invariant pos <= i <= blocks.count
        invariant block == ref.block + (i - pos)
        invariant forall k | pos <= k < i :: bs[k].tor == ref.tor && bs[k].block == ref.block + (k - pos)
      {
        i, block := i + 1, block + 1;
      }
      var b := blocks.items[i - 1];
      info := RunInfo(pos, i - pos, 0, b.time, b.piece != ref.piece, (b.tor.uniqueId, b.piece) in env.complete);
    }

    /** The loop of calcRuns: the runs from left to right. */
    method FindRuns(runs: array<RunInfo>, env: Env) returns (n: nat)
      requires blocks.Valid() && blocks.count <= runs.Length
      modifies runs
      ensures n <= runs.Length && InOrder(blocks.Contents(), runs[..n], blocks.count, env)
      ensures SumLens(runs[..n]) == blocks.count
    {
      hide Describes, Rank, StopsAt, InOrder, SumLens, Contiguous;
      InOrderStarts(blocks.Contents(), env);
      n := 0;
      var pos := 0;
      assert runs[..n] == [];
      while pos < blocks.count
        invariant n <= pos <= blocks.count
        invariant pos == SumLens(runs[..n])
        invariant InOrder(blocks.Contents(), runs[..n], pos, env)
      {
        ghost var was := runs[..n];
        var run := GetBlockRun(pos, env);
        runs[n] := run.(rank := Rank(run, env));
        assert runs[..n + 1] == was + [runs[n]];
        InOrderExtends(blocks.Contents(), was, pos, runs[n], env);
        pos := pos + run.len;
        n := n + 1;
      }
    }

    /** calcRuns.  Writes at most as many entries as there are blocks. */
    method CalcRuns(runs: array<RunInfo>, env: Env) returns (n: nat)
      requires blocks.Valid() && blocks.count <= runs.Length
      modifies runs
      ensures n <= runs.Length && IsRunList(blocks.Contents(), runs[..n], env)
    {
      hide Describes, Rank, Contiguous, StopsAt, InOrder, DisjointRuns, MaximalRuns;
      n := FindRuns(runs, env);
      ghost var bs, unsorted := blocks.Contents(), runs[..n];
      var sorted := Search.QSort(runs[..n], (a: RunInfo, b: RunInfo) => b.rank <= a.rank);
      forall k | 0 <= k < n { runs[k] := sorted[k]; }
      assert runs[..n] == sorted;
      InOrderIsDisjoint(bs, unsorted, |bs|, env);
      SumLensPermutes(unsorted, sorted);
      DisjointPermutes(bs, unsorted, sorted, env);
    }

    /** The buffer flushContiguous fills: n blocks never overrun n * MAX_BLOCK_SIZE bytes. */
    method Gather(pos: nat, n: nat) returns (buf: array<byte>, walk: nat)
      requires blocks.Valid() && pos + n <= blocks.count
      requires forall i | pos <= i < pos + n :: |blocks.items[i].data| <= MAX_BLOCK_SIZE
      ensures fresh(buf) && walk <= buf.Length
      ensures buf[..walk] == RunData(blocks.Contents(), pos, n)
    {
      ghost var bs := blocks.Contents();
      buf := new byte[n * MAX_BLOCK_SIZE];
      walk := 0;
      for i := pos to pos + n
        invariant walk <= (i - pos) * MAX_BLOCK_SIZE
        invariant buf[..walk] == RunData(bs, pos, i - pos)
      {
        var data := blocks.items[i].data;
        forall k | 0 <= k < |data| { buf[walk + k] := data[k]; }
        assert buf[..walk + |data|] == buf[..walk] + data;
        walk := walk + |data|;
      }
    }

    /** The tr_ioWrite call of flushContiguous, as a write to one of the flat arrays. */
    method WriteOut(b: CacheBlock, buf: array<byte>, n: nat) returns (err: int)
      requires Backed() && Known(b.tor, torrents) && n <= buf.Length
      requires b.piece < b.tor.PieceCount() && Start(b) < b.tor.totalSize && Start(b) + n <= b.tor.totalSize
      modifies disk`files, buf
      ensures Backed()
      ensures disk.faulty == {} ==> err == 0
      ensures err == 0 ==>
        Flats() == old(Flats())[b.tor.uniqueId := Splice(old(Flats())[b.tor.uniqueId], Start(b), old(buf[..n]))]
    {
      hide Splice, Concat, Fits, Torrent.FilesAreContiguous;
      err := disk.ReadOrWritePiece(b.tor, Write, b.piece, b.offset, buf, n);
      assert Backed();
      assert forall id | id in torrents && id != b.tor.uniqueId :: Flats()[id] == old(Flats())[id];
    }

    /** flushContiguous: the blocks leave the cache, their bytes reach the disk, and
        as long as the disk works no reader can tell. */
    method FlushContiguous(pos: nat, n: nat) returns (err: int)
      requires Valid() && Contiguous(blocks.Contents(), pos, n)
      modifies this`diskWrites, this`diskWriteBytes, blocks, blocks.items, disk`files
      ensures Valid() && blocks.items == old(blocks.items)
      ensures blocks.Contents() == Without(old(blocks.Contents()), pos, n)
      ensures disk.faulty == {} ==> err == 0
      ensures err == 0 ==> View() == old(View())
      ensures diskWrites == old(diskWrites) + 1
      ensures diskWriteBytes == old(diskWriteBytes) + |RunData(old(blocks.Contents()), pos, n)|
    {
      hide AllWellFormed, Backed, RunData, Splice, ViewOf, FlatsFit;
      ghost var bs, flats := blocks.Contents(), Flats();
      ContiguousAbuts(bs, torrents, pos, n);
      BlockSizes(bs, torrents);
      AtRun(bs, torrents, pos);
      FlushKeepsAll(bs, torrents, pos, n, flats);
      var b := blocks.items[pos];
      assert b == bs[pos];
      var buf, walk := Gather(pos, n);
      blocks.Erase(pos, pos + n);
      err := WriteOut(b, buf, walk);
      diskWrites := diskWrites + 1;
      diskWriteBytes := diskWriteBytes + walk;
    }

    /** The inner loop of flushRuns. */
    static method Renumber(runs: array<RunInfo>, i: nat, n: nat)
      requires i < n <= runs.Length
      requires forall j | i < j < n && runs[i].pos < runs[j].pos :: runs[i].len <= runs[j].pos
      modifies runs
      ensures forall j | 0 <= j < runs.Length ::
        runs[j] == if i < j < n then Renumbered(old(runs[j]), old(runs[i])) else old(runs[j])
    {
      for j := i + 1 to n
        invariant forall k | 0 <= k < runs.Length ::
          runs[k] == if i < k < j then Renumbered(old(runs[k]), old(runs[i])) else old(runs[k])
      {
        if runs[j].pos > runs[i].pos {
          runs[j] := runs[j].(pos := runs[j].pos - runs[i].len);
        }
      }
    }

    /** flushRuns: flushes the first n runs in the order given, renumbering those still
        to come after each one.  Exactly the blocks the runs named at the start leave. */
    method FlushRuns(runs: array<RunInfo>, n: nat) returns (err: int)
      requires Valid() && n <= runs.Length && DisjointRuns(blocks.Contents(), runs[..n])
      modifies this`diskWrites, this`diskWriteBytes, blocks, blocks.items, disk`files, runs
      ensures Valid() && blocks.items == old(blocks.items)
      ensures disk.faulty == {} ==> err == 0
      ensures err == 0 ==> Dropped(old(blocks.Contents()), blocks.Contents(), old(runs[..n]))
      ensures err == 0 ==> blocks.count + SumLens(old(runs[..n])) == old(blocks.count)
      ensures err == 0 ==> View() == old(View())
      ensures err == 0 ==> diskWrites == old(diskWrites) + n
    {
      hide AllWellFormed, Backed, RunData, ViewOf, Pending, DisjointRuns, Dropped, Contiguous, Overlaps;
      ghost var bs, rs := blocks.Contents(), runs[..n];
      PendingStarts(bs, rs);
      err := 0;
      var i := 0;
      while err == 0 && i < n
        invariant i <= n && Valid() && blocks.items == old(blocks.items)
        invariant disk.faulty == {} ==> err == 0
        invariant err == 0 ==> Pending(bs, rs, blocks.Contents(), runs[..n], i)
        invariant err == 0 ==> View() == old(View())
        invariant err == 0 ==> diskWrites == old(diskWrites) + i
      {
        ghost var cs, qs := blocks.Contents(), runs[..n];
        PendingRun(bs, rs, cs, qs, i);
        WellFormedIsSorted(cs, torrents);
        err := FlushContiguous(runs[i].pos, runs[i].len);
        Renumber(runs, i, n);
        PendingStep(bs, rs, cs, qs, runs[..n], i);
        i := i + 1;
      }
      PendingEnds(bs, rs, blocks.Contents(), runs[..n], i);
    }

    /** cacheTrim: over the limit, the highest-ranked runs go until at least a quarter
        of the limit, and at least one block, has gone.  The run list never runs out. */
    method CacheTrim(env: Env) returns (err: int)
      requires Valid() && 0 <= maxBlocks
      modifies this`diskWrites, this`diskWriteBytes, blocks, blocks.items, disk`files
      ensures Valid() && blocks.items == old(blocks.items)
      ensures disk.faulty == {} ==> err == 0
      ensures err == 0 ==> View() == old(View())
      ensures old(blocks.count) <= maxBlocks ==> err == 0 && blocks.Contents() == old(blocks.Contents())
      ensures err == 0 && maxBlocks < old(blocks.count) ==>
        exists rs, n :: TrimmedTo(old(blocks.Contents()), blocks.Contents(), rs, n, env, maxBlocks)
      ensures err == 0 && maxBlocks < old(blocks.count) ==> blocks.count < old(blocks.count) - maxBlocks / 4
    {
      hide AllWellFormed, Backed, ViewOf, DisjointRuns, Dropped, Describes, MaximalRuns;
      err := 0;
      if blocks.count > maxBlocks {
        var cacheCutoff := CacheCutoff(maxBlocks);
        var runs := new RunInfo[blocks.count];
        var n := CalcRuns(runs, env);
        ghost var bs, rs := blocks.Contents(), runs[..n];
        var i, j := 0, 0;
        while j < cacheCutoff
          invariant i <= n && j == SumLens(rs[..i])
          invariant 0 < i ==> SumLens(rs[..i - 1]) < cacheCutoff
          modifies {}
          decreases n - i
        {
          assert i < n by { assert rs[..n] == rs; }
          SumLensStep(rs, i);
          j := j + runs[i].len;
          i := i + 1;
        }
        assert runs[..i] == rs[..i];
        PrefixDisjoint(bs, rs, i);
        err := FlushRuns(runs, i);
        assert err == 0 ==> TrimmedTo(bs, blocks.Contents(), rs, i, env, maxBlocks);
      }
    }

    /** tr_cacheSetLimit */
    method SetLimit(maxBytes: nat, env: Env) returns (err: int)
      requires Valid()
      modifies this, blocks, blocks.items, disk`files
      ensures Valid() && blocks.items == old(blocks.items)
      ensures this.maxBytes == maxBytes && maxBlocks == maxBytes / MAX_BLOCK_SIZE
      ensures disk.faulty == {} ==> err == 0
      ensures err == 0 ==> View() == old(View())
      ensures err == 0 ==> blocks.count <= maxBlocks || blocks.count < old(blocks.count) - maxBlocks / 4
    {
      hide AllWellFormed, Backed, ViewOf, TrimmedTo, CacheCutoff, Sorted;
      this.maxBytes := maxBytes;
      maxBlocks := maxBytes / MAX_BLOCK_SIZE;
      err := CacheTrim(env);
    }

    /** findBlock */
    method FindBlock(id: nat, block: nat) returns (pos: int)
      requires blocks.Valid() && Sorted(blocks.Contents())
      ensures -1 <= pos < blocks.count
      ensures 0 <= pos ==> Compare(blocks.Contents()[pos], id, block) == 0
      ensures pos < 0 ==> forall i | 0 <= i < blocks.count :: Compare(blocks.Contents()[i], id, block) != 0
    {
      var cmp := (b: CacheBlock) => Compare(b, id, block);
      SortedIsSearchable(blocks.Contents(), cmp, id, block);
      pos := blocks.FindSorted(cmp);
    }

    /** findBlockPos */
    method FindBlockPos(id: nat, block: nat) returns (pos: nat)
      requires blocks.Valid() && Sorted(blocks.Contents())
      ensures SplitsAt(blocks.Contents(), id, block, pos)
    {
      var cmp := (b: CacheBlock) => Compare(b, id, block);
      SortedIsSearchable(blocks.Contents(), cmp, id, block);
      var exact;
      pos, exact := blocks.LowerBound(cmp);
    }

    /** The position of the block with `key`'s torrent and number; `key` goes in if there is none. */
    method FindOrInsert(key: CacheBlock) returns (pos: nat)
      requires blocks.Valid() && Sorted(blocks.Contents())
      modifies blocks, blocks.items
      ensures blocks.Valid() && (blocks.items == old(blocks.items) || fresh(blocks.items))
      ensures pos < blocks.count <= old(blocks.count) + 1
      ensures FoundOrInserted(old(blocks.Contents()), blocks.Contents(), key, pos)
    {
      hide Sorted, Compare;
      var k := FindBlock(key.tor.uniqueId, key.block);
      if 0 <= k { return k; }
      var cmp := (b: CacheBlock) => Compare(b, key.tor.uniqueId, key.block);
      SortedIsSearchable(blocks.Contents(), cmp, key.tor.uniqueId, key.block);
      pos := blocks.InsertSorted(key, cmp);
    }

    /** The lookup, insertion and overwriting in tr_cacheWriteBlock. */
    method StoreBlock(tor: Torrent, piece: nat, offset: nat, data: seq<byte>, now: int)
      requires Valid() && Known(tor, torrents)
      requires AtBlock(tor, piece, offset, |data|, tor.BlockOf(piece, offset))
      modifies blocks, blocks.items
      ensures Valid() && (blocks.items == old(blocks.items) || fresh(blocks.items))
      ensures blocks.count <= old(blocks.count) + 1
      ensures View() == WriteTo(old(View()), tor.uniqueId, tor.PieceOffset(piece, offset), data)
    {
      hide AllWellFormed, AtBlock, FlatsFit, ViewOf, WriteTo, Backed, Sorted, Stored, FoundOrInserted;
      ghost var bs, flats := blocks.Contents(), Flats();
      WellFormedIsSorted(bs, torrents);
      var block := tor.BlockOf(piece, offset);
      var pos := FindOrInsert(CacheBlock(tor, piece, offset, |data|, now, block, []));
      ghost var cs := blocks.Contents();
      blocks.items[pos] := blocks.items[pos].(time := now, data := data);
      assert blocks.Contents() == cs[pos := cs[pos].(time := now, data := data)];
      StoreKeepsWellFormed(bs, cs, blocks.Contents(), pos, torrents, tor, piece, offset, block, data, now);
      StoreUpdatesView(bs, blocks.Contents(), pos, torrents, flats);
    }

    /** tr_cacheWriteBlock: takes `length` bytes from `writeme` for one whole block. */
    method WriteBlock(tor: Torrent, piece: nat, offset: nat, length: nat, writeme: seq<byte>, env: Env) returns (err: int)
      requires Valid() && Known(tor, torrents) && 0 <= maxBlocks
      requires AtBlock(tor, piece, offset, length, tor.BlockOf(piece, offset)) && length <= |writeme|
      modifies this, blocks, blocks.items, disk`files
      ensures Valid() && (blocks.items == old(blocks.items) || fresh(blocks.items))
      ensures maxBlocks == old(maxBlocks)
      ensures disk.faulty == {} ==> err == 0
      ensures err == 0 ==>
        View() == WriteTo(old(View()), tor.uniqueId, tor.PieceOffset(piece, offset), writeme[..length])
      ensures err == 0 && old(blocks.count) <= maxBlocks ==> blocks.count <= maxBlocks
      ensures cacheWrites == old(cacheWrites) + 1 && cacheWriteBytes == old(cacheWriteBytes) + length
    {
      hide AllWellFormed, Backed, ViewOf, Splice, AtBlock, TrimmedTo;
      AtBlockNames(tor, piece, offset, length, tor.BlockOf(piece, offset));
      StoreBlock(tor, piece, offset, writeme[..length], env.now);
      cacheWrites := cacheWrites + 1;
      cacheWriteBytes := cacheWriteBytes + length;
      err := CacheTrim(env);
    }

    /** The tr_ioRead call of tr_cacheReadBlock, as a read of one of the flat arrays. */
    method ReadIn(tor: Torrent, piece: nat, offset: nat, len: nat, setme: array<byte>) returns (err: int)
      requires Backed() && Known(tor, torrents) && len <= setme.Length && piece < tor.PieceCount()
      requires tor.PieceOffset(piece, offset) < tor.totalSize && tor.PieceOffset(piece, offset) + len <= tor.totalSize
      modifies setme, disk`files
      ensures Backed() && Flats() == old(Flats())
      ensures disk.faulty == {} ==> err == 0
      ensures err == 0 ==> setme[..len] == Flats()[tor.uniqueId][tor.PieceOffset(piece, offset)..][..len]
      ensures err == 0 ==> setme[len..] == old(setme[len..])
    {
      hide Concat, Fits;
      err := disk.ReadOrWritePiece(tor, Read, piece, offset, setme, len);
      assert disk.files == old(disk.files);
      assert setme[..][..len] == setme[..len] && setme[..][len..] == setme[len..];
    }

    /** tr_cacheReadBlock, at any address: within one block, the bytes last written there. */
    method ReadBlock(tor: Torrent, piece: nat, offset: nat, len: nat, setme: array<byte>) returns (err: int)
      requires Valid() && Known(tor, torrents) && len <= setme.Length && InTorrent(tor, piece, offset, len)
      modifies setme, disk`files
      ensures Valid() && View() == old(View())
      ensures disk.faulty == {} ==> err == 0
      ensures tor.uniqueId in Flats() && |Flats()[tor.uniqueId]| == tor.totalSize
      ensures err == 0 ==>
        setme[..len] == Served(blocks.Contents(), tor, Flats()[tor.uniqueId], piece, offset, old(setme[..len]))
      ensures err == 0 && WithinBlock(tor, piece, offset, len) ==>
        setme[..len] == ReadFrom(View(), tor.uniqueId, tor.PieceOffset(piece, offset), len)
      ensures err == 0 ==> setme[len..] == old(setme[len..])
    {
      hide AllWellFormed, FlatsFit, ViewOf, ReadFrom, Backed, Sorted, Compare, Served, WithinBlock,
        Torrent.BlockOf, Torrent.BlockBytes, Torrent.PieceOffset, Torrent.BlockCount, Torrent.FilesAreContiguous;
      ghost var bs, flats, before := blocks.Contents(), Flats(), setme[..len];
      WellFormedIsSorted(bs, torrents);
      FlatFits(torrents, flats, tor);
      ReadsRight(bs, torrents, flats, tor, piece, offset, before);
      var pos := FindBlock(tor.uniqueId, tor.BlockOf(piece, offset));
      assert blocks.Contents() == bs;
      err := 0;
      if 0 <= pos {
        ServedFromCache(bs, pos, tor, flats[tor.uniqueId], piece, offset, before);
        var data := blocks.items[pos].data;
        assert data == bs[pos].data;
        forall k | 0 <= k < len && k < |data| { setme[k] := data[k]; }
        assert setme[..len] == CopiedOut(data, before);
      } else {
        ServedFromDisk(bs, tor, flats[tor.uniqueId], piece, offset, before);
        err := ReadIn(tor, piece, offset, len, setme);
      }
    }

    /** The loop of tr_cacheFlushDone: the leading flagged runs, their ranks raised. */
    static method RaiseDone(runs: array<RunInfo>, n: nat) returns (i: nat)
      requires n <= runs.Length
      modifies runs
      ensures i <= n && (i < n ==> !IsFlagged(old(runs[i])))
      ensures forall k | 0 <= k < i :: IsFlagged(old(runs[k])) && runs[k] == old(runs[k]).(rank := runs[k].rank)
    {
      i := 0;
      while i < n && (runs[i].isPieceDone || runs[i].isMultiPiece)
        invariant i <= n
        invariant forall k | 0 <= k < n :: runs[k] == if k < i then old(runs[k]).(rank := runs[k].rank) else old(runs[k])
        invariant forall k | 0 <= k < i :: IsFlagged(old(runs[k]))
      {
        runs[i] := runs[i].(rank := OrFlag(runs[i].rank, SESSIONFLAG));
        i := i + 1;
      }
    }

    /** tr_cacheFlushDone: of the ranked runs, the leading ones that are complete or span pieces. */
    method FlushDone(env: Env) returns (err: int)
      requires Valid()
      modifies this`diskWrites, this`diskWriteBytes, blocks, blocks.items, disk`files
      ensures Valid() && blocks.items == old(blocks.items)
      ensures disk.faulty == {} ==> err == 0
      ensures err == 0 ==> View() == old(View())
      ensures err == 0 ==> blocks.count <= old(blocks.count)
      ensures err == 0 ==> exists rs, n ::
        FlushedDone(old(blocks.Contents()), blocks.Contents(), rs, n, env)
      ensures err == 0 && Separated(old(blocks.Contents()), env) ==>
        NoneDoneLeft(old(blocks.Contents()), blocks.Contents(), env)
    {
      hide AllWellFormed, Backed, ViewOf, DisjointRuns, Dropped, Describes, MaximalRuns, Separated, NoneDoneLeft, FlushedDone, IsRunList;
      err := 0;
      if blocks.count > 0 {
        var runs := new RunInfo[blocks.count];
        var n := CalcRuns(runs, env);
        ghost var bs, rs := blocks.Contents(), runs[..n];
        var i := RaiseDone(runs, n);
        DoneRuns(bs, rs, i, env);
        ghost var qs := runs[..i];
        ReRanked(bs, rs[..i], qs);
        err := FlushRuns(runs, i);
        if err == 0 {
          ReRankedDrops(bs, blocks.Contents(), rs[..i], qs);
          if Separated(bs, env) {
            FlushDoneReachesAll(bs, blocks.Contents(), rs, i, env);
          }
        }
      } else {
        NothingDone(blocks.Contents(), env);
        NothingCached(env);
      }
    }

    /** One turn of that loop: of the blocks `bs`, those from pos up to m are gone. */
    method FlushNext(pos: nat, tor: Torrent, last: int, env: Env, ghost bs: seq<CacheBlock>, ghost m: nat)
      returns (err: int, ghost next: nat)
      requires Valid() && pos < blocks.count && blocks.items[pos].tor == tor && blocks.items[pos].block <= last
      requires Emptied(bs, blocks.Contents(), tor, pos, m, last)
      modifies this`diskWrites, this`diskWriteBytes, blocks, blocks.items, disk`files
      ensures Valid() && blocks.items == old(blocks.items)
      ensures disk.faulty == {} ==> err == 0
      ensures blocks.count < old(blocks.count)
      ensures err == 0 ==> View() == old(View())
      ensures err == 0 ==> Emptied(bs, blocks.Contents(), tor, pos, next, last)
    {
      hide AllWellFormed, Backed, ViewOf, Sorted, Describes, StopsAt, RunData, Emptied;
      ghost var cs := blocks.Contents();
      var run := GetBlockRun(pos, env);
      EmptiedMore(bs, cs, tor, pos, m, run.len, last);
      err := FlushContiguous(pos, run.len);
      next := m + run.len;
    }

    /** The loop shared by tr_cacheFlushTorrent and tr_cacheFlushFile: flush runs at `pos`
        for as long as the block there is this torrent's and in [first, last]. */
    method FlushFrom(pos: nat, tor: Torrent, first: nat, last: int, env: Env) returns (err: int)
      requires Valid() && Known(tor, torrents) && SplitsAt(blocks.Contents(), tor.uniqueId, first, pos)
      modifies this`diskWrites, this`diskWriteBytes, blocks, blocks.items, disk`files
      ensures Valid() && blocks.items == old(blocks.items)
      ensures disk.faulty == {} ==> err == 0
      ensures err == 0 ==> View() == old(View())
      ensures err == 0 ==> blocks.count <= old(blocks.count)
      ensures err == 0 ==> RangeGone(old(blocks.Contents()), blocks.Contents(), tor, first, last)
    {
      hide AllWellFormed, Backed, ViewOf, Sorted, RangeGone, Emptied, SplitsAt, Torrent.FilesAreContiguous, Known;
      ghost var bs, m := blocks.Contents(), pos;
      NothingEmptied(bs, tor, first, pos, last);
      err := 0;
      while err == 0 && pos < blocks.count
        && blocks.items[pos].tor == tor && first <= blocks.items[pos].block <= last
        invariant Valid() && blocks.items == old(blocks.items)
        invariant disk.faulty == {} ==> err == 0
        invariant err == 0 ==> View() == old(View()) && blocks.count <= old(blocks.count)
        invariant err == 0 ==> Emptied(bs, blocks.Contents(), tor, pos, m, last)
        decreases blocks.count
      {
        err, m := FlushNext(pos, tor, last, env, bs, m);
      }
      if err == 0 {
        FlushedFrom(bs, blocks.Contents(), torrents, pos, m, tor, first, last);
      }
    }

    /** tr_cacheFlushTorrent */
    method FlushTorrent(tor: Torrent, env: Env) returns (err: int)
      requires Valid() && Known(tor, torrents)
      modifies this`diskWrites, this`diskWriteBytes, blocks, blocks.items, disk`files
      ensures Valid() && blocks.items == old(blocks.items)
      ensures disk.faulty == {} ==> err == 0
      ensures err == 0 ==> View() == old(View())
      ensures err == 0 ==> blocks.count <= old(blocks.count)
      ensures err == 0 ==> forall b :: b in blocks.Contents() <==> b in old(blocks.Contents()) && b.tor != tor
    {
      hide WellFormed, Backed, ViewOf;
      ghost var bs := blocks.Contents();
      BlockNumbersInRange(bs, torrents);
      var pos := FindBlockPos(tor.uniqueId, 0);
      err := FlushFrom(pos, tor, 0, tor.BlockCount(), env);
    }

    /** tr_cacheFlushFile */
    method FlushFile(tor: Torrent, file: nat, env: Env) returns (err: int)
      requires Valid() && Known(tor, torrents) && file < |tor.files|
      modifies this`diskWrites, this`diskWriteBytes, blocks, blocks.items, disk`files
      ensures Valid() && blocks.items == old(blocks.items)
      ensures disk.faulty == {} ==> err == 0
      ensures err == 0 ==> View() == old(View())
      ensures err == 0 ==> blocks.count <= old(blocks.count)
      ensures err == 0 && 0 < tor.files[file].length ==> FileGone(old(blocks.Contents()), blocks.Contents(), tor, file)
      ensures err == 0 && tor.files[file].length == 0 ==>
        PlaceGone(old(blocks.Contents()), blocks.Contents(), tor, tor.files[file].offset)
    {
      hide WellFormed, Backed, ViewOf, RangeGone, FileGone, PlaceGone;
      ghost var bs := blocks.Contents();
      var pos := FindBlockPos(tor.uniqueId, tor.FileFirst(file));
      err := FlushFrom(pos, tor, tor.FileFirst(file), tor.FileLast(file), env);
      if err == 0 {
        FileIsFlushed(bs, blocks.Contents(), torrents, tor, file);
      }
    }
  }

  // ----- whole runs -----

  /** One call on the cache, naming its torrent by id. */
  datatype Op =
    | WriteOp(id: nat, piece: nat, offset: nat, data: seq<byte>)
    | ReadOp(id: nat, piece: nat, offset: nat, len: nat)
    | FlushDoneOp
    | FlushFileOp(id: nat, file: nat)
    | FlushTorrentOp(id: nat)
    | SetLimitOp(maxBytes: nat)

  /** Operations on known torrents that write whole aligned blocks and read inside one from
      its start.  Peers may ask for others: ReadIsRightExactly and WriteIsShownExactly say what
      becomes of those. */
  ghost predicate Legal(op: Op, torrents: map<nat, Torrent>)
  {
    match op
    case WriteOp(id, piece, offset, data) =>
      id in torrents && Known(torrents[id], torrents)
      && AtBlock(torrents[id], piece, offset, |data|, torrents[id].BlockOf(piece, offset))
    case ReadOp(id, piece, offset, len) =>
      id in torrents && Known(torrents[id], torrents)
      && InTorrent(torrents[id], piece, offset, len) && WithinBlock(torrents[id], piece, offset, len)
    case FlushFileOp(id, file) => id in torrents && Known(torrents[id], torrents) && file < |torrents[id].files|
    case FlushTorrentOp(id) => id in torrents && Known(torrents[id], torrents)
    case _ => true
  }

  /** The flat arrays after an operation: only writes change them. */
  ghost function After(v: map<nat, seq<byte>>, op: Op, torrents: map<nat, Torrent>): map<nat, seq<byte>>
  {
    match op
    case WriteOp(id, piece, offset, data) =>
      if id in torrents then WriteTo(v, id, torrents[id].PieceOffset(piece, offset), data) else v
    case _ => v
  }

  /** What an operation reads from the flat arrays. */
  ghost function Output(v: map<nat, seq<byte>>, op: Op, torrents: map<nat, Torrent>): seq<byte>
  {
    match op
    case ReadOp(id, piece, offset, len) =>
      if id in torrents then ReadFrom(v, id, torrents[id].PieceOffset(piece, offset), len) else []
    case _ => []
  }

  ghost function AfterAll(v: map<nat, seq<byte>>, ops: seq<Op>, torrents: map<nat, Torrent>): map<nat, seq<byte>>
  {
    if ops == [] then v else After(AfterAll(v, ops[..|ops| - 1], torrents), ops[|ops| - 1], torrents)
  }

  /** Carries out one operation; the environment may be anything. */
  method Perform(c: Cache, op: Op, env: Env) returns (err: int, out: seq<byte>)
    requires c.Valid() && 0 <= c.maxBlocks && Legal(op, c.torrents)
    requires c.disk.faulty == {}
    modifies c, c.blocks, c.blocks.items, c.disk`files
    ensures c.Valid() && 0 <= c.maxBlocks && (c.blocks.items == old(c.blocks.items) || fresh(c.blocks.items))
    ensures err == 0
    ensures c.View() == After(old(c.View()), op, c.torrents) && out == Output(old(c.View()), op, c.torrents)
    ensures !op.SetLimitOp? ==> c.maxBlocks == old(c.maxBlocks) && (old(c.blocks.count) <= c.maxBlocks ==> c.blocks.count <= c.maxBlocks)
  {
    hide AllWellFormed, Overlay, ViewOf, WriteTo, ReadFrom, AtBlock, Served, WithinBlock, FlushedDone, FileGone, PlaceGone, NoneDoneLeft, Separated,
      Cache.Backed;
    out := [];
    match op
    case WriteOp(id, piece, offset, data) =>
      assert data[..|data|] == data;
      err := c.WriteBlock(c.torrents[id], piece, offset, |data|, data, env);
    case ReadOp(id, piece, offset, len) =>
      var setme := new byte[len];
      err := c.ReadBlock(c.torrents[id], piece, offset, len, setme);
      out := setme[..len];
    case FlushDoneOp => err := c.FlushDone(env);
    case FlushFileOp(id, file) => err := c.FlushFile(c.torrents[id], file, env);
    case FlushTorrentOp(id) => err := c.FlushTorrent(c.torrents[id], env);
    case SetLimitOp(maxBytes) => err := c.SetLimit(maxBytes, env);
  }

  /** Any run of operations, under any clock and any pieces becoming complete meanwhile,
      reads exactly what a flat byte array per torrent would give, and while the limit
      stands the cache stays within it. */
  method PerformAll(c: Cache, ops: seq<Op>, envs: seq<Env>) returns (outs: seq<seq<byte>>)
    requires c.Valid() && 0 <= c.maxBlocks && c.disk.faulty == {}
    requires |envs| == |ops| && forall i | 0 <= i < |ops| :: Legal(ops[i], c.torrents)
    modifies c, c.blocks, c.blocks.items, c.disk`files
    ensures c.Valid() && c.View() == AfterAll(old(c.View()), ops, c.torrents)
    ensures |outs| == |ops| && forall i | 0 <= i < |ops| ::
      outs[i] == Output(AfterAll(old(c.View()), ops[..i], c.torrents), ops[i], c.torrents)
    ensures (forall i | 0 <= i < |ops| :: !ops[i].SetLimitOp?) && old(c.blocks.count <= c.maxBlocks)
      ==> c.blocks.count <= c.maxBlocks
  {
    hide AllWellFormed, Overlay, ViewOf, After, Output, Legal;
    outs := [];
    for n := 0 to |ops|
      invariant c.Valid() && 0 <= c.maxBlocks && (c.blocks.items == old(c.blocks.items) || fresh(c.blocks.items))
      invariant c.View() == AfterAll(old(c.View()), ops[..n], c.torrents)
      invariant |outs| == n && forall i | 0 <= i < n ::
        outs[i] == Output(AfterAll(old(c.View()), ops[..i], c.torrents), ops[i], c.torrents)
      invariant (forall i | 0 <= i < |ops| :: !ops[i].SetLimitOp?) && old(c.blocks.count <= c.maxBlocks)
        ==> c.blocks.count <= c.maxBlocks
    {
      var err, out := Perform(c, ops[n], envs[n]);
      outs := outs + [out];
      assert ops[..n + 1][..n] == ops[..n];
    }
    assert ops[..|ops|] == ops;
  }
}
