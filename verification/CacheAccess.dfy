/** What tr_cacheReadBlock and tr_cacheWriteBlock do with addresses that a peer chose: they
    look a block up by its number, so the address within the block is lost. */
module CacheAccess {
  import opened Geometry
  import opened Storage
  import opened Overlays
  import opened CacheRuns

  ghost predicate IsAt(bs: seq<CacheBlock>, i: int, tor: Torrent, block: nat)
  {
    0 <= i < |bs| && Compare(bs[i], tor.uniqueId, block) == 0
  }

  /** evbuffer_copyout into a buffer: no more than there is. */
  function CopiedOut(data: seq<byte>, before: seq<byte>): seq<byte>
  {
    if |before| <= |data| then data[..|before|] else data + before[|data|..]
  }

  /** What tr_cacheReadBlock leaves in its caller's buffer: the leading bytes of the cached
      block that the address falls in, and what the disk has there if it is not cached. */
  ghost function Served(bs: seq<CacheBlock>, tor: Torrent, flat: seq<byte>, piece: nat, offset: nat, before: seq<byte>): seq<byte>
    requires 0 < tor.blockSize && tor.PieceOffset(piece, offset) + |before| <= |flat|
  {
    if exists i :: IsAt(bs, i, tor, tor.BlockOf(piece, offset)) then
      var i :| IsAt(bs, i, tor, tor.BlockOf(piece, offset));
      CopiedOut(bs[i].data, before)
    else flat[tor.PieceOffset(piece, offset)..][..|before|]
  }

  /** The bytes asked for begin a block and do not go past its end. */
  predicate WithinBlock(tor: Torrent, piece: nat, offset: nat, len: nat)
    requires 0 < tor.blockSize
  {
    tor.PieceOffset(piece, offset) % tor.blockSize == 0 && len <= tor.BlockBytes(tor.BlockOf(piece, offset))
  }

  /** The address lies in the torrent, with its bytes. */
  predicate InTorrent(tor: Torrent, piece: nat, offset: nat, len: nat)
    requires 0 < tor.pieceSize
  {
    piece < tor.PieceCount() && tor.PieceOffset(piece, offset) < tor.totalSize
    && tor.PieceOffset(piece, offset) + len <= tor.totalSize
  }

  // ----- where an address falls -----

  /** An address at the start of a block. */
  lemma BlockAddress(tor: Torrent, block: nat) returns (piece: nat, offset: nat)
    requires tor.Valid() && block < tor.BlockCount()
    ensures AtBlock(tor, piece, offset, tor.BlockBytes(block), block)
  {
    var n, size := tor.BlockCountInPiece(), tor.blockSize;
    BlockHasPiece(tor, block);
    PieceIsBlocks(tor);
    piece, offset := block / n, size * (block % n);
    MulAssoc(piece, size, n);
    assert block == piece * n + block % n;
    assert size * block == size * (piece * n) + size * (block % n);
  }

  /** A cache of one block. */
  lemma OneBlock(torrents: map<nat, Torrent>, tor: Torrent, block: nat, data: seq<byte>) returns (b: CacheBlock)
    requires Known(tor, torrents) && block < tor.BlockCount() && |data| == tor.BlockBytes(block)
    ensures AllWellFormed([b], torrents) && Start(b) == tor.blockSize * block
    ensures b.tor == tor && b.block == block && b.data == data
  {
    var piece, offset := BlockAddress(tor, block);
    b := CacheBlock(tor, piece, offset, |data|, 0, block, data);
  }

  // ----- reads -----

  lemma ServedFromCache(bs: seq<CacheBlock>, i: nat, tor: Torrent, flat: seq<byte>, piece: nat, offset: nat, before: seq<byte>)
    requires Sorted(bs) && 0 < tor.blockSize && IsAt(bs, i, tor, tor.BlockOf(piece, offset))
    requires tor.PieceOffset(piece, offset) + |before| <= |flat|
    ensures Served(bs, tor, flat, piece, offset, before) == CopiedOut(bs[i].data, before)
  {
    hide Torrent.BlockOf, Torrent.PieceOffset, CopiedOut;
    forall j | IsAt(bs, j, tor, tor.BlockOf(piece, offset))
      ensures i == j
    {
      IsAtOnce(bs, i, j, tor, tor.BlockOf(piece, offset));
    }
  }

  lemma ServedFromDisk(bs: seq<CacheBlock>, tor: Torrent, flat: seq<byte>, piece: nat, offset: nat, before: seq<byte>)
    requires 0 < tor.blockSize && tor.PieceOffset(piece, offset) + |before| <= |flat|
    requires forall i | 0 <= i < |bs| :: Compare(bs[i], tor.uniqueId, tor.BlockOf(piece, offset)) != 0
    ensures Served(bs, tor, flat, piece, offset, before) == flat[tor.PieceOffset(piece, offset)..][..|before|]
  {
  }

  lemma IsAtOnce(bs: seq<CacheBlock>, i: int, j: int, tor: Torrent, block: nat)
    requires Sorted(bs) && IsAt(bs, i, tor, block) && IsAt(bs, j, tor, block)
    ensures i == j
  {
  }

  /** Within one block, the caller gets what the view holds. */
  lemma WithinBlockIsRight(bs: seq<CacheBlock>, torrents: map<nat, Torrent>, flats: map<nat, seq<byte>>,
                           tor: Torrent, piece: nat, offset: nat, before: seq<byte>)
    requires AllWellFormed(bs, torrents) && FlatsFit(torrents, flats) && Known(tor, torrents)
    requires InTorrent(tor, piece, offset, |before|) && WithinBlock(tor, piece, offset, |before|)
    ensures Served(bs, tor, flats[tor.uniqueId], piece, offset, before)
      == ReadFrom(ViewOf(bs, torrents, flats), tor.uniqueId, tor.PieceOffset(piece, offset), |before|)
  {
    hide AllWellFormed, FlatsFit, ViewOf, ReadFrom, Compare, Sorted, Torrent.BlockOf, Torrent.BlockBytes,
      Torrent.PieceOffset, Torrent.BlockCount, Torrent.FilesAreContiguous;
    FlatFits(torrents, flats, tor);
    var block, flat := tor.BlockOf(piece, offset), flats[tor.uniqueId];
    AddressFalls(tor, piece, offset);
    assert AtBlock(tor, piece, offset, tor.BlockBytes(block), block);
    if i :| IsAt(bs, i, tor, block) {
      WellFormedIsSorted(bs, torrents);
      ServedFromCache(bs, i, tor, flat, piece, offset, before);
      CachedHit(bs, torrents, flats, tor, piece, offset, block, |before|, i);
    } else {
      forall i | 0 <= i < |bs|
        ensures Compare(bs[i], tor.uniqueId, block) != 0
      {
        assert !IsAt(bs, i, tor, block);
      }
      CachedMiss(bs, torrents, flats, tor, piece, offset, block, |before|);
    }
  }

  lemma FlatFits(torrents: map<nat, Torrent>, flats: map<nat, seq<byte>>, tor: Torrent)
    requires FlatsFit(torrents, flats) && Known(tor, torrents)
    ensures tor.uniqueId in flats && |flats[tor.uniqueId]| == tor.totalSize
  {
  }

  lemma ReadsRight(bs: seq<CacheBlock>, torrents: map<nat, Torrent>, flats: map<nat, seq<byte>>,
                   tor: Torrent, piece: nat, offset: nat, before: seq<byte>)
    requires AllWellFormed(bs, torrents) && FlatsFit(torrents, flats) && Known(tor, torrents)
    requires InTorrent(tor, piece, offset, |before|)
    ensures WithinBlock(tor, piece, offset, |before|) ==>
      Served(bs, tor, flats[tor.uniqueId], piece, offset, before)
        == ReadFrom(ViewOf(bs, torrents, flats), tor.uniqueId, tor.PieceOffset(piece, offset), |before|)
  {
    hide AllWellFormed, Served, ViewOf, ReadFrom;
    if WithinBlock(tor, piece, offset, |before|) {
      WithinBlockIsRight(bs, torrents, flats, tor, piece, offset, before);
    }
  }

  /** Whatever the cache and the disk hold, a read at this address gets what the view holds. */
  ghost predicate AlwaysRight(torrents: map<nat, Torrent>, tor: Torrent, piece: nat, offset: nat, len: nat)
    requires Known(tor, torrents) && InTorrent(tor, piece, offset, len)
  {
    forall bs, flats, before | AllWellFormed(bs, torrents) && FlatsFit(torrents, flats) && |before| == len ::
      Served(bs, tor, flats[tor.uniqueId], piece, offset, before)
        == ReadFrom(ViewOf(bs, torrents, flats), tor.uniqueId, tor.PieceOffset(piece, offset), len)
  }

  function Blank(torrents: map<nat, Torrent>): map<nat, seq<byte>>
  {
    map id | id in torrents :: seq(torrents[id].totalSize, i => 0)
  }

  /** One cached block differs from a blank disk at one of the bytes asked for, and the caller
      is not served it. */
  lemma ServedWrong(torrents: map<nat, Torrent>, tor: Torrent, piece: nat, offset: nat, before: seq<byte>, b: CacheBlock, k: nat)
    requires Known(tor, torrents) && InTorrent(tor, piece, offset, |before|) && forall id | id in torrents :: torrents[id].uniqueId == id
    requires AllWellFormed([b], torrents) && b.tor == tor && k < |before|
    requires Start(b) <= tor.PieceOffset(piece, offset) + k < End(b)
    requires |Served([b], tor, Blank(torrents)[tor.uniqueId], piece, offset, before)| == |before|
    requires Served([b], tor, Blank(torrents)[tor.uniqueId], piece, offset, before)[k]
      != b.data[tor.PieceOffset(piece, offset) + k - Start(b)]
    ensures !AlwaysRight(torrents, tor, piece, offset, |before|)
  {
    hide AllWellFormed, Served, Torrent.PieceOffset, Torrent.FilesAreContiguous, Torrent.PieceCount;
    var bs, flats, at := [b], Blank(torrents), tor.PieceOffset(piece, offset);
    WellFormedIsLaid(bs, torrents);
    CoveredByte(bs, 0, tor, flats[tor.uniqueId], at + k);
    assert FlatsFit(torrents, flats);
    assert ReadFrom(ViewOf(bs, torrents, flats), tor.uniqueId, at, |before|)[k] == ByteAt(bs, tor, flats[tor.uniqueId], at + k);
  }

  /** Asked for a place inside a block, the cache serves the block's first byte for it. */
  lemma InsideBlockIsWrong(torrents: map<nat, Torrent>, tor: Torrent, piece: nat, offset: nat, len: nat)
    requires Known(tor, torrents) && InTorrent(tor, piece, offset, len) && forall id | id in torrents :: torrents[id].uniqueId == id
    requires 0 < len && tor.PieceOffset(piece, offset) % tor.blockSize != 0
    ensures !AlwaysRight(torrents, tor, piece, offset, len)
  {
    hide AllWellFormed, AlwaysRight, Served, Torrent.PieceOffset, Torrent.FilesAreContiguous, Torrent.BlockOf,
      Torrent.BlockBytes, Torrent.BlockCount, Torrent.PieceCount;
    var at, block := tor.PieceOffset(piece, offset), tor.BlockOf(piece, offset);
    AddressFalls(tor, piece, offset);
    var o := at - tor.blockSize * block;
    var data: seq<byte> := seq(tor.BlockBytes(block), i => if i == o then 1 else 0);
    var b := OneBlock(torrents, tor, block, data);
    var before: seq<byte> := seq(len, i => 0);
    WellFormedIsSorted([b], torrents);
    ServedFromCache([b], 0, tor, Blank(torrents)[tor.uniqueId], piece, offset, before);
    ServedWrong(torrents, tor, piece, offset, before, b, 0);
  }

  /** Asked for more than one block, it serves what the disk has for a later one. */
  lemma PastBlockIsWrong(torrents: map<nat, Torrent>, tor: Torrent, piece: nat, offset: nat, len: nat)
    requires Known(tor, torrents) && InTorrent(tor, piece, offset, len) && forall id | id in torrents :: torrents[id].uniqueId == id
    requires tor.PieceOffset(piece, offset) % tor.blockSize == 0 && tor.BlockBytes(tor.BlockOf(piece, offset)) < len
    ensures !AlwaysRight(torrents, tor, piece, offset, len)
  {
    hide AllWellFormed, AlwaysRight, Torrent.PieceOffset, Torrent.FilesAreContiguous, Torrent.BlockOf,
      Torrent.BlockBytes, Torrent.BlockCount, Torrent.PieceCount;
    var at, block := tor.PieceOffset(piece, offset), tor.BlockOf(piece, offset);
    AddressFalls(tor, piece, offset);
    BlockRange(tor, block);
    BlockRange(tor, block + 1);
    var data: seq<byte> := seq(tor.BlockBytes(block + 1), i => 1);
    var b := OneBlock(torrents, tor, block + 1, data);
    var before: seq<byte> := seq(len, i => 0);
    assert forall i :: !IsAt([b], i, tor, block);
    ServedWrong(torrents, tor, piece, offset, before, b, tor.BlockBytes(block));
  }

  /** A read gets what was last written, whatever is cached, if and only if it begins a block
      and stays in it. */
  lemma ReadIsRightExactly(torrents: map<nat, Torrent>, tor: Torrent, piece: nat, offset: nat, len: nat)
    requires Known(tor, torrents) && forall id | id in torrents :: torrents[id].uniqueId == id
    requires InTorrent(tor, piece, offset, len) && 0 < len
    ensures AlwaysRight(torrents, tor, piece, offset, len) <==> WithinBlock(tor, piece, offset, len)
  {
    hide AllWellFormed, Served, ViewOf, ReadFrom, Torrent.PieceOffset, Torrent.FilesAreContiguous,
      Torrent.BlockOf, Torrent.BlockBytes, Torrent.BlockCount, Torrent.PieceCount;
    if WithinBlock(tor, piece, offset, len) {
      forall bs, flats, before | AllWellFormed(bs, torrents) && FlatsFit(torrents, flats) && |before| == len
        ensures Served(bs, tor, flats[tor.uniqueId], piece, offset, before)
          == ReadFrom(ViewOf(bs, torrents, flats), tor.uniqueId, tor.PieceOffset(piece, offset), len)
      {
        WithinBlockIsRight(bs, torrents, flats, tor, piece, offset, before);
      }
    } else if tor.PieceOffset(piece, offset) % tor.blockSize != 0 {
      InsideBlockIsWrong(torrents, tor, piece, offset, len);
    } else {
      PastBlockIsWrong(torrents, tor, piece, offset, len);
    }
  }

  // ----- writes -----

  /** tr_cacheWriteBlock has put `data` in the list, for any address. */
  ghost predicate Wrote(bs: seq<CacheBlock>, cs: seq<CacheBlock>, tor: Torrent, piece: nat, offset: nat, data: seq<byte>,
                        now: int, p: nat)
    requires 0 < tor.blockSize
  {
    exists ds: seq<CacheBlock> :: FoundOrInserted(bs, ds, CacheBlock(tor, piece, offset, |data|, now, tor.BlockOf(piece, offset), []), p)
      && p < |ds| && cs == ds[p := ds[p].(time := now, data := data)]
  }

  /** However the address was, readers of the block are served the data from its first byte on. */
  lemma WrittenIsServed(bs: seq<CacheBlock>, cs: seq<CacheBlock>, tor: Torrent, piece: nat, offset: nat, data: seq<byte>,
                        now: int, p: nat, flat: seq<byte>, piece': nat, offset': nat, before: seq<byte>)
    requires 0 < tor.blockSize && Sorted(bs) && Wrote(bs, cs, tor, piece, offset, data, now, p)
    requires tor.BlockOf(piece', offset') == tor.BlockOf(piece, offset)
    requires tor.PieceOffset(piece', offset') + |before| <= |flat|
    ensures Served(cs, tor, flat, piece', offset', before) == CopiedOut(data, before)
  {
    hide Torrent.BlockOf, Torrent.PieceOffset, CopiedOut, Served, SplitsAt;
    var block := tor.BlockOf(piece, offset);
    var ds: seq<CacheBlock> :| FoundOrInserted(bs, ds, CacheBlock(tor, piece, offset, |data|, now, block, []), p)
      && p < |ds| && cs == ds[p := ds[p].(time := now, data := data)];
    WroteIsSorted(bs, ds, cs, CacheBlock(tor, piece, offset, |data|, now, block, []), p, data, now);
    ServedFromCache(cs, p, tor, flat, piece', offset', before);
  }

  lemma WroteIsSorted(bs: seq<CacheBlock>, ds: seq<CacheBlock>, cs: seq<CacheBlock>, key: CacheBlock, p: nat,
                      data: seq<byte>, now: int)
    requires Sorted(bs) && FoundOrInserted(bs, ds, key, p) && p < |ds| && cs == ds[p := ds[p].(time := now, data := data)]
    ensures Sorted(cs) && Compare(cs[p], key.tor.uniqueId, key.block) == 0
  {
    if p < |bs| && ds == bs && Compare(bs[p], key.tor.uniqueId, key.block) == 0 {
    } else {
      InsertedKeepsSorted(bs, ds, p, key);
    }
  }

  /** Whatever was cached, and whatever is written, a reader of the whole block finds there
      what a flat array would hold after the write. */
  ghost predicate AlwaysShown(tor: Torrent, piece: nat, offset: nat)
    requires 0 < tor.blockSize
  {
    forall bs, cs, data, now, p, flat, piece', offset', before |
      && Sorted(bs) && Wrote(bs, cs, tor, piece, offset, data, now, p)
      && IsWriteThere(tor, piece, offset, data, flat, piece', offset', before) ::
      Served(cs, tor, flat, piece', offset', before)
        == Splice(flat, tor.PieceOffset(piece, offset), data)[tor.PieceOffset(piece', offset')..][..|before|]
  }

  /** data has the length of the block, flat is the torrent, and (piece', offset') is where
      the block begins. */
  ghost predicate IsWriteThere(tor: Torrent, piece: nat, offset: nat, data: seq<byte>, flat: seq<byte>,
                               piece': nat, offset': nat, before: seq<byte>)
    requires 0 < tor.blockSize
  {
    && |data| == |before| == tor.BlockBytes(tor.BlockOf(piece, offset))
    && |flat| == tor.totalSize && tor.PieceOffset(piece, offset) + |data| <= |flat|
    && tor.BlockOf(piece', offset') == tor.BlockOf(piece, offset)
    && tor.PieceOffset(piece', offset') == tor.blockSize * tor.BlockOf(piece, offset)
    && tor.PieceOffset(piece', offset') + |before| <= |flat|
  }

  /** A block written at another place than its start is shown at its start. */
  lemma InsideBlockIsMisplaced(tor: Torrent, piece: nat, offset: nat)
    requires tor.Valid() && InTorrent(tor, piece, offset, tor.BlockBytes(tor.BlockOf(piece, offset)))
    requires tor.PieceOffset(piece, offset) % tor.blockSize != 0
    ensures !AlwaysShown(tor, piece, offset)
  {
    hide Served, Torrent.FilesAreContiguous, Torrent.BlockOf, Torrent.BlockBytes, Torrent.BlockCount, Torrent.PieceCount,
      Torrent.PieceOffset, Wrote;
    var block := tor.BlockOf(piece, offset);
    AddressFalls(tor, piece, offset);
    BlockRange(tor, block);
    var piece', offset' := BlockAddress(tor, block);
    AtBlockNames(tor, piece', offset', tor.BlockBytes(block), block);
    var data: seq<byte> := seq(tor.BlockBytes(block), i => 1);
    var flat: seq<byte> := seq(tor.totalSize, i => 0);
    WroteFirst(tor, piece, offset, data);
    var cs := [CacheBlock(tor, piece, offset, |data|, 0, block, data)];
    assert IsWriteThere(tor, piece, offset, data, flat, piece', offset', data);
    WrittenIsServed([], cs, tor, piece, offset, data, 0, 0, flat, piece', offset', data);
    assert Served(cs, tor, flat, piece', offset', data)[0] == 1;
    assert Splice(flat, tor.PieceOffset(piece, offset), data)[tor.PieceOffset(piece', offset')..][..|data|][0] == 0;
  }

  lemma WroteFirst(tor: Torrent, piece: nat, offset: nat, data: seq<byte>)
    requires 0 < tor.blockSize
    ensures Wrote([], [CacheBlock(tor, piece, offset, |data|, 0, tor.BlockOf(piece, offset), data)], tor, piece, offset, data, 0, 0)
  {
    var key := CacheBlock(tor, piece, offset, |data|, 0, tor.BlockOf(piece, offset), []);
    assert FoundOrInserted([], [key], key, 0);
  }

  /** A write of a block's length is seen where it was meant, whatever was cached, if and only
      if it begins a block. */
  lemma WriteIsShownExactly(tor: Torrent, piece: nat, offset: nat)
    requires tor.Valid() && InTorrent(tor, piece, offset, tor.BlockBytes(tor.BlockOf(piece, offset)))
    ensures AlwaysShown(tor, piece, offset) <==> tor.PieceOffset(piece, offset) % tor.blockSize == 0
  {
    hide Served, Wrote, Sorted, Torrent.FilesAreContiguous, Torrent.BlockOf, Torrent.BlockBytes, Torrent.BlockCount,
      Torrent.PieceCount, Torrent.PieceOffset;
    if tor.PieceOffset(piece, offset) % tor.blockSize == 0 {
      AddressFalls(tor, piece, offset);
      forall bs, cs, data, now, p, flat, piece', offset', before |
        && Sorted(bs) && Wrote(bs, cs, tor, piece, offset, data, now, p)
        && IsWriteThere(tor, piece, offset, data, flat, piece', offset', before)
        ensures Served(cs, tor, flat, piece', offset', before)
          == Splice(flat, tor.PieceOffset(piece, offset), data)[tor.PieceOffset(piece', offset')..][..|before|]
      {
        WrittenIsServed(bs, cs, tor, piece, offset, data, now, p, flat, piece', offset', before);
      }
    } else {
      InsideBlockIsMisplaced(tor, piece, offset);
    }
  }

  // ----- files -----

  /** The cached block holds a byte of the file. */
  ghost predicate HoldsByteOf(b: CacheBlock, tor: Torrent, file: nat)
    requires file < |tor.files|
  {
    b.tor == tor && exists k: nat :: IsByteOf(tor, file, k) && Start(b) <= k < End(b)
  }

  /** No cached block holds a byte of the file, no block of another torrent or before the file is
      gone, and each that is gone continues a run that holds one. */
  ghost predicate FileGone(bs: seq<CacheBlock>, cs: seq<CacheBlock>, tor: Torrent, file: nat)
    requires file < |tor.files|
  {
    && (forall b | b in cs :: b in bs && !HoldsByteOf(b, tor, file))
    && (forall b | b in bs && (b.tor != tor || End(b) <= tor.files[file].offset) :: b in cs)
    && (forall k | 0 <= k < |bs| && bs[k] !in cs ::
          exists j :: 0 <= j <= k && Contiguous(bs, j, k - j + 1) && HoldsByteOf(bs[j], tor, file))
  }

  /** A block that ends no later than a place of the torrent is before the block of that place. */
  lemma EndsBefore(tor: Torrent, block: nat, at: nat)
    requires tor.Valid() && block < tor.BlockCount() && at < tor.totalSize
    ensures tor.blockSize * block + tor.BlockBytes(block) <= at ==> block < at / tor.blockSize
  {
    hide Torrent.FilesAreContiguous, Torrent.BlockCount, Torrent.BlockBytes;
    BlockRange(tor, block);
    QuotientBounds(at, tor.blockSize, block + 1);
  }

  lemma HoldsByBlock(b: CacheBlock, torrents: map<nat, Torrent>, tor: Torrent, file: nat)
    requires WellFormed(b, torrents) && b.tor == tor && file < |tor.files| && 0 < tor.files[file].length
    ensures HoldsByteOf(b, tor, file) <==> tor.FileFirst(file) <= b.block <= tor.FileLast(file)
    ensures End(b) <= tor.files[file].offset ==> b.block < tor.FileFirst(file)
  {
    hide Torrent.FilesAreContiguous, Torrent.PieceCount, Torrent.BlockCount, Torrent.BlockBytes, Torrent.FileLast;
    FileEnds(tor, file);
    FileRange(tor, file, b.block);
    EndsBefore(tor, b.block, tor.files[file].offset);
  }

  /** The run from a later one of its blocks. */
  lemma ContiguousFrom(bs: seq<CacheBlock>, j: nat, k: nat, i: nat)
    requires j <= i <= k && Contiguous(bs, j, k - j + 1)
    ensures Contiguous(bs, i, k - i + 1) && bs[i].tor == bs[j].tor && bs[i].block == bs[j].block + (i - j)
  {
  }

  /** Flushing the blocks of the file's range flushes the file. */
  lemma RangeIsFile(bs: seq<CacheBlock>, cs: seq<CacheBlock>, torrents: map<nat, Torrent>, tor: Torrent, file: nat)
    requires AllWellFormed(bs, torrents) && tor.Valid() && file < |tor.files| && 0 < tor.files[file].length
    requires RangeGone(bs, cs, tor, tor.FileFirst(file), tor.FileLast(file))
    ensures FileGone(bs, cs, tor, file)
  {
    hide Contiguous, WellFormed, HoldsByteOf, Torrent.FilesAreContiguous, Torrent.FileFirst, Torrent.FileLast, Sorted;
    RangeIsThere(tor, file);
    forall b | b in bs && b.tor == tor
      ensures HoldsByteOf(b, tor, file) <==> tor.FileFirst(file) <= b.block <= tor.FileLast(file)
      ensures End(b) <= tor.files[file].offset ==> b.block < tor.FileFirst(file)
    {
      HoldsByBlock(b, torrents, tor, file);
    }
    OthersHoldNone(tor, file);
    forall k | 0 <= k < |bs| && bs[k] !in cs
      ensures exists j :: 0 <= j <= k && Contiguous(bs, j, k - j + 1) && HoldsByteOf(bs[j], tor, file)
    {
      assert RunsOn(bs, 0, k, tor.FileLast(file)) && bs[k] in bs;
      var j: nat :| j <= k && Contiguous(bs, j, k - j + 1) && bs[j].block <= tor.FileLast(file);
      ContiguousFrom(bs, j, k, k);
      var i := if bs[j].block < tor.FileFirst(file) then j + (tor.FileFirst(file) - bs[j].block) else j;
      ContiguousFrom(bs, j, k, i);
      assert bs[i] in bs;
    }
  }

  lemma RangeIsThere(tor: Torrent, file: nat)
    requires tor.Valid() && file < |tor.files| && 0 < tor.files[file].length
    ensures tor.FileFirst(file) <= tor.FileLast(file)
  {
    DivMono(tor.files[file].offset, tor.files[file].offset + tor.files[file].length - 1, tor.blockSize);
  }

  lemma OthersHoldNone(tor: Torrent, file: nat)
    requires file < |tor.files|
    ensures forall b: CacheBlock | b.tor != tor :: !HoldsByteOf(b, tor, file)
  {
  }

  /** The block's place in the torrent, counted as a full one, has this position in it. */
  ghost predicate LiesAt(b: CacheBlock, tor: Torrent, at: nat)
  {
    b.tor == tor && Start(b) <= at < Start(b) + tor.blockSize
  }

  /** An empty file flushes what runs on from the block that lies at its place. */
  ghost predicate PlaceGone(bs: seq<CacheBlock>, cs: seq<CacheBlock>, tor: Torrent, at: nat)
  {
    && (forall b | b in cs :: b in bs && !LiesAt(b, tor, at))
    && (forall b | b in bs && (b.tor != tor || Start(b) + tor.blockSize <= at) :: b in cs)
    && (forall k | 0 <= k < |bs| && bs[k] !in cs :: exists j :: 0 <= j <= k && Contiguous(bs, j, k - j + 1) && LiesAt(bs[j], tor, at))
  }

  lemma LiesAtBlock(b: CacheBlock, torrents: map<nat, Torrent>, tor: Torrent, at: nat)
    requires WellFormed(b, torrents) && b.tor == tor
    ensures LiesAt(b, tor, at) <==> b.block == at / tor.blockSize
    ensures Start(b) + tor.blockSize <= at <==> b.block < at / tor.blockSize
  {
    hide Torrent.FilesAreContiguous, Torrent.PieceCount, Torrent.BlockCount, Torrent.BlockBytes;
    QuotientBounds(at, tor.blockSize, b.block);
    QuotientBounds(at, tor.blockSize, b.block + 1);
  }

  lemma RangeIsPlace(bs: seq<CacheBlock>, cs: seq<CacheBlock>, torrents: map<nat, Torrent>, tor: Torrent, file: nat)
    requires AllWellFormed(bs, torrents) && tor.Valid() && file < |tor.files| && tor.files[file].length == 0
    requires RangeGone(bs, cs, tor, tor.FileFirst(file), tor.FileLast(file))
    ensures PlaceGone(bs, cs, tor, tor.files[file].offset)
  {
    hide Contiguous, WellFormed, LiesAt, Torrent.FilesAreContiguous, Sorted;
    var n := tor.FileFirst(file);
    forall b | b in bs && b.tor == tor
      ensures LiesAt(b, tor, tor.files[file].offset) <==> b.block == n
      ensures Start(b) + tor.blockSize <= tor.files[file].offset <==> b.block < n
    {
      LiesAtBlock(b, torrents, tor, tor.files[file].offset);
    }
    OthersLieElsewhere(tor, tor.files[file].offset);
    forall k | 0 <= k < |bs| && bs[k] !in cs
      ensures exists j :: 0 <= j <= k && Contiguous(bs, j, k - j + 1) && LiesAt(bs[j], tor, tor.files[file].offset)
    {
      assert RunsOn(bs, 0, k, n) && bs[k] in bs;
      var j: nat :| j <= k && Contiguous(bs, j, k - j + 1) && bs[j].block <= n;
      ContiguousFrom(bs, j, k, k);
      var i := j + (n - bs[j].block);
      ContiguousFrom(bs, j, k, i);
      assert bs[i] in bs;
    }
  }

  lemma OthersLieElsewhere(tor: Torrent, at: nat)
    ensures forall b: CacheBlock | b.tor != tor :: !LiesAt(b, tor, at)
  {
  }

  /** What tr_cacheFlushFile promises in bytes. */
  lemma FileIsFlushed(bs: seq<CacheBlock>, cs: seq<CacheBlock>, torrents: map<nat, Torrent>, tor: Torrent, file: nat)
    requires AllWellFormed(bs, torrents) && tor.Valid() && file < |tor.files|
    requires RangeGone(bs, cs, tor, tor.FileFirst(file), tor.FileLast(file))
    ensures if tor.files[file].length == 0 then PlaceGone(bs, cs, tor, tor.files[file].offset) else FileGone(bs, cs, tor, file)
  {
    hide AllWellFormed, RangeGone, FileGone, PlaceGone, Torrent.FilesAreContiguous;
    if tor.files[file].length == 0 {
      RangeIsPlace(bs, cs, torrents, tor, file);
    } else {
      RangeIsFile(bs, cs, torrents, tor, file);
    }
  }
}
