/** How a torrent is cut up: files laid end to end, pieces of `pieceSize` bytes,
    and blocks of `blockSize` bytes.  Models the parts of torrent.c and torrent.h
    that the other modules use. */
module Geometry {

  type byte = b: int | 0 <= b < 256

  const MAX_BLOCK_SIZE := 16384

  datatype FileInfo = FileInfo(offset: nat, length: nat)

  /** The immutable metainfo of one torrent. */
  datatype Torrent = Torrent(uniqueId: nat, pieceSize: nat, blockSize: nat, totalSize: nat, files: seq<FileInfo>)
  {
    /** What torrentInitFromInfo checks and initFiles sets up. */
    ghost predicate Valid()
    {
      && 0 < blockSize <= MAX_BLOCK_SIZE
      && 0 < pieceSize && pieceSize % blockSize == 0
      && 0 < totalSize
      && FilesAreContiguous()
    }

    ghost predicate FilesAreContiguous()
    {
      && 0 < |files|
      && files[0].offset == 0
      && (forall i, j {:trigger files[i], files[j]} | 0 <= i && j == i + 1 < |files| ::
            files[j].offset == files[i].offset + files[i].length)
      && totalSize == files[|files| - 1].offset + files[|files| - 1].length
    }

    function BlockCount(): nat
      requires 0 < blockSize
    {
      (totalSize + blockSize - 1) / blockSize
    }

    function LastBlockSize(): nat
      requires 0 < blockSize
    {
      if totalSize % blockSize == 0 then blockSize else totalSize % blockSize
    }

    function PieceCount(): nat
      requires 0 < pieceSize
    {
      (totalSize + pieceSize - 1) / pieceSize
    }

    function LastPieceSize(): nat
      requires 0 < pieceSize
    {
      if totalSize % pieceSize == 0 then pieceSize else totalSize % pieceSize
    }

    function BlockCountInPiece(): nat
      requires 0 < blockSize
    {
      pieceSize / blockSize
    }

    /** tr_pieceOffset */
    function PieceOffset(piece: nat, offset: nat): nat
    {
      piece * pieceSize + offset
    }

    /** _tr_block */
    function BlockOf(piece: nat, offset: nat): nat
      requires 0 < blockSize
    {
      piece * BlockCountInPiece() + offset / blockSize
    }

    /** tr_torBlockCountBytes */
    function BlockBytes(block: nat): nat
      requires 0 < blockSize
    {
      if block + 1 == BlockCount() then LastBlockSize() else blockSize
    }

    /** tr_torPieceCountBytes */
    function PieceBytes(piece: nat): nat
      requires 0 < pieceSize
    {
      if piece + 1 == PieceCount() then LastPieceSize() else pieceSize
    }

    /** tr_torBlockPiece */
    function BlockPiece(block: nat): nat
      requires 0 < blockSize && 0 < BlockCountInPiece()
    {
      block / BlockCountInPiece()
    }

    /** The two ends of tr_torGetPieceBlockRange. */
    function PieceFirst(piece: nat): nat
      requires 0 < blockSize
    {
      (pieceSize * piece) / blockSize
    }

    function PieceLast(piece: nat): int
      requires 0 < blockSize && 0 < pieceSize
    {
      (pieceSize * piece + PieceBytes(piece) - 1) / blockSize
    }

    /** The two ends of tr_torGetFileBlockRange. */
    function FileFirst(file: nat): nat
      requires 0 < blockSize && file < |files|
    {
      files[file].offset / blockSize
    }

    function FileLast(file: nat): nat
      requires 0 < blockSize && file < |files|
    {
      if files[file].length == 0 then FileFirst(file)
      else (files[file].offset + files[file].length - 1) / blockSize
    }
  }

  // ----- arithmetic of the cuts -----

  /** _tr_block counts blocks piece by piece; that is the block at the flat position. */
  lemma BlockOfIsFlat(t: Torrent, piece: nat, offset: nat)
    requires t.Valid()
    ensures t.BlockOf(piece, offset) == t.PieceOffset(piece, offset) / t.blockSize
  {
    var n, q := t.BlockCountInPiece(), offset / t.blockSize;
    assert t.pieceSize == t.blockSize * n;
    assert piece * t.pieceSize == t.blockSize * (piece * n) by { MulAssoc(piece, t.blockSize, n); }
    assert t.blockSize * (piece * n + q) == t.blockSize * (piece * n) + t.blockSize * q;
    DivIsUnique(t.PieceOffset(piece, offset), t.blockSize, piece * n + q);
  }

  lemma MulAssoc(a: int, b: int, c: int)
    ensures a * (b * c) == b * (a * c)
  {
  }

  lemma MulMono(d: int, a: int, b: int)
    requires 0 <= d
    ensures a <= b ==> d * a <= d * b
  {
  }

  lemma DivIsUnique(x: int, d: int, q: int)
    requires 0 < d && d * q <= x < d * q + d
    ensures x / d == q
  {
    var r := x / d;
    assert x == d * r + x % d;
    MulMono(d, r + 1, q);
    MulMono(d, q + 1, r);
  }

  lemma DivBounds(x: int, d: int)
    requires 0 < d
    ensures d * (x / d) <= x < d * (x / d) + d
  {
  }

  /** The blocks tile the torrent: all are full but the last, which ends it. */
  lemma BlocksTile(t: Torrent)
    requires t.Valid()
    ensures 0 < t.BlockCount() && 0 < t.LastBlockSize() <= t.blockSize
    ensures t.blockSize * (t.BlockCount() - 1) + t.LastBlockSize() == t.totalSize
  {
    CeilTiles(t.totalSize, t.blockSize);
  }

  lemma CeilTiles(total: nat, size: nat)
    requires 0 < size && 0 < total
    ensures var n := (total + size - 1) / size; var last := if total % size == 0 then size else total % size;
      0 < n && 0 < last <= size && size * (n - 1) + last == total
  {
    var q, r := total / size, total % size;
    assert total == size * q + r;
    if r == 0 {
      MulMono(size, q, 0);
      assert size * (q - 1) == size * q - size;
      DivIsUnique(total + size - 1, size, q);
    } else {
      MulMono(size, q, -1);
      assert size * (q + 1) == size * q + size;
      DivIsUnique(total + size - 1, size, q + 1);
    }
  }

  /** The byte range of a block lies in the torrent. */
  lemma BlockRange(t: Torrent, block: nat)
    requires t.Valid() && block < t.BlockCount()
    ensures 0 < t.BlockBytes(block) <= t.blockSize
    ensures t.blockSize * block + t.BlockBytes(block) <= t.totalSize
    ensures block + 1 < t.BlockCount() ==> t.blockSize * (block + 1) == t.blockSize * block + t.BlockBytes(block)
    ensures block + 1 == t.BlockCount() ==> t.blockSize * block + t.BlockBytes(block) == t.totalSize
  {
    BlocksTile(t);
    assert t.blockSize * (block + 1) == t.blockSize * block + t.blockSize;
    if block + 1 < t.BlockCount() {
      assert t.blockSize * (block + 1) <= t.blockSize * (t.BlockCount() - 1);
    }
  }

  /** Two different blocks do not overlap. */
  lemma BlocksDisjoint(t: Torrent, a: nat, b: nat)
    requires t.Valid() && a < b < t.BlockCount()
    ensures t.blockSize * a + t.BlockBytes(a) <= t.blockSize * b
  {
    BlockRange(t, a);
    assert t.blockSize * (a + 1) <= t.blockSize * b;
  }

  lemma PieceIsBlocks(t: Torrent)
    requires t.Valid()
    ensures 0 < t.BlockCountInPiece() && t.pieceSize == t.blockSize * t.BlockCountInPiece()
  {
    MulMono(t.blockSize, t.BlockCountInPiece(), 0);
  }

  /** floor((size*n*p + bytes - 1) / size) for a piece that is full, or that ends with the torrent. */
  lemma PieceQuotients(size: nat, n: nat, piece: nat)
    requires 0 < size && 0 < n
    ensures size * n * piece == size * (piece * n)
    ensures (size * n * piece) / size == piece * n
    ensures (size * n * piece + size * n - 1) / size == (piece + 1) * n - 1
  {
    var k := piece * n;
    MulAssoc(piece, size, n);
    DivIsUnique(size * k, size, k);
    assert (piece + 1) * n == k + n;
    assert size * (k + n - 1) == size * k + size * n - size;
    DivIsUnique(size * k + size * n - 1, size, k + n - 1);
  }

  /** The block range of a piece, counted in blocks; the last piece ends with the torrent. */
  lemma PieceRange(t: Torrent, piece: nat)
    requires t.Valid() && piece < t.PieceCount()
    ensures var n := t.BlockCountInPiece();
      && 0 < n && t.PieceFirst(piece) == piece * n
      && t.PieceLast(piece) == (if piece + 1 == t.PieceCount() then t.BlockCount() else (piece + 1) * n) - 1
      && t.PieceFirst(piece) <= t.PieceLast(piece) < t.BlockCount()
  {
    PieceIsBlocks(t);
    PieceQuotients(t.blockSize, t.BlockCountInPiece(), piece);
    PieceBytesRange(t, piece);
    BlocksTile(t);
    DivIsUnique(t.totalSize - 1, t.blockSize, t.BlockCount() - 1);
    DivMono(t.pieceSize * piece, t.pieceSize * piece + t.PieceBytes(piece) - 1, t.blockSize);
    DivMono(t.pieceSize * piece + t.PieceBytes(piece) - 1, t.totalSize - 1, t.blockSize);
  }

  lemma DivMono(a: int, b: int, d: int)
    requires 0 < d
    ensures a <= b ==> a / d <= b / d
  {
    DivBounds(a, d);
    DivBounds(b, d);
    MulMono(d, b / d + 1, a / d);
    assert d * (b / d + 1) == d * (b / d) + d;
  }

  lemma PieceBytesRange(t: Torrent, piece: nat)
    requires t.Valid() && piece < t.PieceCount()
    ensures 0 < t.PieceBytes(piece) <= t.pieceSize
    ensures t.pieceSize * piece + t.PieceBytes(piece) <= t.totalSize
    ensures piece + 1 == t.PieceCount() ==> t.pieceSize * piece + t.PieceBytes(piece) == t.totalSize
  {
    CeilTiles(t.totalSize, t.pieceSize);
    MulMono(t.pieceSize, piece + 1, t.PieceCount() - 1);
    assert t.pieceSize * (piece + 1) == t.pieceSize * piece + t.pieceSize;
  }

  /** A block belongs to the piece in whose range it lies, and to no other. */
  lemma BlockPieceIsRange(t: Torrent, block: nat, piece: nat)
    requires t.Valid() && piece < t.PieceCount() && block < t.BlockCount()
    ensures 0 < t.BlockCountInPiece()
    ensures t.BlockPiece(block) == piece <==> t.PieceFirst(piece) <= block <= t.PieceLast(piece)
  {
    hide Torrent.FilesAreContiguous, Torrent.BlockCount, Torrent.PieceCount, Torrent.BlockCountInPiece,
      Torrent.PieceFirst, Torrent.PieceLast;
    PieceRange(t, piece);
    LastPieceHolds(t);
    InRangeIsQuotient(block, t.BlockCountInPiece(), piece, t.PieceCount(), t.BlockCount());
  }

  lemma InRangeIsQuotient(block: nat, n: nat, piece: nat, pieces: nat, blocks: nat)
    requires 0 < n && piece < pieces && block < blocks <= n * pieces
    ensures block / n == piece <==>
      piece * n <= block <= (if piece + 1 == pieces then blocks else (piece + 1) * n) - 1
  {
    assert (piece + 1) * n == n * piece + n;
    DivBounds(block, n);
    if n * piece <= block < n * piece + n {
      DivIsUnique(block, n, piece);
    }
  }

  /** The last piece's blocks end the torrent. */
  lemma LastPieceHolds(t: Torrent)
    requires t.Valid()
    ensures 0 < t.PieceCount() && t.BlockCount() <= t.BlockCountInPiece() * t.PieceCount()
  {
    var n, size, last := t.BlockCountInPiece(), t.blockSize, t.PieceCount() - 1;
    CeilTiles(t.totalSize, t.pieceSize);
    PieceIsBlocks(t);
    PieceQuotients(size, n, last);
    BlocksTile(t);
    DivIsUnique(t.totalSize - 1, size, t.BlockCount() - 1);
    DivMono(t.totalSize - 1, size * n * last + size * n - 1, size);
  }

  /** Every block belongs to some piece. */
  lemma BlockHasPiece(t: Torrent, block: nat)
    requires t.Valid() && block < t.BlockCount()
    ensures 0 < t.BlockCountInPiece() && t.BlockPiece(block) < t.PieceCount()
  {
    var n := t.BlockCountInPiece();
    PieceRange(t, 0);
    LastPieceHolds(t);
    DivBounds(block, n);
    MulMono(n, t.PieceCount(), t.BlockPiece(block));
  }

  lemma QuotientFalls(at: nat, size: nat, count: nat, last: nat)
    requires 0 < size && 0 < count && last <= size && at < size * (count - 1) + last
    ensures at / size < count && at == size * (at / size) + at % size
    ensures at / size + 1 == count ==> at < size * (at / size) + last
  {
    DivBounds(at, size);
    MulMono(size, count, at / size);
    assert size * count == size * (count - 1) + size;
  }

  /** The block an address falls in, and where it is. */
  lemma AddressFalls(t: Torrent, piece: nat, offset: nat)
    requires t.Valid() && t.PieceOffset(piece, offset) < t.totalSize
    ensures var at, block := t.PieceOffset(piece, offset), t.BlockOf(piece, offset);
      && block < t.BlockCount()
      && t.blockSize * block <= at < t.blockSize * block + t.BlockBytes(block)
      && at == t.blockSize * block + at % t.blockSize
      && t.BlockBytes(block) <= MAX_BLOCK_SIZE
  {
    hide Torrent.FilesAreContiguous, Torrent.BlockOf, Torrent.BlockCount, Torrent.LastBlockSize, Torrent.PieceOffset,
      Torrent.PieceCount;
    BlockOfIsFlat(t, piece, offset);
    BlocksTile(t);
    QuotientFalls(t.PieceOffset(piece, offset), t.blockSize, t.BlockCount(), t.LastBlockSize());
  }

  /** A block and a file have a byte in common. */
  predicate SharesByte(t: Torrent, file: nat, block: nat)
    requires 0 < t.blockSize && file < |t.files|
  {
    exists k: nat :: IsByteOf(t, file, k) && t.blockSize * block <= k < t.blockSize * block + t.BlockBytes(block)
  }

  predicate IsByteOf(t: Torrent, file: nat, k: nat)
    requires file < |t.files|
  {
    t.files[file].offset <= k < t.files[file].offset + t.files[file].length
  }

  /** Every file ends inside the torrent. */
  lemma {:induction false} FileEnds(t: Torrent, file: nat)
    requires t.Valid() && file < |t.files|
    ensures t.files[file].offset + t.files[file].length <= t.totalSize
    decreases |t.files| - file
  {
    if file + 1 < |t.files| {
      assert t.files[file + 1].offset == t.files[file].offset + t.files[file].length;
      FileEnds(t, file + 1);
    }
  }

  /** n is at most x / d if d * n is at most x, and at least if x is below d * (n + 1). */
  lemma QuotientBounds(x: int, d: int, n: int)
    requires 0 < d
    ensures n <= x / d <==> d * n <= x
    ensures x / d <= n <==> x < d * n + d
  {
    DivBounds(x, d);
    MulMono(d, n, x / d);
    MulMono(d, x / d + 1, n);
    MulMono(d, x / d, n);
    MulMono(d, n + 1, x / d);
    assert d * (x / d + 1) == d * (x / d) + d && d * (n + 1) == d * n + d;
  }

  /** A file's blocks are those that share a byte with it. */
  lemma FileRange(t: Torrent, file: nat, block: nat)
    requires t.Valid() && file < |t.files| && 0 < t.files[file].length && block < t.BlockCount()
    ensures t.FileFirst(file) <= block <= t.FileLast(file) <==> SharesByte(t, file, block)
  {
    FileEnds(t, file);
    BlockRange(t, block);
    var f, at := t.files[file], t.blockSize * block;
    QuotientBounds(f.offset, t.blockSize, block);
    QuotientBounds(f.offset + f.length - 1, t.blockSize, block);
    assert t.blockSize * (block + 1) == at + t.blockSize;
    hide Torrent.Valid, Torrent.BlockCount, Torrent.BlockBytes;
    if f.offset < at + t.BlockBytes(block) && at < f.offset + f.length {
      assert IsByteOf(t, file, if f.offset < at then at else f.offset);
    }
  }
}
