/** The byte counts of completion.c: what is held, what is wanted, and the two answers kept
    until something that matters to them changes. */
module Completions {
  import opened Geometry
  import opened Bits
  import opened Bitfields

  // ----- what the counts mean -----

  /** Bytes of the blocks of s in [begin, end). */
  function Held(tor: Torrent, s: set<nat>, begin: nat, end: nat): nat
    requires 0 < tor.blockSize
  {
    if end <= begin then 0
    else Held(tor, s, begin, end - 1) + if end - 1 in s then tor.BlockBytes(end - 1) else 0
  }

  lemma EndIsPositive(tor: Torrent, p: nat)
    requires tor.Valid()
    ensures 0 <= tor.PieceLast(p)
  {
    assert 0 < tor.PieceBytes(p);
    MulMono(tor.pieceSize, p, 0);
    DivMono(0, tor.pieceSize * p + tor.PieceBytes(p) - 1, tor.blockSize);
  }

  /** One past the last block of a piece. */
  function PieceEnd(tor: Torrent, p: nat): nat
    requires tor.Valid()
  {
    EndIsPositive(tor, p);
    tor.PieceLast(p) + 1
  }

  function HeldInPiece(tor: Torrent, s: set<nat>, p: nat): nat
    requires tor.Valid()
  {
    Held(tor, s, tor.PieceFirst(p), PieceEnd(tor, p))
  }

  ghost predicate HasPiece(tor: Torrent, s: set<nat>, p: nat)
    requires tor.Valid()
  {
    forall b: nat | tor.PieceFirst(p) <= b <= tor.PieceLast(p) :: b in s
  }

  /** Bytes of the complete pieces among the first k. */
  ghost function ValidUpto(tor: Torrent, s: set<nat>, k: nat): nat
    requires tor.Valid()
  {
    if k == 0 then 0 else ValidUpto(tor, s, k - 1) + if HasPiece(tor, s, k - 1) then tor.PieceBytes(k - 1) else 0
  }

  /** Bytes there will be of the first k pieces: all of a wanted piece, and of another one
      what is there. */
  function DoneUpto(tor: Torrent, s: set<nat>, dnd: set<nat>, k: nat): nat
    requires tor.Valid()
  {
    if k == 0 then 0
    else DoneUpto(tor, s, dnd, k - 1) + if k - 1 in dnd then HeldInPiece(tor, s, k - 1) else tor.PieceBytes(k - 1)
  }

  function HeldUpto(tor: Torrent, s: set<nat>, k: nat): nat
    requires tor.Valid()
  {
    if k == 0 then 0 else HeldUpto(tor, s, k - 1) + HeldInPiece(tor, s, k - 1)
  }

  /** Bytes missing from a piece. */
  function Missing(tor: Torrent, s: set<nat>, p: nat): int
    requires tor.Valid()
  {
    tor.PieceBytes(p) - HeldInPiece(tor, s, p)
  }

  function WantedUpto(tor: Torrent, s: set<nat>, dnd: set<nat>, k: nat): int
    requires tor.Valid()
  {
    if k == 0 then 0
    else WantedUpto(tor, s, dnd, k - 1) + if k - 1 in dnd then 0 else Missing(tor, s, k - 1)
  }

  // ----- how they relate -----

  lemma {:induction false} HeldSplits(tor: Torrent, s: set<nat>, a: nat, b: nat, c: nat)
    requires 0 < tor.blockSize && a <= b <= c
    ensures Held(tor, s, a, c) == Held(tor, s, a, b) + Held(tor, s, b, c)
  {
    hide Torrent.BlockBytes;
    if b < c {
      HeldSplits(tor, s, a, b, c - 1);
    }
  }

  lemma {:induction false} HeldSame(tor: Torrent, s: set<nat>, t: set<nat>, begin: nat, end: nat)
    requires 0 < tor.blockSize && forall b | begin <= b < end :: b in s <==> b in t
    ensures Held(tor, s, begin, end) == Held(tor, t, begin, end)
  {
    hide Torrent.BlockBytes;
    if begin < end {
      HeldSame(tor, s, t, begin, end - 1);
    }
  }

  /** One block more. */
  lemma HeldAdds(tor: Torrent, s: set<nat>, b: nat, begin: nat, end: nat)
    requires 0 < tor.blockSize && begin <= b < end && b !in s
    ensures Held(tor, s + {b}, begin, end) == Held(tor, s, begin, end) + tor.BlockBytes(b)
  {
    hide Torrent.BlockBytes;
    HeldSplits(tor, s, begin, b, end);
    HeldSplits(tor, s, b, b + 1, end);
    HeldSplits(tor, s + {b}, begin, b, end);
    HeldSplits(tor, s + {b}, b, b + 1, end);
    HeldSame(tor, s, s + {b}, begin, b);
    HeldSame(tor, s, s + {b}, b + 1, end);
    HeldOne(tor, s, b);
    HeldOne(tor, s + {b}, b);
  }

  lemma HeldOne(tor: Torrent, s: set<nat>, b: nat)
    requires 0 < tor.blockSize
    ensures Held(tor, s, b, b + 1) == if b in s then tor.BlockBytes(b) else 0
  {
    hide Torrent.BlockBytes;
    assert Held(tor, s, b, b) == 0;
  }

  /** Blocks are full, but for the last. */
  lemma {:induction false} HeldIsCount(tor: Torrent, s: set<nat>, begin: nat, end: nat)
    requires 0 < tor.blockSize && begin <= end <= tor.BlockCount()
    ensures Held(tor, s, begin, end) == |s * Span(begin, end)| * tor.blockSize - Short(tor, s, begin, end)
  {
    hide Torrent.BlockCount, Torrent.LastBlockSize;
    if begin == end {
      assert s * Span(begin, end) == {};
    } else {
      HeldIsCount(tor, s, begin, end - 1);
      var t := s * Span(begin, end - 1);
      assert s * Span(begin, end) == if end - 1 in s then t + {end - 1} else t;
      assert (|t| + 1) * tor.blockSize == |t| * tor.blockSize + tor.blockSize;
    }
  }

  /** What the last block is short of a full one, if it is there. */
  function Short(tor: Torrent, s: set<nat>, begin: nat, end: nat): int
    requires 0 < tor.blockSize
  {
    if begin < end && end == tor.BlockCount() && end - 1 in s then tor.blockSize - tor.LastBlockSize() else 0
  }

  /** All the blocks of a range that starts at `begin` and ends at `end`. */
  lemma {:induction false} HeldAll(tor: Torrent, s: set<nat>, begin: nat, end: nat)
    requires tor.Valid() && begin < end <= tor.BlockCount() && forall b | begin <= b < end :: b in s
    ensures tor.blockSize * begin + Held(tor, s, begin, end) == if end == tor.BlockCount() then tor.totalSize else tor.blockSize * end
  {
    hide Torrent.BlockCount, Torrent.BlockBytes, Torrent.Valid;
    BlockRange(tor, end - 1);
    if begin == end - 1 {
      HeldOne(tor, s, begin);
    } else {
      HeldAll(tor, s, begin, end - 1);
    }
  }

  lemma PieceEnds(tor: Torrent, p: nat)
    requires tor.Valid() && p < tor.PieceCount()
    ensures tor.blockSize * tor.PieceFirst(p) == tor.pieceSize * p
    ensures tor.PieceFirst(p) <= tor.PieceLast(p) < tor.BlockCount()
    ensures p + 1 == tor.PieceCount() <==> tor.PieceLast(p) + 1 == tor.BlockCount()
    ensures p + 1 < tor.PieceCount() ==> tor.PieceLast(p) + 1 == tor.PieceFirst(p + 1) && tor.PieceBytes(p) == tor.pieceSize
  {
    PieceIsBlocks(tor);
    PieceRange(tor, p);
    PieceBytesRange(tor, p);
    hide Torrent.Valid, Torrent.PieceFirst, Torrent.PieceLast, Torrent.BlockCount, Torrent.BlockCountInPiece,
      Torrent.PieceCount;
    var n := tor.BlockCountInPiece();
    MulAssoc(p, tor.blockSize, n);
    if p + 1 < tor.PieceCount() {
      PieceRange(tor, p + 1);
    }
  }

  /** The bytes of a piece are those of its blocks. */
  lemma PieceSpan(tor: Torrent, p: nat)
    requires tor.Valid() && p < tor.PieceCount()
    ensures tor.PieceFirst(p) < tor.PieceLast(p) + 1 <= tor.BlockCount()
    ensures var end := tor.PieceLast(p) + 1;
      tor.blockSize * tor.PieceFirst(p) + tor.PieceBytes(p) == if end == tor.BlockCount() then tor.totalSize else tor.blockSize * end
  {
    hide Torrent.PieceFirst, Torrent.PieceLast, Torrent.BlockCount, Torrent.PieceCount;
    PieceEnds(tor, p);
    PieceBytesRange(tor, p);
    if p + 1 < tor.PieceCount() {
      PieceEnds(tor, p + 1);
      assert tor.pieceSize * (p + 1) == tor.pieceSize * p + tor.pieceSize;
    }
  }

  /** A piece whose blocks are all there has all its bytes, and one that has not is short. */
  lemma HeldPiece(tor: Torrent, s: set<nat>, p: nat)
    requires tor.Valid() && p < tor.PieceCount()
    ensures HasPiece(tor, s, p) ==> HeldInPiece(tor, s, p) == tor.PieceBytes(p)
    ensures HeldInPiece(tor, s, p) <= tor.PieceBytes(p)
  {
    hide Torrent.FilesAreContiguous, Torrent.PieceFirst, Torrent.PieceLast, Torrent.BlockCount, Torrent.PieceCount,
      Torrent.PieceBytes, Held;
    PieceSpan(tor, p);
    var first, end := tor.PieceFirst(p), tor.PieceLast(p) + 1;
    HeldMono(tor, s, s + Span(first, end), first, end);
    HeldAll(tor, s + Span(first, end), first, end);
    if HasPiece(tor, s, p) {
      HeldAll(tor, s, first, end);
    }
  }

  lemma {:induction false} HeldMono(tor: Torrent, s: set<nat>, t: set<nat>, begin: nat, end: nat)
    requires 0 < tor.blockSize && s <= t
    ensures Held(tor, s, begin, end) <= Held(tor, t, begin, end)
  {
    hide Torrent.BlockBytes;
    if begin < end {
      HeldMono(tor, s, t, begin, end - 1);
    }
  }

  /** The pieces together hold what the torrent holds. */
  lemma {:induction false} PiecesHold(tor: Torrent, s: set<nat>, k: nat)
    requires tor.Valid() && 0 < k <= tor.PieceCount()
    ensures HeldUpto(tor, s, k) == Held(tor, s, 0, PieceEnd(tor, k - 1))
  {
    PieceEnds(tor, k - 1);
    hide Torrent.Valid, Torrent.PieceLast, Torrent.BlockCount, Torrent.PieceCount, Held;
    if k == 1 {
      assert HeldUpto(tor, s, 0) == 0;
    } else {
      PieceEnds(tor, k - 2);
      PiecesHold(tor, s, k - 1);
      HeldSplits(tor, s, 0, tor.PieceFirst(k - 1), PieceEnd(tor, k - 1));
    }
  }

  lemma TorrentHolds(tor: Torrent, s: set<nat>)
    requires tor.Valid()
    ensures HeldUpto(tor, s, tor.PieceCount()) == Held(tor, s, 0, tor.BlockCount())
    ensures 0 < tor.PieceCount() && 0 < tor.BlockCount()
  {
    LastPieceHolds(tor);
    PiecesHold(tor, s, tor.PieceCount());
    PieceEnds(tor, tor.PieceCount() - 1);
    hide Torrent.Valid, Torrent.PieceLast, Torrent.BlockCount, Torrent.PieceCount, Held, HeldUpto;
  }

  /** What there will be, less what there is, is what is missing from the wanted pieces. */
  lemma {:induction false} DoneIsHeldAndWanted(tor: Torrent, s: set<nat>, dnd: set<nat>, k: nat)
    requires tor.Valid()
    ensures DoneUpto(tor, s, dnd, k) == HeldUpto(tor, s, k) + WantedUpto(tor, s, dnd, k)
  {
    hide Torrent.Valid, Torrent.PieceBytes, HeldInPiece;
    if k != 0 {
      DoneIsHeldAndWanted(tor, s, dnd, k - 1);
    }
  }

  lemma {:induction false} WantedIsMissing(tor: Torrent, s: set<nat>, dnd: set<nat>, k: nat)
    requires tor.Valid() && k <= tor.PieceCount()
    ensures 0 <= WantedUpto(tor, s, dnd, k)
  {
    hide Torrent.Valid, Torrent.PieceBytes, HeldInPiece, Torrent.PieceCount;
    if k != 0 {
      WantedIsMissing(tor, s, dnd, k - 1);
      HeldPiece(tor, s, k - 1);
    }
  }

  /** With every block there, all is done. */
  lemma {:induction false} FullIsDone(tor: Torrent, s: set<nat>, dnd: set<nat>, k: nat)
    requires tor.Valid() && k <= tor.PieceCount() && forall b | 0 <= b < tor.BlockCount() :: b in s
    ensures DoneUpto(tor, s, dnd, k) == HeldUpto(tor, s, k)
  {
    hide Torrent.Valid, Torrent.PieceBytes, HeldInPiece, Torrent.PieceCount, Torrent.BlockCount;
    if k != 0 {
      FullIsDone(tor, s, dnd, k - 1);
      PieceEnds(tor, k - 1);
      HeldPiece(tor, s, k - 1);
    }
  }

  lemma ElsewhereIsSame(tor: Torrent, s: set<nat>, b: nat, p: nat)
    requires tor.Valid() && !(tor.PieceFirst(p) <= b <= tor.PieceLast(p))
    ensures HeldInPiece(tor, s + {b}, p) == HeldInPiece(tor, s, p)
  {
    HeldSame(tor, s, s + {b}, tor.PieceFirst(p), PieceEnd(tor, p));
  }

  /** A block more of a wanted piece makes no difference to what there will be. */
  lemma {:induction false} WantedBlockKeepsDone(tor: Torrent, s: set<nat>, dnd: set<nat>, b: nat, k: nat)
    requires tor.Valid() && k <= tor.PieceCount() && b < tor.BlockCount()
    requires 0 < tor.BlockCountInPiece() && tor.BlockPiece(b) !in dnd
    ensures DoneUpto(tor, s + {b}, dnd, k) == DoneUpto(tor, s, dnd, k)
  {
    hide Torrent.Valid, Torrent.PieceBytes, Torrent.PieceCount, Torrent.BlockCount, Torrent.BlockPiece, HeldInPiece,
      Torrent.PieceFirst, Torrent.PieceLast;
    if k != 0 {
      WantedBlockKeepsDone(tor, s, dnd, b, k - 1);
      BlockPieceIsRange(tor, b, k - 1);
      if k - 1 in dnd {
        ElsewhereIsSame(tor, s, b, k - 1);
      }
    }
  }

  ghost function ValidBytes(tor: Torrent, s: set<nat>): nat
    requires tor.Valid()
  {
    ValidUpto(tor, s, tor.PieceCount())
  }

  function DoneBytes(tor: Torrent, s: set<nat>, dnd: set<nat>): nat
    requires tor.Valid()
  {
    DoneUpto(tor, s, dnd, tor.PieceCount())
  }

  function HeldBytes(tor: Torrent, s: set<nat>): nat
    requires tor.Valid()
  {
    Held(tor, s, 0, tor.BlockCount())
  }

  /** struct tr_completion; `dnd` are the unwanted pieces of its torrent. */
  class Completion {
    const tor: Torrent
    const blocks: Bitfield
    var dnd: set<nat>
    var sizeWhenDoneLazy: nat
    var sizeWhenDoneIsDirty: bool
    var haveValidLazy: nat
    var haveValidIsDirty: bool
    var sizeNow: nat

    ghost function Blocks(): set<nat>
      reads blocks
    {
      blocks.Contents()
    }

    ghost predicate Shape()
      reads blocks
    {
      tor.Valid() && blocks.Valid() && blocks.bitCount == tor.BlockCount()
    }

    /** sizeNow is the bytes of the blocks held, and what is not marked dirty is up to date. */
    ghost predicate Valid()
      reads this, blocks
    {
      && Shape()
      && sizeNow == HeldBytes(tor, Blocks())
      && (!haveValidIsDirty ==> haveValidLazy == ValidBytes(tor, Blocks()))
      && (!sizeWhenDoneIsDirty ==> sizeWhenDoneLazy == DoneBytes(tor, Blocks(), dnd))
    }

    /** tr_cpConstruct */
    constructor (tor: Torrent, dnd: set<nat>)
      requires tor.Valid()
      ensures Valid() && this.tor == tor && this.dnd == dnd && Blocks() == {} && fresh(blocks)
    {
      TorrentHolds(tor, {});
      this.tor, this.dnd := tor, dnd;
      blocks := new Bitfield(tor.BlockCount());
      sizeNow, sizeWhenDoneIsDirty, haveValidIsDirty, sizeWhenDoneLazy, haveValidLazy := 0, true, true, 0, 0;
      new;
      NothingHeld(tor, 0, tor.BlockCount());
    }

    /** tr_cpReset */
    method Reset()
      requires Shape()
      modifies this, blocks
      ensures Valid() && Blocks() == {} && dnd == old(dnd) && haveValidIsDirty && sizeWhenDoneIsDirty
    {
      hide Torrent.FilesAreContiguous, Held, Torrent.BlockCount, Bitfield.Contents, Bitfield.Valid;
      sizeNow, sizeWhenDoneIsDirty, haveValidIsDirty := 0, true, true;
      blocks.SetHasNone();
      NothingHeld(tor, 0, tor.BlockCount());
    }

    /** tr_cpBlockInit */
    method BlockInit(b: Bitfield)
      requires Shape() && b.Valid() && b.bitCount == tor.BlockCount() && b != blocks
      requires b.bits == [] || |b.bits| == BytesNeeded(b.bitCount)
      modifies this, blocks
      ensures Valid() && Blocks() == b.Contents() && dnd == old(dnd)
    {
      hide Torrent.FilesAreContiguous, Torrent.BlockCount, Torrent.LastBlockSize, Held, Bitfield.Contents, Bit,
        SetOf, BytesNeeded;
      Reset();
      blocks.SetFromBitfield(b);
      TorrentHolds(tor, Blocks());
      WholeCount(tor, blocks, Blocks());
      b.HasIsMember(tor.BlockCount() - 1);
      var size := blocks.trueCount * tor.blockSize;
      if b.Has(tor.BlockCount() - 1) {
        size := size - (tor.blockSize - tor.LastBlockSize());
      }
      sizeNow := size;
    }

    /** tr_cpBlockAdd.  Only a block of an unwanted piece changes what there will be. */
    method BlockAdd(block: nat)
      requires Valid() && block < tor.BlockCount()
      modifies this`sizeNow, this`haveValidIsDirty, this`sizeWhenDoneIsDirty, blocks`bits, blocks`trueCount
      ensures Valid() && Blocks() == old(Blocks()) + {block}
    {
      hide Torrent.FilesAreContiguous, Torrent.BlockCount, Torrent.BlockBytes, Torrent.BlockPiece,
        Torrent.PieceCount, Held, Bitfield.Contents, Bit, DoneUpto;
      blocks.HasIsMember(block);
      if !blocks.Has(block) {
        BlockHasPiece(tor, block);
        var piece := tor.BlockPiece(block);
        HeldAdds(tor, Blocks(), block, 0, tor.BlockCount());
        if piece !in dnd {
          WantedBlockKeepsDone(tor, Blocks(), dnd, block, tor.PieceCount());
        }
        blocks.Add(block);
        sizeNow := sizeNow + tor.BlockBytes(block);
        haveValidIsDirty := true;
        sizeWhenDoneIsDirty := sizeWhenDoneIsDirty || piece in dnd;
      } else {
        assert Blocks() + {block} == Blocks();
      }
    }

    /** tr_cpPieceAdd */
    method PieceAdd(piece: nat)
      requires Valid() && piece < tor.PieceCount()
      modifies this`sizeNow, this`haveValidIsDirty, this`sizeWhenDoneIsDirty, blocks`bits, blocks`trueCount
      ensures Valid() && Blocks() == old(Blocks()) + Span(tor.PieceFirst(piece), PieceEnd(tor, piece))
    {
      hide Torrent.FilesAreContiguous, Torrent.BlockCount, Torrent.PieceFirst, Torrent.PieceLast,
        Torrent.PieceCount, HeldBytes, DoneBytes, ValidBytes, Bitfield.Contents, Bitfield.Valid;
      PieceEnds(tor, piece);
      var f, l := tor.PieceFirst(piece), tor.PieceLast(piece);
      assert Span(f, f) == {};
      for i := f to l + 1
        invariant Valid() && Blocks() == old(Blocks()) + Span(f, i)
      {
        BlockAdd(i);
        assert Span(f, i + 1) == Span(f, i) + {i};
      }
    }

    /** tr_cpPieceRem */
    method PieceRem(piece: nat)
      requires Valid() && piece < tor.PieceCount()
      modifies this`sizeNow, this`haveValidIsDirty, this`sizeWhenDoneIsDirty, blocks`bits, blocks`trueCount
      ensures Valid() && Blocks() == old(Blocks()) - Span(tor.PieceFirst(piece), PieceEnd(tor, piece))
    {
      hide Torrent.FilesAreContiguous, Torrent.BlockCount, Torrent.BlockBytes, Torrent.PieceFirst,
        Torrent.PieceLast, Torrent.PieceCount, Bitfield.Contents, Bit, Held;
      PieceEnds(tor, piece);
      var f, l := tor.PieceFirst(piece), tor.PieceLast(piece);
      ghost var s := Blocks();
      RemovedHeld(tor, s, f, l + 1);
      SubtractHeld(f, l);
      haveValidIsDirty, sizeWhenDoneIsDirty := true, true;
      blocks.RemRange(f, l + 1);
    }

    /** The loop of tr_cpPieceRem. */
    method SubtractHeld(f: nat, l: nat)
      requires Shape() && sizeNow == HeldBytes(tor, Blocks()) && f <= l < tor.BlockCount()
      modifies this`sizeNow
      ensures sizeNow == HeldBytes(tor, Blocks()) - Held(tor, Blocks(), f, l + 1)
    {
      hide Torrent.FilesAreContiguous, Torrent.BlockCount, Torrent.BlockBytes, Bitfield.Contents, Bitfield.Valid,
        Bit, Held;
      ghost var s, n := Blocks(), tor.BlockCount();
      NothingHeld(tor, f, f);
      for i := f to l + 1
        invariant sizeNow == Held(tor, s, 0, n) - Held(tor, s, f, i)
      {
        blocks.HasIsMember(i);
        PartHeld(tor, s, f, i, l + 1, n);
        if blocks.Has(i) {
          sizeNow := sizeNow - tor.BlockBytes(i);
        }
      }
    }

    /** Wanting other pieces, and the tr_cpInvalidateDND that goes with it. */
    method SetDnd(dnd: set<nat>)
      requires Valid()
      modifies this`dnd, this`sizeWhenDoneIsDirty
      ensures Valid() && this.dnd == dnd
    {
      hide Held, DoneUpto, ValidUpto;
      this.dnd := dnd;
      sizeWhenDoneIsDirty := true;
    }

    // ----- reading -----

    /** tr_cpMissingBlocksInPiece */
    method MissingBlocksInPiece(piece: nat) returns (n: nat)
      requires Shape() && piece < tor.PieceCount()
      ensures n == |Span(tor.PieceFirst(piece), PieceEnd(tor, piece)) - Blocks()|
      ensures n == 0 <==> HasPiece(tor, Blocks(), piece)
    {
      hide Torrent.FilesAreContiguous, Torrent.BlockCount, Torrent.PieceFirst, Torrent.PieceLast,
        Torrent.PieceCount, Bitfield.Contents;
      PieceEnds(tor, piece);
      blocks.HasAllOrNone();
      var f, l := tor.PieceFirst(piece), tor.PieceLast(piece);
      NoneMissing(Blocks(), f, l + 1);
      if blocks.HasAll() {
        assert Span(f, l + 1) <= Blocks();
        return 0;
      }
      var have := blocks.CountIn(f, l + 1);
      SpanSize(f, l + 1);
      n := l + 1 - f - have;
    }

    /** tr_cpMissingBytesInPiece */
    method MissingBytesInPiece(piece: nat) returns (n: nat)
      requires Shape() && piece < tor.PieceCount()
      ensures n == Missing(tor, Blocks(), piece)
    {
      hide Torrent.FilesAreContiguous, Torrent.BlockCount, Torrent.BlockBytes, Torrent.PieceBytes,
        Torrent.PieceFirst, Torrent.PieceLast, Torrent.PieceCount, Bitfield.Contents, Held, Bit;
      PieceEnds(tor, piece);
      HeldPiece(tor, Blocks(), piece);
      blocks.HasAllOrNone();
      var f, l := tor.PieceFirst(piece), tor.PieceLast(piece);
      if blocks.HasAll() {
        assert HasPiece(tor, Blocks(), piece);
        return 0;
      }
      var haveBytes := 0;
      HeldSplits(tor, Blocks(), f, l, l + 1);
      HeldOne(tor, Blocks(), l);
      HeldIsCount(tor, Blocks(), f, l);
      if f != l {
        haveBytes := blocks.CountIn(f, l);
        haveBytes := haveBytes * tor.blockSize;
      } else {
        NothingHeld(tor, f, f);
        HeldSame(tor, Blocks(), {}, f, l);
      }
      blocks.HasIsMember(l);
      if blocks.Has(l) {
        haveBytes := haveBytes + tor.BlockBytes(l);
      }
      n := tor.PieceBytes(piece) - haveBytes;
    }

    /** tr_cpHaveValid: kept or computed, it is the bytes of the complete pieces. */
    method HaveValid() returns (size: nat)
      requires Valid()
      modifies this`haveValidLazy, this`haveValidIsDirty
      ensures Valid() && size == ValidBytes(tor, Blocks())
    {
      hide Torrent.FilesAreContiguous, Torrent.BlockCount, Torrent.PieceBytes, Torrent.PieceFirst,
        Torrent.PieceLast, Torrent.PieceCount, HeldBytes, DoneBytes, Bitfield.Contents, HasPiece;
      if haveValidIsDirty {
        size := 0;
        for i := 0 to tor.PieceCount()
          invariant size == ValidUpto(tor, Blocks(), i)
        {
          var missing := MissingBlocksInPiece(i);
          if missing == 0 {
            size := size + tor.PieceBytes(i);
          }
        }
        haveValidLazy := size;
        haveValidIsDirty := false;
      }
      size := haveValidLazy;
    }

    /** What there will be of one piece, as tr_cpSizeWhenDone counts it. */
    method PieceWhenDone(p: nat) returns (n: nat)
      requires Shape() && p < tor.PieceCount()
      ensures n == if p in dnd then HeldInPiece(tor, Blocks(), p) else tor.PieceBytes(p)
    {
      hide Torrent.FilesAreContiguous, Torrent.BlockCount, Torrent.PieceBytes, Torrent.PieceFirst,
        Torrent.PieceLast, Torrent.PieceCount, Torrent.LastBlockSize, Bitfield.Contents, Held, Bit;
      if p !in dnd {
        return tor.PieceBytes(p);
      }
      PieceEnds(tor, p);
      var f, l := tor.PieceFirst(p), tor.PieceLast(p);
      var size: int := blocks.CountIn(f, l + 1);
      HeldIsCount(tor, Blocks(), f, l + 1);
      blocks.HasIsMember(l);
      size := size * tor.blockSize;
      if l == tor.BlockCount() - 1 && blocks.Has(l) {
        size := size - (tor.blockSize - tor.LastBlockSize());
      }
      n := size;
    }

    /** tr_cpSizeWhenDone */
    method SizeWhenDone() returns (size: nat)
      requires Valid()
      modifies this`sizeWhenDoneLazy, this`sizeWhenDoneIsDirty
      ensures Valid() && size == DoneBytes(tor, Blocks(), dnd)
      ensures sizeNow <= size <= tor.totalSize
    {
      hide Torrent.FilesAreContiguous, Torrent.BlockCount, Torrent.PieceBytes, Torrent.PieceFirst,
        Torrent.PieceLast, Torrent.PieceCount, HeldBytes, ValidBytes, Bitfield.Contents, HeldInPiece;
      DoneIsBetween(tor, Blocks(), dnd);
      if sizeWhenDoneIsDirty {
        size := 0;
        blocks.HasAllOrNone();
        if blocks.HasAll() {
          AllIsTotal(tor, Blocks(), dnd);
          size := tor.totalSize;
        } else {
          for p := 0 to tor.PieceCount()
            invariant size == DoneUpto(tor, Blocks(), dnd, p)
          {
            var n := PieceWhenDone(p);
            size := size + n;
          }
        }
        sizeWhenDoneLazy := size;
        sizeWhenDoneIsDirty := false;
      }
      size := sizeWhenDoneLazy;
    }

    /** tr_cpLeftUntilDone: the bytes missing from the wanted pieces. */
    method LeftUntilDone() returns (n: nat)
      requires Valid()
      modifies this`sizeWhenDoneLazy, this`sizeWhenDoneIsDirty
      ensures Valid() && n == WantedUpto(tor, Blocks(), dnd, tor.PieceCount())
    {
      hide Torrent.FilesAreContiguous, Torrent.BlockCount, Torrent.PieceCount, ValidBytes, Bitfield.Contents,
        Bitfield.Valid, Held, DoneUpto, HeldUpto, WantedUpto;
      TorrentHolds(tor, Blocks());
      DoneIsHeldAndWanted(tor, Blocks(), dnd, tor.PieceCount());
      WantedIsMissing(tor, Blocks(), dnd, tor.PieceCount());
      var sizeWhenDone := SizeWhenDone();
      n := sizeWhenDone - sizeNow;
    }
  }

  lemma {:induction false} NothingHeld(tor: Torrent, begin: nat, end: nat)
    requires 0 < tor.blockSize
    ensures Held(tor, {}, begin, end) == 0
    ensures forall s: set<nat> :: Held(tor, s, begin, begin) == 0
  {
    hide Torrent.BlockBytes;
    if begin < end {
      NothingHeld(tor, begin, end - 1);
    }
  }

  /** The count of a whole bitfield gives its bytes. */
  lemma WholeCount(tor: Torrent, b: Bitfield, s: set<nat>)
    requires tor.Valid() && b.Valid() && b.bitCount == tor.BlockCount() && s == b.Contents() && 0 < tor.BlockCount()
    ensures HeldBytes(tor, s) == b.trueCount * tor.blockSize - (if tor.BlockCount() - 1 in s then tor.blockSize - tor.LastBlockSize() else 0)
  {
    hide Torrent.FilesAreContiguous, Torrent.BlockCount, Torrent.LastBlockSize, Held, Bitfield.Contents;
    b.HasAllOrNone();
    assert s * Span(0, tor.BlockCount()) == s;
    HeldIsCount(tor, s, 0, tor.BlockCount());
  }

  /** Taking out a range takes out its bytes. */
  lemma RemovedHeld(tor: Torrent, s: set<nat>, f: nat, end: nat)
    requires tor.Valid() && f <= end <= tor.BlockCount()
    ensures HeldBytes(tor, s - Span(f, end)) == HeldBytes(tor, s) - Held(tor, s, f, end)
  {
    hide Torrent.FilesAreContiguous, Torrent.BlockCount, Held;
    var t, n := s - Span(f, end), tor.BlockCount();
    HeldSplits(tor, s, 0, f, n);
    HeldSplits(tor, s, f, end, n);
    HeldSplits(tor, t, 0, f, n);
    HeldSplits(tor, t, f, end, n);
    HeldSame(tor, s, t, 0, f);
    HeldSame(tor, s, t, end, n);
    HeldSame(tor, t, {}, f, end);
    NothingHeld(tor, f, end);
  }

  /** One block of a range that lies in a longer one. */
  lemma PartHeld(tor: Torrent, s: set<nat>, f: nat, i: nat, end: nat, n: nat)
    requires 0 < tor.blockSize && f <= i < end <= n
    ensures Held(tor, s, f, i + 1) == Held(tor, s, f, i) + if i in s then tor.BlockBytes(i) else 0
    ensures Held(tor, s, f, i + 1) <= Held(tor, s, 0, n)
  {
    hide Torrent.BlockBytes;
    HeldSplits(tor, s, 0, f, n);
    HeldSplits(tor, s, f, i + 1, n);
  }

  lemma NoneMissing(s: set<nat>, begin: nat, end: nat)
    ensures |Span(begin, end) - s| == |Span(begin, end)| - |s * Span(begin, end)|
    ensures |Span(begin, end) - s| == 0 <==> forall b: nat | begin <= b < end :: b in s
  {
    assert Span(begin, end) == (Span(begin, end) - s) + s * Span(begin, end);
    if |Span(begin, end) - s| == 0 {
      forall b: nat | begin <= b < end
        ensures b in s
      {
        assert b !in Span(begin, end) - s;
      }
    } else {
      var b :| b in Span(begin, end) - s;
    }
  }

  lemma AllIsTotal(tor: Torrent, s: set<nat>, dnd: set<nat>)
    requires tor.Valid() && s == Upto(tor.BlockCount())
    ensures DoneBytes(tor, s, dnd) == tor.totalSize
  {
    TorrentHolds(tor, s);
    FullIsDone(tor, s, dnd, tor.PieceCount());
    hide Torrent.FilesAreContiguous, Torrent.BlockCount, Torrent.PieceCount, Held, HeldUpto, DoneUpto;
    HeldAll(tor, s, 0, tor.BlockCount());
  }

  lemma {:induction false} DoneAtMost(tor: Torrent, s: set<nat>, t: set<nat>, dnd: set<nat>, k: nat)
    requires tor.Valid() && k <= tor.PieceCount() && forall b | 0 <= b < tor.BlockCount() :: b in t
    ensures DoneUpto(tor, s, dnd, k) <= HeldUpto(tor, t, k)
  {
    hide Torrent.Valid, Torrent.PieceBytes, HeldInPiece, Torrent.PieceCount, Torrent.BlockCount;
    if k != 0 {
      DoneAtMost(tor, s, t, dnd, k - 1);
      PieceEnds(tor, k - 1);
      HeldPiece(tor, s, k - 1);
      HeldPiece(tor, t, k - 1);
    }
  }

  /** What tr_cpSizeWhenDone asserts of its result. */
  lemma DoneIsBetween(tor: Torrent, s: set<nat>, dnd: set<nat>)
    requires tor.Valid()
    ensures HeldBytes(tor, s) <= DoneBytes(tor, s, dnd) <= tor.totalSize
  {
    var t := Upto(tor.BlockCount());
    TorrentHolds(tor, s);
    TorrentHolds(tor, t);
    DoneIsHeldAndWanted(tor, s, dnd, tor.PieceCount());
    WantedIsMissing(tor, s, dnd, tor.PieceCount());
    DoneAtMost(tor, s, t, dnd, tor.PieceCount());
    hide Torrent.FilesAreContiguous, Torrent.BlockCount, Torrent.PieceCount, Held, HeldUpto, DoneUpto, WantedUpto;
    HeldAll(tor, t, 0, tor.BlockCount());
  }
}
