/** Dirty blocks laid over a flat byte array: the value a reader of the cache should
    see, and what keeps it the same when a run of blocks moves to disk. */
module Overlays {
  import opened Geometry
  import opened Storage

  /** struct cache_block; the evbuffer's bytes are `data`. */
  datatype CacheBlock = CacheBlock(
    tor: Torrent, piece: nat, offset: nat, length: nat, time: int, block: nat, data: seq<byte>)

  /** Where a cached block lies in its torrent. */
  function Start(b: CacheBlock): nat
  {
    b.tor.PieceOffset(b.piece, b.offset)
  }

  function End(b: CacheBlock): nat
  {
    Start(b) + |b.data|
  }

  /** Blocks of one torrent lie left to right without overlap. */
  ghost predicate Laid(bs: seq<CacheBlock>)
  {
    forall i, j | 0 <= i < j < |bs| && bs[i].tor == bs[j].tor :: End(bs[i]) <= Start(bs[j])
  }

  ghost predicate Covers(bs: seq<CacheBlock>, i: int, tor: Torrent, k: int)
  {
    0 <= i < |bs| && bs[i].tor == tor && Start(bs[i]) <= k < End(bs[i])
  }

  /** The byte at flat position k: from a cached block over it, else from disk. */
  ghost function ByteAt(bs: seq<CacheBlock>, tor: Torrent, flat: seq<byte>, k: int): byte
    requires 0 <= k < |flat|
  {
    if exists i :: Covers(bs, i, tor, k) then
      var i :| Covers(bs, i, tor, k);
      bs[i].data[k - Start(bs[i])]
    else flat[k]
  }

  /** What a reader of the torrent should see. */
  ghost function Overlay(bs: seq<CacheBlock>, tor: Torrent, flat: seq<byte>): (v: seq<byte>)
    ensures |v| == |flat|
  {
    seq(|flat|, k requires 0 <= k < |flat| => ByteAt(bs, tor, flat, k))
  }

  /** At most one block decides a byte. */
  lemma CoverIsUnique(bs: seq<CacheBlock>, i: int, j: int, tor: Torrent, k: int)
    requires Laid(bs)
    ensures Covers(bs, i, tor, k) && Covers(bs, j, tor, k) ==> i == j
  {
  }

  lemma CoveredByte(bs: seq<CacheBlock>, i: int, tor: Torrent, flat: seq<byte>, k: int)
    requires Laid(bs) && Covers(bs, i, tor, k) && k < |flat|
    ensures ByteAt(bs, tor, flat, k) == bs[i].data[k - Start(bs[i])]
  {
    var j :| Covers(bs, j, tor, k) && ByteAt(bs, tor, flat, k) == bs[j].data[k - Start(bs[j])];
    CoverIsUnique(bs, i, j, tor, k);
  }

  /** A cached block shows through the overlay unchanged. */
  lemma OverlayShowsBlock(bs: seq<CacheBlock>, i: nat, flat: seq<byte>)
    requires Laid(bs) && i < |bs| && End(bs[i]) <= |flat|
    ensures Overlay(bs, bs[i].tor, flat)[Start(bs[i])..End(bs[i])] == bs[i].data
  {
    forall k | Start(bs[i]) <= k < End(bs[i])
      ensures ByteAt(bs, bs[i].tor, flat, k) == bs[i].data[k - Start(bs[i])]
    {
      assert Covers(bs, i, bs[i].tor, k);
      CoveredByte(bs, i, bs[i].tor, flat, k);
    }
  }

  // ----- dropping a run -----

  function Without(bs: seq<CacheBlock>, pos: nat, n: nat): seq<CacheBlock>
    requires pos + n <= |bs|
  {
    bs[..pos] + bs[pos + n..]
  }

  /** bs[pos..pos+n] lie end to end in one torrent. */
  ghost predicate Abuts(bs: seq<CacheBlock>, pos: nat, n: nat)
  {
    && 0 < n && pos + n <= |bs|
    && (forall i | pos <= i < pos + n :: bs[i].tor == bs[pos].tor)
    && (forall i, j {:trigger bs[i], bs[j]} | pos <= i && j == i + 1 < pos + n :: End(bs[i]) == Start(bs[j]))
  }

  /** The bytes of bs[pos..pos+n] end to end: what flushContiguous gathers in its buffer. */
  function RunData(bs: seq<CacheBlock>, pos: nat, n: nat): seq<byte>
    requires pos + n <= |bs|
  {
    if n == 0 then [] else RunData(bs, pos, n - 1) + bs[pos + n - 1].data
  }

  lemma {:induction false} RunDataEnds(bs: seq<CacheBlock>, pos: nat, n: nat)
    requires Abuts(bs, pos, n)
    ensures Start(bs[pos]) + |RunData(bs, pos, n)| == End(bs[pos + n - 1])
  {
    if n == 1 {
      assert RunData(bs, pos, 0) == [];
    } else {
      RunDataEnds(bs, pos, n - 1);
      assert End(bs[pos + n - 2]) == Start(bs[pos + n - 1]);
    }
  }

  /** The run's data holds each block at its place. */
  lemma {:induction false} RunDataHolds(bs: seq<CacheBlock>, pos: nat, n: nat, i: nat, k: int)
    requires Abuts(bs, pos, n) && pos <= i < pos + n
    ensures Start(bs[i]) <= k < End(bs[i]) ==>
      && 0 <= k - Start(bs[pos]) < |RunData(bs, pos, n)|
      && RunData(bs, pos, n)[k - Start(bs[pos])] == bs[i].data[k - Start(bs[i])]
  {
    if n == 1 {
      assert RunData(bs, pos, 0) == [];
    } else {
      RunDataEnds(bs, pos, n - 1);
      assert End(bs[pos + n - 2]) == Start(bs[pos + n - 1]);
      if i < pos + n - 1 {
        RunDataHolds(bs, pos, n - 1, i, k);
      }
    }
  }

  /** A position in the run's range is covered by one of its blocks. */
  lemma {:induction false} RunCovers(bs: seq<CacheBlock>, pos: nat, n: nat, k: int) returns (i: nat)
    requires Abuts(bs, pos, n) && Start(bs[pos]) <= k < Start(bs[pos]) + |RunData(bs, pos, n)|
    ensures pos <= i < pos + n && Covers(bs, i, bs[pos].tor, k)
  {
    RunDataEnds(bs, pos, n);
    if n == 1 || Start(bs[pos + n - 1]) <= k {
      i := pos + n - 1;
    } else {
      assert End(bs[pos + n - 2]) == Start(bs[pos + n - 1]);
      RunDataEnds(bs, pos, n - 1);
      i := RunCovers(bs, pos, n - 1, k);
    }
  }

  /** Dropping blocks none of which covers k leaves the byte at k alone. */
  lemma WithoutKeepsByte(bs: seq<CacheBlock>, pos: nat, n: nat, tor: Torrent, flat: seq<byte>, flat': seq<byte>, k: int)
    requires pos + n <= |bs| && Laid(bs)
    requires forall i | pos <= i < pos + n :: !Covers(bs, i, tor, k)
    requires 0 <= k < |flat| == |flat'| && flat[k] == flat'[k]
    ensures ByteAt(Without(bs, pos, n), tor, flat', k) == ByteAt(bs, tor, flat, k)
  {
    var cs := Without(bs, pos, n);
    if i :| Covers(bs, i, tor, k) {
      var j := if i < pos then i else i - n;
      assert Covers(cs, j, tor, k) && cs[j] == bs[i];
      CoveredByte(bs, i, tor, flat, k);
      CoveredByte(cs, j, tor, flat', k);
    } else {
      forall j
        ensures !Covers(cs, j, tor, k)
      {
        assert !Covers(bs, if j < pos then j else j + n, tor, k);
      }
    }
  }

  /** Writing a run to disk and dropping it from the cache is invisible in its torrent. */
  lemma FlushKeepsOverlay(bs: seq<CacheBlock>, pos: nat, n: nat, flat: seq<byte>)
    requires Laid(bs) && Abuts(bs, pos, n)
    requires Start(bs[pos]) + |RunData(bs, pos, n)| <= |flat|
    ensures Overlay(Without(bs, pos, n), bs[pos].tor, Splice(flat, Start(bs[pos]), RunData(bs, pos, n)))
         == Overlay(bs, bs[pos].tor, flat)
  {
    forall k | 0 <= k < |flat|
      ensures ByteAt(Without(bs, pos, n), bs[pos].tor, Splice(flat, Start(bs[pos]), RunData(bs, pos, n)), k)
           == ByteAt(bs, bs[pos].tor, flat, k)
    {
      FlushKeepsByte(bs, pos, n, flat, k);
    }
  }

  lemma FlushKeepsByte(bs: seq<CacheBlock>, pos: nat, n: nat, flat: seq<byte>, k: int)
    requires Laid(bs) && Abuts(bs, pos, n)
    requires Start(bs[pos]) + |RunData(bs, pos, n)| <= |flat|
    requires 0 <= k < |flat|
    ensures ByteAt(Without(bs, pos, n), bs[pos].tor, Splice(flat, Start(bs[pos]), RunData(bs, pos, n)), k)
         == ByteAt(bs, bs[pos].tor, flat, k)
  {
    var tor, cs, d := bs[pos].tor, Without(bs, pos, n), RunData(bs, pos, n);
    var flat' := Splice(flat, Start(bs[pos]), d);
    if Start(bs[pos]) <= k < Start(bs[pos]) + |d| {
      var i := RunCovers(bs, pos, n, k);
      CoveredByte(bs, i, tor, flat, k);
      RunDataHolds(bs, pos, n, i, k);
      forall j
        ensures !Covers(cs, j, tor, k)
      {
        CoverIsUnique(bs, if j < pos then j else j + n, i, tor, k);
      }
    } else {
      assert flat'[k] == flat[k];
      forall i | pos <= i < pos + n
        ensures !Covers(bs, i, tor, k)
      {
        RunDataHolds(bs, pos, n, i, k);
      }
      WithoutKeepsByte(bs, pos, n, tor, flat, flat', k);
    }
  }

  /** A torrent with no block among those dropped sees no difference either. */
  lemma FlushKeepsOthers(bs: seq<CacheBlock>, pos: nat, n: nat, tor: Torrent, flat: seq<byte>)
    requires Laid(bs) && pos + n <= |bs|
    requires forall i | pos <= i < pos + n :: bs[i].tor != tor
    ensures Overlay(Without(bs, pos, n), tor, flat) == Overlay(bs, tor, flat)
  {
    forall k | 0 <= k < |flat|
      ensures ByteAt(Without(bs, pos, n), tor, flat, k) == ByteAt(bs, tor, flat, k)
    {
      WithoutKeepsByte(bs, pos, n, tor, flat, flat, k);
    }
  }

  // ----- writing a block -----

  /** Putting a block in, or new data into a block already there, is a write of its range. */
  lemma WriteUpdatesOverlay(bs: seq<CacheBlock>, cs: seq<CacheBlock>, p: nat, flat: seq<byte>)
    requires Laid(bs) && Laid(cs) && p < |cs| && End(cs[p]) <= |flat|
    requires cs[..p] + cs[p + 1..] == bs
      || (|cs| == |bs| && cs == bs[p := cs[p]] && cs[p].tor == bs[p].tor && Start(cs[p]) == Start(bs[p]) && End(cs[p]) == End(bs[p]))
    ensures Overlay(cs, cs[p].tor, flat) == Splice(Overlay(bs, cs[p].tor, flat), Start(cs[p]), cs[p].data)
  {
    var tor := cs[p].tor;
    forall k | 0 <= k < |flat|
      ensures Overlay(cs, tor, flat)[k] == Splice(Overlay(bs, tor, flat), Start(cs[p]), cs[p].data)[k]
    {
      if Start(cs[p]) <= k < End(cs[p]) {
        assert Covers(cs, p, tor, k);
        CoveredByte(cs, p, tor, flat, k);
      } else {
        WriteKeepsOther(bs, cs, p, tor, flat, k);
      }
    }
  }

  /** ... and no other torrent is affected. */
  lemma WriteKeepsOthers(bs: seq<CacheBlock>, cs: seq<CacheBlock>, p: nat, tor: Torrent, flat: seq<byte>)
    requires Laid(bs) && Laid(cs) && p < |cs| && cs[p].tor != tor
    requires cs[..p] + cs[p + 1..] == bs
      || (|cs| == |bs| && cs == bs[p := cs[p]] && cs[p].tor == bs[p].tor && Start(cs[p]) == Start(bs[p]) && End(cs[p]) == End(bs[p]))
    ensures Overlay(cs, tor, flat) == Overlay(bs, tor, flat)
  {
    forall k | 0 <= k < |flat|
      ensures ByteAt(cs, tor, flat, k) == ByteAt(bs, tor, flat, k)
    {
      WriteKeepsOther(bs, cs, p, tor, flat, k);
    }
  }

  lemma WriteKeepsOther(bs: seq<CacheBlock>, cs: seq<CacheBlock>, p: nat, tor: Torrent, flat: seq<byte>, k: int)
    requires Laid(bs) && Laid(cs) && p < |cs| && 0 <= k < |flat|
    requires cs[..p] + cs[p + 1..] == bs
      || (|cs| == |bs| && cs == bs[p := cs[p]] && cs[p].tor == bs[p].tor && Start(cs[p]) == Start(bs[p]) && End(cs[p]) == End(bs[p]))
    requires !Covers(cs, p, tor, k)
    ensures ByteAt(cs, tor, flat, k) == ByteAt(bs, tor, flat, k)
  {
    if cs[..p] + cs[p + 1..] == bs {
      assert Without(cs, p, 1) == bs;
      WithoutKeepsByte(cs, p, 1, tor, flat, flat, k);
    } else {
      forall i
        ensures Covers(cs, i, tor, k) <==> Covers(bs, i, tor, k)
      {
      }
      if i :| Covers(bs, i, tor, k) {
        CoveredByte(bs, i, tor, flat, k);
        CoveredByte(cs, i, tor, flat, k);
      }
    }
  }
}
