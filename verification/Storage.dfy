/** Reading and writing a torrent's pieces through its files: inout.c.
    The disk is a ghost of the file system: for each torrent, the bytes of each file. */
module Storage {
  import opened Geometry
  import Search

  /** The file contents laid end to end. */
  function Concat(fs: seq<seq<byte>>): seq<byte>
  {
    if fs == [] then [] else fs[0] + Concat(fs[1..])
  }

  /** `d` written over `s` at `at`. */
  function Splice(s: seq<byte>, at: nat, d: seq<byte>): (r: seq<byte>)
    requires at + |d| <= |s|
    ensures |r| == |s|
  {
    s[..at] + d + s[at + |d|..]
  }

  lemma {:induction false} ConcatSplit(fs: seq<seq<byte>>, i: nat)
    requires i < |fs|
    ensures Concat(fs) == Concat(fs[..i]) + fs[i] + Concat(fs[i + 1..])
  {
    if i == 0 {
      assert fs[..0] == [];
    } else {
      ConcatSplit(fs[1..], i - 1);
      assert fs[1..][..i - 1] == fs[..i][1..];
      assert fs[1..][i..] == fs[i + 1..];
      assert Concat(fs[..i]) == fs[0] + Concat(fs[..i][1..]);
    }
  }

  /** The files on disk have the lengths the metainfo gives them. */
  ghost predicate Fits(tor: Torrent, fs: seq<seq<byte>>)
  {
    |fs| == |tor.files| && forall i | 0 <= i < |fs| :: |fs[i]| == tor.files[i].length
  }

  lemma {:induction false} PrefixLength(tor: Torrent, fs: seq<seq<byte>>, i: nat)
    requires tor.Valid() && Fits(tor, fs) && i < |fs|
    ensures |Concat(fs[..i])| == tor.files[i].offset
  {
    if i == 0 {
      assert fs[..0] == [];
    } else {
      PrefixLength(tor, fs, i - 1);
      ConcatSplit(fs[..i], i - 1);
      assert fs[..i][..i - 1] == fs[..i - 1];
      assert fs[..i][i..] == [];
      assert tor.files[i].offset == tor.files[i - 1].offset + tor.files[i - 1].length;
    }
  }

  lemma FlatLength(tor: Torrent, fs: seq<seq<byte>>)
    requires tor.Valid() && Fits(tor, fs)
    ensures |Concat(fs)| == tor.totalSize
  {
    var last := |fs| - 1;
    PrefixLength(tor, fs, last);
    ConcatSplit(fs, last);
    assert fs[last + 1..] == [];
  }

  /** Where a range of one file lies in the flat view. */
  lemma FileRangeIsFlat(tor: Torrent, fs: seq<seq<byte>>, i: nat, from: nat, n: nat)
    requires tor.Valid() && Fits(tor, fs) && i < |fs| && from + n <= |fs[i]|
    ensures tor.files[i].offset + from + n <= |Concat(fs)|
    ensures Concat(fs)[tor.files[i].offset + from..][..n] == fs[i][from..from + n]
  {
    ConcatSplit(fs, i);
    PrefixLength(tor, fs, i);
  }

  /** Overwriting a range of one file overwrites that range of the flat view. */
  lemma FileWriteIsFlat(tor: Torrent, fs: seq<seq<byte>>, i: nat, from: nat, d: seq<byte>)
    requires tor.Valid() && Fits(tor, fs) && i < |fs| && from + |d| <= |fs[i]|
    ensures Fits(tor, fs[i := Splice(fs[i], from, d)])
    ensures tor.files[i].offset + from + |d| <= |Concat(fs)|
    ensures Concat(fs[i := Splice(fs[i], from, d)]) == Splice(Concat(fs), tor.files[i].offset + from, d)
  {
    var gs := fs[i := Splice(fs[i], from, d)];
    ConcatSplit(fs, i);
    ConcatSplit(gs, i);
    PrefixLength(tor, fs, i);
    assert gs[..i] == fs[..i] && gs[i + 1..] == fs[i + 1..];
  }

  lemma SpliceNothing(s: seq<byte>, at: nat, d: seq<byte>)
    requires at <= |s| && d == []
    ensures Splice(s, at, d) == s
  {
  }

  lemma SpliceExtends(s: seq<byte>, at: nat, d: seq<byte>, e: seq<byte>)
    requires at + |d| + |e| <= |s|
    ensures Splice(Splice(s, at, d), at + |d|, e) == Splice(s, at, d + e)
  {
  }

  /** One pass of a write: file `i` takes `data[done..done+n]` and the written range grows by it. */
  lemma WriteStep(tor: Torrent, fs: seq<seq<byte>>, flat: seq<byte>, start: nat, data: seq<byte>,
                  done: nat, n: nat, i: nat, from: nat)
    requires tor.Valid() && Fits(tor, fs) && i < |fs| && from + n <= |fs[i]|
    requires done + n <= |data| && start + done + n <= |flat|
    requires Concat(fs) == Splice(flat, start, data[..done])
    requires tor.files[i].offset + from == start + done
    ensures Fits(tor, fs[i := Splice(fs[i], from, data[done..done + n])])
    ensures Concat(fs[i := Splice(fs[i], from, data[done..done + n])]) == Splice(flat, start, data[..done + n])
  {
    var d := data[done..done + n];
    FileWriteIsFlat(tor, fs, i, from, d);
    SpliceExtends(flat, start, data[..done], d);
    assert data[..done] + d == data[..done + n];
  }

  /** One pass of a read. */
  lemma ReadStep(tor: Torrent, fs: seq<seq<byte>>, mem: seq<byte>, start: nat, done: nat, n: nat, i: nat, from: nat)
    requires tor.Valid() && Fits(tor, fs) && i < |fs| && from + n <= |fs[i]|
    requires done + n <= |mem| && start + done + n <= |Concat(fs)|
    requires tor.files[i].offset + from == start + done
    ensures Splice(Splice(mem, 0, Concat(fs)[start..][..done]), done, fs[i][from..from + n])
         == Splice(mem, 0, Concat(fs)[start..][..done + n])
  {
    var flat, d := Concat(fs), fs[i][from..from + n];
    FileRangeIsFlat(tor, fs, i, from, n);
    SpliceExtends(mem, 0, flat[start..][..done], d);
    assert flat[start..][..done] + d == flat[start..][..done + n];
  }

  // ----- files by offset -----

  /** compareOffsetToFile, as a comparison of the file with the offset. */
  function CompareFileToOffset(f: FileInfo, offset: nat): int
  {
    if offset < f.offset then 1
    else if f.offset + f.length <= offset then -1
    else 0
  }

  lemma {:induction false} FilesAreOrdered(tor: Torrent, i: nat, j: nat)
    requires tor.Valid() && i < j < |tor.files|
    ensures tor.files[i].offset + tor.files[i].length <= tor.files[j].offset
    decreases j
  {
    assert tor.files[j].offset == tor.files[j - 1].offset + tor.files[j - 1].length;
    if i < j - 1 {
      FilesAreOrdered(tor, i, j - 1);
    }
  }

  lemma {:induction false} SomeFileHolds(tor: Torrent, offset: nat, n: nat) returns (i: nat)
    requires tor.Valid() && n < |tor.files|
    requires offset < tor.files[n].offset + tor.files[n].length
    ensures i <= n && CompareFileToOffset(tor.files[i], offset) == 0
  {
    if tor.files[n].offset <= offset {
      i := n;
    } else {
      assert tor.files[n].offset == tor.files[n - 1].offset + tor.files[n - 1].length;
      i := SomeFileHolds(tor, offset, n - 1);
    }
  }

  /** tr_ioFindFileLocation: never fails inside the torrent, zero-length files or not. */
  method FindFileLocation(tor: Torrent, piece: nat, pieceOffset: nat) returns (fileIndex: nat, fileOffset: nat)
    requires tor.Valid() && tor.PieceOffset(piece, pieceOffset) < tor.totalSize
    ensures fileIndex < |tor.files| && fileOffset < tor.files[fileIndex].length
    ensures tor.files[fileIndex].offset + fileOffset == tor.PieceOffset(piece, pieceOffset)
  {
    var offset := tor.PieceOffset(piece, pieceOffset);
    var cmp := (f: FileInfo) => CompareFileToOffset(f, offset);
    assert Search.Partitioned(tor.files, cmp) by {
      forall i, j | 0 <= i < j < |tor.files|
        ensures tor.files[i].offset + tor.files[i].length <= tor.files[j].offset
      {
        FilesAreOrdered(tor, i, j);
      }
    }
    var at := Search.BSearch(tor.files, cmp);
    assert 0 <= at by {
      var i := SomeFileHolds(tor, offset, |tor.files| - 1);
      assert cmp(tor.files[i]) == 0;
    }
    fileIndex := at;
    fileOffset := offset - tor.files[at].offset;
  }

  datatype IoMode = Read | Prefetch | Write

  const EINVAL := 22
  const EIO := 5

  class Disk {
    /** torrent id -> contents of each of its files */
    var files: map<nat, seq<seq<byte>>>
    /** the (torrent, file) pairs whose file cannot be opened, read or written */
    const faulty: set<(nat, nat)>

    constructor (files: map<nat, seq<seq<byte>>>, faulty: set<(nat, nat)>)
      ensures this.files == files && this.faulty == faulty
    {
      this.files := files;
      this.faulty := faulty;
    }

    ghost predicate Backs(tor: Torrent)
      reads this
    {
      tor.Valid() && tor.uniqueId in files && Fits(tor, files[tor.uniqueId])
    }

    /** The torrent as one flat byte array. */
    ghost function Flat(tor: Torrent): (s: seq<byte>)
      requires Backs(tor)
      reads this
      ensures |s| == tor.totalSize
    {
      FlatLength(tor, files[tor.uniqueId]);
      Concat(files[tor.uniqueId])
    }

    /** The store changed for this torrent alone. */
    twostate predicate OnlyChanged(tor: Torrent)
      reads this
    {
      files.Keys == old(files.Keys) && forall t | t in files && t != tor.uniqueId :: files[t] == old(files)[t]
    }

    /** readOrWriteBytes: one file, a range inside it, `buf[at..at+n]` as the memory side. */
    method ReadOrWriteBytes(tor: Torrent, mode: IoMode, fileIndex: nat, fileOffset: nat,
                            buf: array<byte>, at: nat, n: nat) returns (err: int)
      requires Backs(tor) && fileIndex < |tor.files|
      requires fileOffset + n <= tor.files[fileIndex].length
      requires mode != Prefetch ==> at + n <= buf.Length
      modifies this`files, buf
      ensures Backs(tor) && OnlyChanged(tor)
      ensures err == 0 <==> tor.files[fileIndex].length == 0 || (tor.uniqueId, fileIndex) !in faulty
      ensures mode != Write || err != 0 ==> files == old(files)
      ensures mode != Read || err != 0 ==> buf[..] == old(buf[..])
      ensures mode == Read && err == 0 ==>
        buf[..] == Splice(old(buf[..]), at, old(files)[tor.uniqueId][fileIndex][fileOffset..fileOffset + n])
      ensures mode == Write && err == 0 ==>
        files[tor.uniqueId] == old(files)[tor.uniqueId][fileIndex :=
          Splice(old(files)[tor.uniqueId][fileIndex], fileOffset, old(buf[at..at + n]))]
    {
      err := 0;
      var contents := files[tor.uniqueId][fileIndex];
      if tor.files[fileIndex].length == 0 {
        assert n == 0 && contents == [];
        assert mode != Prefetch ==> Splice(buf[..], at, []) == buf[..];
        assert files[tor.uniqueId][fileIndex := Splice(contents, fileOffset, [])] == files[tor.uniqueId];
        return;
      }
      if (tor.uniqueId, fileIndex) in faulty {
        return EIO;
      }
      match mode
      case Read =>
        forall k | 0 <= k < n { buf[at + k] := contents[fileOffset + k]; }
        assert buf[..] == Splice(old(buf[..]), at, contents[fileOffset..fileOffset + n]);
      case Write =>
        files := files[tor.uniqueId :=
          files[tor.uniqueId][fileIndex := Splice(contents, fileOffset, buf[at..at + n])]];
      case Prefetch =>
    }

    /** readOrWritePiece: walks file by file, so the range may cross any number of
        file boundaries, and zero-length files are stepped over. */
    method ReadOrWritePiece(tor: Torrent, mode: IoMode, piece: nat, pieceOffset: nat,
                            buf: array<byte>, buflen: nat) returns (err: int)
      requires Backs(tor)
      requires piece < tor.PieceCount() ==>
        tor.PieceOffset(piece, pieceOffset) < tor.totalSize && tor.PieceOffset(piece, pieceOffset) + buflen <= tor.totalSize
      requires mode != Prefetch ==> buflen <= buf.Length
      modifies this`files, buf
      ensures Backs(tor) && OnlyChanged(tor)
      ensures tor.PieceCount() <= piece ==> err == EINVAL
      ensures piece < tor.PieceCount() && faulty == {} ==> err == 0
      ensures mode != Write || tor.PieceCount() <= piece ==> files == old(files)
      ensures mode != Read ==> buf[..] == old(buf[..])
      ensures err == 0 && mode == Read ==>
        buf[..] == Splice(old(buf[..]), 0, Flat(tor)[tor.PieceOffset(piece, pieceOffset)..][..buflen])
      ensures err == 0 && mode == Write ==>
        Flat(tor) == Splice(old(Flat(tor)), tor.PieceOffset(piece, pieceOffset), old(buf[..buflen]))
    {
      hide Splice, Concat, CompareFileToOffset;
      err := 0;
      if piece >= tor.PieceCount() {
        return EINVAL;
      }
      ghost var start := tor.PieceOffset(piece, pieceOffset);
      ghost var flat := Flat(tor);
      var fileIndex, fileOffset := FindFileLocation(tor, piece, pieceOffset);
      var left: nat := buflen;
      var done: nat := 0;
      SpliceNothing(old(buf[..]), 0, flat[start..][..0]);
      SpliceNothing(flat, start, old(buf[..])[..0]);
      while left != 0 && err == 0
        invariant done + left == buflen
        invariant Backs(tor) && OnlyChanged(tor)
        invariant mode != Write ==> files == old(files)
        invariant mode != Read ==> buf[..] == old(buf[..])
        invariant fileIndex <= |tor.files|
        invariant 0 <= fileOffset
        invariant left != 0 && err == 0 ==> fileIndex < |tor.files|
        invariant left != 0 && err == 0 ==> fileOffset <= tor.files[fileIndex].length
        invariant left != 0 && err == 0 ==> tor.files[fileIndex].offset + fileOffset == start + done
        invariant err == 0 && mode == Read ==> buf[..] == Splice(old(buf[..]), 0, flat[start..][..done])
        invariant err == 0 && mode == Write ==> Flat(tor) == Splice(flat, start, old(buf[..])[..done])
        invariant faulty == {} ==> err == 0
        decreases |tor.files| - fileIndex
      {
        var room := tor.files[fileIndex].length - fileOffset;
        var bytesThisPass := if left < room then left else room;
        ghost var fs, mem := files[tor.uniqueId], buf[..];
        err := ReadOrWriteBytes(tor, mode, fileIndex, fileOffset, buf, done, bytesThisPass);
        if err == 0 {
          NextFile(tor, fileIndex, start + done + left);
          if mode == Write {
            WriteStep(tor, fs, flat, start, mem, done, bytesThisPass, fileIndex, fileOffset);
          } else if mode == Read {
            ReadStep(tor, fs, old(buf[..]), start, done, bytesThisPass, fileIndex, fileOffset);
          }
        }
        done := done + bytesThisPass;
        left := left - bytesThisPass;
        fileIndex := fileIndex + 1;
        fileOffset := 0;
      }
    }
  }

  /** If a range goes on past the end of a file there is a next file, and it starts there. */
  lemma NextFile(tor: Torrent, i: nat, end: nat)
    requires tor.Valid() && i < |tor.files| && end <= tor.totalSize
    ensures tor.files[i].offset + tor.files[i].length < end ==> i + 1 < |tor.files|
    ensures i + 1 < |tor.files| ==> tor.files[i + 1].offset == tor.files[i].offset + tor.files[i].length
  {
  }
}
