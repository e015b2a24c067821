/** What the order of the piece list is, told of what is left to ask for in each piece. */
module PieceOrder {
  import opened Geometry
  import opened PieceList
  import Search

  /** How many blocks of the piece are neither there nor asked for. */
  function Left(env: Progress, p: WeightedPiece): int
    requires 0 < env.tor.blockSize && 0 < env.tor.pieceSize
  {
    env.Missing(p.index) - p.requestCount
  }

  predicate IsOpen(env: Progress, p: WeightedPiece)
    requires 0 < env.tor.blockSize && 0 < env.tor.pieceSize
  {
    0 < Left(env, p)
  }

  /** A piece of which nothing is there or asked for. */
  predicate IsUntouched(env: Progress, p: WeightedPiece)
    requires 0 < env.tor.blockSize && 0 < env.tor.pieceSize
  {
    Left(env, p) == env.tor.BlockCountInPiece()
  }

  /** Neither comes first by what is left to ask for.  A piece that is not open and has no
      requests, being complete, is level with one that nothing was asked of yet. */
  predicate IsLevel(env: Progress, p: WeightedPiece, q: WeightedPiece)
    requires 0 < env.tor.blockSize && 0 < env.tor.pieceSize
  {
    if IsOpen(env, p) && IsOpen(env, q) then Left(env, p) == Left(env, q)
    else if IsOpen(env, p) then IsUntouched(env, p) && q.requestCount == 0
    else if IsOpen(env, q) then IsUntouched(env, q) && p.requestCount == 0
    else p.requestCount == q.requestCount
  }

  /** Of two open pieces the one with less left comes first, and an open one before one that is
      not; of two that are not, the one with fewer requests. */
  predicate IsAhead(env: Progress, p: WeightedPiece, q: WeightedPiece)
    requires 0 < env.tor.blockSize && 0 < env.tor.pieceSize
  {
    if IsOpen(env, p) && IsOpen(env, q) then Left(env, p) < Left(env, q)
    else if IsOpen(env, p) || IsOpen(env, q) then IsOpen(env, p) && !IsLevel(env, p, q)
    else p.requestCount < q.requestCount
  }

  /** Higher priority first, then the rarer piece, then the smaller salt. */
  predicate IsPreferred(env: Progress, p: WeightedPiece, q: WeightedPiece)
  {
    || env.Priority(p.index) > env.Priority(q.index)
    || (env.Priority(p.index) == env.Priority(q.index)
        && (env.Replication(p.index) < env.Replication(q.index)
            || (env.Replication(p.index) == env.Replication(q.index) && p.salt < q.salt)))
  }

  predicate ComesFirst(env: Progress, p: WeightedPiece, q: WeightedPiece)
    requires 0 < env.tor.blockSize && 0 < env.tor.pieceSize
  {
    IsAhead(env, p, q) || (IsLevel(env, p, q) && IsPreferred(env, p, q))
  }

  // ----- how many blocks are missing -----

  /** The blocks of the piece that are there. */
  function Held(env: Progress, piece: nat): set<int>
    requires 0 < env.tor.blockSize && 0 < env.tor.pieceSize
  {
    set b | b in env.complete && env.tor.PieceFirst(piece) <= b <= env.tor.PieceLast(piece)
  }

  /** Those missing and those there make up the piece. */
  lemma MissingAndHeld(env: Progress, piece: nat)
    requires env.tor.Valid() && piece < env.tor.PieceCount()
    ensures env.Missing(piece) + |Held(env, piece)| == env.tor.PieceLast(piece) + 1 - env.tor.PieceFirst(piece)
    ensures env.Missing(piece) <= env.tor.BlockCountInPiece()
  {
    hide Torrent.FilesAreContiguous, Torrent.PieceFirst, Torrent.PieceLast, Torrent.BlockCountInPiece, Torrent.PieceCount;
    PieceLength(env.tor, piece);
    var first, end := env.tor.PieceFirst(piece), env.tor.PieceLast(piece) + 1;
    var missing: set<int> := set b | env.tor.PieceFirst(piece) <= b <= env.tor.PieceLast(piece) && b !in env.complete;
    Search.SpanSize(first, end);
    assert Search.Span(first, end) == missing + Held(env, piece) && missing !! Held(env, piece);
  }

  lemma PieceLength(tor: Torrent, piece: nat)
    requires tor.Valid() && piece < tor.PieceCount()
    ensures 0 < tor.BlockCountInPiece() && tor.PieceFirst(piece) <= tor.PieceLast(piece)
    ensures tor.PieceLast(piece) + 1 - tor.PieceFirst(piece) <= tor.BlockCountInPiece()
  {
    hide Torrent.FilesAreContiguous, Torrent.PieceFirst, Torrent.PieceLast, Torrent.BlockCount, Torrent.BlockCountInPiece,
      Torrent.PieceCount;
    PieceRange(tor, piece);
    LastPieceHolds(tor);
    assert (piece + 1) * tor.BlockCountInPiece() == piece * tor.BlockCountInPiece() + tor.BlockCountInPiece();
    assert piece + 1 == tor.PieceCount() ==>
      tor.BlockCountInPiece() * tor.PieceCount() == piece * tor.BlockCountInPiece() + tor.BlockCountInPiece();
  }

  // ----- the order -----

  /** comparePieceByWeight puts a piece before another exactly when it comes first. */
  lemma OrderIsExact(env: Progress, p: WeightedPiece, q: WeightedPiece)
    requires env.tor.Valid() && p.index < env.tor.PieceCount() && q.index < env.tor.PieceCount()
    requires 0 <= p.requestCount && 0 <= q.requestCount
    ensures CompareByWeight(env, p, q) < 0 <==> ComesFirst(env, p, q)
  {
    MissingAndHeld(env, p.index);
    MissingAndHeld(env, q.index);
    hide Progress.Missing, Progress.Priority, Progress.Replication, Torrent.Valid, Torrent.BlockCountInPiece;
  }

  predicate IsListed(env: Progress, p: WeightedPiece)
    requires 0 < env.tor.pieceSize
  {
    p.index < env.tor.PieceCount() && 0 <= p.requestCount
  }

  /** No piece stands behind one that it comes before. */
  ghost predicate NoneBehind(env: Progress, s: seq<WeightedPiece>)
    requires 0 < env.tor.blockSize && 0 < env.tor.pieceSize
  {
    forall i, j | 0 <= i < j < |s| :: !ComesFirst(env, s[j], s[i])
  }

  ghost predicate AllListed(env: Progress, s: seq<WeightedPiece>)
    requires 0 < env.tor.pieceSize
  {
    forall i | 0 <= i < |s| :: IsListed(env, s[i])
  }

  /** That is what the list's order means. */
  lemma InOrderExactly(env: Progress, s: seq<WeightedPiece>)
    requires env.tor.Valid() && AllListed(env, s)
    ensures InOrder(env, s) <==> NoneBehind(env, s)
  {
    hide CompareByWeight, ComesFirst, Torrent.FilesAreContiguous, Torrent.PieceCount;
    forall i, j | 0 <= i < j < |s|
      ensures CompareByWeight(env, s[i], s[j]) <= 0 <==> !ComesFirst(env, s[j], s[i])
    {
      assert IsListed(env, s[i]) && IsListed(env, s[j]);
      OrderIsExact(env, s[j], s[i]);
      CompareIsTotal(env, s[i], s[j], s[i]);
      CompareIsTotal(env, s[j], s[i], s[j]);
    }
  }

  lemma InOrderTells(env: Progress, s: seq<WeightedPiece>)
    requires env.tor.Valid()
    ensures InOrder(env, s) && AllListed(env, s) ==> NoneBehind(env, s)
  {
    hide InOrder, NoneBehind, AllListed, Torrent.FilesAreContiguous;
    if AllListed(env, s) {
      InOrderExactly(env, s);
    }
  }
}
