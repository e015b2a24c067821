/** The searching and sorting primitives the C code leans on: tr_lowerBound of
    utils.c, and bsearch and qsort of the C library.  Comparators are passed as
    functions of one element whose sign says where the sought key lies. */
module Search {

  /** `cmp` is negative, then zero, then positive along `s`. */
  ghost predicate Partitioned<T>(s: seq<T>, cmp: T -> int)
  {
    forall i, j | 0 <= i < j < |s| ::
      (0 <= cmp(s[i]) ==> 0 <= cmp(s[j])) && (0 < cmp(s[i]) ==> 0 < cmp(s[j]))
  }

  ghost predicate IsLowerBound<T>(s: seq<T>, cmp: T -> int, pos: int)
  {
    && 0 <= pos <= |s|
    && (forall i | 0 <= i < pos :: cmp(s[i]) < 0)
    && (forall i | pos <= i < |s| :: 0 <= cmp(s[i]))
  }

  /** tr_lowerBound: the first position whose element is not before the key.
      `cmp(x)` compares the element x with the key.  On a list that is not in order it
      still returns some position. */
  method LowerBound<T>(s: seq<T>, cmp: T -> int) returns (first: nat, exact: bool)
    ensures first <= |s|
    ensures Partitioned(s, cmp) ==> IsLowerBound(s, cmp, first)
    ensures Partitioned(s, cmp) ==> (exact <==> exists i | 0 <= i < |s| :: cmp(s[i]) == 0)
    ensures Partitioned(s, cmp) && exact ==> first < |s| && cmp(s[first]) == 0
  {
    first, exact := 0, false;
    var nmemb := |s|;
    while nmemb != 0
      invariant 0 <= first <= first + nmemb <= |s|
      invariant Partitioned(s, cmp) ==> forall i | 0 <= i < first :: cmp(s[i]) < 0
      invariant Partitioned(s, cmp) ==> forall i | first + nmemb <= i < |s| :: 0 <= cmp(s[i])
      invariant Partitioned(s, cmp) && exact ==> first + nmemb < |s| && cmp(s[first + nmemb]) == 0
      invariant Partitioned(s, cmp) && !exact ==> forall i | first + nmemb <= i < |s| :: 0 < cmp(s[i])
    {
      var half := nmemb / 2;
      var middle := first + half;
      var c := cmp(s[middle]);
      if 0 <= c {
        if c == 0 { exact := true; }
        nmemb := half;
      } else {
        first := middle + 1;
        nmemb := nmemb - half - 1;
      }
    }
  }

  /** bsearch: some matching position if there is one, else -1. */
  method BSearch<T>(s: seq<T>, cmp: T -> int) returns (pos: int)
    requires Partitioned(s, cmp)
    ensures -1 <= pos < |s|
    ensures 0 <= pos ==> cmp(s[pos]) == 0
    ensures pos < 0 ==> forall i | 0 <= i < |s| :: cmp(s[i]) != 0
  {
    var lo, hi := 0, |s|;
    while lo < hi
      invariant 0 <= lo <= hi <= |s|
      invariant forall i | 0 <= i < lo :: cmp(s[i]) < 0
      invariant forall i | hi <= i < |s| :: 0 < cmp(s[i])
    {
      var mid := (lo + hi) / 2;
      var c := cmp(s[mid]);
      if c < 0 {
        lo := mid + 1;
      } else if 0 < c {
        hi := mid;
      } else {
        return mid;
      }
    }
    pos := -1;
  }

  ghost function Elems<T>(s: seq<T>): set<T>
  {
    set x | x in s
  }

  ghost predicate InSpan(a: int, b: int, k: int)
  {
    a <= k < b
  }

  /** The whole numbers from a up to b. */
  ghost function Span(a: int, b: int): set<int>
  {
    set k | a <= k < b && InSpan(a, b, k)
  }

  lemma {:induction false} SpanSize(a: int, b: int)
    requires a <= b
    ensures |Span(a, b)| == b - a
    decreases b - a
  {
    if a == b {
      assert Span(a, b) == {};
    } else {
      SpanSize(a, b - 1);
      assert Span(a, b) == Span(a, b - 1) + {b - 1};
    }
  }

  // ----- sorting -----

  ghost predicate SortedBy<T>(s: seq<T>, leq: (T, T) -> bool)
  {
    forall i, j | 0 <= i < j < |s| :: leq(s[i], s[j])
  }

  ghost predicate TotalPreorder<T(!new)>(leq: (T, T) -> bool)
  {
    && (forall x, y :: leq(x, y) || leq(y, x))
    && (forall x, y, z :: leq(x, y) && leq(y, z) ==> leq(x, z))
  }

  lemma InsertedIsSorted<T(!new)>(r: seq<T>, x: T, i: nat, leq: (T, T) -> bool)
    requires TotalPreorder(leq) && SortedBy(r, leq) && i <= |r|
    requires (forall k | 0 <= k < i :: leq(r[k], x)) && (i < |r| ==> !leq(r[i], x))
    ensures SortedBy(r[..i] + [x] + r[i..], leq)
  {
    forall k | i <= k < |r|
      ensures leq(x, r[k])
    {
      assert leq(x, r[i]) && (i < k ==> leq(r[i], r[k]));
    }
  }

  lemma InsertedElements<T>(r: seq<T>, x: T, i: nat)
    requires i <= |r|
    ensures multiset(r[..i] + [x] + r[i..]) == multiset(r) + multiset{x}
  {
    assert r == r[..i] + r[i..];
  }

  /** qsort.  The contract leaves the order of equal elements open, as the C
      library does; callers see no more than this. */
  method QSort<T(!new)>(s: seq<T>, leq: (T, T) -> bool) returns (r: seq<T>)
    requires TotalPreorder(leq)
    ensures SortedBy(r, leq)
    ensures multiset(r) == multiset(s) && |r| == |s|
  {
    hide SortedBy, TotalPreorder;
    r := [];
    EmptyIsSorted(leq);
    for n := 0 to |s|
      invariant SortedBy(r, leq) && |r| == n
      invariant multiset(r) == multiset(s[..n])
    {
      var i := 0;
      while i < |r| && leq(r[i], s[n])
        invariant 0 <= i <= |r|
        invariant forall k | 0 <= k < i :: leq(r[k], s[n])
      {
        i := i + 1;
      }
      InsertedIsSorted(r, s[n], i, leq);
      InsertedElements(r, s[n], i);
      assert s[..n + 1] == s[..n] + [s[n]];
      r := r[..i] + [s[n]] + r[i..];
    }
    assert s[..|s|] == s;
  }

  lemma EmptyIsSorted<T(!new)>(leq: (T, T) -> bool)
    ensures SortedBy([], leq)
  {
  }

  lemma MultisetRemove<T>(s: seq<T>, k: nat)
    requires k < |s|
    ensures multiset(s[..k] + s[k + 1..]) == multiset(s) - multiset{s[k]}
    ensures multiset(s) == multiset(s[..k] + s[k + 1..]) + multiset{s[k]}
  {
    assert s == s[..k] + [s[k]] + s[k + 1..];
  }

  /** Permutations stay so without an element they share. */
  lemma RestsPermute<T>(a: seq<T>, b: seq<T>, i: nat, j: nat)
    requires multiset(a) == multiset(b) && i < |a| && j < |b| && a[i] == b[j]
    ensures multiset(a[..i] + a[i + 1..]) == multiset(b[..j] + b[j + 1..])
  {
    MultisetRemove(a, i);
    MultisetRemove(b, j);
  }

  /** Two places of a list are two places of any permutation of it. */
  lemma PermutedPair<T>(a: seq<T>, b: seq<T>, i: nat, j: nat) returns (p: nat, q: nat)
    requires multiset(a) == multiset(b) && i < |b| && j < |b| && i != j
    ensures p < |a| && q < |a| && p != q && a[p] == b[i] && a[q] == b[j]
  {
    assert b[i] in multiset(a);
    p :| p < |a| && a[p] == b[i];
    var a', b' := a[..p] + a[p + 1..], b[..i] + b[i + 1..];
    RestsPermute(a, b, p, i);
    assert b'[if j < i then j else j - 1] == b[j];
    assert b[j] in multiset(a');
    var q' :| 0 <= q' < |a'| && a'[q'] == b[j];
    q := if q' < p then q' else q' + 1;
  }

  lemma PermutedElement<T>(a: seq<T>, b: seq<T>, i: nat) returns (p: nat)
    requires multiset(a) == multiset(b) && i < |b|
    ensures p < |a| && a[p] == b[i]
  {
    assert b[i] in multiset(a);
    p :| p < |a| && a[p] == b[i];
  }
}
