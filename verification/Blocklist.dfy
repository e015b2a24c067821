/** The IPv4 blocklist of blocklist.c: ranges sorted and merged in place, then searched. */
module Blocklists {
  import Search

  /** struct tr_ipv4_range; both ends belong to it. */
  datatype Range = Range(begin: nat, end: nat)

  datatype Address = V4(addr: nat) | V6

  ghost predicate In(r: Range, x: nat)
  {
    r.begin <= x <= r.end
  }

  /** x is in one of the ranges. */
  ghost predicate Covered(rs: seq<Range>, x: nat)
  {
    exists i :: 0 <= i < |rs| && In(rs[i], x)
  }

  ghost predicate SameUnion(rs: seq<Range>, qs: seq<Range>)
  {
    forall x: nat :: Covered(rs, x) <==> Covered(qs, x)
  }

  ghost predicate Proper(rs: seq<Range>)
  {
    forall i | 0 <= i < |rs| :: rs[i].begin <= rs[i].end
  }

  /** In ascending order, with a gap between each range and all later ones.  A range that
      ends before it begins holds no address, and may be among them. */
  ghost predicate Disjoint(rs: seq<Range>)
  {
    forall i, j | 0 <= i < j < |rs| :: rs[i].end < rs[j].begin && rs[i].begin <= rs[j].begin
  }

  ghost predicate SortedByBegin(rs: seq<Range>)
  {
    forall i, j | 0 <= i < j < |rs| :: rs[i].begin <= rs[j].begin
  }

  /** compareAddressToRange, from the range's side: negative when the range is before. */
  function CompareRange(r: Range, needle: nat): int
  {
    if needle < r.begin then 1 else if needle > r.end then -1 else 0
  }

  lemma PermutedUnion(rs: seq<Range>, qs: seq<Range>)
    requires multiset(rs) == multiset(qs)
    ensures SameUnion(rs, qs) && (Proper(rs) ==> Proper(qs))
  {
    forall x: nat
      ensures Covered(rs, x) <==> Covered(qs, x)
    {
      if Covered(rs, x) {
        var i :| 0 <= i < |rs| && In(rs[i], x);
        var j := Search.PermutedElement(qs, rs, i);
        assert In(qs[j], x);
      }
      if Covered(qs, x) {
        var i :| 0 <= i < |qs| && In(qs[i], x);
        var j := Search.PermutedElement(rs, qs, i);
        assert In(rs[j], x);
      }
    }
    forall i | 0 <= i < |qs|
      ensures Proper(rs) ==> qs[i].begin <= qs[i].end
    {
      var j := Search.PermutedElement(rs, qs, i);
    }
  }

  /** qsort by first address */
  method SortRanges(rs: seq<Range>) returns (qs: seq<Range>)
    ensures SortedByBegin(qs) && |qs| == |rs| && SameUnion(rs, qs) && (Proper(rs) ==> Proper(qs))
  {
    qs := Search.QSort(rs, (a: Range, b: Range) => a.begin <= b.begin);
    PermutedUnion(rs, qs);
  }

  lemma CoveredSnoc(rs: seq<Range>, r: Range, x: nat)
    ensures Covered(rs + [r], x) <==> Covered(rs, x) || In(r, x)
  {
    var qs := rs + [r];
    if Covered(rs, x) {
      var i :| 0 <= i < |rs| && In(rs[i], x);
      assert In(qs[i], x);
    }
    assert In(r, x) ==> In(qs[|rs|], x);
    if Covered(qs, x) {
      var i :| 0 <= i < |qs| && In(qs[i], x);
      assert i < |rs| ==> In(rs[i], x);
    }
  }

  /** One range more, apart from the kept ones, overlapping the last of them, or inside it.
      `kept` stands for `seen`, and r begins no earlier than any of those. */
  function Merged(kept: seq<Range>, r: Range): seq<Range>
    requires kept != []
  {
    var last := |kept| - 1;
    if kept[last].end < r.begin then kept + [r]
    else if kept[last].end < r.end then kept[last := Range(kept[last].begin, r.end)]
    else kept
  }

  lemma MergedCovers(kept: seq<Range>, r: Range, x: nat)
    requires kept != [] && kept[|kept| - 1].begin <= r.begin
    ensures Covered(Merged(kept, r), x) <==> Covered(kept, x) || In(r, x)
  {
    var last, init := |kept| - 1, kept[..|kept| - 1];
    assert kept == init + [kept[last]];
    CoveredSnoc(init, kept[last], x);
    if kept[last].end < r.begin {
      CoveredSnoc(kept, r, x);
    } else if kept[last].end < r.end {
      var wide := Range(kept[last].begin, r.end);
      assert Merged(kept, r) == init + [wide];
      CoveredSnoc(init, wide, x);
    }
  }

  lemma MergedIsDisjoint(kept: seq<Range>, r: Range)
    requires kept != [] && Disjoint(kept) && kept[|kept| - 1].begin <= r.begin
    ensures Disjoint(Merged(kept, r)) && Merged(kept, r)[|Merged(kept, r)| - 1].begin <= r.begin
    ensures Proper(kept) && r.begin <= r.end ==> Proper(Merged(kept, r))
  {
    var last := |kept| - 1;
    assert forall i | 0 <= i < last :: kept[i].end < kept[last].begin;
  }

  /** The merge loop: the ranges kept are compacted to the front of the array. */
  method Merge(ranges: array<Range>, n: nat) returns (count: nat)
    requires 0 < n <= ranges.Length && SortedByBegin(ranges[..n])
    modifies ranges
    ensures 0 < count <= n && Disjoint(ranges[..count])
    ensures Proper(old(ranges[..n])) ==> Proper(ranges[..count])
    ensures SameUnion(old(ranges[..n]), ranges[..count])
  {
    hide SortedByBegin, Proper, Disjoint, In;
    ghost var s := ranges[..n];
    var keep, r := 0, 1;
    assert ranges[..1] == [ranges[0]] && s[..1] == [ranges[0]];
    OneRange(s);
    while r != n
      invariant 0 <= keep < r <= n
      invariant ranges[r..n] == s[r..]
      invariant Disjoint(ranges[..keep + 1]) && ranges[keep].begin <= s[r - 1].begin
      invariant Proper(s) ==> Proper(ranges[..keep + 1])
      invariant SameUnion(s[..r], ranges[..keep + 1])
      decreases n - r
    {
      ghost var kept := ranges[..keep + 1];
      assert ranges[r] == s[r] by { assert ranges[r..n][0] == s[r..][0]; }
      assert ranges[r + 1..n] == s[r + 1..] by { assert ranges[r..n][1..] == s[r..][1..]; }
      MergeTurn(s, r, kept);
      if ranges[keep].end < ranges[r].begin {
        keep := keep + 1;
        ranges[keep] := ranges[r];
        assert ranges[..keep + 1] == kept + [s[r]];
      } else if ranges[keep].end < ranges[r].end {
        ranges[keep] := Range(ranges[keep].begin, ranges[r].end);
        assert ranges[..keep + 1] == kept[keep := Range(kept[keep].begin, s[r].end)];
      }
      assert ranges[..keep + 1] == Merged(kept, s[r]);
      r := r + 1;
    }
    count := keep + 1;
    assert s[..n] == s;
  }

  lemma OneRange(s: seq<Range>)
    requires s != []
    ensures Disjoint(s[..1]) && (Proper(s) ==> Proper(s[..1]))
  {
  }

  lemma MergeTurn(s: seq<Range>, r: nat, kept: seq<Range>)
    requires 0 < r < |s| && SortedByBegin(s) && Disjoint(kept) && kept != []
    requires kept[|kept| - 1].begin <= s[r - 1].begin && SameUnion(s[..r], kept)
    ensures var more := Merged(kept, s[r]); Disjoint(more) && more[|more| - 1].begin <= s[r].begin && SameUnion(s[..r + 1], more)
    ensures Proper(s) && Proper(kept) ==> Proper(Merged(kept, s[r]))
  {
    hide In;
    MergedIsDisjoint(kept, s[r]);
    assert s[..r + 1] == s[..r] + [s[r]];
    forall x: nat
      ensures Covered(s[..r + 1], x) <==> Covered(Merged(kept, s[r]), x)
    {
      MergedCovers(kept, s[r], x);
      CoveredSnoc(s[..r], s[r], x);
    }
  }

  /** The rules of a blocklist, as kept in its file. */
  class BlocklistFile {
    var isEnabled: bool
    var rules: seq<Range>

    ghost predicate Valid()
      reads this
    {
      Disjoint(rules)
    }

    constructor (isEnabled: bool)
      ensures Valid() && this.isEnabled == isEnabled && rules == []
    {
      this.isEnabled, rules := isEnabled, [];
    }

    /** "sort and merge" of tr_blocklistFileSetContent, from the ranges its lines parsed to.
        The parser does not compare their ends; the checks of a debug build, that the result
        is Proper, hold whenever the content is. */
    method SetContent(content: seq<Range>)
      requires Valid()
      modifies this`rules
      ensures Valid() && SameUnion(content, rules)
      ensures Proper(content) ==> Proper(rules)
    {
      if content == [] {
        rules := [];
        return;
      }
      var sorted := SortRanges(content);
      var ranges := new Range[|sorted|](i requires 0 <= i < |sorted| => sorted[i]);
      assert ranges[..|sorted|] == sorted;
      var count := Merge(ranges, |sorted|);
      rules := ranges[..count];
    }

    /** tr_blocklistFileHasAddress */
    method HasAddress(addr: Address) returns (has: bool)
      requires Valid()
      ensures has <==> isEnabled && addr.V4? && Covered(rules, addr.addr)
    {
      if !isEnabled || addr.V6? || rules == [] {
        return false;
      }
      var needle := addr.addr;
      var pos := Search.BSearch(rules, (r: Range) => CompareRange(r, needle));
      assert 0 <= pos ==> In(rules[pos], needle);
      return 0 <= pos;
    }
  }

  /** Loading a list and asking for an address is asking whether some range of the list has it. */
  method Blocks(content: seq<Range>, addr: nat) returns (has: bool)
    ensures has <==> Covered(content, addr)
  {
    var b := new BlocklistFile(true);
    b.SetContent(content);
    has := b.HasAddress(V4(addr));
  }
}
