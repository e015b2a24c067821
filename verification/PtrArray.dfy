/** The growable pointer array of ptrarray.c. */
module PtrArrays {
  import opened Search

  const FLOOR := 32

  /** No two elements of `s` match the key. */
  ghost predicate AtMostOneMatch<T>(s: seq<T>, cmp: T -> int)
  {
    forall i, j | 0 <= i < j < |s| :: cmp(s[i]) != 0 || cmp(s[j]) != 0
  }

  class PtrArray<T(0)> {
    var items: array<T>  // n_alloc is items.Length
    var count: nat       // n_items

    ghost predicate Valid()
      reads this
    {
      count <= items.Length
    }

    function Contents(): seq<T>
      requires Valid()
      reads this, items
    {
      items[..count]
    }

    constructor ()
      ensures Valid() && fresh(items) && Contents() == []
    {
      items := new T[0];
      count := 0;
    }

    /** The reallocation at the head of tr_ptrArrayInsert. */
    method EnsureRoom()
      requires Valid()
      modifies this
      ensures Valid() && count < items.Length && (items == old(items) || fresh(items))
      ensures Contents() == old(Contents())
    {
      if count >= items.Length {
        var grown := new T[if FLOOR < items.Length * 2 then items.Length * 2 else FLOOR];
        forall k | 0 <= k < count { grown[k] := items[k]; }
        items := grown;
      }
    }

    /** tr_ptrArrayInsert: an out-of-range position appends. */
    method Insert(x: T, pos: int) returns (at: nat)
      requires Valid()
      modifies this, items
      ensures Valid() && (items == old(items) || fresh(items))
      ensures at == if pos < 0 || old(count) < pos then old(count) else pos
      ensures Contents() == old(Contents())[..at] + [x] + old(Contents())[at..]
    {
      EnsureRoom();
      ghost var was := Contents();
      at := if pos < 0 || count < pos then count else pos;
      forall k | at <= k < count { items[k + 1] := items[k]; }
      items[at] := x;
      count := count + 1;
      assert Contents()[..at] == was[..at];
      assert Contents()[at + 1..] == was[at..];
      assert Contents() == Contents()[..at] + [Contents()[at]] + Contents()[at + 1..];
    }

    /** tr_ptrArrayErase: removes [begin, end); a negative `end` means all the rest. */
    method Erase(begin: nat, end: int)
      requires Valid()
      requires begin < (if end < 0 then count else end) <= count
      modifies this, items
      ensures Valid() && items == old(items)
      ensures Contents() == old(Contents())[..begin] + old(Contents())[if end < 0 then old(count) else end..]
    {
      var e := if end < 0 then count else end;
      forall k | e <= k < count { items[begin + k - e] := items[k]; }
      count := count - (e - begin);
    }

    /** tr_ptrArrayLowerBound.  Its search stops at the first match it meets, so it
        finds the lower bound only because at most one element matches. */
    method LowerBound(cmp: T -> int) returns (pos: nat, match_: bool)
      requires Valid()
      requires Partitioned(Contents(), cmp) && AtMostOneMatch(Contents(), cmp)
      ensures IsLowerBound(Contents(), cmp, pos)
      ensures match_ <==> exists i | 0 <= i < count :: cmp(items[i]) == 0
      ensures match_ ==> pos < count && cmp(items[pos]) == 0
    {
      ghost var s := Contents();
      assert forall i | 0 <= i < count :: items[i] == s[i];
      pos, match_ := 0, false;
      if count != 0 {
        var first, last := 0, count - 1;
        while true
          invariant 0 <= first <= last < count
          invariant forall i | 0 <= i < first :: cmp(s[i]) < 0
          invariant forall i | last < i < count :: 0 < cmp(s[i])
          decreases last - first
        {
          var half := (last - first) / 2;
          var c := cmp(items[first + half]);
          if c < 0 {
            var newFirst := first + half + 1;
            if newFirst > last {
              pos := newFirst;
              break;
            }
            first := newFirst;
          } else if c > 0 {
            var newLast := first + half - 1;
            if newLast < first {
              pos := first;
              break;
            }
            last := newLast;
          } else {
            match_ := true;
            pos := first + half;
            assert forall i | 0 <= i < pos :: cmp(s[i]) < 0;
            break;
          }
        }
      }
    }

    /** tr_ptrArrayInsertSorted */
    method InsertSorted(x: T, cmp: T -> int) returns (pos: nat)
      requires Valid()
      requires Partitioned(Contents(), cmp) && AtMostOneMatch(Contents(), cmp)
      modifies this, items
      ensures Valid() && (items == old(items) || fresh(items))
      ensures IsLowerBound(old(Contents()), cmp, pos)
      ensures Contents() == old(Contents())[..pos] + [x] + old(Contents())[pos..]
    {
      var at, found := LowerBound(cmp);
      pos := Insert(x, at);
    }

    /** tr_ptrArrayFindSorted, returning a position instead of a pointer. */
    method FindSorted(cmp: T -> int) returns (pos: int)
      requires Valid()
      requires Partitioned(Contents(), cmp) && AtMostOneMatch(Contents(), cmp)
      ensures -1 <= pos < count
      ensures 0 <= pos ==> cmp(items[pos]) == 0
      ensures pos < 0 ==> forall i | 0 <= i < count :: cmp(items[i]) != 0
    {
      var at, found := LowerBound(cmp);
      pos := if found then at else -1;
    }
  }
}
