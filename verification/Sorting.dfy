// The sort behind the suppressed-token list and the bootstrap medians.
module Sorting {

  ghost predicate Ascending(s: seq<int>) {
    forall i, j | 0 <= i <= j < |s| :: s[i] <= s[j]
  }

  function Insert(x: int, s: seq<int>): seq<int> {
    if s == [] || x <= s[0] then [x] + s else [s[0]] + Insert(x, s[1..])
  }

  function Sorted(s: seq<int>): seq<int> {
    if s == [] then [] else Insert(s[0], Sorted(s[1..]))
  }

  lemma {:induction false} InsertMembers(x: int, s: seq<int>)
    ensures |Insert(x, s)| == |s| + 1
    ensures forall y :: y in Insert(x, s) <==> y == x || y in s
  {
    if s != [] && x > s[0] {
      InsertMembers(x, s[1..]);
      assert s == [s[0]] + s[1..];
    }
  }

  lemma AscendingCons(v: int, s: seq<int>)
    requires Ascending(s) && forall y <- s :: v <= y
    ensures Ascending([v] + s)
  {
    forall i, j | 0 <= i <= j < |[v] + s|
      ensures ([v] + s)[i] <= ([v] + s)[j]
    {
      if i == 0 && j > 0 { assert s[j - 1] in s; }
    }
  }

  lemma {:induction false} InsertKeeps(x: int, s: seq<int>)
    requires Ascending(s)
    ensures Ascending(Insert(x, s))
  {
    if s == [] {
    } else if x <= s[0] {
      AscendingCons(x, s);
    } else {
      InsertKeeps(x, s[1..]);
      InsertMembers(x, s[1..]);
      AscendingCons(s[0], Insert(x, s[1..]));
    }
  }

  // Ascending, of the same length and with the same members.
  lemma {:induction false} SortedAscends(s: seq<int>)
    ensures Ascending(Sorted(s)) && |Sorted(s)| == |s|
    ensures forall y :: y in Sorted(s) <==> y in s
  {
    if s != [] {
      SortedAscends(s[1..]);
      InsertKeeps(s[0], Sorted(s[1..]));
      InsertMembers(s[0], Sorted(s[1..]));
      assert s == [s[0]] + s[1..];
    }
  }
}
