// Building the suppressed-token list: the pattern-major scan and the single vocabulary
// scan with a shrinking set of patterns and early exit.
module VocabScan {
  import opened Options
  import Sorting

  type Token = seq<int>

  const MAX_ID: int := 0x7FFF_FFFF

  // The index of the first occurrence of a token.
  ghost predicate IsFirst(tokens: seq<Token>, i: int) {
    0 <= i < |tokens| && forall j :: 0 <= j < i ==> tokens[j] != tokens[i]
  }

  // The ids both scans are after: first occurrences of a pattern that fit an i32.
  ghost predicate Wanted(tokens: seq<Token>, patterns: seq<Token>, i: int) {
    IsFirst(tokens, i) && tokens[i] in patterns && i <= MAX_ID
  }

  ghost predicate StrictlyAscending(ids: seq<int>) {
    forall i, j :: 0 <= i < j < |ids| ==> ids[i] < ids[j]
  }

  // Strictly ascending and made of exactly the wanted ids: at most one such list.
  ghost predicate IsSuppressList(ids: seq<int>, tokens: seq<Token>, patterns: seq<Token>) {
    StrictlyAscending(ids) && forall i :: i in ids <==> Wanted(tokens, patterns, i)
  }

  lemma {:induction false} AscendingUnique(a: seq<int>, b: seq<int>)
    requires StrictlyAscending(a) && StrictlyAscending(b) && forall i :: i in a <==> i in b
    ensures a == b
  {
    assert |b| > 0 ==> b[0] in b;
    if |a| == 0 {
    } else {
      assert a[0] in a && a[0] in b;
      var k :| 0 <= k < |b| && b[k] == a[0];
      assert b[0] in b && b[0] in a;
      var l :| 0 <= l < |a| && a[l] == b[0];
      assert a[0] == b[0];
      forall i
        ensures i in a[1..] <==> i in b[1..]
      {
        TailMembers(a, i);
        TailMembers(b, i);
      }
      AscendingUnique(a[1..], b[1..]);
      assert a == [a[0]] + a[1..] && b == [b[0]] + b[1..];
    }
  }

  lemma TailMembers(a: seq<int>, i: int)
    requires StrictlyAscending(a) && |a| > 0
    ensures i in a[1..] <==> i in a && i != a[0]
  {
    if i in a && i != a[0] {
      var k :| 0 <= k < |a| && a[k] == i;
      assert a[1..][k - 1] == i;
    }
    if i in a[1..] {
      var k :| 0 <= k < |a[1..]| && a[1..][k] == i;
      assert a[k + 1] == i;
    }
  }

  // ----- pattern-major scan --------------------------------------------------

  // Index of the first token equal to the pattern.
  method Position(tokens: seq<Token>, pattern: Token) returns (r: Option<int>)
    ensures r.None? ==> pattern !in tokens
    ensures r.Some? ==> IsFirst(tokens, r.value) && tokens[r.value] == pattern
  {
    for i := 0 to |tokens|
      invariant forall j :: 0 <= j < i ==> tokens[j] != pattern
    {
      if tokens[i] == pattern {
        return Some(i);
      }
    }
    return None;
  }

  ghost predicate Distinct(ids: seq<int>) {
    forall i, j :: 0 <= i < j < |ids| ==> ids[i] != ids[j]
  }

  // Inserting a new member keeps a list strictly ascending.
  lemma {:induction false} InsertStrict(x: int, s: seq<int>)
    requires StrictlyAscending(s) && x !in s
    ensures StrictlyAscending(Sorting.Insert(x, s))
  {
    if |s| > 0 && x > s[0] {
      InsertStrict(x, s[1..]);
      Sorting.InsertMembers(x, s[1..]);
      var t := Sorting.Insert(x, s[1..]);
      forall k | 0 <= k < |t|
        ensures s[0] < t[k]
      {
        assert t[k] in t;
        if t[k] in s[1..] { var l :| 0 <= l < |s[1..]| && s[1..][l] == t[k]; assert s[l + 1] == t[k]; }
      }
    }
  }

  // Sorting distinct ids: strictly ascending, same members.
  lemma {:induction false} SortedStrict(s: seq<int>)
    requires Distinct(s)
    ensures StrictlyAscending(Sorting.Sorted(s)) && forall i :: i in Sorting.Sorted(s) <==> i in s
  {
    Sorting.SortedAscends(s);
    if |s| > 0 {
      SortedStrict(s[1..]);
      assert s[0] !in s[1..];
      InsertStrict(s[0], Sorting.Sorted(s[1..]));
    }
  }

  // For each pattern its first occurrence, skipping ids already there or past i32; then sort.
  method LegacyBuild(tokens: seq<Token>, patterns: seq<Token>) returns (ids: seq<int>)
    ensures IsSuppressList(ids, tokens, patterns)
  {
    ids := [];
    for p := 0 to |patterns|
      invariant Distinct(ids)
      invariant forall i :: i in ids <==> Wanted(tokens, patterns[..p], i)
    {
      var r := Position(tokens, patterns[p]);
      WantedSnoc(tokens, patterns, p, r);
      if r.Some? && r.value <= MAX_ID && r.value !in ids {
        ids := ids + [r.value];
      }
    }
    assert patterns[..|patterns|] == patterns;
    SortedStrict(ids);
    ids := Sorting.Sorted(ids);
  }

  // One more pattern wants at most its first occurrence.
  lemma WantedSnoc(tokens: seq<Token>, patterns: seq<Token>, p: nat, r: Option<int>)
    requires p < |patterns|
    requires r.None? ==> patterns[p] !in tokens
    requires r.Some? ==> IsFirst(tokens, r.value) && tokens[r.value] == patterns[p]
    ensures forall i :: Wanted(tokens, patterns[..p + 1], i) <==>
      Wanted(tokens, patterns[..p], i) || (r.Some? && i == r.value && i <= MAX_ID)
  {
    assert patterns[..p + 1] == patterns[..p] + [patterns[p]];
    forall i
      ensures Wanted(tokens, patterns[..p + 1], i) <==>
        Wanted(tokens, patterns[..p], i) || (r.Some? && i == r.value && i <= MAX_ID)
    {
      if IsFirst(tokens, i) && tokens[i] == patterns[p] {
        assert r.Some?;
        assert !(i < r.value) && !(r.value < i);
      }
    }
  }

  // ----- single scan ---------------------------------------------------------

  // Patterns not met among the first n tokens.
  ghost predicate Remaining(remaining: set<Token>, tokens: seq<Token>, patterns: seq<Token>, n: nat)
    requires n <= |tokens|
  {
    forall t :: t in remaining <==> t in patterns && t !in tokens[..n]
  }

  // Ids wanted among the first n tokens.
  ghost predicate FoundSoFar(ids: seq<int>, tokens: seq<Token>, patterns: seq<Token>, n: nat) {
    StrictlyAscending(ids) && forall i :: i in ids <==> i < n && Wanted(tokens, patterns, i)
  }

  // Removing a token from the set succeeds exactly at the first occurrence of a pattern.
  method SingleScan(tokens: seq<Token>, patterns: seq<Token>) returns (ids: seq<int>)
    ensures IsSuppressList(ids, tokens, patterns)
  {
    var remaining := set t | t in patterns;
    ids := [];
    var id := 0;
    while id < |tokens|
      invariant id <= |tokens| && FoundSoFar(ids, tokens, patterns, id)
      invariant Remaining(remaining, tokens, patterns, id)
    {
      var token := tokens[id];
      var removed := token in remaining;
      ScanStep(remaining, ids, tokens, patterns, id);
      remaining := remaining - {token};
      if removed && id <= MAX_ID {
        ids := ids + [id];
      }
      if remaining == {} {
        NothingLeft(ids, tokens, patterns, id + 1);
        return;
      }
      id := id + 1;
    }
  }

  lemma ScanStep(remaining: set<Token>, ids: seq<int>, tokens: seq<Token>, patterns: seq<Token>, id: nat)
    requires id < |tokens| && FoundSoFar(ids, tokens, patterns, id) && Remaining(remaining, tokens, patterns, id)
    ensures tokens[id] in remaining <==> IsFirst(tokens, id) && tokens[id] in patterns
    ensures Remaining(remaining - {tokens[id]}, tokens, patterns, id + 1)
    ensures FoundSoFar(if tokens[id] in remaining && id <= MAX_ID then ids + [id] else ids, tokens, patterns, id + 1)
  {
    var token := tokens[id];
    assert tokens[..id + 1] == tokens[..id] + [token];
    assert token in tokens[..id] <==> exists j :: 0 <= j < id && tokens[j] == token by {
      if token in tokens[..id] {
        var j :| 0 <= j < id && tokens[..id][j] == token;
        assert tokens[j] == token;
      }
      if exists j :: 0 <= j < id && tokens[j] == token {
        var j :| 0 <= j < id && tokens[j] == token;
        assert tokens[..id][j] == token;
      }
    }
    forall k | 0 <= k < |ids|
      ensures ids[k] < id
    {
      assert ids[k] in ids;
    }
  }

  // Once every pattern has been met, no later token is a first occurrence of one.
  lemma NothingLeft(ids: seq<int>, tokens: seq<Token>, patterns: seq<Token>, n: nat)
    requires n <= |tokens| && FoundSoFar(ids, tokens, patterns, n) && Remaining({}, tokens, patterns, n)
    ensures IsSuppressList(ids, tokens, patterns)
  {
    forall i | Wanted(tokens, patterns, i)
      ensures i < n
    {
      assert tokens[i] in tokens[..n];
      var j :| 0 <= j < n && tokens[..n][j] == tokens[i];
      assert tokens[j] == tokens[i] && !(j < i);
    }
  }

  // Both scans return the same list, for every vocabulary and pattern list.
  method BothScans(tokens: seq<Token>, patterns: seq<Token>) returns (legacy: seq<int>, single: seq<int>)
    ensures legacy == single && IsSuppressList(single, tokens, patterns)
    ensures forall i, j :: 0 <= i < j < |single| ==> single[i] < single[j]
    ensures forall i :: i in single <==>
      && 0 <= i < |tokens| && i <= 2147483647 && tokens[i] in patterns
      && forall j :: 0 <= j < i ==> tokens[j] != tokens[i]
  {
    legacy := LegacyBuild(tokens, patterns);
    single := SingleScan(tokens, patterns);
    AscendingUnique(legacy, single);
  }

  // ----- the patterns --------------------------------------------------------

  // Each symbol, bare and after a space.
  function Pairs(symbols: seq<Token>): (p: seq<Token>)
    ensures |p| == 2 * |symbols|
    ensures forall i :: 0 <= i < |symbols| ==> p[2 * i] == symbols[i] && p[2 * i + 1] == [0x20] + symbols[i]
  {
    if |symbols| == 0 then []
    else Pairs(symbols[..|symbols| - 1]) + [symbols[|symbols| - 1], [0x20] + symbols[|symbols| - 1]]
  }

  // The pairs, then " -" and " '".
  method SuppressPatterns(symbols: seq<Token>) returns (patterns: seq<Token>)
    ensures patterns == Pairs(symbols) + [[0x20, 0x2D], [0x20, 0x27]]
  {
    patterns := [];
    for i := 0 to |symbols|
      invariant patterns == Pairs(symbols[..i])
    {
      assert symbols[..i + 1][..i] == symbols[..i];
      patterns := patterns + [symbols[i]];
      patterns := patterns + [[0x20] + symbols[i]];
    }
    assert symbols[..|symbols|] == symbols;
    patterns := patterns + [[0x20, 0x2D]];
    patterns := patterns + [[0x20, 0x27]];
  }
}
