/** The bootstrap interval for a median behind every measurement verdict: an xorshift
  * generator draws resamples, and two order statistics of their medians bound it.
  *
  * Measurements are compared by `f64::total_cmp`, a total order on bit patterns, so a
  * measurement is modelled by its place in that order, an integer. */
module Bootstrap {

  import opened Options
  import opened Sorting

  // ---------------------------------------------------------------- generator

  function Left13(s: bv64): bv64 { s ^ (s << 13) }
  function Right7(s: bv64): bv64 { s ^ (s >> 7) }
  function Left17(s: bv64): bv64 { s ^ (s << 17) }

  function Step(s: bv64): bv64 { Left17(Right7(Left13(s))) }

  function UndoLeft13(s: bv64): bv64 {
    s ^ (s << 13) ^ (s << 26) ^ (s << 39) ^ (s << 52)
  }

  function UndoRight7(s: bv64): bv64 {
    s ^ (s >> 7) ^ (s >> 14) ^ (s >> 21) ^ (s >> 28) ^ (s >> 35) ^ (s >> 42) ^ (s >> 49) ^ (s >> 56) ^ (s >> 63)
  }

  function UndoLeft17(s: bv64): bv64 {
    s ^ (s << 17) ^ (s << 34) ^ (s << 51)
  }

  function Unstep(s: bv64): bv64 { UndoLeft13(UndoRight7(UndoLeft17(s))) }

  // Stated on the spelled-out words, which the solver simplifies without search.
  lemma UndoLeft13Word(s: bv64)
    ensures UndoLeft13(s ^ (s << 13)) == s
    ensures Left13(s ^ (s << 13) ^ (s << 26) ^ (s << 39) ^ (s << 52)) == s
  {}

  lemma UndoRight7Word(s: bv64)
    ensures UndoRight7(s ^ (s >> 7)) == s
    ensures Right7(s ^ (s >> 7) ^ (s >> 14) ^ (s >> 21) ^ (s >> 28) ^ (s >> 35) ^ (s >> 42) ^ (s >> 49)
                     ^ (s >> 56) ^ (s >> 63)) == s
  {}

  lemma UndoLeft17Word(s: bv64)
    ensures UndoLeft17(s ^ (s << 17)) == s
    ensures Left17(s ^ (s << 17) ^ (s << 34) ^ (s << 51)) == s
  {}

  lemma Left13Bijective(s: bv64)
    ensures UndoLeft13(Left13(s)) == s && Left13(UndoLeft13(s)) == s
  {
    UndoLeft13Word(s);
  }

  lemma Right7Bijective(s: bv64)
    ensures UndoRight7(Right7(s)) == s && Right7(UndoRight7(s)) == s
  {
    UndoRight7Word(s);
  }

  lemma Left17Bijective(s: bv64)
    ensures UndoLeft17(Left17(s)) == s && Left17(UndoLeft17(s)) == s
  {
    UndoLeft17Word(s);
  }

  /** One step of the generator has a two-sided inverse on all 64-bit words. */
  lemma StepBijective(s: bv64)
    ensures Unstep(Step(s)) == s && Step(Unstep(s)) == s
  {
    StepUndone(s);
    UndoneStep(s);
  }

  lemma StepUndone(s: bv64)
    ensures Unstep(Step(s)) == s
  {
    var a := Left13(s);
    var b := Right7(a);
    Left13Bijective(s);
    Right7Bijective(a);
    Left17Bijective(b);
    Backward(s, a, b, Left17(b));
  }

  lemma UndoneStep(s: bv64)
    ensures Step(Unstep(s)) == s
  {
    var b := UndoLeft17(s);
    var a := UndoRight7(b);
    Left17Bijective(s);
    Right7Bijective(b);
    Left13Bijective(a);
    Forward(UndoLeft13(a), a, b, s);
  }

  // Three shifts in turn, and their inverses in turn.
  lemma Forward(s: bv64, a: bv64, b: bv64, c: bv64)
    requires Left13(s) == a && Right7(a) == b && Left17(b) == c
    ensures Step(s) == c
  {}

  lemma Backward(s: bv64, a: bv64, b: bv64, c: bv64)
    requires UndoLeft17(c) == b && UndoRight7(b) == a && UndoLeft13(a) == s
    ensures Unstep(c) == s
  {}

  lemma StepKeepsZeroApart(s: bv64)
    ensures Step(s) == 0 <==> s == 0
  {
    StepBijective(s);
    StepBijective(0);
    ZeroFixed();
  }

  lemma ZeroFixed()
    ensures Step(0) == 0
  {
    assert Left13(0) == 0 && Right7(0) == 0 && Left17(0) == 0;
  }

  /** The state after `n` steps. */
  function Run(s: bv64, n: nat): bv64 {
    if n == 0 then s else Step(Run(s, n - 1))
  }

  // The three shifts spelled out; Forward puts them in order.
  lemma Left13Is(s: bv64)
    ensures Left13(s) == s ^ (s << 13)
  {}

  lemma Right7Is(s: bv64)
    ensures Right7(s) == s ^ (s >> 7)
  {}

  lemma Left17Is(s: bv64)
    ensures Left17(s) == s ^ (s << 17)
  {}

  lemma {:induction false} RunAdd(s: bv64, i: nat, n: nat)
    ensures Run(Run(s, i), n) == Run(s, i + n)
  {
    if n > 0 { RunAdd(s, i, n - 1); }
  }

  /** No run from a non-zero state ever reaches the fixed point zero. */
  lemma {:induction false} NeverZero(s: bv64, n: nat)
    requires s != 0
    ensures Run(s, n) != 0
  {
    if n > 0 {
      NeverZero(s, n - 1);
      StepKeepsZeroApart(Run(s, n - 1));
    }
  }

  /** A run that meets itself meets its start first: there is no tail before the cycle. */
  lemma {:induction false} NoTail(s: bv64, i: nat, j: nat)
    requires i <= j && Run(s, i) == Run(s, j)
    ensures Run(s, j - i) == s
  {
    if i > 0 {
      StepBijective(Run(s, i - 1));
      StepBijective(Run(s, j - 1));
      NoTail(s, i - 1, j - 1);
    }
  }

  // ---------------------------------------------------------------- order statistics

  function Below(v: int): int -> bool { x => x < v }
  function AtMost(v: int): int -> bool { x => x <= v }
  function Between(low: int, high: int): int -> bool { x => low <= x <= high }

  function Count(s: seq<int>, p: int -> bool): nat {
    if s == [] then 0 else (if p(s[0]) then 1 else 0) + Count(s[1..], p)
  }

  /** What it means, without sorting, that `v` is the element of rank `k`. */
  predicate IsRank(s: seq<int>, k: nat, v: int) {
    Count(s, Below(v)) <= k < Count(s, AtMost(v))
  }

  lemma {:induction false} CountMono(s: seq<int>, p: int -> bool, q: int -> bool)
    requires forall i | 0 <= i < |s| :: p(s[i]) ==> q(s[i])
    ensures Count(s, p) <= Count(s, q) <= |s|
  {
    if s != [] {
      CountMono(s[1..], p, q);
    }
  }

  lemma {:induction false} CountConcat(a: seq<int>, b: seq<int>, p: int -> bool)
    ensures Count(a + b, p) == Count(a, p) + Count(b, p)
  {
    if a == [] {
      assert a + b == b;
    } else {
      assert (a + b)[1..] == a[1..] + b;
      CountConcat(a[1..], b, p);
    }
  }

  lemma {:induction false} CountAll(s: seq<int>, p: int -> bool)
    requires forall i | 0 <= i < |s| :: p(s[i])
    ensures Count(s, p) == |s|
  {
    if s != [] {
      CountAll(s[1..], p);
    }
  }

  lemma {:induction false} CountNone(s: seq<int>, p: int -> bool)
    requires forall i | 0 <= i < |s| :: !p(s[i])
    ensures Count(s, p) == 0
  {
    if s != [] {
      CountNone(s[1..], p);
    }
  }

  lemma RankUnique(s: seq<int>, k: nat, v: int, w: int)
    requires IsRank(s, k, v) && IsRank(s, k, w)
    ensures v == w
  {
    if v < w {
      CountMono(s, AtMost(v), Below(w));
    } else if w < v {
      CountMono(s, AtMost(w), Below(v));
    }
  }

  lemma RankIsElement(s: seq<int>, k: nat, v: int)
    requires IsRank(s, k, v)
    ensures v in s
  {
    if v !in s {
      CountMono(s, AtMost(v), Below(v));
    }
  }

  lemma RankOrder(s: seq<int>, i: nat, j: nat, v: int, w: int)
    requires i <= j && IsRank(s, i, v) && IsRank(s, j, w)
    ensures v <= w
  {
    if w < v {
      CountMono(s, AtMost(w), Below(v));
    }
  }

  function Map(f: int -> int, s: seq<int>): (r: seq<int>)
    ensures |r| == |s| && forall i | 0 <= i < |s| :: r[i] == f(s[i])
  {
    seq(|s|, i requires 0 <= i < |s| => f(s[i]))
  }

  ghost predicate NonDecreasing(f: int -> int) {
    forall x, y :: x <= y ==> f(x) <= f(y)
  }

  /** Counting after a map is counting through it, when one test implies the other. */
  lemma {:induction false} CountThrough(f: int -> int, s: seq<int>, p: int -> bool, q: int -> bool)
    requires forall x :: p(x) ==> q(f(x))
    ensures Count(s, p) <= Count(Map(f, s), q)
  {
    if s != [] {
      assert Map(f, s)[1..] == Map(f, s[1..]);
      CountThrough(f, s[1..], p, q);
    }
  }

  lemma {:induction false} CountBack(f: int -> int, s: seq<int>, p: int -> bool, q: int -> bool)
    requires forall x :: q(f(x)) ==> p(x)
    ensures Count(Map(f, s), q) <= Count(s, p)
  {
    if s != [] {
      assert Map(f, s)[1..] == Map(f, s[1..]);
      CountBack(f, s[1..], p, q);
    }
  }

  lemma RankMaps(f: int -> int, s: seq<int>, k: nat, v: int)
    requires NonDecreasing(f) && IsRank(s, k, v)
    ensures IsRank(Map(f, s), k, f(v))
  {
    CountBack(f, s, Below(v), Below(f(v)));
    CountThrough(f, s, AtMost(v), AtMost(f(v)));
  }

  // ---------------------------------------------------------------- sorting

  lemma {:induction false} CountInsert(x: int, s: seq<int>, p: int -> bool)
    ensures Count(Insert(x, s), p) == Count([x] + s, p)
  {
    assert ([x] + s)[1..] == s;
    if s != [] && x > s[0] {
      CountInsert(x, s[1..], p);
      assert ([s[0]] + Insert(x, s[1..]))[1..] == Insert(x, s[1..]);
      assert ([x] + s[1..])[1..] == s[1..];
    }
  }

  lemma {:induction false} CountSorted(s: seq<int>, p: int -> bool)
    ensures Count(Sorted(s), p) == Count(s, p)
  {
    if s != [] {
      CountSorted(s[1..], p);
      CountInsert(s[0], Sorted(s[1..]), p);
      assert ([s[0]] + Sorted(s[1..]))[1..] == Sorted(s[1..]);
    }
  }

  lemma FewBelow(t: seq<int>, k: nat)
    requires Ascending(t) && k < |t|
    ensures Count(t, Below(t[k])) <= k
  {
    assert t == t[..k] + t[k..];
    CountConcat(t[..k], t[k..], Below(t[k]));
    CountNone(t[k..], Below(t[k]));
    CountMono(t[..k], Below(t[k]), Below(t[k]));
  }

  lemma EnoughAtMost(t: seq<int>, k: nat)
    requires Ascending(t) && k < |t|
    ensures Count(t, AtMost(t[k])) > k
  {
    assert t == t[..k + 1] + t[k + 1..];
    CountConcat(t[..k + 1], t[k + 1..], AtMost(t[k]));
    CountAll(t[..k + 1], AtMost(t[k]));
  }

  /** Position `k` of the sorted sequence holds the element of rank `k`. */
  lemma SortedRank(s: seq<int>, k: nat)
    requires k < |s|
    ensures |Sorted(s)| == |s| && IsRank(s, k, Sorted(s)[k])
  {
    SortedAscends(s);
    var t := Sorted(s);
    FewBelow(t, k);
    EnoughAtMost(t, k);
    CountSorted(s, Below(t[k]));
    CountSorted(s, AtMost(t[k]));
  }

  /** The sort and pick behind every median and every bound; `None` is the panic of an
    * index past the end. */
  method Pick(values: seq<int>, k: nat) returns (r: Option<int>)
    ensures r.None? <==> k >= |values|
    ensures r.Some? ==> IsRank(values, k, r.value)
  {
    var sorted := Sorted(values);
    SortedAscends(values);
    if k >= |sorted| { return None; }
    SortedRank(values, k);
    r := Some(sorted[k]);
  }

  method Median(values: seq<int>) returns (r: Option<int>)
    ensures r.None? <==> values == []
    ensures r.Some? ==> IsRank(values, |values| / 2, r.value)
  {
    r := Pick(values, |values| / 2);
  }

  // ---------------------------------------------------------------- resampling

  /** The `n` values drawn from state `s` on, one for each of the next `n` states. */
  function Draws(values: seq<int>, s: bv64, n: nat): (r: seq<int>)
    requires values != []
    ensures |r| == n && forall d | 0 <= d < n :: r[d] == values[(Run(s, d + 1) as nat) % |values|]
  {
    seq(n, d requires 0 <= d < n => values[(Run(s, d + 1) as nat) % |values|])
  }

  /** How many states the first `j` resamples of `len` values use up. */
  function Used(j: nat, len: nat): nat {
    j * len
  }

  lemma UsedNext(j: nat, len: nat)
    ensures Used(0, len) == 0 && Used(j + 1, len) == Used(j, len) + len
  {}

  /** `ms` lists the medians of the resamples drawn one after the other from `s`. */
  ghost predicate AreMedians(values: seq<int>, s: bv64, ms: seq<int>) {
    values != [] ==>
      forall j | 0 <= j < |ms| ::
        IsRank(Draws(values, Run(s, Used(j, |values|)), |values|), |values| / 2, ms[j])
  }

  /** `low` and `high` are the 2.5% and 97.5% points of `resamples` resample medians. */
  ghost predicate IsInterval(values: seq<int>, s: bv64, resamples: nat, low: int, high: int) {
    exists ms ::
      && |ms| == resamples
      && AreMedians(values, s, ms)
      && IsRank(ms, resamples * 25 / 1000, low)
      && IsRank(ms, resamples * 975 / 1000, high)
  }

  /** Draws one resample and leaves the generator where the next one starts. */
  method Resample(values: seq<int>, start: bv64) returns (state: bv64, sample: seq<int>)
    ensures state == Run(start, |values|) && |sample| == |values|
    ensures forall d | 0 <= d < |values| :: sample[d] == values[(Run(start, d + 1) as nat) % |values|]
  {
    state, sample := start, [];
    for n := 0 to |values|
      invariant state == Run(start, n) && |sample| == n
      invariant forall d | 0 <= d < n :: sample[d] == values[(Run(start, d + 1) as nat) % |values|]
    {
      state := Left13(state);
      state := Right7(state);
      state := Left17(state);
      sample := sample + [values[(state as nat) % |values|]];
    }
  }

  /** The medians of the resamples drawn one after the other, or a panic: resample `j` is
    * drawn from the state `j * |values|` steps after the seed. */
  method ResampleMedians(values: seq<int>, seed: bv64, resamples: nat) returns (medians: seq<int>, panic: bool)
    ensures panic <==> values == [] && resamples > 0
    ensures !panic ==> |medians| == resamples && forall j | 0 <= j < resamples ::
      IsRank(Draws(values, Run(seed, j * |values|), |values|), |values| / 2, medians[j])
  {
    var state, sample := seed, [];
    medians, panic := [], false;
    UsedNext(0, |values|);
    for i := 0 to resamples
      invariant |medians| == i && !panic && (i > 0 ==> values != [])
      invariant state == Run(seed, Used(i, |values|))
      invariant AreMedians(values, seed, medians)
    {
      ghost var start := state;
      state, sample := Resample(values, state);
      UsedNext(i, |values|);
      RunAdd(seed, Used(i, |values|), |values|);
      var m := Median(sample);
      if m.None? { return medians, true; }
      assert sample == Draws(values, start, |values|);
      OneMoreMedian(values, seed, medians, m.value);
      medians := medians + [m.value];
    }
    MediansSpelled(values, seed, medians);
  }

  lemma MediansSpelled(values: seq<int>, s: bv64, ms: seq<int>)
    requires AreMedians(values, s, ms) && (|ms| > 0 ==> values != [])
    ensures forall j | 0 <= j < |ms| ::
      IsRank(Draws(values, Run(s, j * |values|), |values|), |values| / 2, ms[j])
  {
    forall j | 0 <= j < |ms|
      ensures IsRank(Draws(values, Run(s, j * |values|), |values|), |values| / 2, ms[j])
    {
      assert Used(j, |values|) == j * |values|;
    }
  }

  lemma OneMoreMedian(values: seq<int>, s: bv64, ms: seq<int>, m: int)
    requires values != [] && AreMedians(values, s, ms)
    requires IsRank(Draws(values, Run(s, Used(|ms|, |values|)), |values|), |values| / 2, m)
    ensures AreMedians(values, s, ms + [m])
  {
    var all := ms + [m];
    forall j | 0 <= j < |all|
      ensures IsRank(Draws(values, Run(s, Used(j, |values|)), |values|), |values| / 2, all[j])
    {
      if j < |ms| {
        assert all[j] == ms[j];
      } else {
        assert j == |ms| && all[j] == m;
      }
    }
  }

  method BootstrapMedianCi(values: seq<int>, seed: bv64, resamples: nat) returns (r: Option<(int, int)>)
    ensures r.None? <==> values == [] || resamples == 0
    ensures r.Some? ==> IsInterval(values, seed, resamples, r.value.0, r.value.1)
    ensures r.Some? ==> exists ms: seq<int> :: (
      && |ms| == resamples
      && IsRank(ms, resamples * 25 / 1000, r.value.0) && IsRank(ms, resamples * 975 / 1000, r.value.1)
      && forall j | 0 <= j < resamples ::
        IsRank(Draws(values, Run(seed, j * |values|), |values|), |values| / 2, ms[j]))
  {
    var medians, panic := ResampleMedians(values, seed, resamples);
    if panic { return None; }
    var low := Pick(medians, resamples * 25 / 1000);
    if low.None? { return None; }
    var high := Pick(medians, resamples * 975 / 1000);
    r := Some((low.value, high.value));
    SpelledMedians(values, seed, medians);
    assert IsRank(medians, resamples * 25 / 1000, low.value) && IsRank(medians, resamples * 975 / 1000, high.value);
  }

  lemma SpelledMedians(values: seq<int>, s: bv64, ms: seq<int>)
    requires values != [] && forall j | 0 <= j < |ms| ::
      IsRank(Draws(values, Run(s, j * |values|), |values|), |values| / 2, ms[j])
    ensures AreMedians(values, s, ms)
  {
    forall j | 0 <= j < |ms|
      ensures IsRank(Draws(values, Run(s, Used(j, |values|)), |values|), |values| / 2, ms[j])
    {
      assert Used(j, |values|) == j * |values|;
    }
  }

  // ---------------------------------------------------------------- the interval

  lemma DrawsAreValues(values: seq<int>, s: bv64, n: nat)
    requires values != []
    ensures forall x <- Draws(values, s, n) :: x in values
  {
  }

  lemma MediansAreValues(values: seq<int>, s: bv64, ms: seq<int>)
    requires values != [] && AreMedians(values, s, ms)
    ensures forall x <- ms :: x in values
  {
    forall j | 0 <= j < |ms|
      ensures ms[j] in values
    {
      var state := Run(s, Used(j, |values|));
      RankIsElement(Draws(values, state, |values|), |values| / 2, ms[j]);
      DrawsAreValues(values, state, |values|);
    }
  }

  /** The interval is ordered and both its ends were measured, so it lies within the
    * smallest and the largest measurement. */
  lemma IntervalWithin(values: seq<int>, s: bv64, resamples: nat, low: int, high: int)
    requires values != [] && IsInterval(values, s, resamples, low, high)
    ensures low <= high && low in values && high in values
  {
    var ms :| |ms| == resamples && AreMedians(values, s, ms)
              && IsRank(ms, resamples * 25 / 1000, low) && IsRank(ms, resamples * 975 / 1000, high);
    MediansAreValues(values, s, ms);
    RankIsElement(ms, resamples * 25 / 1000, low);
    RankIsElement(ms, resamples * 975 / 1000, high);
    RankOrder(ms, resamples * 25 / 1000, resamples * 975 / 1000, low, high);
  }

  /** The interval does what its name says to the resamples: it holds at least its
    * share of their medians, 19001 of the 20000 drawn by the harnesses. */
  lemma IntervalCovers(ms: seq<int>, resamples: nat, low: int, high: int)
    requires IsRank(ms, resamples * 25 / 1000, low) && IsRank(ms, resamples * 975 / 1000, high)
    ensures Count(ms, Between(low, high)) >= resamples * 975 / 1000 - resamples * 25 / 1000 + 1
    ensures resamples == 20000 ==> Count(ms, Between(low, high)) >= 19001
  {
    RankOrder(ms, resamples * 25 / 1000, resamples * 975 / 1000, low, high);
    CountBetween(ms, low, high);
  }

  lemma {:induction false} CountBetween(s: seq<int>, low: int, high: int)
    requires low <= high
    ensures Count(s, Between(low, high)) + Count(s, Below(low)) == Count(s, AtMost(high))
  {
    if s != [] { CountBetween(s[1..], low, high); }
  }

  lemma MediansUnique(values: seq<int>, s: bv64, ms: seq<int>, ns: seq<int>)
    requires values != [] && AreMedians(values, s, ms) && AreMedians(values, s, ns) && |ms| == |ns|
    ensures ms == ns
  {
    forall j | 0 <= j < |ms|
      ensures ms[j] == ns[j]
    {
      RankUnique(Draws(values, Run(s, Used(j, |values|)), |values|), |values| / 2, ms[j], ns[j]);
    }
  }

  /** The same sample and seed always give the same interval. */
  lemma IntervalUnique(values: seq<int>, s: bv64, resamples: nat, a: (int, int), b: (int, int))
    requires values != []
    requires IsInterval(values, s, resamples, a.0, a.1) && IsInterval(values, s, resamples, b.0, b.1)
    ensures a == b
  {
    var i, j := resamples * 25 / 1000, resamples * 975 / 1000;
    var ms :| |ms| == resamples && AreMedians(values, s, ms) && IsRank(ms, i, a.0) && IsRank(ms, j, a.1);
    var ns :| |ns| == resamples && AreMedians(values, s, ns) && IsRank(ns, i, b.0) && IsRank(ns, j, b.1);
    MediansUnique(values, s, ms, ns);
    RankUnique(ms, i, a.0, b.0);
    RankUnique(ms, j, a.1, b.1);
  }

  lemma DrawsMap(f: int -> int, values: seq<int>, s: bv64, n: nat)
    requires values != []
    ensures Draws(Map(f, values), s, n) == Map(f, Draws(values, s, n))
  {
    assert forall d | 0 <= d < n :: Draws(Map(f, values), s, n)[d] == Map(f, Draws(values, s, n))[d];
  }

  lemma MediansMap(f: int -> int, values: seq<int>, s: bv64, ms: seq<int>)
    requires NonDecreasing(f) && AreMedians(values, s, ms)
    ensures AreMedians(Map(f, values), s, Map(f, ms))
  {
    if values != [] {
      forall j | 0 <= j < |ms|
        ensures IsRank(Draws(Map(f, values), Run(s, Used(j, |values|)), |values|), |values| / 2, f(ms[j]))
      {
        var state := Run(s, Used(j, |values|));
        DrawsMap(f, values, state, |values|);
        RankMaps(f, Draws(values, state, |values|), |values| / 2, ms[j]);
      }
    }
  }

  /** Changing the unit or any other monotone rescaling of the measurements rescales
    * the interval: the draws depend on how many measurements there are, not on them. */
  lemma IntervalMaps(f: int -> int, values: seq<int>, s: bv64, resamples: nat, low: int, high: int)
    requires NonDecreasing(f) && IsInterval(values, s, resamples, low, high)
    ensures IsInterval(Map(f, values), s, resamples, f(low), f(high))
  {
    var i, j := resamples * 25 / 1000, resamples * 975 / 1000;
    var ms :| |ms| == resamples && AreMedians(values, s, ms) && IsRank(ms, i, low) && IsRank(ms, j, high);
    MediansMap(f, values, s, ms);
    RankMaps(f, ms, i, low);
    RankMaps(f, ms, j, high);
  }

  // ---------------------------------------------------------------- seeds

  /** No slice of 8-byte measurements is longer: its bytes would exceed `isize::MAX`. */
  const MAX_LEN: bv64 := 0x0fff_ffff_ffff_ffff

  /** Neither harness can seed its generator with zero, ... */
  lemma SeedNonZero(len: bv64)
    requires len <= MAX_LEN
    ensures 0x510e_527f_ade6_82d1 ^ len != 0 && 0x1f83_d9ab_fb41_bd6b ^ len != 0
  {}

  /** ... so no state it draws from, however many resamples it draws, is zero. */
  lemma StatesNonZero(len: bv64, n: nat)
    requires len <= MAX_LEN
    ensures Run(0x510e_527f_ade6_82d1 ^ len, n) != 0 && Run(0x1f83_d9ab_fb41_bd6b ^ len, n) != 0
  {
    SeedNonZero(len);
    NeverZero(0x510e_527f_ade6_82d1 ^ len, n);
    NeverZero(0x1f83_d9ab_fb41_bd6b ^ len, n);
  }
}
