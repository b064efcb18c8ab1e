// Two independent RIFF/WAVE readers. What each returns is stated on the list of chunk
// headers the walk visits, for every byte string; a chunk writer then pins that list down.
module Riff {
  import opened Integers
  import opened Options
  import Dots
  import Grid

  const RIFF: seq<int> := [0x52, 0x49, 0x46, 0x46]
  const WAVE: seq<int> := [0x57, 0x41, 0x56, 0x45]
  const FMT_ID: seq<int> := [0x66, 0x6D, 0x74, 0x20]
  const DATA_ID: seq<int> := [0x64, 0x61, 0x74, 0x61]

  function U16At(b: seq<int>, i: nat): int
    requires i + 2 <= |b|
  {
    b[i] + 0x100 * b[i + 1]
  }

  function U32At(b: seq<int>, i: nat): int
    requires i + 4 <= |b|
  {
    b[i] + 0x100 * b[i + 1] + 0x1_0000 * b[i + 2] + 0x100_0000 * b[i + 3]
  }

  function I16At(b: seq<int>, i: nat): int
    requires i + 2 <= |b|
  {
    var u := U16At(b, i);
    if u >= 0x8000 then u - 0x1_0000 else u
  }

  // ----- chunk headers -------------------------------------------------------

  // The two identifiers the readers react to.
  datatype Kind = Fmt | Data | Other

  function KindOf(id: seq<int>): Kind {
    if id == FMT_ID then Fmt else if id == DATA_ID then Data else Other
  }

  // Kind, first body byte and declared size; the body may run past the end of file.
  datatype Header = Header(kind: Kind, start: nat, size: nat)

  function HeaderAt(b: seq<int>, pos: nat): (h: Header)
    requires U8s(b) && pos + 8 <= |b|
    ensures h.start == pos + 8 <= |b|
  {
    Header(KindOf(b[pos..pos + 4]), pos + 8, U32At(b, pos + 4))
  }

  // Bodies are padded to an even length.
  function Next(h: Header): nat {
    h.start + h.size + h.size % 2
  }

  // The headers the walk visits from pos on.
  function Headers(b: seq<int>, pos: nat): (hs: seq<Header>)
    requires U8s(b)
    ensures forall i :: 0 <= i < |hs| ==> hs[i].start <= |b|
    decreases |b| - pos
  {
    if pos + 8 > |b| then [] else [HeaderAt(b, pos)] + Headers(b, Next(HeaderAt(b, pos)))
  }

  function LastWhere(hs: seq<Header>, kind: Kind): Option<Header> {
    if |hs| == 0 then None
    else if hs[|hs| - 1].kind == kind then Some(hs[|hs| - 1])
    else LastWhere(hs[..|hs| - 1], kind)
  }

  function FirstWhere(hs: seq<Header>, kind: Kind): Option<Header> {
    if |hs| == 0 then None else if hs[0].kind == kind then Some(hs[0]) else FirstWhere(hs[1..], kind)
  }

  // The headers before the first one of this kind.
  function Before(hs: seq<Header>, kind: Kind): seq<Header> {
    if |hs| == 0 || hs[0].kind == kind then [] else [hs[0]] + Before(hs[1..], kind)
  }

  // Every format chunk has its first `need` body bytes in the file.
  ghost predicate FormatsFit(b: seq<int>, hs: seq<Header>, need: nat) {
    forall i :: 0 <= i < |hs| && hs[i].kind == Fmt ==> hs[i].start + need <= |b|
  }

  lemma LastWhereIn(hs: seq<Header>, kind: Kind)
    requires LastWhere(hs, kind).Some?
    ensures LastWhere(hs, kind).value in hs && LastWhere(hs, kind).value.kind == kind
  {
    if hs[|hs| - 1].kind != kind {
      LastWhereIn(hs[..|hs| - 1], kind);
    }
  }

  lemma FirstWhereIn(hs: seq<Header>, kind: Kind)
    requires FirstWhere(hs, kind).Some?
    ensures FirstWhere(hs, kind).value in hs && FirstWhere(hs, kind).value.kind == kind
  {
    if hs[0].kind != kind {
      FirstWhereIn(hs[1..], kind);
    }
  }

  // ----- what the readers take from the headers ------------------------------

  function ChannelsOf(b: seq<int>, h: Option<Header>): int
    requires h.Some? ==> h.value.start + 4 <= |b|
  {
    match h case Some(f) => U16At(b, f.start + 2) case None => 1
  }

  function RateOf(b: seq<int>, h: Option<Header>): int
    requires h.Some? ==> h.value.start + 8 <= |b|
  {
    match h case Some(f) => U32At(b, f.start + 4) case None => 16000
  }

  function BitsOf(b: seq<int>, h: Option<Header>): int
    requires h.Some? ==> h.value.start + 16 <= |b|
  {
    match h case Some(f) => U16At(b, f.start + 14) case None => 16
  }

  // The body bytes that are in the file.
  function BodyOf(b: seq<int>, h: Option<Header>): seq<int>
    requires h.Some? ==> h.value.start <= |b|
  {
    match h
    case Some(d) => b[d.start..if d.start + d.size < |b| then d.start + d.size else |b|]
    case None => []
  }

  // ----- frames --------------------------------------------------------------

  // Sum of the first n samples of the frame that starts at byte i.
  function FrameSum(data: seq<int>, i: nat, n: nat): int
    requires i + 2 * n <= |data|
  {
    if n == 0 then 0 else FrameSum(data, i, n - 1) + I16At(data, i + 2 * (n - 1))
  }

  // No 16-bit channel count overflows the i32 accumulator.
  lemma {:induction false} FrameSumFits(data: seq<int>, i: nat, n: nat)
    requires U8s(data) && i + 2 * n <= |data| && n < 0x1_0000
    ensures -0x8000 * n <= FrameSum(data, i, n) <= 0x7FFF * n
    ensures IsI32(FrameSum(data, i, n))
  {
    if n > 0 {
      FrameSumFits(data, i, n - 1);
    }
  }

  // Complete frames of ch 16-bit samples in len bytes.
  function FrameCount(len: nat, ch: nat): nat
    requires ch > 0
  {
    Quotient(len, 2 * ch)
  }

  // First byte of frame f.
  function FrameStart(f: nat, ch: nat): nat {
    f * (2 * ch)
  }

  // Frame n fits exactly when there are more than n complete frames.
  lemma FrameFits(len: nat, ch: nat, n: nat)
    requires ch > 0
    ensures n < FrameCount(len, ch) <==> FrameStart(n, ch) + 2 * ch <= len
    ensures FrameStart(n + 1, ch) == FrameStart(n, ch) + 2 * ch
  {
    var d := 2 * ch;
    var q := Quotient(len, d);
    assert (n + 1) * d == n * d + d;
    if n < q {
      Grid.MulMonotone(n + 1, q, d);
    } else {
      Grid.MulMonotone(q, n, d);
    }
  }

  // The f-th averaged sample; `mean` is the float division by the channel count and by 32768.
  function Frame<F>(data: seq<int>, ch: nat, mean: (int, int) -> F, f: nat): F
    requires ch > 0 && f < FrameCount(|data|, ch)
  {
    FrameFits(|data|, ch, f);
    mean(FrameSum(data, FrameStart(f, ch), ch), ch)
  }

  // One averaged sample per complete frame.
  function Frames<F>(data: seq<int>, ch: nat, mean: (int, int) -> F): (s: seq<F>)
    requires ch > 0
    ensures |s| == FrameCount(|data|, ch)
  {
    seq(FrameCount(|data|, ch), f requires 0 <= f < FrameCount(|data|, ch) => Frame(data, ch, mean, f))
  }

  method ReadFrame<F>(data: seq<int>, ch: nat, mean: (int, int) -> F, i: nat) returns (v: F)
    requires U8s(data) && 0 < ch < 0x1_0000 && i + 2 * ch <= |data|
    ensures v == mean(FrameSum(data, i, ch), ch)
  {
    var acc := 0;
    for c := 0 to ch
      invariant acc == FrameSum(data, i, c) && IsI32(acc)
    {
      FrameSumFits(data, i, c + 1);
      acc := acc + I16At(data, i + 2 * c);
    }
    v := mean(acc, ch);
  }

  // The first |s| samples.
  ghost predicate FramesSoFar<F>(s: seq<F>, data: seq<int>, ch: nat, mean: (int, int) -> F)
    requires ch > 0
  {
    |s| <= FrameCount(|data|, ch) && forall f :: 0 <= f < |s| ==> s[f] == Frame(data, ch, mean, f)
  }

  method ReadFrames<F>(data: seq<int>, ch: nat, mean: (int, int) -> F) returns (s: seq<F>)
    requires U8s(data) && 0 < ch < 0x1_0000
    ensures s == Frames(data, ch, mean)
  {
    s := [];
    var i := 0;
    while i + 2 * ch <= |data|
      invariant i == FrameStart(|s|, ch) && FramesSoFar(s, data, ch, mean)
      decreases |data| - i
    {
      FrameFits(|data|, ch, |s|);
      var v := ReadFrame(data, ch, mean, i);
      assert v == Frame(data, ch, mean, |s|);
      s := s + [v];
      i := i + 2 * ch;
    }
    FrameFits(|data|, ch, |s|);
  }

  // ----- the two readers -----------------------------------------------------

  // A panic, or samples with rate and channel count.
  datatype Wav<F> = Panic | Wav(samples: seq<F>, rate: int, channels: int)

  predicate Magic(b: seq<int>) {
    |b| >= 12 && b[0..4] == RIFF && b[8..12] == WAVE
  }

  // First reader, on every byte string: the last format and last data chunk count.
  ghost function FirstResult<F>(b: seq<int>, mean: (int, int) -> F): Wav<F>
    requires U8s(b)
  {
    var hs := Headers(b, 12);
    var f, d := LastWhere(hs, Fmt), LastWhere(hs, Data);
    if !Magic(b) || !FormatsFit(b, hs, 16) then Panic
    else
      LastFits(b, hs, 16);
      BodyStart(b, hs);
      if BitsOf(b, f) != 16 || ChannelsOf(b, f) == 0 then Panic
      else Wav(Frames(BodyOf(b, d), ChannelsOf(b, f), mean), RateOf(b, f), ChannelsOf(b, f))
  }

  lemma LastFits(b: seq<int>, hs: seq<Header>, need: nat)
    requires FormatsFit(b, hs, need)
    ensures LastWhere(hs, Fmt).Some? ==> LastWhere(hs, Fmt).value.start + need <= |b|
    ensures U8s(b) && need >= 4 ==> 0 <= ChannelsOf(b, LastWhere(hs, Fmt)) < 0x1_0000
  {
    if LastWhere(hs, Fmt).Some? {
      LastWhereIn(hs, Fmt);
    }
  }

  lemma BodyStart(b: seq<int>, hs: seq<Header>)
    requires forall i :: 0 <= i < |hs| ==> hs[i].start <= |b|
    ensures LastWhere(hs, Data).Some? ==> LastWhere(hs, Data).value.start <= |b|
    ensures FirstWhere(hs, Data).Some? ==> FirstWhere(hs, Data).value.start <= |b|
  {
    if LastWhere(hs, Data).Some? { LastWhereIn(hs, Data); }
    if FirstWhere(hs, Data).Some? { FirstWhereIn(hs, Data); }
  }

  lemma Snoc(hs: seq<Header>, h: Header, kind: Kind)
    ensures LastWhere(hs + [h], kind) == if h.kind == kind then Some(h) else LastWhere(hs, kind)
  {
    assert (hs + [h])[..|hs|] == hs;
  }

  lemma ShiftOne(seen: seq<Header>, h: Header, rest: seq<Header>)
    ensures seen + ([h] + rest) == (seen + [h]) + rest
  {
  }

  // What the first reader's variables hold after the headers seen so far.
  ghost predicate FirstScan(b: seq<int>, seen: seq<Header>, channels: int, rate: int, bits: int, data: seq<int>) {
    && FormatsFit(b, seen, 16)
    && (LastWhere(seen, Fmt).Some? ==> LastWhere(seen, Fmt).value.start + 16 <= |b|)
    && (LastWhere(seen, Data).Some? ==> LastWhere(seen, Data).value.start <= |b|)
    && channels == ChannelsOf(b, LastWhere(seen, Fmt))
    && rate == RateOf(b, LastWhere(seen, Fmt))
    && bits == BitsOf(b, LastWhere(seen, Fmt))
    && data == BodyOf(b, LastWhere(seen, Data))
  }

  lemma ScanSkip(b: seq<int>, seen: seq<Header>, h: Header, channels: int, rate: int, bits: int, data: seq<int>)
    requires FirstScan(b, seen, channels, rate, bits, data) && h.kind != Fmt && h.kind != Data
    ensures FirstScan(b, seen + [h], channels, rate, bits, data)
  {
    Snoc(seen, h, Fmt);
    Snoc(seen, h, Data);
  }

  lemma ScanFormat(b: seq<int>, seen: seq<Header>, h: Header, channels: int, rate: int, bits: int, data: seq<int>)
    requires FirstScan(b, seen, channels, rate, bits, data) && h.kind == Fmt && h.start + 16 <= |b|
    ensures FirstScan(b, seen + [h], U16At(b, h.start + 2), U32At(b, h.start + 4), U16At(b, h.start + 14), data)
  {
    Snoc(seen, h, Fmt);
    Snoc(seen, h, Data);
  }

  lemma ScanData(b: seq<int>, seen: seq<Header>, h: Header, channels: int, rate: int, bits: int, data: seq<int>)
    requires FirstScan(b, seen, channels, rate, bits, data) && h.kind == Data && h.start <= |b|
    ensures FirstScan(b, seen + [h], channels, rate, bits, BodyOf(b, Some(h)))
  {
    Snoc(seen, h, Fmt);
    Snoc(seen, h, Data);
  }

  // One visited chunk: the variables it sets, or a panic on a cut format chunk.
  method VisitChunk(b: seq<int>, h: Header, channels0: int, rate0: int, bits0: int, data0: seq<int>,
                    ghost seen: seq<Header>)
    returns (ok: bool, channels: int, rate: int, bits: int, data: seq<int>)
    requires U8s(b) && h.start <= |b| && FirstScan(b, seen, channels0, rate0, bits0, data0)
    ensures ok <==> !(h.kind == Fmt && h.start + 16 > |b|)
    ensures ok ==> FirstScan(b, seen + [h], channels, rate, bits, data)
  {
    ok, channels, rate, bits, data := true, channels0, rate0, bits0, data0;
    var body := h.start;
    if h.kind == Fmt {
      if body + 16 > |b| {
        return false, channels, rate, bits, data;
      }
      ScanFormat(b, seen, h, channels, rate, bits, data);
      channels := U16At(b, body + 2);
      rate := U32At(b, body + 4);
      bits := U16At(b, body + 14);
    } else if h.kind == Data {
      ScanData(b, seen, h, channels, rate, bits, data);
      data := b[body..if body + h.size < |b| then body + h.size else |b|];
    } else {
      ScanSkip(b, seen, h, channels, rate, bits, data);
    }
  }

  // The chunk walk of the first reader: its final variables, or a panic on a cut format chunk.
  method WalkChunks(b: seq<int>) returns (ok: bool, channels: int, rate: int, bits: int, data: seq<int>)
    requires U8s(b)
    ensures ok <==> FormatsFit(b, Headers(b, 12), 16)
    ensures ok ==> FirstScan(b, Headers(b, 12), channels, rate, bits, data)
  {
    var pos := 12;
    channels, rate, bits, data := 1, 16000, 16, [];
    ghost var hs, seen := Headers(b, 12), [];
    while pos + 8 <= |b|
      invariant hs == seen + Headers(b, pos)
      invariant FirstScan(b, seen, channels, rate, bits, data)
      decreases |b| - pos
    {
      var h := HeaderAt(b, pos);
      ShiftOne(seen, h, Headers(b, Next(h)));
      ok, channels, rate, bits, data := VisitChunk(b, h, channels, rate, bits, data, seen);
      if !ok {
        assert hs[|seen|] == h;
        return;
      }
      seen := seen + [h];
      pos := Next(h);
    }
    assert hs == seen;
    ok := true;
  }

  method ReadWavMono16k<F>(b: seq<int>, mean: (int, int) -> F) returns (r: Wav<F>)
    requires U8s(b)
    ensures r == FirstResult(b, mean)
  {
    if |b| < 4 || b[0..4] != RIFF || |b| < 12 || b[8..12] != WAVE {
      return Panic;
    }
    var ok, channels, rate, bits, data := WalkChunks(b);
    if !ok {
      return Panic;
    }
    LastFits(b, Headers(b, 12), 16);
    if bits != 16 || channels == 0 {
      return Panic;
    }
    var samples := ReadFrames(data, channels, mean);
    r := Wav(samples, rate, channels);
  }

  // Second reader, on every byte string: it stops at the first data chunk and uses the last
  // format chunk before it; a zero channel count reads as one.
  ghost function SecondResult<F>(b: seq<int>, mean: (int, int) -> F): Option<seq<F>>
    requires U8s(b)
  {
    var hs := Headers(b, 12);
    var before := Before(hs, Data);
    if !FormatsFit(b, before, 4) then None
    else
      LastFits(b, before, 4);
      BodyStart(b, hs);
      var ch := ChannelsOf(b, LastWhere(before, Fmt));
      Some(Frames(BodyOf(b, FirstWhere(hs, Data)), if ch < 1 then 1 else ch, mean))
  }

  lemma BeforeSplit(seen: seq<Header>, rest: seq<Header>)
    requires forall i :: 0 <= i < |seen| ==> seen[i].kind != Data
    ensures Before(seen + rest, Data) == seen + Before(rest, Data)
    ensures FirstWhere(seen + rest, Data) == FirstWhere(rest, Data)
  {
    if |seen| == 0 {
      assert seen + rest == rest;
    } else {
      BeforeSplit(seen[1..], rest);
      assert (seen + rest)[1..] == seen[1..] + rest;
    }
  }

  // What the second reader holds after the headers seen so far, none of them data.
  ghost predicate SecondScan(b: seq<int>, seen: seq<Header>, channels: int) {
    && (forall j :: 0 <= j < |seen| ==> seen[j].kind != Data)
    && FormatsFit(b, seen, 4)
    && (LastWhere(seen, Fmt).Some? ==> LastWhere(seen, Fmt).value.start + 4 <= |b|)
    && channels == ChannelsOf(b, LastWhere(seen, Fmt))
  }

  lemma SecondSkip(b: seq<int>, seen: seq<Header>, h: Header, channels: int)
    requires SecondScan(b, seen, channels) && h.kind != Data && h.kind != Fmt
    ensures SecondScan(b, seen + [h], channels)
  {
    Snoc(seen, h, Fmt);
  }

  lemma SecondFormat(b: seq<int>, seen: seq<Header>, h: Header, channels: int)
    requires SecondScan(b, seen, channels) && h.kind == Fmt && h.start + 4 <= |b|
    ensures SecondScan(b, seen + [h], U16At(b, h.start + 2))
  {
    Snoc(seen, h, Fmt);
  }

  lemma SecondCut(b: seq<int>, seen: seq<Header>, h: Header, rest: seq<Header>)
    requires (forall j :: 0 <= j < |seen| ==> seen[j].kind != Data) && h.kind == Fmt && h.start + 4 > |b|
    ensures !FormatsFit(b, Before(seen + ([h] + rest), Data), 4)
  {
    BeforeSplit(seen, [h] + rest);
    assert Before([h] + rest, Data) == [h] + Before(rest, Data) by { assert ([h] + rest)[1..] == rest; }
    assert Before(seen + ([h] + rest), Data)[|seen|] == h;
  }

  // The reader's state when it leaves the walk: the slice is the first data body in the file.
  ghost predicate Stopped(b: seq<int>, hs: seq<Header>, off: nat, len: nat, channels: int) {
    && SecondScan(b, Before(hs, Data), channels)
    && off + len <= |b| && DataAt(b, hs) && b[off..off + len] == BodyOf(b, FirstWhere(hs, Data))
  }

  lemma SecondStop(b: seq<int>, seen: seq<Header>, h: Header, rest: seq<Header>, len: nat, channels: int)
    requires SecondScan(b, seen, channels) && h.kind == Data && h.start <= |b|
    requires len == if h.size < |b| - h.start then h.size else |b| - h.start
    ensures Stopped(b, seen + ([h] + rest), h.start, len, channels)
  {
    BeforeSplit(seen, [h] + rest);
    assert Before([h] + rest, Data) == [];
    assert seen + [] == seen;
  }

  lemma SecondEnd(b: seq<int>, seen: seq<Header>, channels: int)
    requires SecondScan(b, seen, channels)
    ensures Stopped(b, seen, 0, 0, channels)
  {
    BeforeSplit(seen, []);
    assert seen + [] == seen;
  }

  // Where the second reader stops: at the first data chunk or at the end of the file.
  method FindData(b: seq<int>) returns (ok: bool, off: nat, len: nat, channels: int)
    requires U8s(b)
    ensures !ok ==> !FormatsFit(b, Before(Headers(b, 12), Data), 4)
    ensures ok ==> Stopped(b, Headers(b, 12), off, len, channels)
  {
    var i := 12;
    off, len, channels := 0, 0, 1;
    ghost var hs, seen := Headers(b, 12), [];
    while i + 8 <= |b|
      invariant hs == seen + Headers(b, i) && SecondScan(b, seen, channels)
      decreases |b| - i
    {
      var h := HeaderAt(b, i);
      ghost var rest := Headers(b, Next(h));
      ShiftOne(seen, h, rest);
      if h.kind == Fmt {
        if h.start + 4 > |b| {
          SecondCut(b, seen, h, rest);
          return false, 0, 0, channels;
        }
        SecondFormat(b, seen, h, channels);
        channels := U16At(b, h.start + 2);
      } else if h.kind == Data {
        off := h.start;
        len := if h.size < |b| - off then h.size else |b| - off;
        SecondStop(b, seen, h, rest, len, channels);
        return true, off, len, channels;
      } else {
        SecondSkip(b, seen, h, channels);
      }
      seen := seen + [h];
      i := Next(h);
    }
    assert hs == seen;
    SecondEnd(b, seen, channels);
    return true, 0, 0, channels;
  }

  ghost predicate DataAt(b: seq<int>, hs: seq<Header>) {
    FirstWhere(hs, Data).Some? ==> FirstWhere(hs, Data).value.start <= |b|
  }

  method ReadWavMono16kSecond<F>(b: seq<int>, mean: (int, int) -> F) returns (r: Option<seq<F>>)
    requires U8s(b)
    ensures r == SecondResult(b, mean)
  {
    var ok, off, len, channels := FindData(b);
    if !ok {
      return None;
    }
    LastFits(b, Before(Headers(b, 12), Data), 4);
    var samples := ReadFrames(b[off..off + len], if channels < 1 then 1 else channels, mean);
    r := Some(samples);
  }

  // ----- agreement -----------------------------------------------------------

  // At most one data chunk is visited and no format chunk after it.
  ghost predicate Orderly(hs: seq<Header>) {
    forall i, j :: 0 <= i < j < |hs| && hs[i].kind == Data ==> hs[j].kind != Data && hs[j].kind != Fmt
  }

  lemma {:induction false} OrderlyChoice(hs: seq<Header>)
    requires Orderly(hs)
    ensures FirstWhere(hs, Data) == LastWhere(hs, Data)
    ensures LastWhere(Before(hs, Data), Fmt) == LastWhere(hs, Fmt)
  {
    if |hs| > 0 {
      var init, h := hs[..|hs| - 1], hs[|hs| - 1];
      assert hs == init + [h];
      OrderlyChoice(init);
      ChoiceSnoc(init, h);
      if FirstWhere(init, Data).Some? {
        FirstWhereIn(init, Data);
        var k :| 0 <= k < |init| && init[k] == FirstWhere(init, Data).value;
        assert hs[k].kind == Data && hs[|hs| - 1] == h;
      }
    }
  }

  lemma {:induction false} ChoiceSnoc(init: seq<Header>, h: Header)
    ensures FirstWhere(init + [h], Data) ==
      if FirstWhere(init, Data).Some? then FirstWhere(init, Data) else if h.kind == Data then Some(h) else None
    ensures LastWhere(init + [h], Data) == if h.kind == Data then Some(h) else LastWhere(init, Data)
    ensures LastWhere(init + [h], Fmt) == if h.kind == Fmt then Some(h) else LastWhere(init, Fmt)
    ensures Before(init + [h], Data) ==
      if FirstWhere(init, Data).Some? || h.kind == Data then Before(init, Data) else init + [h]
    ensures FirstWhere(init, Data).None? ==> Before(init, Data) == init
  {
    Snoc(init, h, Data);
    Snoc(init, h, Fmt);
    if |init| == 0 {
      assert init + [h] == [h];
    } else {
      ChoiceSnoc(init[1..], h);
      assert (init + [h])[1..] == init[1..] + [h];
    }
  }

  // On any byte string whose walk is orderly, the second reader returns what the first does
  // whenever the first does not panic.
  lemma ReadersAgree<F>(b: seq<int>, mean: (int, int) -> F)
    requires U8s(b) && Orderly(Headers(b, 12)) && FirstResult(b, mean).Wav?
    ensures SecondResult(b, mean) == Some(FirstResult(b, mean).samples)
  {
    var hs := Headers(b, 12);
    var before := Before(hs, Data);
    OrderlyChoice(hs);
    PrefixFits(b, hs, before);
    LastFits(b, before, 4);
    BodyStart(b, hs);
  }

  lemma PrefixFits(b: seq<int>, hs: seq<Header>, before: seq<Header>)
    requires before == Before(hs, Data) && FormatsFit(b, hs, 16)
    ensures FormatsFit(b, before, 4)
  {
    BeforeIsPrefix(hs);
    forall i | 0 <= i < |before| && before[i].kind == Fmt
      ensures before[i].start + 4 <= |b|
    {
      assert before[i] == hs[i];
    }
  }

  lemma {:induction false} BeforeIsPrefix(hs: seq<Header>)
    ensures Before(hs, Data) <= hs
  {
    if |hs| > 0 && hs[0].kind != Data {
      BeforeIsPrefix(hs[1..]);
    }
  }

  // ----- exactly when they agree ---------------------------------------------

  // Starts rise strictly along the walk, so a header is known by its start.
  ghost predicate Rising(hs: seq<Header>) {
    forall i, j :: 0 <= i < j < |hs| ==> hs[i].start < hs[j].start
  }

  lemma {:induction false} HeadersRise(b: seq<int>, pos: nat)
    requires U8s(b)
    ensures Rising(Headers(b, pos)) && forall i :: 0 <= i < |Headers(b, pos)| ==> pos < Headers(b, pos)[i].start
    decreases |b| - pos
  {
    if pos + 8 <= |b| {
      HeadersRise(b, Next(HeaderAt(b, pos)));
    }
  }

  // Where the first header of a kind is, and that `Before` stops there.
  lemma {:induction false} FirstIndex(hs: seq<Header>, kind: Kind) returns (k: nat)
    ensures k <= |hs| && Before(hs, kind) == hs[..k] && forall i :: 0 <= i < k ==> hs[i].kind != kind
    ensures k < |hs| ==> hs[k].kind == kind && FirstWhere(hs, kind) == Some(hs[k])
    ensures k == |hs| ==> FirstWhere(hs, kind) == None
  {
    if |hs| == 0 || hs[0].kind == kind {
      k := 0;
    } else {
      k := FirstIndex(hs[1..], kind);
      assert hs[..k + 1] == [hs[0]] + hs[1..][..k];
      k := k + 1;
    }
  }

  // Where the last header of a kind is.
  lemma {:induction false} LastIndex(hs: seq<Header>, kind: Kind) returns (k: nat)
    ensures k <= |hs| && forall i :: k < i < |hs| ==> hs[i].kind != kind
    ensures k < |hs| ==> hs[k].kind == kind && LastWhere(hs, kind) == Some(hs[k])
    ensures k == |hs| ==> LastWhere(hs, kind) == None && forall i :: 0 <= i < |hs| ==> hs[i].kind != kind
  {
    if |hs| == 0 {
      k := 0;
    } else if hs[|hs| - 1].kind == kind {
      k := |hs| - 1;
    } else {
      k := LastIndex(hs[..|hs| - 1], kind);
      if k == |hs| - 1 { k := |hs|; }
    }
  }

  // The second reader uses the very chunks the first one uses.
  ghost predicate SameChunks(hs: seq<Header>) {
    FirstWhere(hs, Data) == LastWhere(hs, Data) && LastWhere(Before(hs, Data), Fmt) == LastWhere(hs, Fmt)
  }

  lemma SameDataOnce(hs: seq<Header>, i: nat, j: nat)
    requires Rising(hs) && i < j < |hs| && hs[i].kind == Data && hs[j].kind == Data
    ensures FirstWhere(hs, Data) != LastWhere(hs, Data)
  {
    var f := FirstIndex(hs, Data);
    var l := LastIndex(hs, Data);
    assert f <= i && j <= l < |hs|;
    assert hs[f].start < hs[l].start;
  }

  lemma LateFormat(hs: seq<Header>, i: nat, j: nat)
    requires Rising(hs) && i < j < |hs| && hs[i].kind == Data && hs[j].kind == Fmt
    ensures LastWhere(Before(hs, Data), Fmt) != LastWhere(hs, Fmt)
  {
    var f := FirstIndex(hs, Data);
    var l := LastIndex(hs, Fmt);
    var e := LastIndex(hs[..f], Fmt);
    assert f <= i && j <= l < |hs|;
    if e < f { assert hs[e].start < hs[l].start; }
  }

  // Both readers use the same format chunk and the same data chunk exactly on orderly walks.
  lemma SameChunksIff(b: seq<int>)
    requires U8s(b)
    ensures SameChunks(Headers(b, 12)) <==> Orderly(Headers(b, 12))
  {
    var hs := Headers(b, 12);
    HeadersRise(b, 12);
    if Orderly(hs) {
      OrderlyChoice(hs);
    } else {
      var i, j :| 0 <= i < j < |hs| && hs[i].kind == Data && !(hs[j].kind != Data && hs[j].kind != Fmt);
      if hs[j].kind == Data { SameDataOnce(hs, i, j); } else { LateFormat(hs, i, j); }
    }
  }

  // Frame sums of a body, before any averaging.
  function Totals(data: seq<int>, ch: nat): (t: seq<int>)
    requires ch > 0
    ensures |t| == FrameCount(|data|, ch)
  {
    Frames(data, ch, (s: int, c: int) => s)
  }

  lemma FramesOfTotals<F>(data: seq<int>, ch: nat, mean: (int, int) -> F)
    requires ch > 0
    ensures |Frames(data, ch, mean)| == |Totals(data, ch)|
    ensures forall f :: 0 <= f < |Totals(data, ch)| ==> Frames(data, ch, mean)[f] == mean(Totals(data, ch)[f], ch)
  {
  }

  // The same sums frame by frame and, if there is a frame, the same divisor.
  ghost predicate SameFrames(d: seq<int>, ch: nat, d': seq<int>, ch': nat)
    requires ch > 0 && ch' > 0
  {
    Totals(d, ch) == Totals(d', ch') && (|Totals(d, ch)| > 0 ==> ch == ch')
  }

  lemma FramesEqualIff(d: seq<int>, ch: nat, d': seq<int>, ch': nat)
    requires ch > 0 && ch' > 0
    ensures (forall mean: (int, int) -> int :: Frames(d, ch, mean) == Frames(d', ch', mean)) <==>
      SameFrames(d, ch, d', ch')
  {
    var sum, divisor := (s: int, c: int) => s, (s: int, c: int) => c;
    if forall mean: (int, int) -> int :: Frames(d, ch, mean) == Frames(d', ch', mean) {
      FramesOfTotals(d, ch, sum);
      FramesOfTotals(d', ch', sum);
      FramesOfTotals(d, ch, divisor);
      FramesOfTotals(d', ch', divisor);
      assert Frames(d, ch, sum) == Frames(d', ch', sum) && Frames(d, ch, divisor) == Frames(d', ch', divisor);
      if |Totals(d, ch)| > 0 { assert Frames(d, ch, divisor)[0] == ch && Frames(d', ch', divisor)[0] == ch'; }
    }
    if SameFrames(d, ch, d', ch') {
      forall mean: (int, int) -> int
        ensures Frames(d, ch, mean) == Frames(d', ch', mean)
      {
        FramesOfTotals(d, ch, mean);
        FramesOfTotals(d', ch', mean);
      }
    }
  }

  // Whether the first reader panics does not depend on the averaging.
  ghost predicate FirstReads(b: seq<int>)
    requires U8s(b)
  {
    FirstResult(b, (s: int, c: int) => s).Wav?
  }

  // What the two readers average on a file the first one accepts.
  ghost predicate SameAudio(b: seq<int>)
    requires U8s(b) && FirstReads(b)
  {
    var hs := Headers(b, 12);
    var before := Before(hs, Data);
    PrefixFits(b, hs, before);
    LastFits(b, hs, 16);
    LastFits(b, before, 4);
    BodyStart(b, hs);
    var ch := ChannelsOf(b, LastWhere(before, Fmt));
    SameFrames(BodyOf(b, LastWhere(hs, Data)), ChannelsOf(b, LastWhere(hs, Fmt)),
               BodyOf(b, FirstWhere(hs, Data)), if ch < 1 then 1 else ch)
  }

  // On a file the first reader accepts, the samples agree for every averaging exactly when
  // the bodies and channel counts used give equal frame sums and an equal divisor.
  lemma SamplesAgreeIff(b: seq<int>)
    requires U8s(b) && FirstReads(b)
    ensures forall mean: (int, int) -> int :: FirstResult(b, mean).Wav? && SecondResult(b, mean).Some?
    ensures (forall mean: (int, int) -> int :: SecondResult(b, mean) == Some(FirstResult(b, mean).samples)) <==>
      SameAudio(b)
  {
    var hs := Headers(b, 12);
    var before := Before(hs, Data);
    PrefixFits(b, hs, before);
    LastFits(b, hs, 16);
    LastFits(b, before, 4);
    BodyStart(b, hs);
    var c := ChannelsOf(b, LastWhere(before, Fmt));
    var d, ch := BodyOf(b, LastWhere(hs, Data)), ChannelsOf(b, LastWhere(hs, Fmt));
    var d', ch' := BodyOf(b, FirstWhere(hs, Data)), if c < 1 then 1 else c;
    FramesEqualIff(d, ch, d', ch');
    forall mean: (int, int) -> int
      ensures FirstResult(b, mean).Wav? && FirstResult(b, mean).samples == Frames(d, ch, mean)
      ensures SecondResult(b, mean) == Some(Frames(d', ch', mean))
    {
    }
  }

  // ----- a chunk writer ------------------------------------------------------

  datatype Chunk = Chunk(id: seq<int>, body: seq<int>, padding: int)

  ghost predicate Writable(c: Chunk) {
    |c.id| == 4 && U8s(c.id) && U8s(c.body) && |c.body| < 0x1_0000_0000 && IsU8(c.padding)
  }

  function Le32(x: int): (b: seq<int>)
    ensures |b| == 4
  {
    var y := x / 0x100;
    var z := y / 0x100;
    [x % 0x100, y % 0x100, z % 0x100, z / 0x100 % 0x100]
  }

  function ChunkBytes(c: Chunk): seq<int> {
    c.id + Le32(|c.body|) + c.body + if |c.body| % 2 == 1 then [c.padding] else []
  }

  function AllBytes(cs: seq<Chunk>): seq<int> {
    if |cs| == 0 then [] else ChunkBytes(cs[0]) + AllBytes(cs[1..])
  }

  function FileBytes(riffSize: int, cs: seq<Chunk>): seq<int> {
    RIFF + Le32(riffSize) + WAVE + AllBytes(cs)
  }

  lemma Le32RoundTrip(x: int, b: seq<int>, i: nat)
    requires 0 <= x < 0x1_0000_0000 && i + 4 <= |b| && b[i..i + 4] == Le32(x)
    ensures U8s(Le32(x)) && U32At(b, i) == x
  {
    var s := b[i..i + 4];
    assert b[i] == s[0] && b[i + 1] == s[1] && b[i + 2] == s[2] && b[i + 3] == s[3];
    var y := x / 0x100;
    var z := y / 0x100;
    assert z < 0x1_0000;
    assert z == z % 0x100 + 0x100 * (z / 0x100);
  }

  lemma ChunkU8s(c: Chunk)
    requires Writable(c)
    ensures U8s(ChunkBytes(c))
  {
    Le32RoundTrip(|c.body|, Le32(|c.body|), 0);
  }

  // Reading one written chunk back.
  lemma OneChunk(b: seq<int>, pos: nat, c: Chunk, rest: seq<int>)
    requires U8s(b) && Writable(c) && pos <= |b| && b[pos..] == ChunkBytes(c) + rest
    ensures pos + 8 <= |b| && HeaderAt(b, pos) == Header(KindOf(c.id), pos + 8, |c.body|)
    ensures Next(HeaderAt(b, pos)) == pos + |ChunkBytes(c)| <= |b|
    ensures b[pos + 8..pos + 8 + |c.body|] == c.body
    ensures b[pos + |ChunkBytes(c)|..] == rest
  {
    var s := b[pos..];
    assert s[..4] == c.id && s[4..8] == Le32(|c.body|) && s[8..8 + |c.body|] == c.body;
    assert b[pos..pos + 4] == s[..4] && b[pos + 4..pos + 8] == s[4..8];
    var n := |c.body|;
    assert pos + 8 + n <= |b|;
    assert b[pos + 8..pos + 8 + n] == s[8..8 + n];
    Le32RoundTrip(|c.body|, b, pos + 4);
    assert b[pos + |ChunkBytes(c)|..] == s[|ChunkBytes(c)|..];
  }

  ghost predicate AllWritable(cs: seq<Chunk>) {
    forall i :: 0 <= i < |cs| ==> Writable(cs[i])
  }

  ghost predicate BodyIn(b: seq<int>, h: Header, c: Chunk) {
    h.kind == KindOf(c.id) && h.size == |c.body| && h.start + h.size <= |b| && b[h.start..h.start + h.size] == c.body
  }

  // Header i stands for chunk i and its body is in the file.
  ghost predicate Found(b: seq<int>, hs: seq<Header>, cs: seq<Chunk>) {
    |hs| == |cs| && forall i :: 0 <= i < |cs| ==> BodyIn(b, hs[i], cs[i])
  }

  lemma FoundCons(b: seq<int>, h: Header, hs: seq<Header>, c: Chunk, cs: seq<Chunk>)
    requires BodyIn(b, h, c) && Found(b, hs, cs)
    ensures Found(b, [h] + hs, [c] + cs)
  {
  }

  // The walk over written chunks visits exactly those chunks.
  lemma {:induction false} WalkWritten(b: seq<int>, pos: nat, cs: seq<Chunk>)
    requires U8s(b) && AllWritable(cs) && pos <= |b| && b[pos..] == AllBytes(cs)
    ensures Found(b, Headers(b, pos), cs)
    decreases |cs|
  {
    if |cs| > 0 {
      var c, more := cs[0], cs[1..];
      assert cs == [c] + more && Writable(c) && AllWritable(more);
      OneChunk(b, pos, c, AllBytes(more));
      var h := HeaderAt(b, pos);
      WalkWritten(b, Next(h), more);
      FoundCons(b, h, Headers(b, Next(h)), c, more);
    }
  }

  // A writer's file: skipped chunks anywhere, one format chunk at f, one data chunk at d > f.
  ghost predicate WellFormed(cs: seq<Chunk>, f: nat, d: nat) {
    && AllWritable(cs) && f < d < |cs|
    && KindOf(cs[f].id) == Fmt && KindOf(cs[d].id) == Data && |cs[f].body| >= 16
    && forall i :: 0 <= i < |cs| && i != f && i != d ==> KindOf(cs[i].id) != Fmt && KindOf(cs[i].id) != Data
  }

  lemma {:induction false} LastAt(hs: seq<Header>, kind: Kind, k: nat)
    requires k < |hs| && hs[k].kind == kind
    requires forall i :: k < i < |hs| ==> hs[i].kind != kind
    ensures LastWhere(hs, kind) == Some(hs[k])
  {
    if k < |hs| - 1 {
      LastAt(hs[..|hs| - 1], kind, k);
    }
  }

  // A written file is walked from byte 12 over exactly its chunks.
  lemma WalkFile(riffSize: int, cs: seq<Chunk>)
    requires AllWritable(cs) && 0 <= riffSize < 0x1_0000_0000
    ensures U8s(FileBytes(riffSize, cs)) && Magic(FileBytes(riffSize, cs))
    ensures Found(FileBytes(riffSize, cs), Headers(FileBytes(riffSize, cs), 12), cs)
  {
    var b := FileBytes(riffSize, cs);
    FileU8s(riffSize, cs);
    assert b[12..] == AllBytes(cs) && b[0..4] == RIFF && b[8..12] == WAVE;
    WalkWritten(b, 12, cs);
  }

  // Which headers the readers pick on a well-formed file.
  lemma ChoiceWritten(b: seq<int>, hs: seq<Header>, cs: seq<Chunk>, f: nat, d: nat)
    requires WellFormed(cs, f, d) && Found(b, hs, cs)
    ensures LastWhere(hs, Fmt) == Some(hs[f]) && LastWhere(hs, Data) == Some(hs[d])
    ensures Orderly(hs) && FormatsFit(b, hs, 16)
  {
    assert forall i :: 0 <= i < |hs| ==> BodyIn(b, hs[i], cs[i]);
    LastAt(hs, Fmt, f);
    LastAt(hs, Data, d);
  }

  // Both readers on any such file: one averaged sample per complete frame of the data body,
  // whatever the other chunks, their sizes and their padding bytes.
  lemma ReadersInvertWriter<F>(riffSize: int, cs: seq<Chunk>, f: nat, d: nat, mean: (int, int) -> F)
    requires WellFormed(cs, f, d) && 0 <= riffSize < 0x1_0000_0000
    requires U16At(cs[f].body, 14) == 16 && U16At(cs[f].body, 2) > 0
    ensures U8s(FileBytes(riffSize, cs))
    ensures FirstResult(FileBytes(riffSize, cs), mean)
      == Wav(Frames(cs[d].body, U16At(cs[f].body, 2), mean), U32At(cs[f].body, 4), U16At(cs[f].body, 2))
    ensures SecondResult(FileBytes(riffSize, cs), mean) == Some(Frames(cs[d].body, U16At(cs[f].body, 2), mean))
  {
    var b := FileBytes(riffSize, cs);
    WalkFile(riffSize, cs);
    var hs := Headers(b, 12);
    ChoiceWritten(b, hs, cs, f, d);
    assert BodyIn(b, hs[f], cs[f]) && BodyIn(b, hs[d], cs[d]);
    FormatFields(b, hs[f], cs[f]);
    FirstOn(b, mean, hs[f], hs[d], cs[f], cs[d]);
    ReadersAgree(b, mean);
  }

  lemma FirstOn<F>(b: seq<int>, mean: (int, int) -> F, hf: Header, hd: Header, cf: Chunk, cd: Chunk)
    requires U8s(b) && Magic(b) && FormatsFit(b, Headers(b, 12), 16)
    requires LastWhere(Headers(b, 12), Fmt) == Some(hf) && LastWhere(Headers(b, 12), Data) == Some(hd)
    requires BodyIn(b, hf, cf) && BodyIn(b, hd, cd) && |cf.body| >= 16
    requires U16At(cf.body, 14) == 16 && U16At(cf.body, 2) > 0
    ensures FirstResult(b, mean)
      == Wav(Frames(cd.body, U16At(cf.body, 2), mean), U32At(cf.body, 4), U16At(cf.body, 2))
  {
    FormatFields(b, hf, cf);
    DataBody(b, hd, cd);
  }

  lemma DataBody(b: seq<int>, h: Header, c: Chunk)
    requires BodyIn(b, h, c)
    ensures BodyOf(b, Some(h)) == c.body
  {
  }

  lemma FormatFields(b: seq<int>, h: Header, c: Chunk)
    requires BodyIn(b, h, c) && |c.body| >= 16
    ensures ChannelsOf(b, Some(h)) == U16At(c.body, 2)
    ensures RateOf(b, Some(h)) == U32At(c.body, 4)
    ensures BitsOf(b, Some(h)) == U16At(c.body, 14)
  {
    assert forall i :: 0 <= i < |c.body| ==> b[h.start + i] == c.body[i] by {
      forall i | 0 <= i < |c.body| ensures b[h.start + i] == c.body[i] {
        assert b[h.start..h.start + h.size][i] == b[h.start + i];
      }
    }
  }

  lemma {:induction false} AllU8s(cs: seq<Chunk>)
    requires AllWritable(cs)
    ensures U8s(AllBytes(cs))
  {
    if |cs| > 0 {
      assert Writable(cs[0]);
      ChunkU8s(cs[0]);
      AllU8s(cs[1..]);
    }
  }

  lemma FileU8s(riffSize: int, cs: seq<Chunk>)
    requires AllWritable(cs) && 0 <= riffSize < 0x1_0000_0000
    ensures U8s(FileBytes(riffSize, cs))
  {
    AllU8s(cs);
    Le32RoundTrip(riffSize, Le32(riffSize), 0);
  }

  // ----- PCM, byte by byte ---------------------------------------------------

  // Every 16-bit sample x is read back from its bytes x mod 256 and x / 256 mod 256.
  lemma SampleRoundTrip(x: int, data: seq<int>, i: nat)
    requires -0x8000 <= x < 0x8000 && i + 2 <= |data|
    requires data[i] == x % 256 && data[i + 1] == x / 256 % 256
    ensures I16At(data, i) == x
  {
    assert x == 256 * (x / 256) + x % 256;
    assert -128 <= x / 256 < 128;
  }

  // The samples xs stand at byte i, little-endian.
  ghost predicate SamplesAt(data: seq<int>, i: nat, xs: seq<int>) {
    i + 2 * |xs| <= |data| && forall c :: 0 <= c < |xs| ==>
      -0x8000 <= xs[c] < 0x8000 && data[i + 2 * c] == xs[c] % 256 && data[i + 2 * c + 1] == xs[c] / 256 % 256
  }

  lemma {:induction false} FrameSumIs(data: seq<int>, i: nat, xs: seq<int>, n: nat)
    requires SamplesAt(data, i, xs) && n <= |xs|
    ensures FrameSum(data, i, n) == Dots.SumTo(xs, n)
  {
    if n > 0 {
      FrameSumIs(data, i, xs, n - 1);
      SampleRoundTrip(xs[n - 1], data, i + 2 * (n - 1));
    }
  }

  // The body a writer makes of PCM frames of ch samples each.
  ghost predicate IsPcm(data: seq<int>, ch: nat, frames: seq<seq<int>>) {
    |data| == |frames| * (2 * ch) && forall f :: 0 <= f < |frames| ==>
      |frames[f]| == ch && SamplesAt(data, f * (2 * ch), frames[f])
  }

  lemma PcmCount(len: nat, ch: nat, n: nat)
    requires ch > 0 && len == n * (2 * ch)
    ensures FrameCount(len, ch) == n
  {
    FrameFits(len, ch, n);
    if n > 0 { FrameFits(len, ch, n - 1); }
  }

  // Reading PCM gives the average of each frame's own samples, negative ones included.
  lemma FramesOfPcm<F>(data: seq<int>, ch: nat, frames: seq<seq<int>>, mean: (int, int) -> F)
    requires ch > 0 && IsPcm(data, ch, frames)
    ensures Frames(data, ch, mean) == seq(|frames|, f requires 0 <= f < |frames| => mean(Dots.Sum(frames[f]), ch))
  {
    PcmCount(|data|, ch, |frames|);
    forall f | 0 <= f < |frames|
      ensures Frame(data, ch, mean, f) == mean(Dots.Sum(frames[f]), ch)
    {
      FrameSumIs(data, f * (2 * ch), frames[f], ch);
    }
  }

  // The body of a 16-bit PCM format chunk; what is not read is left open.
  ghost predicate IsPcmFormat(body: seq<int>, ch: int, rate: int) {
    && |body| == 16 && U8s(body) && body[2] == ch % 256 && body[3] == ch / 256
    && body[4] == rate % 256 && body[5] == rate / 256 % 256 && body[6] == rate / 65536 % 256
    && body[7] == rate / 16777216 && body[14] == 16 && body[15] == 0
  }

  lemma PcmFields(body: seq<int>, ch: int, rate: int)
    requires IsPcmFormat(body, ch, rate) && 0 < ch < 65536 && 0 <= rate < 4294967296
    ensures U16At(body, 2) == ch && U32At(body, 4) == rate && U16At(body, 14) == 16
  {
    assert rate / 65536 == rate / 256 / 256 && rate / 16777216 == rate / 256 / 256 / 256;
  }

  lemma LeWord(n: int)
    requires 0 <= n < 4294967296
    ensures Le32(n) == [n % 256, n / 256 % 256, n / 65536 % 256, n / 16777216 % 256]
  {
    assert n / 65536 == n / 256 / 256 && n / 16777216 == n / 256 / 256 / 256;
  }

  // A file of two chunks, spelled out.
  lemma TwoChunkFile(format: seq<int>, body: seq<int>, riff: int)
    requires |format| == 16 && |body| % 2 == 0 && |body| < 4294967296 && 0 <= riff < 4294967296
    ensures FileBytes(riff, [Chunk(FMT_ID, format, 0), Chunk(DATA_ID, body, 0)])
      == [0x52, 0x49, 0x46, 0x46, riff % 256, riff / 256 % 256, riff / 65536 % 256, riff / 16777216 % 256]
         + [0x57, 0x41, 0x56, 0x45] + ([0x66, 0x6D, 0x74, 0x20, 16, 0, 0, 0] + format)
         + ([0x64, 0x61, 0x74, 0x61, |body| % 256, |body| / 256 % 256, |body| / 65536 % 256, |body| / 16777216 % 256]
            + body)
  {
    var cf, cd := Chunk(FMT_ID, format, 0), Chunk(DATA_ID, body, 0);
    LeWord(riff);
    LeWord(16);
    LeWord(|body|);
    assert ChunkBytes(cf) == [0x66, 0x6D, 0x74, 0x20, 16, 0, 0, 0] + format;
    assert ChunkBytes(cd) == [0x64, 0x61, 0x74, 0x61, |body| % 256, |body| / 256 % 256, |body| / 65536 % 256,
                              |body| / 16777216 % 256] + body;
    TwoChunks(cf, cd);
  }

  lemma TwoChunks(c: Chunk, d: Chunk)
    ensures AllBytes([c, d]) == ChunkBytes(c) + ChunkBytes(d)
  {
    assert [c, d][1..] == [d] && [d][1..] == [];
    assert AllBytes([d]) == ChunkBytes(d) + [];
  }

  // Both readers on a PCM file spelled out byte by byte: one sample a frame, the average of
  // the integers that were written.
  lemma ReadersInvertPcm<F>(riff: int, format: seq<int>, ch: nat, rate: int, body: seq<int>, frames: seq<seq<int>>,
                            mean: (int, int) -> F)
    requires 0 <= riff < 4294967296 && 0 < ch < 65536 && 0 <= rate < 4294967296 && IsPcmFormat(format, ch, rate)
    requires |body| < 4294967296 && IsPcm(body, ch, frames)
    ensures var b :=
        [0x52, 0x49, 0x46, 0x46, riff % 256, riff / 256 % 256, riff / 65536 % 256, riff / 16777216 % 256]
        + [0x57, 0x41, 0x56, 0x45] + ([0x66, 0x6D, 0x74, 0x20, 16, 0, 0, 0] + format)
        + ([0x64, 0x61, 0x74, 0x61, |body| % 256, |body| / 256 % 256, |body| / 65536 % 256, |body| / 16777216 % 256]
           + body);
      var samples := seq(|frames|, f requires 0 <= f < |frames| => mean(Dots.Sum(frames[f]), ch));
      U8s(b) && FirstResult(b, mean) == Wav(samples, rate, ch) && SecondResult(b, mean) == Some(samples)
  {
    var cf, cd := Chunk(FMT_ID, format, 0), Chunk(DATA_ID, body, 0);
    PcmBytes(body, ch, frames);
    TwoChunkFile(format, body, riff);
    PcmFields(format, ch, rate);
    FramesOfPcm(body, ch, frames, mean);
    assert Writable(cf) && Writable(cd);
    ReadersInvertWriter(riff, [cf, cd], 0, 1, mean);
  }

  lemma PcmBytes(data: seq<int>, ch: nat, frames: seq<seq<int>>)
    requires ch > 0 && IsPcm(data, ch, frames)
    ensures U8s(data) && |data| % 2 == 0
  {
    assert |frames| * (2 * ch) == 2 * (|frames| * ch);
    forall k | 0 <= k < |data|
      ensures IsU8(data[k])
    {
      PcmByte(data, ch, frames, k);
    }
  }

  // Every byte of the body is a byte of one sample.
  lemma PcmByte(data: seq<int>, ch: nat, frames: seq<seq<int>>, k: nat)
    requires ch > 0 && IsPcm(data, ch, frames) && k < |data|
    ensures IsU8(data[k])
  {
    Grid.QuotientBound(k, |frames|, 2 * ch);
    var f, r := k / (2 * ch), k % (2 * ch);
    assert k == f * (2 * ch) + r;
    SampleByte(data, f * (2 * ch), frames[f], r);
  }

  lemma SampleByte(data: seq<int>, i: nat, xs: seq<int>, r: nat)
    requires SamplesAt(data, i, xs) && r < 2 * |xs|
    ensures IsU8(data[i + r])
  {
    var c := r / 2;
    assert 0 <= c < |xs| && (r == 2 * c || r == 2 * c + 1);
    assert data[i + 2 * c] == xs[c] % 256 && data[i + 2 * c + 1] == xs[c] / 256 % 256;
  }

  // Outside that family the readers can differ: with two data chunks the first reader keeps
  // the second body and the second reader the first.
  lemma TwoDataChunksDiffer(mean: (int, int) -> int)
    requires mean(1, 1) != mean(2, 1)
    ensures var cs := [Chunk(DATA_ID, [1, 0], 0), Chunk(DATA_ID, [2, 0], 0)];
      U8s(FileBytes(0, cs))
      && FirstResult(FileBytes(0, cs), mean) == Wav([mean(2, 1)], 16000, 1)
      && SecondResult(FileBytes(0, cs), mean) == Some([mean(1, 1)])
  {
    var c1, c2 := Chunk(DATA_ID, [1, 0], 0), Chunk(DATA_ID, [2, 0], 0);
    var cs := [c1, c2];
    var b := FileBytes(0, cs);
    WalkFile(0, cs);
    var hs := Headers(b, 12);
    assert BodyIn(b, hs[0], c1) && BodyIn(b, hs[1], c2);
    TwoData(hs);
    FrameOfOne(c1.body, 1, mean);
    FrameOfOne(c2.body, 2, mean);
  }

  lemma TwoData(hs: seq<Header>)
    requires |hs| == 2 && hs[0].kind == Data && hs[1].kind == Data
    ensures LastWhere(hs, Data) == Some(hs[1]) && FirstWhere(hs, Data) == Some(hs[0])
    ensures LastWhere(hs, Fmt) == None && Before(hs, Data) == []
  {
    assert hs[..1][..0] == [];
    assert LastWhere(hs[..1], Fmt) == None;
  }

  lemma FrameOfOne(data: seq<int>, v: int, mean: (int, int) -> int)
    requires data == [v, 0] && 0 <= v < 0x80
    ensures Frames(data, 1, mean) == [mean(v, 1)]
  {
    assert FrameSum(data, 0, 1) == FrameSum(data, 0, 0) + I16At(data, 0);
  }
}
