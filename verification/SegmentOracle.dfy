// The byte string two transcripts are compared by: a count, then each segment's two
// optional times and its length-prefixed text.
module SegmentOracle {
  import opened Integers
  import opened Options

  // Times are the 64 bits of an f64; the text is its bytes.
  datatype Segment = Segment(start: Option<int>, end: Option<int>, text: seq<int>)

  const WORD: int := 0x1_0000_0000_0000_0000

  ghost predicate IsWord(x: int) {
    0 <= x < WORD
  }

  // Bits are 64-bit words and lengths fit a 64-bit usize.
  ghost predicate WellFormed(s: Segment) {
    && (s.start.Some? ==> IsWord(s.start.value))
    && (s.end.Some? ==> IsWord(s.end.value))
    && U8s(s.text) && IsWord(|s.text|)
  }

  ghost predicate EachWellFormed(segs: seq<Segment>) {
    forall i :: 0 <= i < |segs| ==> WellFormed(segs[i])
  }

  ghost predicate AllWellFormed(segs: seq<Segment>) {
    IsWord(|segs|) && EachWellFormed(segs)
  }

  // ----- little-endian words -------------------------------------------------

  function Power256(n: nat): (p: nat)
    ensures p > 0
  {
    if n == 0 then 1 else 256 * Power256(n - 1)
  }

  // The low n bytes of x, least significant first.
  function LeBytes(x: int, n: nat): (b: seq<int>)
    ensures |b| == n
    decreases Abs(x), n
  {
    if n == 0 then [] else [x % 256] + LeBytes(x / 256, n - 1)
  }

  function FromLe(b: seq<int>): int {
    if |b| == 0 then 0 else b[0] + 256 * FromLe(b[1..])
  }

  lemma {:induction false} LeRoundTrip(x: int, n: nat)
    requires 0 <= x < Power256(n)
    ensures U8s(LeBytes(x, n)) && FromLe(LeBytes(x, n)) == x
  {
    if n > 0 {
      assert x / 256 < Power256(n - 1);
      LeRoundTrip(x / 256, n - 1);
      assert LeBytes(x, n)[1..] == LeBytes(x / 256, n - 1);
    }
  }

  lemma {:induction false} LeUnique(b: seq<int>)
    requires U8s(b)
    ensures 0 <= FromLe(b) < Power256(|b|) && LeBytes(FromLe(b), |b|) == b
  {
    if |b| > 0 {
      assert U8s(b[1..]) by {
        forall i | 0 <= i < |b[1..]| ensures IsU8(b[1..][i]) { assert b[1..][i] == b[i + 1]; }
      }
      LeUnique(b[1..]);
      var v := FromLe(b);
      assert v % 256 == b[0] && v / 256 == FromLe(b[1..]);
      assert [b[0]] + b[1..] == b;
    }
  }

  lemma WordPower()
    ensures Power256(8) == WORD
  {
    assert Power256(2) == 65536;
    assert Power256(4) == 65536 * 65536;
    assert Power256(6) == 65536 * Power256(4);
    assert Power256(8) == 65536 * Power256(6);
  }

  function Word(x: int): (b: seq<int>)
    ensures |b| == 8
  {
    LeBytes(x, 8)
  }

  // The eight bytes spelled out: byte i is the i-fold quotient by 256, modulo 256.
  lemma WordBytes(x0: int, x1: int, x2: int, x3: int, x4: int, x5: int, x6: int, x7: int)
    requires x1 == x0 / 256 && x2 == x1 / 256 && x3 == x2 / 256 && x4 == x3 / 256
    requires x5 == x4 / 256 && x6 == x5 / 256 && x7 == x6 / 256
    ensures Word(x0) == [x0 % 256, x1 % 256, x2 % 256, x3 % 256, x4 % 256, x5 % 256, x6 % 256, x7 % 256]
  {
    OneByte(x7, x7 / 256, 0);
    OneByte(x6, x7, 1);
    OneByte(x5, x6, 2);
    OneByte(x4, x5, 3);
    OneByte(x3, x4, 4);
    OneByte(x2, x3, 5);
    OneByte(x1, x2, 6);
    OneByte(x0, x1, 7);
  }

  lemma OneByte(x: int, y: int, n: nat)
    requires y == x / 256
    ensures LeBytes(x, n + 1) == [x % 256] + LeBytes(y, n)
  {
  }

  // A word read off the front, with what follows it.
  function ReadWord(b: seq<int>): Option<(int, seq<int>)> {
    if |b| < 8 then None else Some((FromLe(b[..8]), b[8..]))
  }

  lemma WordThenRest(x: int, rest: seq<int>)
    requires IsWord(x)
    ensures U8s(Word(x)) && ReadWord(Word(x) + rest) == Some((x, rest))
  {
    WordPower();
    LeRoundTrip(x, 8);
    assert (Word(x) + rest)[..8] == Word(x) && (Word(x) + rest)[8..] == rest;
  }

  lemma WordRead(b: seq<int>)
    requires U8s(b) && |b| >= 8
    ensures IsWord(FromLe(b[..8])) && b == Word(FromLe(b[..8])) + b[8..] && U8s(b[8..])
  {
    WordPower();
    U8Slices(b, 8);
    LeUnique(b[..8]);
  }

  lemma U8Slices(b: seq<int>, n: nat)
    requires U8s(b) && n <= |b|
    ensures U8s(b[..n]) && U8s(b[n..])
  {
    forall i | 0 <= i < |b[n..]| ensures IsU8(b[n..][i]) { assert b[n..][i] == b[n + i]; }
  }

  // ----- encoding ------------------------------------------------------------

  lemma Assoc(a: seq<int>, b: seq<int>, c: seq<int>)
    ensures a + b + c == a + (b + c)
  {
  }

  function Concat(parts: seq<seq<int>>): seq<int> {
    if |parts| == 0 then [] else parts[0] + Concat(parts[1..])
  }

  lemma {:induction false} ConcatSnoc(parts: seq<seq<int>>, p: seq<int>)
    ensures Concat(parts + [p]) == Concat(parts) + p
  {
    if |parts| == 0 {
      assert parts + [p] == [p] && [p][1..] == [];
    } else {
      ConcatSnoc(parts[1..], p);
      assert (parts + [p])[1..] == parts[1..] + [p];
      Assoc(parts[0], Concat(parts[1..]), p);
    }
  }

  function EncodeTime(t: Option<int>): seq<int> {
    match t
    case Some(bits) => [1] + Word(bits)
    case None => [0]
  }

  function EncodeSegment(s: Segment): seq<int> {
    EncodeTime(s.start) + (EncodeTime(s.end) + (Word(|s.text|) + s.text))
  }

  // The encodings of the segments in order.
  function Encodings(segs: seq<Segment>): (parts: seq<seq<int>>)
    ensures |parts| == |segs|
  {
    seq(|segs|, i requires 0 <= i < |segs| => EncodeSegment(segs[i]))
  }

  function EncodeAll(segs: seq<Segment>): seq<int> {
    Concat(Encodings(segs))
  }

  function Encode(segs: seq<Segment>): seq<int> {
    Word(|segs|) + EncodeAll(segs)
  }

  lemma EncodeCons(s: Segment, more: seq<Segment>)
    ensures EncodeAll([s] + more) == EncodeSegment(s) + EncodeAll(more)
  {
    assert Encodings([s] + more)[1..] == Encodings(more);
  }

  // Push the parts of one segment.
  method PushSegment(bytes: seq<int>, s: Segment) returns (r: seq<int>)
    ensures r == bytes + EncodeSegment(s)
    ensures r == bytes + (if s.start.Some? then [1] + Word(s.start.value) else [0])
                       + (if s.end.Some? then [1] + Word(s.end.value) else [0])
                       + Word(|s.text|) + s.text
  {
    r := bytes + EncodeTime(s.start);
    r := r + EncodeTime(s.end);
    r := r + Word(|s.text|);
    r := r + s.text;
    Assoc(bytes + EncodeTime(s.start) + EncodeTime(s.end), Word(|s.text|), s.text);
    Assoc(bytes + EncodeTime(s.start), EncodeTime(s.end), Word(|s.text|) + s.text);
    Assoc(bytes, EncodeTime(s.start), EncodeTime(s.end) + (Word(|s.text|) + s.text));
  }

  ghost function Pushed(segs: seq<Segment>, i: nat): seq<int>
    requires i <= |segs|
  {
    Word(|segs|) + Concat(Encodings(segs)[..i])
  }

  lemma PushedStep(segs: seq<Segment>, i: nat)
    requires i < |segs|
    ensures Pushed(segs, i + 1) == Pushed(segs, i) + EncodeSegment(segs[i])
  {
    var parts := Encodings(segs);
    ConcatSnoc(parts[..i], parts[i]);
    assert parts[..i] + [parts[i]] == parts[..i + 1];
    Assoc(Word(|segs|), Concat(parts[..i]), parts[i]);
  }

  lemma PushedAll(segs: seq<Segment>)
    ensures Pushed(segs, 0) == Word(|segs|) && Pushed(segs, |segs|) == Encode(segs)
  {
    assert Encodings(segs)[..|segs|] == Encodings(segs);
  }

  // The loop: the count, then every segment pushed onto the byte vector.
  method Oracle(segs: seq<Segment>) returns (bytes: seq<int>)
    ensures bytes == Encode(segs)
  {
    PushedAll(segs);
    bytes := Word(|segs|);
    for i := 0 to |segs|
      invariant bytes == Pushed(segs, i)
    {
      PushedStep(segs, i);
      bytes := PushSegment(bytes, segs[i]);
    }
  }

  // ----- decoding ------------------------------------------------------------

  function DecodeTime(b: seq<int>): Option<(Option<int>, seq<int>)> {
    if |b| == 0 then None
    else if b[0] == 0 then Some((None, b[1..]))
    else if b[0] == 1 then
      match ReadWord(b[1..])
      case Some((bits, rest)) => Some((Option.Some(bits), rest))
      case None => None
    else None
  }

  function DecodeText(b: seq<int>): Option<(seq<int>, seq<int>)> {
    match ReadWord(b)
    case Some((len, rest)) => if 0 <= len <= |rest| then Some((rest[..len], rest[len..])) else None
    case None => None
  }

  function DecodeSegment(b: seq<int>): Option<(Segment, seq<int>)> {
    match DecodeTime(b)
    case None => None
    case Some((start, b1)) =>
      match DecodeTime(b1)
      case None => None
      case Some((end, b2)) =>
        match DecodeText(b2)
        case None => None
        case Some((text, b3)) => Some((Segment(start, end, text), b3))
  }

  function DecodeMany(n: nat, b: seq<int>): Option<(seq<Segment>, seq<int>)> {
    if n == 0 then Some(([], b)) else
    match DecodeSegment(b)
    case None => None
    case Some((s, rest)) =>
      match DecodeMany(n - 1, rest)
      case None => None
      case Some((more, rest')) => Some(([s] + more, rest'))
  }

  // A whole byte string: the count, that many segments, nothing after them.
  function Decode(b: seq<int>): Option<seq<Segment>> {
    match ReadWord(b)
    case None => None
    case Some((n, rest)) =>
      if n < 0 then None else
      match DecodeMany(n, rest)
      case None => None
      case Some((segs, rest')) => if rest' == [] then Some(segs) else None
  }

  // ----- decoding inverts encoding -------------------------------------------

  lemma TimeRoundTrip(t: Option<int>, rest: seq<int>)
    requires t.Some? ==> IsWord(t.value)
    ensures DecodeTime(EncodeTime(t) + rest) == Some((t, rest))
  {
    var b := EncodeTime(t) + rest;
    match t
    case None =>
      assert b[1..] == rest;
    case Some(bits) =>
      assert b[1..] == Word(bits) + rest;
      WordThenRest(bits, rest);
  }

  lemma TextRoundTrip(text: seq<int>, rest: seq<int>)
    requires IsWord(|text|)
    ensures DecodeText(Word(|text|) + text + rest) == Some((text, rest))
  {
    assert Word(|text|) + text + rest == Word(|text|) + (text + rest);
    WordThenRest(|text|, text + rest);
    assert (text + rest)[..|text|] == text && (text + rest)[|text|..] == rest;
  }

  lemma SegmentRoundTrip(s: Segment, rest: seq<int>)
    requires WellFormed(s)
    ensures DecodeSegment(EncodeSegment(s) + rest) == Some((s, rest))
  {
    var body := Word(|s.text|) + s.text;
    var tail := body + rest;
    TextRoundTrip(s.text, rest);
    TimeRoundTrip(s.end, tail);
    TimeRoundTrip(s.start, EncodeTime(s.end) + tail);
    Assoc(EncodeTime(s.start), EncodeTime(s.end) + body, rest);
    Assoc(EncodeTime(s.end), body, rest);
    DecodeParts(EncodeSegment(s) + rest, s, EncodeTime(s.end) + tail, tail, rest);
  }

  lemma DecodeParts(b: seq<int>, s: Segment, b1: seq<int>, b2: seq<int>, b3: seq<int>)
    requires DecodeTime(b) == Some((s.start, b1)) && DecodeTime(b1) == Some((s.end, b2))
    requires DecodeText(b2) == Some((s.text, b3))
    ensures DecodeSegment(b) == Some((s, b3))
  {
  }

  lemma {:induction false} ManyRoundTrip(segs: seq<Segment>, rest: seq<int>)
    requires EachWellFormed(segs)
    ensures DecodeMany(|segs|, EncodeAll(segs) + rest) == Some((segs, rest))
  {
    if |segs| == 0 {
      assert EncodeAll(segs) + rest == rest;
    } else {
      var s, more := segs[0], segs[1..];
      assert [s] + more == segs;
      assert WellFormed(s) && EachWellFormed(more);
      ManyRoundTrip(more, rest);
      PrependRoundTrip(s, more, rest);
    }
  }

  lemma PrependRoundTrip(s: Segment, more: seq<Segment>, rest: seq<int>)
    requires WellFormed(s) && DecodeMany(|more|, EncodeAll(more) + rest) == Some((more, rest))
    ensures DecodeMany(|[s] + more|, EncodeAll([s] + more) + rest) == Some(([s] + more, rest))
  {
    var tail := EncodeAll(more) + rest;
    SegmentRoundTrip(s, tail);
    EncodeCons(s, more);
    Assoc(EncodeSegment(s), EncodeAll(more), rest);
    DecodeOneMore(|[s] + more|, EncodeAll([s] + more) + rest, s, tail, more, rest);
  }

  lemma DecodeOneMore(n: nat, b: seq<int>, s: Segment, b': seq<int>, more: seq<Segment>, rest: seq<int>)
    requires n > 0 && DecodeSegment(b) == Some((s, b')) && DecodeMany(n - 1, b') == Some((more, rest))
    ensures DecodeMany(n, b) == Some(([s] + more, rest))
  {
  }

  // Everything the oracle was given is recovered from its bytes.
  lemma OracleRoundTrip(segs: seq<Segment>)
    requires AllWellFormed(segs)
    ensures Decode(Encode(segs)) == Some(segs)
  {
    ManyRoundTrip(segs, []);
    WordThenRest(|segs|, EncodeAll(segs));
    assert EncodeAll(segs) + [] == EncodeAll(segs);
  }

  // Equal oracles are equal segment lists, of any lengths.
  lemma OracleInjective(segs: seq<Segment>, segs': seq<Segment>)
    requires AllWellFormed(segs) && AllWellFormed(segs')
    ensures Encode(segs) == Encode(segs') <==> segs == segs'
  {
    OracleRoundTrip(segs);
    OracleRoundTrip(segs');
  }

  // ----- and every decodable string is an encoding ---------------------------

  lemma TimeCanonical(b: seq<int>)
    requires U8s(b) && DecodeTime(b).Some?
    ensures var (t, rest) := DecodeTime(b).value;
      (t.Some? ==> IsWord(t.value)) && U8s(rest) && b == EncodeTime(t) + rest
  {
    U8Slices(b, 1);
    assert b == [b[0]] + b[1..];
    if b[0] == 1 {
      WordRead(b[1..]);
    }
  }

  lemma TextCanonical(b: seq<int>)
    requires U8s(b) && DecodeText(b).Some?
    ensures var (text, rest) := DecodeText(b).value;
      U8s(text) && IsWord(|text|) && U8s(rest) && b == Word(|text|) + text + rest
  {
    WordRead(b);
    var len := FromLe(b[..8]);
    U8Slices(b[8..], len);
    assert b[8..] == b[8..][..len] + b[8..][len..];
  }

  lemma SegmentCanonical(b: seq<int>)
    requires U8s(b) && DecodeSegment(b).Some?
    ensures var (s, rest) := DecodeSegment(b).value;
      WellFormed(s) && U8s(rest) && b == EncodeSegment(s) + rest
  {
    TimeCanonical(b);
    var (start, b1) := DecodeTime(b).value;
    TimeCanonical(b1);
    var (end, b2) := DecodeTime(b1).value;
    TextCanonical(b2);
    var (text, rest) := DecodeText(b2).value;
    var body := Word(|text|) + text;
    Assoc(EncodeTime(start), EncodeTime(end) + body, rest);
    Assoc(EncodeTime(end), body, rest);
  }

  lemma ConsCanonical(b: seq<int>, s: Segment, b': seq<int>, more: seq<Segment>, rest: seq<int>)
    requires U8s(b) && DecodeSegment(b) == Some((s, b')) && b' == EncodeAll(more) + rest && EachWellFormed(more)
    ensures b == EncodeAll([s] + more) + rest && EachWellFormed([s] + more)
  {
    SegmentCanonical(b);
    EncodeCons(s, more);
    Assoc(EncodeSegment(s), EncodeAll(more), rest);
  }

  // The bytes after the first segment hold the remaining ones.
  lemma RestDecodes(n: nat, b: seq<int>) returns (s: Segment, b': seq<int>)
    requires n > 0 && U8s(b) && DecodeMany(n, b).Some?
    ensures DecodeSegment(b) == Some((s, b')) && U8s(b') && DecodeMany(n - 1, b').Some?
  {
    SegmentCanonical(b);
    s, b' := DecodeSegment(b).value.0, DecodeSegment(b).value.1;
  }

  lemma {:induction false} ManyCanonical(n: nat, b: seq<int>) returns (segs: seq<Segment>, rest: seq<int>)
    requires U8s(b) && DecodeMany(n, b).Some?
    ensures DecodeMany(n, b) == Some((segs, rest))
    ensures |segs| == n && EachWellFormed(segs) && b == EncodeAll(segs) + rest
  {
    if n == 0 {
      segs, rest := [], b;
      assert EncodeAll(segs) + rest == b;
    } else {
      var s, b' := RestDecodes(n, b);
      var more, rest' := ManyCanonical(n - 1, b');
      DecodeOneMore(n, b, s, b', more, rest');
      segs, rest := [s] + more, rest';
      ConsCanonical(b, s, b', more, rest);
    }
  }

  // The decoder accepts exactly the oracles.
  lemma DecodeIff(b: seq<int>, segs: seq<Segment>)
    requires U8s(b)
    ensures Decode(b) == Some(segs) <==> AllWellFormed(segs) && b == Encode(segs)
  {
    if Decode(b) == Some(segs) {
      WordRead(b);
      var n := FromLe(b[..8]);
      var segs', rest' := ManyCanonical(n, b[8..]);
      assert segs' == segs && rest' == [];
      assert EncodeAll(segs) + [] == EncodeAll(segs);
    }
    if AllWellFormed(segs) && b == Encode(segs) {
      OracleRoundTrip(segs);
    }
  }
}
