/** A writer that hashes what it passes on, against writing the file first and
  * hashing it on a second pass.
  *
  * The sink and the reader follow a script, one entry a call, so a statement over
  * every script is a statement over every run of full writes, short writes,
  * interruptions and failures.  Of the hash only its incremental law is used. */
module HashingWriter {
  import opened Options

  datatype IoError = Interrupted | WriteZero | Other
  datatype Outcome = Ok(count: nat) | Err(error: IoError)

  const NEWLINE: bv8 := 10

  // ---------------------------------------------------------------- hash

  datatype Hash<!H, !D> = Hash(init: H, update: (H, seq<bv8>) -> H, finalize: H -> D)

  ghost predicate TwoStepsAreOne<H, D>(hash: Hash<H, D>, h: H, a: seq<bv8>, b: seq<bv8>) {
    hash.update(hash.update(h, a), b) == hash.update(h, a + b)
  }

  ghost predicate NothingIsNothing<H, D>(hash: Hash<H, D>, h: H) {
    hash.update(h, []) == h
  }

  /** The only law assumed: bytes fed in two calls or in one give the same state. */
  ghost predicate Compositional<H(!new), D>(hash: Hash<H, D>) {
    && (forall h: H :: NothingIsNothing(hash, h))
    && (forall h: H, a: seq<bv8>, b: seq<bv8> :: TwoStepsAreOne(hash, h, a, b))
  }

  function Digest<H, D>(hash: Hash<H, D>, bytes: seq<bv8>): D {
    hash.finalize(hash.update(hash.init, bytes))
  }

  function Feed<H, D>(hash: Hash<H, D>, h: H, pieces: seq<seq<bv8>>): H {
    if pieces == [] then h else Feed(hash, hash.update(h, pieces[0]), pieces[1..])
  }

  function Joined(pieces: seq<seq<bv8>>): seq<bv8> {
    if pieces == [] then [] else pieces[0] + Joined(pieces[1..])
  }

  lemma {:induction false} FeedJoins<H(!new), D>(hash: Hash<H, D>, h: H, pieces: seq<seq<bv8>>)
    requires Compositional(hash)
    ensures Feed(hash, h, pieces) == hash.update(h, Joined(pieces))
  {
    if pieces == [] {
      assert NothingIsNothing(hash, h);
    } else {
      FeedJoins(hash, hash.update(h, pieces[0]), pieces[1..]);
      assert TwoStepsAreOne(hash, h, pieces[0], Joined(pieces[1..]));
    }
  }

  /** However the same bytes are cut into pieces, the digest is the same. */
  lemma CutsDoNotMatter<H(!new), D>(hash: Hash<H, D>, a: seq<seq<bv8>>, b: seq<seq<bv8>>)
    requires Compositional(hash) && Joined(a) == Joined(b)
    ensures hash.finalize(Feed(hash, hash.init, a)) == hash.finalize(Feed(hash, hash.init, b))
  {
    FeedJoins(hash, hash.init, a);
    FeedJoins(hash, hash.init, b);
  }

  // ---------------------------------------------------------------- lines

  /** What writing every line, each followed by a newline, should leave in the file. */
  function Document(lines: seq<seq<bv8>>): seq<bv8> {
    if lines == [] then []
    else Document(lines[..|lines| - 1]) + lines[|lines| - 1] + [NEWLINE]
  }

  /** One more line adds its bytes and the byte 10. */
  lemma DocumentLine(lines: seq<seq<bv8>>, l: seq<bv8>)
    ensures Document([]) == [] && Document(lines + [l]) == Document(lines) + l + [10]
  {
    assert (lines + [l])[..|lines|] == lines;
  }

  lemma DocumentStep(lines: seq<seq<bv8>>, i: nat)
    requires i < |lines|
    ensures Document(lines[..i + 1]) == Document(lines[..i]) + lines[i] + [NEWLINE]
  {
    assert lines[..i + 1][..i] == lines[..i];
  }

  lemma {:induction false} DocumentPrefix(lines: seq<seq<bv8>>, i: nat)
    requires i <= |lines|
    ensures Document(lines[..i]) <= Document(lines)
    decreases |lines| - i
  {
    if i == |lines| {
      assert lines[..i] == lines;
    } else {
      DocumentStep(lines, i);
      DocumentPrefix(lines, i + 1);
    }
  }

  // ---------------------------------------------------------------- sink

  /** One answer of the sink to a write: take at most so many bytes, or refuse;
    * either way `drain` more buffered bytes may have reached the file meanwhile. */
  datatype Step = Accept(most: nat, drain: nat) | Refuse(error: IoError, drain: nat)

  /** The answer to a write of `size` bytes.  A script that has run out takes everything. */
  function Answer(plan: seq<Step>, size: nat): Outcome {
    if plan == [] then Ok(size)
    else match plan[0]
      case Accept(most, _) => Ok(if most < size then most else size)
      case Refuse(error, _) => Err(error)
  }

  function Rest(plan: seq<Step>): seq<Step> {
    if plan == [] then [] else plan[1..]
  }

  /** A script on which retrying is enough: progress, or an interruption. */
  predicate Steady(plan: seq<Step>) {
    forall s <- plan :: if s.Accept? then s.most > 0 else s.error == Interrupted
  }

  /** A buffered file: bytes accepted so far, of which a prefix has reached the file. */
  class Sink {
    var accepted: seq<bv8>
    var drained: nat
    var plan: seq<Step>
    const flushError: Option<IoError>

    ghost predicate Valid()
      reads this
    {
      drained <= |accepted|
    }

    function File(): seq<bv8>
      requires Valid()
      reads this
    {
      accepted[..drained]
    }

    constructor (plan: seq<Step>, flushError: Option<IoError>)
      ensures Valid() && accepted == [] && this.plan == plan && this.flushError == flushError
    {
      this.accepted, this.drained, this.plan, this.flushError := [], 0, plan, flushError;
    }

    /** An error means no byte was taken; success may mean a strict prefix was. */
    method Write(b: seq<bv8>) returns (r: Outcome)
      requires Valid()
      modifies this
      ensures Valid() && plan == Rest(old(plan)) && old(drained) <= drained
      ensures r == Answer(old(plan), |b|)
      ensures accepted == if r.Ok? then old(accepted) + b[..r.count] else old(accepted)
    {
      r := Answer(plan, |b|);
      if r.Ok? { accepted := accepted + b[..r.count]; }
      if plan != [] {
        var more := drained + plan[0].drain;
        drained := if more < |accepted| then more else |accepted|;
        plan := plan[1..];
      }
    }

    method Flush() returns (r: Outcome)
      requires Valid()
      modifies this`drained
      ensures Valid()
      ensures r == if flushError.Some? then Err(flushError.value) else Ok(0)
      ensures r.Ok? ==> File() == accepted
    {
      if flushError.Some? { return Err(flushError.value); }
      drained := |accepted|;
      r := Ok(0);
    }

    /** Writes until nothing is left; gives up on an error or on a write of nothing. */
    method WriteAll(b: seq<bv8>) returns (r: Outcome)
      requires Valid()
      modifies this
      ensures Valid() && old(accepted) <= accepted <= old(accepted) + b
      ensures r.Ok? ==> accepted == old(accepted) + b
      ensures Steady(old(plan)) ==> r.Ok? && Steady(plan)
    {
      var i := 0;
      while i < |b|
        invariant Valid() && i <= |b| && accepted == old(accepted) + b[..i]
        invariant Steady(old(plan)) ==> Steady(plan)
        decreases |plan|, |b| - i
      {
        var n := Write(b[i..]);
        match n {
          case Ok(count) =>
            if count == 0 { return Err(WriteZero); }
            assert b[..i] + b[i..][..count] == b[..i + count];
            i := i + count;
          case Err(error) =>
            if error != Interrupted { return Err(error); }
        }
      }
      r := Ok(|b|);
    }

    method WriteLine(l: seq<bv8>) returns (r: Outcome)
      requires Valid()
      modifies this
      ensures Valid() && old(accepted) <= accepted <= old(accepted) + l + [NEWLINE]
      ensures r.Ok? ==> accepted == old(accepted) + l + [NEWLINE]
      ensures Steady(old(plan)) ==> r.Ok? && Steady(plan)
    {
      r := WriteAll(l);
      if r.Ok? { r := WriteAll([NEWLINE]); }
    }
  }

  // ---------------------------------------------------------------- hashing writer

  class Hw<H(!new), !D> {
    const hash: Hash<H, D>
    const inner: Sink
    var hasher: H

    /** The state of the hasher is that of hashing exactly the bytes the sink accepted. */
    ghost predicate Tracks()
      reads this, inner
    {
      && inner.Valid()
      && Compositional(hash)
      && hasher == hash.update(hash.init, inner.accepted)
    }

    constructor (hash: Hash<H, D>, inner: Sink)
      requires Compositional(hash) && inner.Valid() && inner.accepted == []
      ensures Tracks() && this.hash == hash && this.inner == inner
    {
      this.hash, this.inner, this.hasher := hash, inner, hash.init;
      assert NothingIsNothing(hash, hash.init);
    }

    /** One write, full, short or refused: the invariant survives, and the answer is
      * the sink's own, so a caller cannot tell the hashing writer from the sink. */
    method Write(b: seq<bv8>) returns (r: Outcome)
      requires Tracks()
      modifies this, inner
      ensures Tracks() && inner.plan == Rest(old(inner.plan))
      ensures r == Answer(old(inner.plan), |b|)
      ensures inner.accepted == if r.Ok? then old(inner.accepted) + b[..r.count] else old(inner.accepted)
    {
      r := inner.Write(b);
      if r.Ok? {
        assert TwoStepsAreOne(hash, hash.init, old(inner.accepted), b[..r.count]);
        hasher := hash.update(hasher, b[..r.count]);
      }
    }

    method Flush() returns (r: Outcome)
      requires Tracks()
      modifies this, inner`drained
      ensures Tracks()
      ensures r == if inner.flushError.Some? then Err(inner.flushError.value) else Ok(0)
      ensures r.Ok? ==> inner.File() == inner.accepted
    {
      r := inner.Flush();
    }

    method WriteAll(b: seq<bv8>) returns (r: Outcome)
      requires Tracks()
      modifies this, inner
      ensures Tracks() && old(inner.accepted) <= inner.accepted <= old(inner.accepted) + b
      ensures r.Ok? ==> inner.accepted == old(inner.accepted) + b
      ensures Steady(old(inner.plan)) ==> r.Ok? && Steady(inner.plan)
    {
      var i := 0;
      while i < |b|
        invariant Tracks() && i <= |b| && inner.accepted == old(inner.accepted) + b[..i]
        invariant Steady(old(inner.plan)) ==> Steady(inner.plan)
        decreases |inner.plan|, |b| - i
      {
        var n := Write(b[i..]);
        match n {
          case Ok(count) =>
            if count == 0 { return Err(WriteZero); }
            assert b[..i] + b[i..][..count] == b[..i + count];
            i := i + count;
          case Err(error) =>
            if error != Interrupted { return Err(error); }
        }
      }
      r := Ok(|b|);
    }

    method WriteLine(l: seq<bv8>) returns (r: Outcome)
      requires Tracks()
      modifies this, inner
      ensures Tracks() && old(inner.accepted) <= inner.accepted <= old(inner.accepted) + l + [NEWLINE]
      ensures r.Ok? ==> inner.accepted == old(inner.accepted) + l + [NEWLINE]
      ensures Steady(old(inner.plan)) ==> r.Ok? && Steady(inner.plan)
    {
      r := WriteAll(l);
      if r.Ok? { r := WriteAll([NEWLINE]); }
    }
  }

  // ---------------------------------------------------------------- reader

  /** A file read from the front; each scripted entry caps one read or makes it fail. */
  class Reader {
    const content: seq<bv8>
    var pos: nat
    var plan: seq<Option<nat>>

    constructor (content: seq<bv8>, plan: seq<Option<nat>>)
      ensures this.content == content && pos == 0 && this.plan == plan
    {
      this.content, this.pos, this.plan := content, 0, plan;
    }

    /** Fills a front part of the buffer and leaves the rest of it stale.  Nothing is
      * read exactly at the end of the file or into an empty buffer. */
    method Read(buf: array<bv8>) returns (r: Outcome)
      requires pos <= |content|
      modifies this`pos, this`plan, buf
      ensures pos <= |content|
      ensures r.Ok? ==> r.count <= buf.Length && pos == old(pos) + r.count
      ensures r.Ok? ==> buf[..r.count] == content[old(pos)..pos]
      ensures r.Ok? ==> (r.count == 0 <==> buf.Length == 0 || old(pos) == |content|)
      ensures old(plan) == [] ==> r.Ok? && plan == []
    {
      var n := if buf.Length < |content| - pos then buf.Length else |content| - pos;
      if plan != [] {
        var step := plan[0];
        plan := plan[1..];
        if step.None? { return Err(Other); }
        if 0 < step.value < n { n := step.value; }
      }
      forall i | 0 <= i < n { buf[i] := content[pos + i]; }
      assert buf[..n] == content[pos..pos + n] by {
        assert forall i | 0 <= i < n :: buf[i] == content[pos..pos + n][i];
      }
      pos := pos + n;
      r := Ok(n);
    }
  }

  /** Hashes a file through a buffer of any size; `None` is the panic on a failed read.
    * A buffer of size zero reads nothing, and then the digest is that of no bytes. */
  method HashWithBuf<H(!new), D>(hash: Hash<H, D>, file: Reader, bufLen: nat)
    returns (digest: Option<D>)
    requires Compositional(hash) && file.pos == 0
    modifies file
    ensures digest.Some? ==>
              digest.value == Digest(hash, if bufLen == 0 then [] else file.content)
    ensures old(file.plan) == [] ==> digest.Some?
  {
    var buf := new bv8[bufLen](_ => 0);
    var hasher := hash.init;
    assert NothingIsNothing(hash, hasher);
    while true
      invariant file.pos <= |file.content| && (bufLen == 0 ==> file.pos == 0)
      invariant hasher == hash.update(hash.init, file.content[..file.pos])
      invariant old(file.plan) == [] ==> file.plan == []
      decreases |file.content| - file.pos
    {
      ghost var before := file.pos;
      var n := file.Read(buf);
      if n.Err? { return None; }
      if n.count == 0 { break; }
      assert TwoStepsAreOne(hash, hash.init, file.content[..before], buf[..n.count]);
      hasher := hash.update(hasher, buf[..n.count]);
      assert file.content[..before] + file.content[before..file.pos] == file.content[..file.pos];
    }
    assert bufLen > 0 ==> file.content[..file.pos] == file.content;
    digest := Some(hash.finalize(hasher));
  }

  // ---------------------------------------------------------------- the two exports

  /** Streams the lines through the hashing writer; `None` is the panic on an error. */
  method WriteStreaming<H(!new), D>(hash: Hash<H, D>, sink: Sink, lines: seq<seq<bv8>>)
    returns (digest: Option<D>)
    requires Compositional(hash) && sink.Valid() && sink.accepted == []
    modifies sink
    ensures sink.Valid() && sink.accepted <= Document(lines)
    ensures digest.Some? ==> sink.File() == Document(lines)
    ensures digest.Some? ==> digest.value == Digest(hash, Document(lines))
    ensures Steady(old(sink.plan)) && sink.flushError.None? ==> digest.Some?
  {
    var w := new Hw(hash, sink);
    for i := 0 to |lines|
      invariant w.Tracks() && w.inner == sink && w.hash == hash
      invariant sink.accepted == Document(lines[..i])
      invariant Steady(old(sink.plan)) ==> Steady(sink.plan)
    {
      DocumentStep(lines, i);
      DocumentPrefix(lines, i + 1);
      var r := w.WriteLine(lines[i]);
      if r.Err? { return None; }
    }
    assert lines[..|lines|] == lines;
    var r := w.Flush();
    if r.Err? { return None; }
    digest := Some(hash.finalize(w.hasher));
  }

  /** Writes the lines, then reads the file back through a buffer and hashes that. */
  method WriteThenReread<H(!new), D>(hash: Hash<H, D>, sink: Sink, lines: seq<seq<bv8>>,
                                     script: seq<Option<nat>>, bufLen: nat)
    returns (digest: Option<D>)
    requires Compositional(hash) && sink.Valid() && sink.accepted == [] && bufLen > 0
    modifies sink
    ensures sink.Valid() && sink.accepted <= Document(lines)
    ensures digest.Some? ==> sink.File() == Document(lines)
    ensures digest.Some? ==> digest.value == Digest(hash, Document(lines))
    ensures Steady(old(sink.plan)) && sink.flushError.None? && script == [] ==> digest.Some?
  {
    for i := 0 to |lines|
      invariant sink.Valid() && sink.accepted == Document(lines[..i])
      invariant Steady(old(sink.plan)) ==> Steady(sink.plan)
    {
      DocumentStep(lines, i);
      DocumentPrefix(lines, i + 1);
      var r := sink.WriteLine(lines[i]);
      if r.Err? { return None; }
    }
    assert lines[..|lines|] == lines;
    var r := sink.Flush();
    if r.Err? { return None; }
    var file := new Reader(sink.File(), script);
    digest := HashWithBuf(hash, file, bufLen);
  }

  /** The equality the benchmark rests on: whatever the two sinks and the reader do,
    * if both exports finish they leave the same file and give the same digest. */
  method BothExports<H(!new), D>(hash: Hash<H, D>, lines: seq<seq<bv8>>, streamed: Sink, plain: Sink,
                                 script: seq<Option<nat>>, bufLen: nat)
    returns (a: Option<D>, b: Option<D>)
    requires Compositional(hash) && bufLen > 0 && streamed != plain
    requires streamed.Valid() && streamed.accepted == []
    requires plain.Valid() && plain.accepted == []
    modifies streamed, plain
    ensures streamed.Valid() && plain.Valid()
    ensures a.Some? && b.Some? ==> a == b && streamed.File() == plain.File()
  {
    a := WriteStreaming(hash, streamed, lines);
    b := WriteThenReread(hash, plain, lines, script, bufLen);
  }
}
