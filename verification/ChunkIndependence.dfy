/** How the archive is cut into chunks makes no difference to the parser. */
module ChunkIndependence {
  import opened CLib
  import opened UstarHeader
  import opened ZtarUnpack

  /** Accepting a run of data at once is accepting its two parts one after the other. */
  ghost predicate Additive(cb: Callbacks) {
    forall log: seq<Entry>, a: Bytes, b: Bytes :: log != [] && a != [] && b != [] ==>
      (cb.onData(log, a + b) <==> cb.onData(log, a) && cb.onData(Appended(log, a), b))
  }

  /** How many more bytes the current state wants before it is left. */
  function Wanted(u: Unpacker): nat
    requires ValidUnpacker(u)
  {
    match u.state
    case ReadHeader => BLOCK_SIZE - |u.header|
    case ReadData => if FileSize(u.header).None? then 0 else FileSize(u.header).value - u.inFile
    case ReadPadding => RequiredPadding(FileSize(u.header).value) - u.inPadding
    case ReadTrailer => TRAILER_SIZE - u.inTrailer
  }

  /** Bytes beyond what the state wants do not matter to the step. */
  lemma {:induction false} StepIgnoresTheRest(cb: Callbacks, u: Unpacker, a: Bytes, b: Bytes)
    requires ValidUnpacker(u) && a != [] && Wanted(u) <= |a|
    ensures Step(cb, u, a + b) == Step(cb, u, a)
  {
    hide FileSize, AllZero, HeaderComplete, FileComplete;
    assert (a + b)[..Wanted(u)] == a[..Wanted(u)];
  }

  /** The step on `a + b` amounts to the steps on `a` and then on `b`. */
  ghost predicate Composes(sa: Stepped, sb: Stepped, sab: Stepped, n: nat) {
    && sab.code == sb.code
    && (sab.code in {Ok, ArchiveExhausted} ==> sab.next == sb.next)
    && (sab.code == Ok ==> sab.used == n + sb.used)
  }

  ghost predicate SplitStep(cb: Callbacks, u: Unpacker, a: Bytes, b: Bytes)
    requires ValidUnpacker(u) && a != [] && b != []
  {
    var sa := Step(cb, u, a);
    var sab := Step(cb, u, a + b);
    if sa.code == Ok then
      sa.used == |a| && Composes(sa, Step(cb, sa.next, b), sab, |a|)
    else
      sa.code != ArchiveExhausted && sab.code == sa.code
  }

  lemma {:induction false} HeaderSplits(cb: Callbacks, u: Unpacker, a: Bytes, b: Bytes)
    requires ValidUnpacker(u) && u.state.ReadHeader? && a != [] && b != [] && Wanted(u) > |a|
    ensures SplitStep(cb, u, a, b)
  {
    hide FileSize, AllZero, Validate;
    var n := Min(|b|, Wanted(u) - |a|);
    assert u.header + (a + b)[..|a| + n] == (u.header + a[..|a|]) + b[..n];
  }

  lemma {:induction false} AppendedTwice(log: seq<Entry>, a: Bytes, b: Bytes)
    ensures Appended(Appended(log, a), b) == Appended(log, a + b)
  {
    if log != [] {
      assert log[|log| - 1].data + a + b == log[|log| - 1].data + (a + b);
    }
  }

  lemma {:induction false} DataSplits(cb: Callbacks, u: Unpacker, a: Bytes, b: Bytes)
    requires Additive(cb)
    requires ValidUnpacker(u) && u.state.ReadData? && a != [] && b != [] && Wanted(u) > |a|
    ensures SplitStep(cb, u, a, b)
  {
    hide FileSize, Appended, Ended, RequiredPadding;
    var n := Min(|b|, Wanted(u) - |a|);
    assert (a + b)[..|a| + n] == a + b[..n];
    assert (a + b)[..|a|] == a && a[..|a|] == a;
    AppendedTwice(u.log, a, b[..n]);
    assert cb.onData(u.log, a + b[..n]) <==> cb.onData(u.log, a) && cb.onData(Appended(u.log, a), b[..n]);
  }

  lemma {:induction false} AllZeroOfConcat(a: Bytes, b: Bytes)
    ensures AllZero(a + b) <==> AllZero(a) && AllZero(b)
  {
    if AllZero(a + b) {
      assert forall i :: 0 <= i < |a| ==> a[i] == (a + b)[i];
      assert forall i :: 0 <= i < |b| ==> b[i] == (a + b)[|a| + i];
    }
  }

  lemma {:induction false} PaddingSplits(cb: Callbacks, u: Unpacker, a: Bytes, b: Bytes)
    requires ValidUnpacker(u) && u.state.ReadPadding? && a != [] && b != [] && Wanted(u) > |a|
    ensures SplitStep(cb, u, a, b)
  {
    hide FileSize, AllZero, RequiredPadding;
    var n := Min(|b|, Wanted(u) - |a|);
    assert (a + b)[..|a| + n] == a[..|a|] + b[..n];
    AllZeroOfConcat(a[..|a|], b[..n]);
  }

  lemma {:induction false} TrailerSplits(cb: Callbacks, u: Unpacker, a: Bytes, b: Bytes)
    requires ValidUnpacker(u) && u.state.ReadTrailer? && a != [] && b != [] && Wanted(u) > |a|
    ensures SplitStep(cb, u, a, b)
  {
    hide FileSize, AllZero;
    var n := Min(|b|, Wanted(u) - |a|);
    assert (a + b)[..|a| + n] == a[..|a|] + b[..n];
    AllZeroOfConcat(a[..|a|], b[..n]);
  }

  lemma {:induction false} StepSplits(cb: Callbacks, u: Unpacker, a: Bytes, b: Bytes)
    requires Additive(cb)
    requires ValidUnpacker(u) && a != [] && b != [] && Wanted(u) > |a|
    ensures SplitStep(cb, u, a, b)
  {
    hide SplitStep, Wanted;
    match u.state
    case ReadHeader => HeaderSplits(cb, u, a, b);
    case ReadData => DataSplits(cb, u, a, b);
    case ReadPadding => PaddingSplits(cb, u, a, b);
    case ReadTrailer => TrailerSplits(cb, u, a, b);
  }

  /**
   Processing `a` and then `b` is processing `a + b`: the same code, and the same state and log
   unless that code is an error.
   */
  ghost predicate SameAsWhole(cb: Callbacks, u: Unpacker, a: Bytes, b: Bytes)
    requires ValidUnpacker(u)
  {
    var ra := Process(cb, u, a);
    var whole := Process(cb, u, a + b);
    if ra.code == Ok then
      var rb := Process(cb, ra.next, b);
      rb.code == whole.code && (rb.code in {Ok, ArchiveExhausted} ==> rb.next == whole.next)
    else
      whole.code == ra.code && (ra.code == ArchiveExhausted ==> whole.next == ra.next)
  }

  lemma {:induction false} TwoChunksAreOne(cb: Callbacks, u: Unpacker, a: Bytes, b: Bytes)
    requires Additive(cb) && ValidUnpacker(u)
    ensures SameAsWhole(cb, u, a, b)
    decreases |a|, Rank(u)
  {
    hide Step, Wanted, ValidUnpacker, Additive, Rank;
    if a == [] {
      assert a + b == b;
    } else if b == [] {
      assert a + b == a;
    } else if Wanted(u) <= |a| {
      StepIgnoresTheRest(cb, u, a, b);
      var s := Step(cb, u, a);
      if s.code == Ok {
        TwoChunksAreOne(cb, s.next, a[s.used..], b);
        assert (a + b)[s.used..] == a[s.used..] + b;
      }
    } else {
      StepSplits(cb, u, a, b);
      var sa := Step(cb, u, a);
      if sa.code == Ok {
        assert a[sa.used..] == [];
        ProcessNothing(cb, sa.next);
        assert Process(cb, u, a) == Processed(sa.next, Ok);
        var sb := Step(cb, sa.next, b);
        if sb.code == Ok {
          assert (a + b)[|a| + sb.used..] == b[sb.used..];
          assert Process(cb, sa.next, b) == Process(cb, sb.next, b[sb.used..]);
        }
      }
    }
  }

  // ---------------------------------------------------------------------------------------------
  // Any number of chunks
  // ---------------------------------------------------------------------------------------------

  function Concat(chunks: seq<Bytes>): Bytes {
    if chunks == [] then [] else chunks[0] + Concat(chunks[1..])
  }

  /**
   A caller that feeds the chunks in order, as the download does: it skips empty chunks, gives up on
   an error, and keeps feeding after the archive is exhausted. The code is that of the last call.
   */
  function Feed(cb: Callbacks, u: Unpacker, chunks: seq<Bytes>): (r: Processed)
    requires ValidUnpacker(u)
    ensures ValidUnpacker(r.next)
    decreases |chunks|
  {
    if chunks == [] then Processed(u, Ok)
    else
      var r := Process(cb, u, chunks[0]);
      if r.code !in {Ok, ArchiveExhausted} then r else Feed(cb, r.next, chunks[1..])
  }

  predicate Exhausted(u: Unpacker) {
    u.state.ReadTrailer? && u.inTrailer == TRAILER_SIZE
  }

  /** An exhausted parser stays as it is, whatever follows. */
  lemma {:induction false} ExhaustedStays(cb: Callbacks, u: Unpacker, data: Bytes)
    requires ValidUnpacker(u) && Exhausted(u)
    ensures Process(cb, u, data) == Processed(u, if data == [] then Ok else ArchiveExhausted)
  {
    hide FileSize;
  }

  lemma {:induction false} ProcessExhausts(cb: Callbacks, u: Unpacker, data: Bytes)
    requires ValidUnpacker(u)
    ensures Process(cb, u, data).code == ArchiveExhausted ==> Exhausted(Process(cb, u, data).next)
    ensures Process(cb, u, data).code == Ok && !Exhausted(u) ==> !Exhausted(Process(cb, u, data).next)
    decreases |data|, Rank(u)
  {
    hide ValidUnpacker, Rank, Step;
    if data != [] {
      var s := Step(cb, u, data);
      StepExhausts(cb, u, data);
      if s.code == Ok {
        ProcessExhausts(cb, s.next, data[s.used..]);
      }
    }
  }

  lemma {:induction false} StepExhausts(cb: Callbacks, u: Unpacker, data: Bytes)
    requires ValidUnpacker(u) && data != []
    ensures Step(cb, u, data).code == ArchiveExhausted ==> Exhausted(Step(cb, u, data).next)
    ensures Step(cb, u, data).code == Ok ==> !Exhausted(Step(cb, u, data).next)
  {
    hide FileSize, AllZero;
  }

  /** Feeding chunks is processing their concatenation: same state, same outcome. */
  ghost predicate FeedAsWhole(cb: Callbacks, u: Unpacker, chunks: seq<Bytes>)
    requires ValidUnpacker(u)
  {
    var fed := Feed(cb, u, chunks);
    var whole := Process(cb, u, Concat(chunks));
    if whole.code in {Ok, ArchiveExhausted} then
      fed.code in {Ok, ArchiveExhausted} && fed.next == whole.next
    else
      fed.code == whole.code
  }

  lemma {:induction false} FeedExhausted(cb: Callbacks, u: Unpacker, chunks: seq<Bytes>)
    requires ValidUnpacker(u) && Exhausted(u)
    ensures Feed(cb, u, chunks).code in {Ok, ArchiveExhausted} && Feed(cb, u, chunks).next == u
    decreases |chunks|
  {
    hide ValidUnpacker, Process;
    if chunks != [] {
      ExhaustedStays(cb, u, chunks[0]);
      FeedExhausted(cb, u, chunks[1..]);
    }
  }

  lemma {:induction false} ChunksDoNotMatter(cb: Callbacks, u: Unpacker, chunks: seq<Bytes>)
    requires Additive(cb) && ValidUnpacker(u)
    ensures FeedAsWhole(cb, u, chunks)
    decreases |chunks|
  {
    hide ValidUnpacker, Process, Additive;
    if chunks == [] {
      assert Process(cb, u, []) == Processed(u, Ok) by { ProcessNothing(cb, u); }
    } else {
      TwoChunksAreOne(cb, u, chunks[0], Concat(chunks[1..]));
      ProcessExhausts(cb, u, chunks[0]);
      var r := Process(cb, u, chunks[0]);
      if r.code == Ok {
        ChunksDoNotMatter(cb, r.next, chunks[1..]);
      } else if r.code == ArchiveExhausted {
        FeedExhausted(cb, r.next, chunks[1..]);
      }
    }
  }

  lemma {:induction false} ProcessNothing(cb: Callbacks, u: Unpacker)
    requires ValidUnpacker(u)
    ensures Process(cb, u, []) == Processed(u, Ok)
  {
  }
}
