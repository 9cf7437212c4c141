/** The download side: HTTP chunks in, an accepted archive or an aborted request out. */
module TarDownload {
  import opened CLib
  import opened UstarHeader
  import opened ZtarUnpack
  import opened ChunkIndependence
  import opened ArchiveGrammar

  datatype DownloadError = ChunkProcessingFailed | NotFullyExhausted

  datatype Progress = Progress(parser: Unpacker, error: Option<DownloadError>)

  /** What one HTTP response chunk does to the parser, and whether the request is aborted. */
  function TarChunk(cb: Callbacks, u: Unpacker, chunk: Bytes, last: bool): (r: Progress)
    requires ValidUnpacker(u)
    ensures ValidUnpacker(r.parser)
  {
    var p := if chunk == [] then Processed(u, Ok) else Process(cb, u, chunk);
    if p.code !in {Ok, ArchiveExhausted} then Progress(p.next, Some(ChunkProcessingFailed))
    else if last && p.code != ArchiveExhausted && p.next.inTrailer < TRAILER_SIZE then
      Progress(p.next, Some(NotFullyExhausted))
    else Progress(p.next, None)
  }

  /** The context of one download. */
  class Download {
    const unpack: UnpackStream
    var error: Option<DownloadError>

    ghost predicate Valid()
      reads this, unpack, unpack.currentHeader
    {
      unpack.Valid() && (!unpack.initialized ==> unpack.Value() == INITIAL)
    }

    constructor (callbacks: Callbacks)
      ensures Valid() && unpack.Value() == INITIAL && unpack.callbacks == callbacks && error == None
      ensures fresh(unpack) && fresh(unpack.currentHeader)
    {
      unpack := new UnpackStream(callbacks);
      error := None;
    }

    /** `process_tar_chunk`: initialize on the first chunk, parse, and check the end on the last. */
    method ProcessTarChunk(chunk: Bytes, last: bool) returns (aborted: bool)
      requires Valid()
      modifies this, unpack, unpack.currentHeader
      ensures Valid()
      ensures var r := TarChunk(unpack.callbacks, old(unpack.Value()), chunk, last);
              && unpack.Value() == r.parser
              && aborted == r.error.Some?
              && error == if aborted then r.error else old(error)
    {
      hide Process, ValidUnpacker;
      if !unpack.initialized {
        unpack.Init();
      }
      var code := Ok;
      if |chunk| > 0 {
        code := unpack.ProcessChunk(chunk);
        if code != Ok && code != ArchiveExhausted {
          error := Some(ChunkProcessingFailed);
          return true;
        }
      }
      if last {
        if code != ArchiveExhausted && unpack.bytesProcessedInTrailer < TRAILER_SIZE {
          error := Some(NotFullyExhausted);
          return true;
        }
      }
      aborted := false;
    }
  }

  // ---------------------------------------------------------------------------------------------
  // Acceptance
  // ---------------------------------------------------------------------------------------------

  /** A whole request: every chunk in turn, the final one flagged as last; the first abort ends it. */
  function Request(cb: Callbacks, u: Unpacker, chunks: seq<Bytes>): (r: Progress)
    requires ValidUnpacker(u) && chunks != []
    ensures ValidUnpacker(r.parser)
    decreases |chunks|
  {
    var r := TarChunk(cb, u, chunks[0], |chunks| == 1);
    if r.error.Some? || |chunks| == 1 then r else Request(cb, r.parser, chunks[1..])
  }

  /** `inTrailer` reaches its full value only in the trailer state. */
  predicate TrailerCountIsHonest(u: Unpacker) {
    u.inTrailer == TRAILER_SIZE ==> Exhausted(u)
  }

  lemma {:induction false} StepKeepsTrailerCount(cb: Callbacks, u: Unpacker, data: Bytes)
    requires ValidUnpacker(u) && data != [] && u.inTrailer <= TRAILER_SIZE && TrailerCountIsHonest(u)
    ensures Step(cb, u, data).next.inTrailer <= TRAILER_SIZE && TrailerCountIsHonest(Step(cb, u, data).next)
  {
    hide FileSize, AllZero, Validate, RequiredPadding;
  }

  lemma {:induction false} ProcessKeepsTrailerCount(cb: Callbacks, u: Unpacker, data: Bytes)
    requires ValidUnpacker(u) && u.inTrailer <= TRAILER_SIZE && TrailerCountIsHonest(u)
    ensures Process(cb, u, data).next.inTrailer <= TRAILER_SIZE
    ensures TrailerCountIsHonest(Process(cb, u, data).next)
    decreases |data|, Rank(u)
  {
    hide Step, ValidUnpacker, Rank, TrailerCountIsHonest;
    if data != [] {
      StepKeepsTrailerCount(cb, u, data);
      var s := Step(cb, u, data);
      if s.code == Ok {
        ProcessKeepsTrailerCount(cb, s.next, data[s.used..]);
      }
    }
  }

  /** A request is accepted exactly when its chunks leave the parser exhausted. */
  lemma {:induction false} RequestAcceptance(cb: Callbacks, u: Unpacker, chunks: seq<Bytes>)
    requires ValidUnpacker(u) && chunks != [] && u.inTrailer <= TRAILER_SIZE && TrailerCountIsHonest(u)
    ensures var fed := Feed(cb, u, chunks);
            var r := Request(cb, u, chunks);
            && (r.error.None? <==> fed.code in {Ok, ArchiveExhausted} && Exhausted(fed.next))
            && (r.error != Some(ChunkProcessingFailed) ==> r.parser == fed.next)
            && (r.error == Some(ChunkProcessingFailed) <==> fed.code !in {Ok, ArchiveExhausted})
    decreases |chunks|
  {
    hide Process, ValidUnpacker;
    ProcessNothing(cb, u);
    ProcessKeepsTrailerCount(cb, u, chunks[0]);
    ProcessExhausts(cb, u, chunks[0]);
    var p := Process(cb, u, chunks[0]);
    if |chunks| == 1 {
      assert chunks[1..] == [];
    } else if p.code in {Ok, ArchiveExhausted} {
      RequestAcceptance(cb, p.next, chunks[1..]);
    }
  }

  /**
   Acceptance is the grammar, however the bytes are cut into chunks (empty ones included): a
   download is accepted if and only if the concatenation of its chunks is well-formed members whose
   callbacks agree, followed by two zero blocks and then anything; and the callbacks have then seen
   exactly those members.
   */
  lemma {:induction false} AcceptanceIsTheGrammar(cb: Callbacks, chunks: seq<Bytes>)
    requires Additive(cb) && chunks != []
    ensures Request(cb, INITIAL, chunks).error.None? <==>
              exists ms :: IsArchiveOf(Concat(chunks), ms) && AgreesToAll(cb, [], ms)
    ensures forall ms :: IsArchiveOf(Concat(chunks), ms) && AgreesToAll(cb, [], ms) ==>
              Request(cb, INITIAL, chunks).parser.log == LoggedAll([], ms)
  {
    hide Process, Request, Feed, Additive, IsArchiveOf, AgreesToAll;
    var bytes := Concat(chunks);
    RequestAcceptance(cb, INITIAL, chunks);
    ChunksDoNotMatter(cb, INITIAL, chunks);
    ProcessExhausts(cb, INITIAL, bytes);
    if Process(cb, INITIAL, bytes).code == ArchiveExhausted {
      var ms := AcceptedIsArchive(cb, INITIAL, bytes);
    }
    forall ms | IsArchiveOf(bytes, ms) && AgreesToAll(cb, [], ms)
      ensures Process(cb, INITIAL, bytes).code == ArchiveExhausted
      ensures Process(cb, INITIAL, bytes).next.log == LoggedAll([], ms)
    {
      ArchiveOfAccepted(cb, bytes, ms);
    }
  }

  lemma {:induction false} ArchiveOfAccepted(cb: Callbacks, bytes: Bytes, ms: seq<Member>)
    requires IsArchiveOf(bytes, ms) && AgreesToAll(cb, [], ms)
    ensures Process(cb, INITIAL, bytes).code == ArchiveExhausted
    ensures Process(cb, INITIAL, bytes).next.log == LoggedAll([], ms)
  {
    hide Process;
    var archive := MembersBytes(ms) + Zeros(TRAILER_SIZE);
    var suffix := bytes[|archive|..];
    assert bytes == MembersBytes(ms) + Zeros(TRAILER_SIZE) + suffix;
    ArchiveAccepted(cb, INITIAL, ms, suffix);
  }

  // ---------------------------------------------------------------------------------------------
  // Alignment
  // ---------------------------------------------------------------------------------------------

  /** How far the parser is into the current block-aligned section. */
  function Offset(u: Unpacker): nat
    requires ValidUnpacker(u)
  {
    match u.state
    case ReadHeader => |u.header|
    case ReadData => u.inFile
    case ReadPadding => FileSize(u.header).value + u.inPadding
    case ReadTrailer => u.inTrailer
  }

  predicate SameBlockPosition(a: nat, b: nat) { a % BLOCK_SIZE == b % BLOCK_SIZE }

  lemma {:induction false} StepKeepsAlignment(cb: Callbacks, u: Unpacker, data: Bytes)
    requires ValidUnpacker(u) && data != []
    ensures var s := Step(cb, u, data);
            s.code == Ok ==> SameBlockPosition(Offset(u) + s.used, Offset(s.next))
  {
    hide FileSize, AllZero, Validate, RequiredPadding;
    if u.state in {ReadData, ReadPadding} && FileSize(u.header).Some? {
      PaddingAligns(FileSize(u.header).value);
    }
  }

  /**
   The section offset of every state keeps step with the number of bytes consumed, modulo the block
   size: headers, trailers and contents all start on block boundaries.
   */
  lemma {:induction false} BlockAlignment(cb: Callbacks, u: Unpacker, data: Bytes)
    requires ValidUnpacker(u)
    ensures var r := Process(cb, u, data);
            r.code == Ok ==> SameBlockPosition(Offset(u) + |data|, Offset(r.next))
    decreases |data|, Rank(u)
  {
    hide Step, ValidUnpacker, Rank, Offset, SameBlockPosition;
    if data == [] {
      assert SameBlockPosition(Offset(u), Offset(u)) by { PositionItself(Offset(u)); }
    } else {
      var s := Step(cb, u, data);
      if s.code == Ok {
        StepKeepsAlignment(cb, u, data);
        BlockAlignment(cb, s.next, data[s.used..]);
        if Process(cb, u, data).code == Ok {
          PositionsAdd(Offset(u), s.used, Offset(s.next), |data| - s.used);
          PositionsChain(Offset(u) + |data|, Offset(s.next) + (|data| - s.used), Offset(Process(cb, u, data).next));
        }
      }
    }
  }

  lemma {:induction false} PositionItself(a: nat)
    ensures SameBlockPosition(a, a)
  {
  }

  lemma {:induction false} PositionsAdd(a: nat, used: nat, b: nat, more: nat)
    requires SameBlockPosition(a + used, b)
    ensures SameBlockPosition(a + used + more, b + more)
  {
  }

  lemma {:induction false} PositionsChain(a: nat, b: nat, c: nat)
    requires SameBlockPosition(a, b) && SameBlockPosition(b, c)
    ensures SameBlockPosition(a, c)
  {
  }
}
