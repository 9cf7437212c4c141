/**
 The resumable archive printer: `ztar_pack_read_stream` fills whatever buffer it is given and picks
 up where it stopped on the next call.
 */
module ZtarPack {
  import opened CLib
  import opened UstarHeader

  // ---------------------------------------------------------------------------------------------
  // The user's callbacks
  // ---------------------------------------------------------------------------------------------

  datatype Next = NoMore | HasNext(name: Bytes, size: nat) | NextFailed
  datatype Read = ReadFailed | Got(data: Bytes)

  /**
   The callbacks of one packing session: the outcome of the k-th `get_next_file`, and that of
   `read_file_data` for file k at an offset with a given limit. The last argument numbers the read
   calls, so the same question may be answered differently each time.
   */
  datatype Source = Source(next: nat -> Next, read: (nat, nat, nat, nat) -> Read)

  /** What the callback interface demands: C strings that fit the buffer, reads within the limit. */
  ghost predicate Honest(src: Source) {
    && (forall k: nat :: src.next(k).HasNext? ==> ValidName(src.next(k).name) && src.next(k).size < SIZE_MODULUS)
    && (forall k: nat, at: nat, limit: nat, call: nat ::
          src.read(k, at, limit, call).Got? ==> |src.read(k, at, limit, call).data| <= limit)
  }

  predicate ValidName(name: Bytes) { NulFree(name) && |name| < FILE_NAME_BUFF_SIZE }

  // ---------------------------------------------------------------------------------------------
  // One step of the state machine, and one call, as functions
  // ---------------------------------------------------------------------------------------------

  datatype PackState = NextFile | WriteHeader | Data | Padding | Trailer | Done

  /** The fields of `ztar_pack_t`, and how often each callback has been used. */
  datatype Packer = Packer(
    state: PackState, name: Bytes, size: nat, written: nat, padded: nat, trailer: nat,
    asked: nat, readCalls: nat)

  const FRESH: Packer := Packer(NextFile, [], 0, 0, 0, 0, 0, 0)

  predicate ValidPacker(p: Packer) {
    && ValidName(p.name)
    && (p.state.WriteHeader? ==> p.written == 0)
    && (p.state.Data? ==> p.written < p.size)
    && (p.state.Padding? ==> p.padded < RequiredPadding(p.size))
    && (p.state.Trailer? ==> p.trailer < TRAILER_SIZE)
    && (p.state in {WriteHeader, Data, Padding} ==> p.asked > 0)
  }

  datatype Stepped = Stepped(next: Packer, out: Bytes, code: ResultCode)

  function NextFileStep(src: Source, p: Packer): Stepped {
    var p' := p.(asked := p.asked + 1);
    match src.next(p.asked)
    case NextFailed => Stepped(p', [], UserCbkError)
    case NoMore => Stepped(p'.(trailer := 0, state := Trailer), [], Ok)
    case HasNext(name, size) =>
      Stepped(p'.(name := name, size := size, written := 0, state := WriteHeader), [], Ok)
  }

  function HeaderStep(p: Packer): Stepped {
    match PackHeader(p.name, p.size)
    case Refused(code) => Stepped(p, [], code)
    case Header(block) => Stepped(p.(state := if p.size == 0 then NextFile else Data), block, Ok)
  }

  function DataStep(src: Source, p: Packer, room: nat): Stepped
    requires p.state.Data? && ValidPacker(p)
  {
    var p' := p.(readCalls := p.readCalls + 1);
    match src.read(p.asked - 1, p.written, Min(room, p.size - p.written), p.readCalls)
    case ReadFailed => Stepped(p', [], UserCbkError)
    case Got(data) =>
      if data == [] && room > 0 then Stepped(p', [], TruncatedFile)
      else
        var written := p.written + |data|;
        if written != p.size then Stepped(p'.(written := written), data, Ok)
        else if RequiredPadding(p.size) > 0 then
          Stepped(p'.(written := written, padded := 0, state := Padding), data, Ok)
        else Stepped(p'.(written := written, state := NextFile), data, Ok)
  }

  function PaddingStep(p: Packer, room: nat): Stepped
    requires p.state.Padding? && ValidPacker(p)
  {
    var total := RequiredPadding(p.size);
    var n := Min(room, total - p.padded);
    var p' := p.(padded := p.padded + n);
    Stepped(if p'.padded == total then p'.(state := NextFile) else p', Zeros(n), Ok)
  }

  function TrailerStep(p: Packer, room: nat): Stepped
    requires p.state.Trailer? && ValidPacker(p)
  {
    var n := Min(room, TRAILER_SIZE - p.trailer);
    var p' := p.(trailer := p.trailer + n);
    Stepped(if p'.trailer == TRAILER_SIZE then p'.(state := Done) else p', Zeros(n), Ok)
  }

  /** A header is only started when it fits the room that is left. */
  predicate Paused(p: Packer, room: nat) {
    room == 0 || p.state.Done? || (p.state.WriteHeader? && room < BLOCK_SIZE)
  }

  function Step(src: Source, p: Packer, room: nat): (s: Stepped)
    requires Honest(src) && ValidPacker(p) && !Paused(p, room)
    ensures |s.out| <= room
    ensures s.code == Ok ==> ValidPacker(s.next)
    ensures s.code == Ok ==> |s.out| > 0 || (p.state.NextFile? && !s.next.state.NextFile?)
    ensures s.code != ArchiveExhausted
  {
    match p.state
    case NextFile => NextFileStep(src, p)
    case WriteHeader => HeaderStep(p)
    case Data => DataStep(src, p, room)
    case Padding => PaddingStep(p, room)
    case Trailer => TrailerStep(p, room)
  }

  /** The only steps that emit nothing leave the state in which they are taken. */
  function Rank(p: Packer): nat { if p.state.NextFile? then 1 else 0 }

  /** The loop of one call. On a failure, the bytes already stored are not reported. */
  function Fill(src: Source, p: Packer, room: nat): (s: Stepped)
    requires Honest(src) && ValidPacker(p)
    ensures |s.out| <= room
    ensures s.code == Ok ==> ValidPacker(s.next) && Paused(s.next, room - |s.out|)
    ensures s.code != ArchiveExhausted
    decreases room, Rank(p)
  {
    if Paused(p, room) then Stepped(p, [], Ok)
    else
      var s := Step(src, p, room);
      if s.code != Ok then s.(out := [])
      else
        var rest := Fill(src, s.next, room - |s.out|);
        Stepped(rest.next, if rest.code == Ok then s.out + rest.out else [], rest.code)
  }

  /** One call on an initialized stream. */
  function ReadStream(src: Source, p: Packer, size: nat): (s: Stepped)
    requires Honest(src) && ValidPacker(p)
    ensures |s.out| <= size
    ensures s.code in {Ok, ArchiveExhausted} ==> ValidPacker(s.next)
    ensures size < 512 ==> s == Stepped(p, [], InsufficientBuff)
    ensures s.code == ArchiveExhausted ==> s.out == [] && s.next.state.Done?
    ensures s.code == Ok && s.out == [] ==> !s.next.state.Done?
  {
    if size < BLOCK_SIZE then Stepped(p, [], InsufficientBuff)
    else
      var s := Fill(src, p, size);
      if s.code == Ok && s.next.state.Done? && s.out == [] then s.(code := ArchiveExhausted) else s
  }

  /** A call started at `first` with `size` bytes of room has stored `done` and is now at `p`. */
  ghost predicate Continues(src: Source, first: Packer, size: nat, done: Bytes, p: Packer) {
    && Honest(src) && ValidPacker(first) && ValidPacker(p) && |done| <= size
    && var all := Fill(src, first, size);
       var rest := Fill(src, p, size - |done|);
       all == if rest.code == Ok then rest.(out := done + rest.out) else rest
  }

  lemma {:induction false} ContinuesFromStart(src: Source, first: Packer, size: nat)
    requires Honest(src) && ValidPacker(first)
    ensures Continues(src, first, size, [], first)
  {
    var all := Fill(src, first, size);
    assert [] + all.out == all.out;
  }

  lemma {:induction false} ContinuesByStep(src: Source, first: Packer, size: nat, done: Bytes, p: Packer)
    requires Continues(src, first, size, done, p) && !Paused(p, size - |done|)
    ensures var s := Step(src, p, size - |done|);
            && (s.code == Ok ==> Continues(src, first, size, done + s.out, s.next))
            && (s.code != Ok ==> Fill(src, first, size) == s.(out := []))
  {
    hide Step, ValidPacker;
    var s := Step(src, p, size - |done|);
    if s.code == Ok {
      var rest := Fill(src, s.next, size - |done| - |s.out|);
      assert done + (s.out + rest.out) == (done + s.out) + rest.out;
    }
  }

  lemma {:induction false} ContinuesToPause(src: Source, first: Packer, size: nat, done: Bytes, p: Packer)
    requires Continues(src, first, size, done, p) && Paused(p, size - |done|)
    ensures Fill(src, first, size) == Stepped(p, done, Ok)
  {
    assert done + [] == done;
  }

  // ---------------------------------------------------------------------------------------------
  // The packer object
  // ---------------------------------------------------------------------------------------------

  /** `ztar_pack_t`, with the position of its callbacks behind the user data pointer. */
  class PackStream {
    var initialized: bool
    var state: PackState
    var currentFileName: Bytes
    var expectedFileSize: nat
    var bytesWrittenForFile: nat
    var bytesProcessedInPadding: nat
    var bytesProcessedInTrailer: nat
    const callbacks: Source
    var filesAsked: nat
    var readCalls: nat

    ghost function Value(): Packer
      reads this
    {
      Packer(state, currentFileName, expectedFileSize, bytesWrittenForFile, bytesProcessedInPadding,
             bytesProcessedInTrailer, filesAsked, readCalls)
    }

    ghost predicate Valid()
      reads this
    {
      Honest(callbacks) && (initialized ==> ValidPacker(Value()))
    }

    /** Zeroed memory: not initialized yet. */
    constructor (callbacks: Source)
      requires Honest(callbacks)
      ensures Valid() && !initialized && this.callbacks == callbacks
    {
      this.callbacks := callbacks;
      initialized := false;
      state := NextFile;
      currentFileName := [];
      expectedFileSize, bytesWrittenForFile := 0, 0;
      bytesProcessedInPadding, bytesProcessedInTrailer := 0, 0;
      filesAsked, readCalls := 0, 0;
    }

    method Init()
      requires Valid()
      modifies this
      ensures Valid() && initialized && Value() == FRESH
    {
      initialized := true;
      state := NextFile;
      currentFileName := [];
      expectedFileSize, bytesWrittenForFile := 0, 0;
      bytesProcessedInPadding, bytesProcessedInTrailer := 0, 0;
      filesAsked, readCalls := 0, 0;
    }

    method HandleNextFile() returns (code: ResultCode)
      requires Valid() && initialized && state.NextFile?
      modifies this
      ensures initialized && Stepped(Value(), [], code) == NextFileStep(callbacks, old(Value()))
    {
      var answer := callbacks.next(filesAsked);
      filesAsked := filesAsked + 1;
      match answer
      case NextFailed => code := UserCbkError;
      case HasNext(name, size) =>
        currentFileName, expectedFileSize := name, size;
        bytesWrittenForFile := 0;
        state := WriteHeader;
        code := Ok;
      case NoMore =>
        bytesProcessedInTrailer := 0;
        state := Trailer;
        code := Ok;
    }

    method HandleHeader(out: array<Byte>, at: nat) returns (code: ResultCode, written: nat)
      requires Valid() && initialized && state.WriteHeader? && at + BLOCK_SIZE <= out.Length
      modifies this, out
      ensures initialized && at + written <= out.Length
      ensures Stepped(Value(), out[at..at + written], code) == HeaderStep(old(Value()))
      ensures out[..at] == old(out[..at])
    {
      hide PackHeader;
      var header, packed := BuildHeader(currentFileName, expectedFileSize);
      if packed != Ok { return packed, 0; }
      CopyInto(out, at, header[..]);
      state := if expectedFileSize == 0 then NextFile else Data;
      code, written := Ok, BLOCK_SIZE;
    }

    method HandleData(out: array<Byte>, at: nat) returns (code: ResultCode, written: nat)
      requires Valid() && initialized && state.Data? && at < out.Length
      modifies this, out
      ensures initialized && at + written <= out.Length
      ensures Stepped(Value(), out[at..at + written], code) == DataStep(callbacks, old(Value()), out.Length - at)
      ensures out[..at] == old(out[..at])
    {
      var bytesToRead := Min(out.Length - at, expectedFileSize - bytesWrittenForFile);
      var answer := callbacks.read(filesAsked - 1, bytesWrittenForFile, bytesToRead, readCalls);
      readCalls := readCalls + 1;
      if answer.ReadFailed? { return UserCbkError, 0; }
      var data := answer.data;
      if |data| == 0 && bytesToRead > 0 { return TruncatedFile, 0; }
      CopyInto(out, at, data);
      bytesWrittenForFile := bytesWrittenForFile + |data|;
      if bytesWrittenForFile == expectedFileSize {
        if RequiredPadding(expectedFileSize) > 0 {
          bytesProcessedInPadding := 0;
          state := Padding;
        } else {
          state := NextFile;
        }
      }
      code, written := Ok, |data|;
    }

    method HandlePadding(out: array<Byte>, at: nat) returns (code: ResultCode, written: nat)
      requires Valid() && initialized && state.Padding? && at < out.Length
      modifies this, out
      ensures initialized && at + written <= out.Length
      ensures Stepped(Value(), out[at..at + written], code) == PaddingStep(old(Value()), out.Length - at)
      ensures out[..at] == old(out[..at])
    {
      var total := RequiredPadding(expectedFileSize);
      written := Min(out.Length - at, total - bytesProcessedInPadding);
      CopyInto(out, at, Zeros(written));
      bytesProcessedInPadding := bytesProcessedInPadding + written;
      if bytesProcessedInPadding == total {
        state := NextFile;
      }
      code := Ok;
    }

    method HandleTrailer(out: array<Byte>, at: nat) returns (code: ResultCode, written: nat)
      requires Valid() && initialized && state.Trailer? && at < out.Length
      modifies this, out
      ensures initialized && at + written <= out.Length
      ensures Stepped(Value(), out[at..at + written], code) == TrailerStep(old(Value()), out.Length - at)
      ensures out[..at] == old(out[..at])
    {
      written := Min(out.Length - at, TRAILER_SIZE - bytesProcessedInTrailer);
      CopyInto(out, at, Zeros(written));
      bytesProcessedInTrailer := bytesProcessedInTrailer + written;
      if bytesProcessedInTrailer == TRAILER_SIZE {
        state := Done;
      }
      code := Ok;
    }

    /** The switch inside the loop: one step, storing at `at`. */
    method RunStep(out: array<Byte>, at: nat) returns (code: ResultCode, written: nat)
      requires Valid() && initialized && at <= out.Length && !Paused(Value(), out.Length - at)
      modifies this, out
      ensures initialized && at + written <= out.Length
      ensures Stepped(Value(), out[at..at + written], code) == Step(callbacks, old(Value()), out.Length - at)
      ensures out[..at] == old(out[..at])
    {
      hide NextFileStep, HeaderStep, DataStep, PaddingStep, TrailerStep;
      written := 0;
      match state {
        case NextFile => code := HandleNextFile();
        case WriteHeader => code, written := HandleHeader(out, at);
        case Data => code, written := HandleData(out, at);
        case Padding => code, written := HandlePadding(out, at);
        case Trailer => code, written := HandleTrailer(out, at);
      }
    }

    /** `ztar_pack_read_stream`: one call, storing into `out` and reporting how much. */
    method Read(out: array<Byte>) returns (code: ResultCode, bytesWritten: nat)
      requires Valid()
      modifies this, out
      ensures bytesWritten <= out.Length
      ensures !old(initialized) ==> code == InvalidArgs && Value() == old(Value()) && !initialized && Valid()
      ensures old(initialized) ==>
                && initialized
                && var s := ReadStream(callbacks, old(Value()), out.Length);
                && code == s.code && Value() == s.next
                && (code in {Ok, ArchiveExhausted} ==> Valid() && out[..bytesWritten] == s.out)
    {
      hide Step, ValidPacker, Fill, Continues;
      bytesWritten := 0;
      if !initialized { return InvalidArgs, 0; }
      if out.Length < BLOCK_SIZE { return InsufficientBuff, 0; }
      ghost var first := Value();
      ContinuesFromStart(callbacks, first, out.Length);
      while bytesWritten < out.Length && !state.Done?
        invariant initialized && Valid() && bytesWritten <= out.Length
        invariant Continues(callbacks, first, out.Length, out[..bytesWritten], Value())
        decreases out.Length - bytesWritten, Rank(Value())
      {
        if state.WriteHeader? && out.Length - bytesWritten < BLOCK_SIZE {
          ContinuesToPause(callbacks, first, out.Length, out[..bytesWritten], Value());
          return Ok, bytesWritten;
        }
        ContinuesByStep(callbacks, first, out.Length, out[..bytesWritten], Value());
        ghost var before, done := Value(), out[..bytesWritten];
        var stepCode, stepWritten := RunStep(out, bytesWritten);
        assert out[..bytesWritten + stepWritten] == done + out[bytesWritten..bytesWritten + stepWritten];
        if stepCode != Ok { return stepCode, bytesWritten; }
        bytesWritten := bytesWritten + stepWritten;
      }
      ContinuesToPause(callbacks, first, out.Length, out[..bytesWritten], Value());
      code := if state.Done? && bytesWritten == 0 then ArchiveExhausted else Ok;
    }
  }
}
