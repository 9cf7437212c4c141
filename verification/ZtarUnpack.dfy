/**
 The resumable archive parser: `ztar_unpack_process` is fed the archive in arbitrary chunks and
 reports files through callbacks.
 */
module ZtarUnpack {
  import opened CLib
  import opened UstarHeader

  // ---------------------------------------------------------------------------------------------
  // Callbacks and the log of their invocations
  // ---------------------------------------------------------------------------------------------

  /** One file as the callbacks saw it: its header, the data so far, and whether it was ended. */
  datatype Entry = Entry(header: Block, data: Bytes, ended: bool)

  /**
   The user's callbacks. Each answers "success?" and may depend on everything reported before it.
   The log merges adjacent data events of one file.
   */
  datatype Callbacks = Callbacks(
    onStart: (seq<Entry>, Block) -> bool,
    onData: (seq<Entry>, Bytes) -> bool,
    onEnd: seq<Entry> -> bool)

  function Started(log: seq<Entry>, header: Block): seq<Entry> {
    log + [Entry(header, [], false)]
  }

  function Appended(log: seq<Entry>, data: Bytes): (r: seq<Entry>)
    ensures |r| == |log|
  {
    if log == [] then [] else
      var last := log[|log| - 1];
      log[|log| - 1 := last.(data := last.data + data)]
  }

  function Ended(log: seq<Entry>): (r: seq<Entry>)
    ensures |r| == |log|
  {
    if log == [] then [] else log[|log| - 1 := log[|log| - 1].(ended := true)]
  }

  // ---------------------------------------------------------------------------------------------
  // One step of the state machine, and one call, as functions
  // ---------------------------------------------------------------------------------------------

  datatype UnpackState = ReadHeader | ReadData | ReadPadding | ReadTrailer

  /** The fields of `ztar_unpack_t`; `header` holds the bytes of the current header received so far. */
  datatype Unpacker = Unpacker(
    state: UnpackState, header: Bytes, inFile: nat, inPadding: nat, inTrailer: nat, log: seq<Entry>)

  const INITIAL: Unpacker := Unpacker(ReadHeader, [], 0, 0, 0, [])

  predicate ValidUnpacker(u: Unpacker) {
    && |u.header| <= BLOCK_SIZE
    && (!u.state.ReadHeader? ==> |u.header| == BLOCK_SIZE)
    && (u.state.ReadData? ==>
          u.log != [] && (FileSize(u.header).Some? ==> u.inFile <= FileSize(u.header).value))
    && (u.state.ReadPadding? ==>
          FileSize(u.header).Some? && u.inPadding < RequiredPadding(FileSize(u.header).value))
    && (u.state.ReadTrailer? ==> u.inTrailer <= TRAILER_SIZE)
  }

  datatype Stepped = Stepped(next: Unpacker, used: nat, code: ResultCode)

  /** A complete header: the end of the archive, a refusal, or the start of a file. */
  function HeaderComplete(cb: Callbacks, u: Unpacker, h: Block, used: nat): (s: Stepped)
    requires u.state.ReadHeader?
    ensures ValidUnpacker(s.next) && s.used == used
    ensures s.code == Ok ==> Rank(s.next) < 2
  {
    hide FileSize, Validate;
    var u' := u.(header := h);
    if AllZero(h) then Stepped(u'.(inTrailer := BLOCK_SIZE, state := ReadTrailer), used, Ok)
    else if Validate(h) != Ok then Stepped(u', used, Validate(h))
    else
      Stepped(u'.(inFile := 0, state := ReadData, log := Started(u.log, h)), used,
              if cb.onStart(u.log, h) then Ok else UserCbkError)
  }

  function HeaderStep(cb: Callbacks, u: Unpacker, data: Bytes): (s: Stepped)
    requires u.state.ReadHeader? && ValidUnpacker(u) && data != []
    ensures ValidUnpacker(s.next) && s.used <= |data|
    ensures s.code == Ok ==> s.used > 0 || Rank(s.next) < Rank(u)
  {
    hide HeaderComplete;
    var n := Min(|data|, BLOCK_SIZE - |u.header|);
    var h := u.header + data[..n];
    if |h| < BLOCK_SIZE then Stepped(u.(header := h), n, Ok) else HeaderComplete(cb, u, h, n)
  }

  /** All the data of the current file has arrived. */
  function FileComplete(cb: Callbacks, u: Unpacker, size: nat, used: nat): (s: Stepped)
    requires u.state.ReadData? && ValidUnpacker(u) && FileSize(u.header) == Some(size)
    ensures ValidUnpacker(s.next) && s.used == used
    ensures s.code == Ok ==> Rank(s.next) == 0
  {
    hide FileSize, RequiredPadding;
    var u' := u.(log := Ended(u.log));
    if !cb.onEnd(u.log) then Stepped(u', used, UserCbkError)
    else if RequiredPadding(size) == 0 then Stepped(u'.(header := [], state := ReadHeader), used, Ok)
    else Stepped(u'.(inPadding := 0, state := ReadPadding), used, Ok)
  }

  function DataStep(cb: Callbacks, u: Unpacker, data: Bytes): (s: Stepped)
    requires u.state.ReadData? && ValidUnpacker(u) && data != []
    ensures ValidUnpacker(s.next) && s.used <= |data|
    ensures s.code == Ok ==> s.used > 0 || Rank(s.next) < Rank(u)
  {
    hide FileComplete, FileSize;
    match FileSize(u.header)
    case None => Stepped(u, 0, InvalidArchive)
    case Some(size) =>
      var n := Min(|data|, size - u.inFile);
      var logged := u.(log := if n == 0 then u.log else Appended(u.log, data[..n]));
      if n != 0 && !cb.onData(u.log, data[..n]) then Stepped(logged, n, UserCbkError)
      else
        var u' := logged.(inFile := u.inFile + n);
        if u'.inFile == size then FileComplete(cb, u', size, n) else Stepped(u', n, Ok)
  }

  function PaddingStep(u: Unpacker, data: Bytes): (s: Stepped)
    requires u.state.ReadPadding? && ValidUnpacker(u) && data != []
    ensures ValidUnpacker(s.next) && s.used <= |data|
    ensures s.code == Ok ==> s.used > 0
  {
    hide FileSize, RequiredPadding;
    var required := RequiredPadding(FileSize(u.header).value);
    var n := Min(|data|, required - u.inPadding);
    if !AllZero(data[..n]) then Stepped(u, 0, InvalidArchive)
    else if u.inPadding + n == required then
      Stepped(u.(inPadding := u.inPadding + n, header := [], state := ReadHeader), n, Ok)
    else Stepped(u.(inPadding := u.inPadding + n), n, Ok)
  }

  function TrailerStep(u: Unpacker, data: Bytes): (s: Stepped)
    requires u.state.ReadTrailer? && ValidUnpacker(u) && data != []
    ensures ValidUnpacker(s.next) && s.used <= |data|
    ensures s.code == Ok ==> s.used > 0
  {
    if u.inTrailer == TRAILER_SIZE then Stepped(u, 0, ArchiveExhausted)
    else
      var n := Min(|data|, TRAILER_SIZE - u.inTrailer);
      if !AllZero(data[..n]) then Stepped(u, 0, InvalidArchive)
      else
        var u' := u.(inTrailer := u.inTrailer + n);
        Stepped(u', n, if u'.inTrailer == TRAILER_SIZE then ArchiveExhausted else Ok)
  }

  /**
   Steps that use up nothing: a header already complete, and a file whose data is complete (an empty
   file is only ended when more bytes arrive). Each of them leads to a lower rank.
   */
  function Rank(u: Unpacker): nat {
    if u.state.ReadHeader? && |u.header| == BLOCK_SIZE then 2
    else if u.state.ReadData? then 1
    else 0
  }

  function Step(cb: Callbacks, u: Unpacker, data: Bytes): (s: Stepped)
    requires ValidUnpacker(u) && data != []
    ensures s.used <= |data|
    ensures ValidUnpacker(s.next)
    ensures s.code == Ok ==> s.used > 0 || Rank(s.next) < Rank(u)
  {
    hide HeaderStep, DataStep, PaddingStep, TrailerStep, ValidUnpacker, Rank;
    match u.state
    case ReadHeader => HeaderStep(cb, u, data)
    case ReadData => DataStep(cb, u, data)
    case ReadPadding => PaddingStep(u, data)
    case ReadTrailer => TrailerStep(u, data)
  }

  datatype Processed = Processed(next: Unpacker, code: ResultCode)

  /** One call: steps until the chunk is used up or a step does not return Ok. */
  function Process(cb: Callbacks, u: Unpacker, data: Bytes): (r: Processed)
    requires ValidUnpacker(u)
    ensures ValidUnpacker(r.next)
    decreases |data|, Rank(u)
  {
    if data == [] then Processed(u, Ok)
    else
      var s := Step(cb, u, data);
      if s.code != Ok then Processed(s.next, s.code) else Process(cb, s.next, data[s.used..])
  }

  // ---------------------------------------------------------------------------------------------
  // The parser object
  // ---------------------------------------------------------------------------------------------

  /** `ztar_unpack_t`, with the log of callback invocations behind the user data pointer. */
  class UnpackStream {
    var initialized: bool
    var state: UnpackState
    const currentHeader: array<Byte>
    var bytesProcessedInHeader: nat
    var bytesProcessedInFile: nat
    var bytesProcessedInPadding: nat
    var bytesProcessedInTrailer: nat
    const callbacks: Callbacks
    var log: seq<Entry>

    ghost predicate Valid()
      reads this, currentHeader
    {
      && currentHeader.Length == BLOCK_SIZE && bytesProcessedInHeader <= BLOCK_SIZE
      && ValidUnpacker(Value())
    }

    ghost function Value(): Unpacker
      requires bytesProcessedInHeader <= currentHeader.Length
      reads this, currentHeader
    {
      Unpacker(state, currentHeader[..bytesProcessedInHeader], bytesProcessedInFile,
               bytesProcessedInPadding, bytesProcessedInTrailer, log)
    }

    /** Zeroed memory: not initialized yet. */
    constructor (callbacks: Callbacks)
      ensures Valid() && Value() == INITIAL && !initialized
      ensures fresh(currentHeader) && this.callbacks == callbacks
    {
      this.callbacks := callbacks;
      initialized := false;
      state := ReadHeader;
      currentHeader := new Byte[BLOCK_SIZE](i => NUL);
      bytesProcessedInHeader, bytesProcessedInFile := 0, 0;
      bytesProcessedInPadding, bytesProcessedInTrailer := 0, 0;
      log := [];
    }

    method Init()
      requires Valid()
      modifies this
      ensures Valid() && Value() == INITIAL && initialized
    {
      initialized := true;
      state := ReadHeader;
      bytesProcessedInHeader, bytesProcessedInFile := 0, 0;
      bytesProcessedInPadding, bytesProcessedInTrailer := 0, 0;
      log := [];
      assert currentHeader[..0] == [];
    }

    method ProcessHeader(data: Bytes) returns (code: ResultCode, used: nat)
      requires Valid() && state.ReadHeader? && data != []
      modifies this, currentHeader
      ensures bytesProcessedInHeader <= BLOCK_SIZE && initialized == old(initialized)
      ensures Stepped(Value(), used, code) == HeaderStep(callbacks, old(Value()), data)
    {
      hide FileSize;
      used := Min(|data|, BLOCK_SIZE - bytesProcessedInHeader);
      CopyInto(currentHeader, bytesProcessedInHeader, data[..used]);
      bytesProcessedInHeader := bytesProcessedInHeader + used;
      assert currentHeader[..bytesProcessedInHeader] == old(currentHeader[..bytesProcessedInHeader]) + data[..used];
      assert bytesProcessedInHeader == BLOCK_SIZE ==> currentHeader[..bytesProcessedInHeader] == currentHeader[..];
      if bytesProcessedInHeader < BLOCK_SIZE { return Ok, used; }
      ghost var u := old(Value());
      code := CompleteHeader(u, used);
    }

    /** The header buffer is full. */
    method CompleteHeader(ghost u: Unpacker, ghost used: nat) returns (code: ResultCode)
      requires currentHeader.Length == BLOCK_SIZE == bytesProcessedInHeader && u.state.ReadHeader?
      requires Value() == u.(header := currentHeader[..])
      modifies this
      ensures bytesProcessedInHeader <= BLOCK_SIZE && initialized == old(initialized)
      ensures Stepped(Value(), used, code) == HeaderComplete(callbacks, u, currentHeader[..], used)
    {
      hide FileSize, Validate, AllZero, OverlappingCompareIsZero;
      var h: Block := currentHeader[..];
      assert currentHeader[..bytesProcessedInHeader] == h;
      OverlappingCompareFinds(h);
      if OverlappingCompareIsZero(h) {
        bytesProcessedInTrailer := BLOCK_SIZE;
        state := ReadTrailer;
        return Ok;
      }
      code := ValidateHeader(currentHeader);
      if code != Ok { return; }
      bytesProcessedInFile := 0;
      state := ReadData;
      var accepted := callbacks.onStart(log, h);
      log := Started(log, h);
      code := if accepted then Ok else UserCbkError;
    }

    method ProcessData(data: Bytes) returns (code: ResultCode, used: nat)
      requires Valid() && state.ReadData? && data != []
      modifies this
      ensures bytesProcessedInHeader <= BLOCK_SIZE && initialized == old(initialized)
      ensures Stepped(Value(), used, code) == DataStep(callbacks, old(Value()), data)
    {
      hide FileSize, Ended, Appended;
      assert currentHeader[..bytesProcessedInHeader] == currentHeader[..];
      var fileSize := FileSize(currentHeader[..]);
      if fileSize.None? { return InvalidArchive, 0; }
      used := Min(|data|, fileSize.value - bytesProcessedInFile);
      if used != 0 {
        var accepted := callbacks.onData(log, data[..used]);
        log := Appended(log, data[..used]);
        if !accepted { return UserCbkError, used; }
      }
      bytesProcessedInFile := bytesProcessedInFile + used;
      code := Ok;
      if bytesProcessedInFile == fileSize.value {
        var accepted := callbacks.onEnd(log);
        log := Ended(log);
        if !accepted { return UserCbkError, used; }
        if RequiredPadding(fileSize.value) == 0 {
          bytesProcessedInHeader := 0;
          state := ReadHeader;
        } else {
          bytesProcessedInPadding := 0;
          state := ReadPadding;
        }
      }
    }

    method ProcessPadding(data: Bytes) returns (code: ResultCode, used: nat)
      requires Valid() && state.ReadPadding? && data != []
      modifies this
      ensures bytesProcessedInHeader <= BLOCK_SIZE && initialized == old(initialized)
      ensures Stepped(Value(), used, code) == PaddingStep(old(Value()), data)
    {
      hide FileSize;
      assert currentHeader[..bytesProcessedInHeader] == currentHeader[..];
      var required := RequiredPadding(FileSize(currentHeader[..]).value);
      used := Min(|data|, required - bytesProcessedInPadding);
      OverlappingCompareFinds(data[..used]);
      if !OverlappingCompareIsZero(data[..used]) { return InvalidArchive, 0; }
      bytesProcessedInPadding := bytesProcessedInPadding + used;
      if bytesProcessedInPadding == required {
        bytesProcessedInHeader := 0;
        state := ReadHeader;
      }
      code := Ok;
    }

    method ProcessTrailer(data: Bytes) returns (code: ResultCode, used: nat)
      requires Valid() && state.ReadTrailer? && data != []
      modifies this
      ensures bytesProcessedInHeader <= BLOCK_SIZE && initialized == old(initialized)
      ensures Stepped(Value(), used, code) == TrailerStep(old(Value()), data)
    {
      hide FileSize;
      if bytesProcessedInTrailer == TRAILER_SIZE { return ArchiveExhausted, 0; }
      used := Min(|data|, TRAILER_SIZE - bytesProcessedInTrailer);
      OverlappingCompareFinds(data[..used]);
      if !OverlappingCompareIsZero(data[..used]) { return InvalidArchive, 0; }
      bytesProcessedInTrailer := bytesProcessedInTrailer + used;
      code := if bytesProcessedInTrailer == TRAILER_SIZE then ArchiveExhausted else Ok;
    }

    /** The switch inside the loop. */
    method RunStep(data: Bytes) returns (code: ResultCode, used: nat)
      requires Valid() && data != []
      modifies this, currentHeader
      ensures Valid() && initialized == old(initialized)
      ensures Stepped(Value(), used, code) == Step(callbacks, old(Value()), data)
    {
      hide HeaderStep, DataStep, PaddingStep, TrailerStep, FileSize;
      match state {
        case ReadHeader => code, used := ProcessHeader(data);
        case ReadData => code, used := ProcessData(data);
        case ReadPadding => code, used := ProcessPadding(data);
        case ReadTrailer => code, used := ProcessTrailer(data);
      }
    }

    /** `ztar_unpack_process`. */
    method ProcessChunk(data: Bytes) returns (code: ResultCode)
      requires Valid()
      modifies this, currentHeader
      ensures Valid() && initialized == old(initialized)
      ensures Processed(Value(), code) == Process(callbacks, old(Value()), data)
    {
      hide Step, ValidUnpacker;
      var offset := 0;
      while offset < |data|
        invariant offset <= |data| && Valid() && initialized == old(initialized)
        invariant Process(callbacks, old(Value()), data) == Process(callbacks, Value(), data[offset..])
        decreases |data| - offset, Rank(Value())
      {
        ghost var rest := data[offset..];
        var stepCode, used := RunStep(data[offset..]);
        if stepCode != Ok { return stepCode; }
        assert rest[used..] == data[offset + used..];
        offset := offset + used;
      }
      code := Ok;
    }
  }
}
