/** Whatever the buffer sizes and however short the reads, the packer streams exactly the archive. */
module PackTheorems {
  import opened CLib
  import opened UstarHeader
  import opened TarArchive
  import opened ZtarPack

  // ---------------------------------------------------------------------------------------------
  // Progress of one call, for any callbacks
  // ---------------------------------------------------------------------------------------------

  /**
   A call with at least a block of room either fails, or finds the archive finished, or stores
   something; and it leaves room unused only before a header that does not fit or at the end.
   */
  lemma {:induction false} CallMakesProgress(src: Source, p: Packer, size: nat)
    requires Honest(src) && ValidPacker(p) && size >= BLOCK_SIZE
    ensures var s := ReadStream(src, p, size);
            && (s.code == Ok ==>
                  && 0 < |s.out| <= size
                  && (|s.out| < size ==>
                        s.next.state.Done? || (s.next.state.WriteHeader? && size - |s.out| < BLOCK_SIZE)))
            && (s.code == ArchiveExhausted <==> p.state.Done?)
            && (s.code == ArchiveExhausted ==> s.out == [] && s.next == p)
  {
    hide ValidPacker, Step;
    var all := Fill(src, p, size);
    if !p.state.Done? && all.code == Ok {
      FillStores(src, p, size);
    }
  }

  lemma {:induction false} FillStores(src: Source, p: Packer, size: nat)
    requires Honest(src) && ValidPacker(p) && size >= BLOCK_SIZE
    requires !p.state.Done? && Fill(src, p, size).code == Ok
    ensures Fill(src, p, size).out != []
  {
    hide ValidPacker, Step;
    var s := Step(src, p, size);
    if s.out == [] {
      StepFromNextFile(src, p, size);
      var t := Step(src, s.next, size);
      assert t.out != [];
    }
  }

  lemma {:induction false} StepFromNextFile(src: Source, p: Packer, room: nat)
    requires Honest(src) && ValidPacker(p) && !Paused(p, room) && room >= BLOCK_SIZE
    requires Step(src, p, room).code == Ok && Step(src, p, room).out == []
    ensures p.state.NextFile? && Step(src, p, room).next.state in {WriteHeader, Trailer}
  {
  }

  // ---------------------------------------------------------------------------------------------
  // What is still to come
  // ---------------------------------------------------------------------------------------------

  /**
   The callbacks hand out `files`, each read returning some of what is left, in any portions, or (not
   `reliable`) failing or returning nothing; then there is no more file, or (not `complete`) the
   callback fails.
   */
  ghost predicate Serves(src: Source, files: seq<File>, complete: bool, reliable: bool) {
    && Honest(src)
    && (forall k: nat :: k < |files| ==> src.next(k) == HasNext(files[k].name, |files[k].data|))
    && src.next(|files|) == (if complete then NoMore else NextFailed)
    && (forall k: nat, at: nat, limit: nat, call: nat ::
          k < |files| && at < |files[k].data| && 0 < limit <= |files[k].data| - at
          ==> ServesPortion(src.read(k, at, limit, call), files[k].data, at)
              || (!reliable && src.read(k, at, limit, call) in {ReadFailed, Got([])}))
  }

  ghost predicate ServesPortion(r: Read, data: Bytes, at: nat) {
    r.Got? && r.data != [] && at + |r.data| <= |data| && r.data == data[at..at + |r.data|]
  }

  /** The file whose header, data or padding is being written. */
  ghost predicate Tracks(files: seq<File>, p: Packer) {
    match p.state
    case NextFile => p.asked <= |files|
    case Trailer | Done => p.asked == |files| + 1
    case _ =>
      && 0 < p.asked <= |files|
      && p.name == files[p.asked - 1].name && p.size == |files[p.asked - 1].data|
      && (!p.state.WriteHeader? ==> Packable(files[p.asked - 1]))
  }

  /** Everything the packer has yet to emit. */
  ghost function Pending(files: seq<File>, complete: bool, p: Packer): Bytes
    requires ValidPacker(p) && Tracks(files, p)
  {
    match p.state
    case NextFile => Stream(files[p.asked..], complete)
    case WriteHeader => Stream(files[p.asked - 1..], complete)
    case Data =>
      files[p.asked - 1].data[p.written..] + Zeros(RequiredPadding(p.size)) + Stream(files[p.asked..], complete)
    case Padding => Zeros(RequiredPadding(p.size) - p.padded) + Stream(files[p.asked..], complete)
    case Trailer => Zeros(TRAILER_SIZE - p.trailer)
    case Done => []
  }

  /** The first file not yet behind the packer. */
  ghost function Ahead(p: Packer): nat
  {
    if p.state.WriteHeader? && p.asked > 0 then p.asked - 1 else p.asked
  }

  /** The code that ends the stream: that of the first file that cannot be packed, if any. */
  ghost function FinalCode(files: seq<File>, complete: bool): ResultCode {
    if files == [] then if complete then ArchiveExhausted else UserCbkError
    else
      match PackHeader(files[0].name, |files[0].data|)
      case Refused(code) => code
      case Header(_) => FinalCode(files[1..], complete)
  }

  ghost function CodeAhead(files: seq<File>, complete: bool, p: Packer): ResultCode
    requires Tracks(files, p)
  {
    if p.state in {Trailer, Done} then ArchiveExhausted
    else FinalCode(files[Ahead(p)..], complete)
  }

  lemma {:induction false} FinalCodeMeaning(files: seq<File>, complete: bool)
    ensures FinalCode(files, complete) == ArchiveExhausted <==> complete && AllPackable(files)
    ensures FinalCode(files, complete) in {ArchiveExhausted, InvalidArgs, InternalError, UserCbkError}
  {
    hide PackHeader, PackableName, PackableSize;
    if files != [] {
      PackHeaderAccepts(files[0].name, |files[0].data|);
      FinalCodeMeaning(files[1..], complete);
      assert forall i :: 0 < i < |files| ==> files[i] == files[1..][i - 1];
      assert forall i :: 0 <= i < |files[1..]| ==> files[1..][i] == files[i + 1];
    }
  }

  // ---------------------------------------------------------------------------------------------
  // Every step emits the next bytes of the stream
  // ---------------------------------------------------------------------------------------------

  /** What a step must do, for files `files`. */
  ghost predicate Advances(files: seq<File>, complete: bool, reliable: bool, p: Packer, s: Stepped)
    requires ValidPacker(p) && Tracks(files, p)
  {
    if s.code == Ok then
      && ValidPacker(s.next) && Tracks(files, s.next)
      && Pending(files, complete, p) == s.out + Pending(files, complete, s.next)
      && CodeAhead(files, complete, s.next) == CodeAhead(files, complete, p)
    else
      Explained(files, complete, reliable, p, s.code)
  }

  /** A failure is the one that ends the stream, or that of a read. */
  ghost predicate Explained(files: seq<File>, complete: bool, reliable: bool, p: Packer, code: ResultCode)
    requires Tracks(files, p)
  {
    code == CodeAhead(files, complete, p) || (!reliable && code in {UserCbkError, TruncatedFile})
  }

  /** What each callback failure is reported as: an error of the callback, or a file shorter than announced. */
  lemma {:induction false} CallbackFailures(src: Source, p: Packer, room: nat)
    requires Honest(src) && ValidPacker(p) && !Paused(p, room)
    ensures var code := Step(src, p, room).code;
            && (p.state.NextFile? ==> code == if src.next(p.asked).NextFailed? then UserCbkError else Ok)
            && (p.state.Data? ==>
                  var r := src.read(p.asked - 1, p.written, Min(room, p.size - p.written), p.readCalls);
                  code == if r.ReadFailed? then UserCbkError else if r.data == [] then TruncatedFile else Ok)
            && (p.state.Padding? || p.state.Trailer? ==> code == Ok)
  {
    hide PackHeader, RequiredPadding;
  }

  lemma {:induction false} NextFileAdvances(src: Source, files: seq<File>, complete: bool, reliable: bool, p: Packer)
    requires Serves(src, files, complete, reliable) && ValidPacker(p) && Tracks(files, p) && p.state.NextFile?
    ensures Advances(files, complete, reliable, p, NextFileStep(src, p))
  {
    hide Stream, FinalCode;
    var s := NextFileStep(src, p);
    if p.asked < |files| {
      assert [] + Pending(files, complete, s.next) == Pending(files, complete, p);
    } else {
      assert files[p.asked..] == [];
      EndOfFiles(complete);
    }
  }

  lemma {:induction false} EndOfFiles(complete: bool)
    ensures Stream([], complete) == if complete then Zeros(TRAILER_SIZE) else []
    ensures FinalCode([], complete) == if complete then ArchiveExhausted else UserCbkError
  {
  }

  /** The stream of a packable file: its header, then the rest of its entry and of the stream. */
  lemma {:induction false} StreamOfEntry(files: seq<File>, complete: bool)
    requires files != [] && Packable(files[0])
    ensures var f := files[0];
            var h := PackHeader(f.name, |f.data|);
            && h.Header?
            && Stream(files, complete) ==
                 h.block + (if f.data == [] then Stream(files[1..], complete)
                            else f.data + Zeros(RequiredPadding(|f.data|)) + Stream(files[1..], complete))
  {
    hide PackHeader, PackableName, PackableSize;
    var f := files[0];
    PackHeaderAccepts(f.name, |f.data|);
    var block := PackHeader(f.name, |f.data|).block;
    var padding, rest := Zeros(RequiredPadding(|f.data|)), Stream(files[1..], complete);
    assert (block + f.data + padding) + rest == block + (f.data + padding + rest);
    if f.data == [] {
      assert f.data + padding + rest == rest;
    }
  }

  lemma {:induction false} HeaderAdvances(files: seq<File>, complete: bool, reliable: bool, p: Packer)
    requires ValidPacker(p) && Tracks(files, p) && p.state.WriteHeader?
    ensures Advances(files, complete, reliable, p, HeaderStep(p))
  {
    hide PackHeader, PackableName, PackableSize, RequiredPadding, Zeros, Stream;
    var left := files[p.asked - 1..];
    PackHeaderAccepts(p.name, p.size);
    assert left[1..] == files[p.asked..];
    if Packable(left[0]) {
      StreamOfEntry(left, complete);
      assert left[0].data[0..] == left[0].data;
    }
  }

  /** The callback delivers the next portion of the current file, or fails. */
  lemma {:induction false} DataStepMoves(src: Source, files: seq<File>, complete: bool, reliable: bool, p: Packer, room: nat)
    requires Serves(src, files, complete, reliable) && ValidPacker(p) && Tracks(files, p) && p.state.Data? && room > 0
    ensures var s := DataStep(src, p, room);
            var data := files[p.asked - 1].data;
            var end := p.written + |s.out|;
            if s.code != Ok then !reliable && s.code in {UserCbkError, TruncatedFile}
            else
              && p.written < end <= |data| && s.out == data[p.written..end]
              && s.next.name == p.name && s.next.size == p.size && s.next.asked == p.asked && s.next.written == end
              && s.next.state == (if end < |data| then Data else if RequiredPadding(p.size) > 0 then Padding else NextFile)
              && (s.next.state.Padding? ==> s.next.padded == 0)
  {
    hide Packable, RequiredPadding, Honest;
    var limit := Min(room, p.size - p.written);
    var r := src.read(p.asked - 1, p.written, limit, p.readCalls);
    assert ServesPortion(r, files[p.asked - 1].data, p.written) || (!reliable && r in {ReadFailed, Got([])});
  }

  lemma {:induction false} DataAdvances(src: Source, files: seq<File>, complete: bool, reliable: bool, p: Packer, room: nat)
    requires Serves(src, files, complete, reliable) && ValidPacker(p) && Tracks(files, p) && p.state.Data? && room > 0
    ensures Advances(files, complete, reliable, p, DataStep(src, p, room))
  {
    hide Stream, FinalCode, Packable, RequiredPadding, Zeros, DataStep, Serves, ValidName, Pending;
    DataStepMoves(src, files, complete, reliable, p, room);
    var s := DataStep(src, p, room);
    if s.code != Ok { return; }
    assert ValidPacker(s.next) && Tracks(files, s.next);
    var data, end := files[p.asked - 1].data, p.written + |s.out|;
    var padding, rest := Zeros(RequiredPadding(p.size)), Stream(files[p.asked..], complete);
    SplitTail(data, p.written, s.out, padding, rest);
    PendingData(files, complete, p);
    if end < |data| {
      PendingData(files, complete, s.next);
    } else {
      PendingAfterData(files, complete, s.next);
      if |padding| == 0 { assert padding + rest == rest; }
    }
  }

  lemma {:induction false} PendingData(files: seq<File>, complete: bool, p: Packer)
    requires ValidPacker(p) && Tracks(files, p) && p.state.Data?
    ensures Pending(files, complete, p)
         == files[p.asked - 1].data[p.written..] + Zeros(RequiredPadding(p.size)) + Stream(files[p.asked..], complete)
  {
    hide Stream, RequiredPadding, Packable;
  }

  lemma {:induction false} PendingAfterData(files: seq<File>, complete: bool, p: Packer)
    requires ValidPacker(p) && Tracks(files, p)
    ensures p.state.Padding? && p.padded == 0 ==>
              Pending(files, complete, p) == Zeros(RequiredPadding(p.size)) + Stream(files[p.asked..], complete)
    ensures p.state.NextFile? ==> Pending(files, complete, p) == Stream(files[p.asked..], complete)
  {
    hide Stream, RequiredPadding, Packable;
  }

  lemma {:induction false} SplitTail(data: Bytes, at: nat, portion: Bytes, padding: Bytes, rest: Bytes)
    requires at + |portion| <= |data| && portion == data[at..at + |portion|]
    ensures var end := at + |portion|;
            && data[at..] + padding + rest == portion + (data[end..] + padding + rest)
            && (end == |data| ==> data[at..] + padding + rest == portion + (padding + rest))
  {
    assert data[at..] == portion + data[at + |portion|..];
    if at + |portion| == |data| {
      assert data[at..] == portion;
    }
  }

  lemma {:induction false} PaddingAdvances(files: seq<File>, complete: bool, reliable: bool, p: Packer, room: nat)
    requires ValidPacker(p) && Tracks(files, p) && p.state.Padding? && room > 0
    ensures Advances(files, complete, reliable, p, PaddingStep(p, room))
  {
    hide Stream, FinalCode, Packable;
    var s := PaddingStep(p, room);
    var left := RequiredPadding(p.size) - p.padded;
    assert Zeros(left) == s.out + Zeros(left - |s.out|);
  }

  lemma {:induction false} TrailerAdvances(files: seq<File>, complete: bool, reliable: bool, p: Packer, room: nat)
    requires ValidPacker(p) && Tracks(files, p) && p.state.Trailer? && room > 0
    ensures Advances(files, complete, reliable, p, TrailerStep(p, room))
  {
    hide Stream, FinalCode, Packable;
    var s := TrailerStep(p, room);
    var left := TRAILER_SIZE - p.trailer;
    assert Zeros(left) == s.out + Zeros(left - |s.out|);
  }

  lemma {:induction false} StepAdvances(src: Source, files: seq<File>, complete: bool, reliable: bool, p: Packer, room: nat)
    requires Serves(src, files, complete, reliable) && ValidPacker(p) && Tracks(files, p) && !Paused(p, room)
    ensures Advances(files, complete, reliable, p, Step(src, p, room))
  {
    hide Advances;
    match p.state
    case NextFile => NextFileAdvances(src, files, complete, reliable, p);
    case WriteHeader => HeaderAdvances(files, complete, reliable, p);
    case Data => DataAdvances(src, files, complete, reliable, p, room);
    case Padding => PaddingAdvances(files, complete, reliable, p, room);
    case Trailer => TrailerAdvances(files, complete, reliable, p, room);
  }

  lemma {:induction false} FillAdvances(src: Source, files: seq<File>, complete: bool, reliable: bool, p: Packer, room: nat)
    requires Serves(src, files, complete, reliable) && ValidPacker(p) && Tracks(files, p)
    ensures Advances(files, complete, reliable, p, Fill(src, p, room))
    decreases room, Rank(p)
  {
    hide Step, ValidPacker, Pending, CodeAhead, Tracks;
    if Paused(p, room) {
      assert [] + Pending(files, complete, p) == Pending(files, complete, p);
    } else {
      StepAdvances(src, files, complete, reliable, p, room);
      var s := Step(src, p, room);
      if s.code == Ok {
        FillAdvances(src, files, complete, reliable, s.next, room - |s.out|);
        var rest := Fill(src, s.next, room - |s.out|);
        if rest.code == Ok {
          assert s.out + (rest.out + Pending(files, complete, rest.next))
              == (s.out + rest.out) + Pending(files, complete, rest.next);
        }
      }
    }
  }

  // ---------------------------------------------------------------------------------------------
  // Whole runs
  // ---------------------------------------------------------------------------------------------

  /** A caller that reads with the given buffer sizes and stops at the first code other than Ok. */
  function Calls(src: Source, p: Packer, sizes: seq<nat>): Stepped
    requires Honest(src) && ValidPacker(p)
    decreases |sizes|
  {
    if sizes == [] then Stepped(p, [], Ok)
    else
      var s := ReadStream(src, p, sizes[0]);
      if s.code != Ok then s.(out := [])
      else
        var rest := Calls(src, s.next, sizes[1..]);
        rest.(out := s.out + rest.out)
  }

  lemma {:induction false} ReadStreamAdvances(src: Source, files: seq<File>, complete: bool, reliable: bool, p: Packer, size: nat)
    requires Serves(src, files, complete, reliable) && ValidPacker(p) && Tracks(files, p) && size >= BLOCK_SIZE
    ensures var s := ReadStream(src, p, size);
            && (s.code != ArchiveExhausted ==> Advances(files, complete, reliable, p, s))
            && (s.code == ArchiveExhausted ==> CodeAhead(files, complete, p) == ArchiveExhausted && Pending(files, complete, p) == [])
  {
    hide Fill;
    CallMakesProgress(src, p, size);
    FillAdvances(src, files, complete, reliable, p, size);
  }

  predicate BigEnough(sizes: seq<nat>) {
    forall i :: 0 <= i < |sizes| ==> sizes[i] >= BLOCK_SIZE
  }

  lemma {:induction false} CallsAdvance(src: Source, files: seq<File>, complete: bool, reliable: bool, p: Packer, sizes: seq<nat>)
    requires Serves(src, files, complete, reliable) && ValidPacker(p) && Tracks(files, p) && BigEnough(sizes)
    ensures var r := Calls(src, p, sizes);
            && (r.code == Ok ==>
                  && ValidPacker(r.next) && Tracks(files, r.next)
                  && Pending(files, complete, p) == r.out + Pending(files, complete, r.next)
                  && |r.out| >= |sizes|)
            && (r.code != Ok ==> Explained(files, complete, reliable, p, r.code) && r.out <= Pending(files, complete, p))
            && (r.code == ArchiveExhausted ==> r.out == Pending(files, complete, p))
    decreases |sizes|
  {
    hide Fill, ValidPacker, ReadStream, Pending, Tracks, CodeAhead;
    if sizes == [] {
      assert [] + Pending(files, complete, p) == Pending(files, complete, p);
    } else {
      CallMakesProgress(src, p, sizes[0]);
      ReadStreamAdvances(src, files, complete, reliable, p, sizes[0]);
      var s := ReadStream(src, p, sizes[0]);
      if s.code == Ok {
        CallsAdvance(src, files, complete, reliable, s.next, sizes[1..]);
        var rest := Calls(src, s.next, sizes[1..]);
        if rest.code == Ok {
          assert s.out + (rest.out + Pending(files, complete, rest.next))
              == (s.out + rest.out) + Pending(files, complete, rest.next);
        }
      }
    }
  }

  /**
   The packed stream does not depend on the buffers: any run reports a prefix of `Stream(files,
   complete)`, and it ends after at most one call more than there are bytes. When it ends exhausted, the
   files really end, every one can be packed, and it has reported exactly the archive. With reliable
   reads it ends exhausted if and only if that is so, failing otherwise with the code of the first file
   that cannot be packed, or of the callback that failed.
   */
  lemma {:induction false} OutputIndependentOfBuffering(
    src: Source, files: seq<File>, complete: bool, reliable: bool, sizes: seq<nat>)
    requires Serves(src, files, complete, reliable) && BigEnough(sizes)
    ensures var r := Calls(src, FRESH, sizes);
            && r.out <= Stream(files, complete)
            && (|sizes| > |Stream(files, complete)| ==> r.code != Ok)
            && (r.code == ArchiveExhausted ==> complete && AllPackable(files) && r.out == Archive(files))
            && (r.code != Ok && reliable ==> r.code == FinalCode(files, complete))
            && (r.code !in {Ok, ArchiveExhausted} && reliable ==> !(complete && AllPackable(files)))
  {
    hide Fill, Calls;
    FinalCodeMeaning(files, complete);
    assert files[0..] == files;
    CallsAdvance(src, files, complete, reliable, FRESH, sizes);
  }
}
