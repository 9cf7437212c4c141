/** Unpacking undoes packing, for every list of files, every buffering and every chunking. */
module CodecRoundTrip {
  import opened CLib
  import opened UstarHeader
  import opened TarArchive
  import opened ZtarPack
  import opened PackTheorems
  import U = ZtarUnpack
  import opened ChunkIndependence
  import opened ArchiveGrammar
  import opened TarDownload

  // ---------------------------------------------------------------------------------------------
  // A packed archive is in the grammar
  // ---------------------------------------------------------------------------------------------

  function MemberOf(f: File): (m: Member)
    requires Packable(f)
    ensures m.data == f.data && PackHeader(f.name, |f.data|) == Header(m.header)
  {
    PackHeaderAccepts(f.name, |f.data|);
    Member(PackHeader(f.name, |f.data|).block, f.data)
  }

  function MembersOf(files: seq<File>): (ms: seq<Member>)
    requires AllPackable(files)
    ensures |ms| == |files|
  {
    seq(|files|, i requires 0 <= i < |files| => MemberOf(files[i]))
  }

  /** The names and sizes the platform can represent: C strings and `size_t`. */
  predicate Representable(f: File) {
    ValidName(f.name) && |f.data| < SIZE_MODULUS
  }

  predicate AllRepresentable(files: seq<File>) {
    forall i :: 0 <= i < |files| ==> Representable(files[i])
  }

  lemma {:induction false} MemberReadsBack(f: File)
    requires Packable(f) && Representable(f)
    ensures var h := MemberOf(f).header;
            && Validate(h) == Ok && !AllZero(h)
            && FileSize(h) == Some(|f.data|) && TypeOf(h) == RegularFile
            && (FileName(h) == f.name <==> !LosesLeadingSlash(f.name))
  {
    hide PackHeader, PackableName, PackableSize, Validate, AllZero, FileName, TypeOf, FileSize;
    PackHeaderAccepts(f.name, |f.data|);
    HeaderReadsBack(f.name, |f.data|);
  }

  lemma {:induction false} MemberOfIsWellFormed(f: File)
    requires Packable(f) && Representable(f)
    ensures WellFormed(MemberOf(f)) && MemberBytes(MemberOf(f)) == EntryBytes(f)
  {
    hide PackHeader, Packable, Representable, Validate, AllZero, FileSize;
    MemberReadsBack(f);
  }

  lemma {:induction false} MembersAreWellFormed(files: seq<File>)
    requires AllPackable(files) && AllRepresentable(files)
    ensures AllWellFormed(MembersOf(files))
  {
    hide Packable, Representable, WellFormed, MemberOf;
    forall i | 0 <= i < |files| ensures WellFormed(MembersOf(files)[i]) {
      MemberOfIsWellFormed(files[i]);
    }
  }

  lemma {:induction false} ArchiveIsItsMembers(files: seq<File>)
    requires AllPackable(files) && AllRepresentable(files)
    ensures Archive(files) == MembersBytes(MembersOf(files)) + Zeros(TRAILER_SIZE)
  {
    hide Packable, Representable, MemberBytes, EntryBytes, MemberOf, Zeros, PackHeader, RequiredPadding;
    if files == [] {
      assert MembersBytes([]) + Zeros(TRAILER_SIZE) == Zeros(TRAILER_SIZE);
    } else {
      var ms, tail := MembersOf(files), MembersOf(files[1..]);
      assert Packable(files[0]) && Representable(files[0]);
      MemberOfIsWellFormed(files[0]);
      ArchiveIsItsMembers(files[1..]);
      assert ms[1..] == tail && ms[0] == MemberOf(files[0]);
      assert EntryBytes(files[0]) + (MembersBytes(tail) + Zeros(TRAILER_SIZE))
          == EntryBytes(files[0]) + MembersBytes(tail) + Zeros(TRAILER_SIZE);
    }
  }

  lemma {:induction false} ArchiveIsInTheGrammar(files: seq<File>)
    requires AllPackable(files) && AllRepresentable(files)
    ensures IsArchiveOf(Archive(files), MembersOf(files))
    ensures Archive(files) == MembersBytes(MembersOf(files)) + Zeros(TRAILER_SIZE)
  {
    hide MembersOf, Archive, MembersBytes, AllWellFormed, AllPackable, AllRepresentable;
    MembersAreWellFormed(files);
    ArchiveIsItsMembers(files);
  }

  // ---------------------------------------------------------------------------------------------
  // The grammar is unambiguous
  // ---------------------------------------------------------------------------------------------

  lemma {:induction false} FirstBlock(bytes: Bytes, ms: seq<Member>)
    requires IsArchiveOf(bytes, ms)
    ensures |bytes| >= BLOCK_SIZE
    ensures ms == [] <==> AllZero(bytes[..BLOCK_SIZE])
    ensures ms != [] ==> bytes[..BLOCK_SIZE] == ms[0].header
  {
    hide Validate, FileSize;
    var whole := MembersBytes(ms) + Zeros(TRAILER_SIZE);
    assert bytes[..BLOCK_SIZE] == whole[..BLOCK_SIZE];
    if ms == [] {
      assert whole == Zeros(TRAILER_SIZE);
    } else {
      assert WellFormed(ms[0]);
      assert whole == ms[0].header + (ms[0].data + Zeros(RequiredPadding(|ms[0].data|)) + (MembersBytes(ms[1..]) + Zeros(TRAILER_SIZE)));
    }
  }

  lemma {:induction false} DropMember(bytes: Bytes, ms: seq<Member>)
    requires IsArchiveOf(bytes, ms) && ms != []
    ensures |bytes| >= |MemberBytes(ms[0])|
    ensures bytes[BLOCK_SIZE..][..|ms[0].data|] == ms[0].data
    ensures IsArchiveOf(bytes[|MemberBytes(ms[0])|..], ms[1..])
  {
    hide WellFormed;
    var first := MemberBytes(ms[0]);
    var others := MembersBytes(ms[1..]) + Zeros(TRAILER_SIZE);
    assert MembersBytes(ms) + Zeros(TRAILER_SIZE) == first + others;
    var whole := first + others;
    assert bytes[..|whole|] == whole;
    assert bytes[..|first|] == whole[..|first|] == first;
    assert bytes[|first|..][..|others|] == bytes[..|whole|][|first|..] == others;
    assert bytes[BLOCK_SIZE..][..|ms[0].data|] == bytes[..|first|][BLOCK_SIZE..][..|ms[0].data|];
    assert first == ms[0].header + (ms[0].data + Zeros(RequiredPadding(|ms[0].data|)));
  }

  lemma {:induction false} GrammarIsUnambiguous(bytes: Bytes, ms: seq<Member>, ns: seq<Member>)
    requires IsArchiveOf(bytes, ms) && IsArchiveOf(bytes, ns)
    ensures ms == ns
    decreases |ms|
  {
    hide AllZero, MembersBytes, MemberBytes, Validate, FileSize;
    FirstBlock(bytes, ms);
    FirstBlock(bytes, ns);
    if ms != [] {
      assert WellFormed(ms[0]) && WellFormed(ns[0]);
      DropMember(bytes, ms);
      DropMember(bytes, ns);
      assert ms[0] == ns[0];
      GrammarIsUnambiguous(bytes[|MemberBytes(ms[0])|..], ms[1..], ns[1..]);
      assert ms == [ms[0]] + ms[1..] && ns == [ns[0]] + ns[1..];
    }
  }

  // ---------------------------------------------------------------------------------------------
  // Round trip
  // ---------------------------------------------------------------------------------------------

  /** The callbacks saw this file: its name, its announced size, its contents, and its end. */
  predicate Received(e: U.Entry, f: File) {
    && FileName(e.header) == f.name && FileSize(e.header) == Some(|f.data|)
    && TypeOf(e.header) == RegularFile && e.data == f.data && e.ended
  }

  predicate ReceivedAll(log: seq<U.Entry>, files: seq<File>) {
    |log| == |files| && forall i :: 0 <= i < |files| ==> Received(log[i], files[i])
  }

  predicate KeepsName(f: File) { !LosesLeadingSlash(f.name) }

  lemma {:induction false} LoggedAllIsMap(log: seq<U.Entry>, ms: seq<Member>)
    ensures LoggedAll(log, ms) == log + seq(|ms|, i requires 0 <= i < |ms| => U.Entry(ms[i].header, ms[i].data, true))
    decreases |ms|
  {
    var tail := seq(|ms|, i requires 0 <= i < |ms| => U.Entry(ms[i].header, ms[i].data, true));
    if ms == [] {
      assert log + tail == log;
    } else {
      LoggedAllIsMap(Logged(log, ms[0]), ms[1..]);
      assert Logged(log, ms[0]) + tail[1..] == log + tail;
      assert tail[1..] == seq(|ms[1..]|, i requires 0 <= i < |ms[1..]| => U.Entry(ms[1..][i].header, ms[1..][i].data, true));
    }
  }

  /** Packed members report exactly their files, names included unless one loses a leading slash. */
  lemma {:induction false} MembersReportFiles(files: seq<File>)
    requires AllPackable(files) && AllRepresentable(files)
    ensures ReceivedAll(LoggedAll([], MembersOf(files)), files) <==>
              forall i :: 0 <= i < |files| ==> KeepsName(files[i])
  {
    hide PackHeader, FileName, FileSize, TypeOf, Packable, Representable, MemberOf, LosesLeadingSlash;
    var ms := MembersOf(files);
    LoggedAllIsMap([], ms);
    var log := LoggedAll([], ms);
    forall i | 0 <= i < |files| ensures Received(log[i], files[i]) <==> KeepsName(files[i]) {
      MemberReadsBack(files[i]);
      assert ms[i] == MemberOf(files[i]);
    }
  }

  /**
   Pack any files the platform can represent, with any callbacks that serve them, any buffer sizes
   and any short or failing reads; cut the bytes that come out into any chunks; feed them to any parser whose
   callbacks do not care how data is cut and agree to the members. If packing ran to the end, the
   download is accepted, and the callbacks saw the same names, sizes, types and contents in the same
   order if and only if no name was cut at a leading slash.
   */
  lemma {:induction false} PackThenUnpack(
    src: Source, files: seq<File>, complete: bool, reliable: bool, sizes: seq<nat>, cb: U.Callbacks, chunks: seq<Bytes>)
    requires Serves(src, files, complete, reliable) && BigEnough(sizes)
    requires Calls(src, FRESH, sizes).code == ArchiveExhausted
    requires chunks != [] && Concat(chunks) == Calls(src, FRESH, sizes).out
    requires Additive(cb)
    requires AllPackable(files) ==> AgreesToAll(cb, [], MembersOf(files))
    ensures AllPackable(files)
    ensures Request(cb, U.INITIAL, chunks).error.None?
    ensures ReceivedAll(Request(cb, U.INITIAL, chunks).parser.log, files) <==>
              forall i :: 0 <= i < |files| ==> KeepsName(files[i])
  {
    hide Calls, Request, Additive, AgreesToAll, ReceivedAll;
    OutputIndependentOfBuffering(src, files, complete, reliable, sizes);
    ServedFilesAreRepresentable(src, files, complete, reliable);
    ArchiveIsInTheGrammar(files);
    AcceptanceIsTheGrammar(cb, chunks);
    MembersReportFiles(files);
  }

  lemma {:induction false} ServedFilesAreRepresentable(src: Source, files: seq<File>, complete: bool, reliable: bool)
    requires Serves(src, files, complete, reliable)
    ensures AllRepresentable(files)
  {
    forall i | 0 <= i < |files| ensures Representable(files[i]) {
      assert src.next(i) == HasNext(files[i].name, |files[i].data|);
    }
  }

  lemma {:induction false} PrefixOfPrefix(a: Bytes, b: Bytes, c: Bytes)
    requires a <= b <= c
    ensures a <= c
  {
    assert c[..|a|] == c[..|b|][..|a|];
  }

  /** The archive is exhausted exactly at its last byte: no proper prefix is, and none is refused. */
  lemma {:induction false} ExhaustedAtTheLastByte(files: seq<File>, cb: U.Callbacks, n: nat)
    requires AllPackable(files) && AllRepresentable(files) && n <= |Archive(files)|
    requires Additive(cb) && AgreesToAll(cb, [], MembersOf(files))
    ensures U.Process(cb, U.INITIAL, Archive(files)[..n]).code
         == if n == |Archive(files)| then ArchiveExhausted else Ok
  {
    hide U.Process, Additive, AgreesToAll, Packable, Representable, MembersOf, Archive, MembersBytes;
    var whole := Archive(files);
    var front, back := whole[..n], whole[n..];
    ArchiveIsInTheGrammar(files);
    ArchiveOfAccepted(cb, whole, MembersOf(files));
    assert front + back == whole;
    TwoChunksAreOne(cb, U.INITIAL, front, back);
    if n == |whole| {
      assert front == whole;
    } else if U.Process(cb, U.INITIAL, front).code == ArchiveExhausted {
      var ms := AcceptedIsArchive(cb, U.INITIAL, front);
      PrefixOfPrefix(MembersBytes(ms) + Zeros(TRAILER_SIZE), front, whole);
      GrammarIsUnambiguous(whole, ms, MembersOf(files));
    }
  }
}
