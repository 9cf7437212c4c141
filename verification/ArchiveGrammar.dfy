/** The language the parser accepts: well-formed members, then two zero blocks. */
module ArchiveGrammar {
  import opened CLib
  import opened UstarHeader
  import opened ZtarUnpack
  import opened ChunkIndependence

  /** A header block and the contents it announces. */
  datatype Member = Member(header: Block, data: Bytes)

  predicate WellFormed(m: Member) {
    && !AllZero(m.header) && Validate(m.header) == Ok
    && FileSize(m.header) == Some(|m.data|)
  }

  predicate AllWellFormed(ms: seq<Member>) {
    forall i :: 0 <= i < |ms| ==> WellFormed(ms[i])
  }

  function MemberBytes(m: Member): Bytes {
    m.header + m.data + Zeros(RequiredPadding(|m.data|))
  }

  function MembersBytes(ms: seq<Member>): Bytes {
    if ms == [] then [] else MemberBytes(ms[0]) + MembersBytes(ms[1..])
  }

  /** `bytes` is the archive of `ms`, possibly followed by bytes that are never looked at. */
  ghost predicate IsArchiveOf(bytes: Bytes, ms: seq<Member>) {
    AllWellFormed(ms) && MembersBytes(ms) + Zeros(1024) <= bytes
  }

  /** The callbacks agree to a file that arrives in one piece. */
  predicate Agrees(cb: Callbacks, log: seq<Entry>, m: Member) {
    && cb.onStart(log, m.header)
    && (m.data != [] ==> cb.onData(Started(log, m.header), m.data))
    && cb.onEnd(log + [Entry(m.header, m.data, false)])
  }

  function Logged(log: seq<Entry>, m: Member): seq<Entry> {
    log + [Entry(m.header, m.data, true)]
  }

  predicate AgreesToAll(cb: Callbacks, log: seq<Entry>, ms: seq<Member>)
    decreases |ms|
  {
    ms == [] || (Agrees(cb, log, ms[0]) && AgreesToAll(cb, Logged(log, ms[0]), ms[1..]))
  }

  function LoggedAll(log: seq<Entry>, ms: seq<Member>): seq<Entry>
    decreases |ms|
  {
    if ms == [] then log else LoggedAll(Logged(log, ms[0]), ms[1..])
  }

  // ---------------------------------------------------------------------------------------------
  // Between members
  // ---------------------------------------------------------------------------------------------

  /** The parser is about to read the first byte of a header. */
  predicate AtHeader(u: Unpacker) { u.state.ReadHeader? && u.header == [] }

  function InData(u: Unpacker, h: Block): Unpacker {
    u.(state := ReadData, header := h, inFile := 0, log := Started(u.log, h))
  }

  /** The state after a whole member, once the next byte is there. */
  function AfterMember(u: Unpacker, m: Member): Unpacker {
    u.(state := ReadHeader, header := [], inFile := |m.data|, log := Logged(u.log, m),
       inPadding := if RequiredPadding(|m.data|) == 0 then u.inPadding else RequiredPadding(|m.data|))
  }

  /** The state in which the data of `m` is complete. */
  function DataDone(u: Unpacker, m: Member): Unpacker {
    if RequiredPadding(|m.data|) == 0 then AfterMember(u, m)
    else AfterMember(u, m).(state := ReadPadding, header := m.header, inPadding := 0)
  }

  /** From a header boundary, only a non-zero, valid header that the callback agrees to starts a file. */
  lemma {:induction false} HeaderBlockStep(cb: Callbacks, u: Unpacker, bytes: Bytes)
    requires ValidUnpacker(u) && AtHeader(u) && bytes != []
    ensures Step(cb, u, bytes).code != ArchiveExhausted
    ensures var s := Step(cb, u, bytes);
            if |bytes| < BLOCK_SIZE then
              s.code == Ok && s.used == |bytes| && !Exhausted(s.next)
            else
              var h := bytes[..BLOCK_SIZE];
              if AllZero(h) then
                s == Stepped(u.(header := h, inTrailer := BLOCK_SIZE, state := ReadTrailer), BLOCK_SIZE, Ok)
              else if Validate(h) == Ok && cb.onStart(u.log, h) then
                s == Stepped(InData(u, h), BLOCK_SIZE, Ok)
              else
                s.code == if Validate(h) != Ok then Validate(h) else UserCbkError
  {
    hide FileSize, AllZero, Validate;
    assert u.header + bytes[..Min(|bytes|, BLOCK_SIZE)] == bytes[..Min(|bytes|, BLOCK_SIZE)];
    ValidateCodes(bytes[..Min(|bytes|, BLOCK_SIZE)]);
  }

  lemma {:induction false} ValidateCodes(h: Bytes)
    ensures |h| == BLOCK_SIZE ==> Validate(h) != ArchiveExhausted
  {
  }

  /** The data phase of a file, all of whose data is there. */
  lemma {:induction false} DataPhase(cb: Callbacks, u: Unpacker, m: Member, rest: Bytes)
    requires ValidUnpacker(u) && AtHeader(u) && FileSize(m.header) == Some(|m.data|)
    requires m.data + rest != []
    ensures var in0 := InData(u, m.header);
            ValidUnpacker(in0) &&
            var s := Step(cb, in0, m.data + rest);
            && s.used == |m.data|
            && s.code == (if (m.data == [] || cb.onData(in0.log, m.data))
                             && cb.onEnd(u.log + [Entry(m.header, m.data, false)]) then Ok else UserCbkError)
            && (s.code == Ok ==>
                  s.next == DataDone(u, m))
  {
    hide FileSize, RequiredPadding;
    assert (m.data + rest)[..|m.data|] == m.data;
    assert [] + m.data == m.data;
    assert Appended(Started(u.log, m.header), m.data) == u.log + [Entry(m.header, m.data, false)];
    assert Ended(u.log + [Entry(m.header, m.data, false)]) == Logged(u.log, m);
  }

  lemma {:induction false} PaddingPhase(cb: Callbacks, u: Unpacker, m: Member, padding: Bytes, rest: Bytes)
    requires ValidUnpacker(u) && AtHeader(u) && FileSize(m.header) == Some(|m.data|)
    requires |padding| == RequiredPadding(|m.data|) > 0
    ensures ValidUnpacker(DataDone(u, m)) &&
            Step(cb, DataDone(u, m), padding + rest) ==
              if AllZero(padding) then Stepped(AfterMember(u, m), |padding|, Ok)
              else Stepped(DataDone(u, m), 0, InvalidArchive)
  {
    hide FileSize, RequiredPadding, AllZero;
    assert (padding + rest)[..|padding|] == padding;
  }

  /** A header whose size field holds no number is let through, and its data refused when more bytes come. */
  lemma {:induction false} SizelessFileIsRefused(cb: Callbacks, u: Unpacker, h: Block, rest: Bytes)
    requires ValidUnpacker(u) && AtHeader(u) && FileSize(h) == None && rest != []
    ensures ValidUnpacker(InData(u, h)) && Step(cb, InData(u, h), rest).code == InvalidArchive
  {
    hide FileSize;
  }

  /** A whole member followed by anything is consumed, and the log grows by it. */
  lemma {:induction false} MemberIsConsumed(cb: Callbacks, u: Unpacker, m: Member, rest: Bytes)
    requires ValidUnpacker(u) && AtHeader(u) && WellFormed(m) && Agrees(cb, u.log, m) && rest != []
    ensures ValidUnpacker(AfterMember(u, m)) && AtHeader(AfterMember(u, m))
    ensures Process(cb, u, MemberBytes(m) + rest) == Process(cb, AfterMember(u, m), rest)
  {
    hide FileSize, AllZero, Validate, RequiredPadding, Step;
    var padding := Zeros(RequiredPadding(|m.data|));
    var bytes := MemberBytes(m) + rest;
    var body := m.data + (padding + rest);
    assert bytes == m.header + body;
    HeaderBlockStep(cb, u, bytes);
    assert bytes[..BLOCK_SIZE] == m.header && bytes[BLOCK_SIZE..] == body;
    DataPhase(cb, u, m, padding + rest);
    assert body[|m.data|..] == padding + rest;
    if RequiredPadding(|m.data|) == 0 {
      assert padding + rest == rest;
    } else {
      PaddingPhase(cb, u, m, padding, rest);
      AllZeroOfZeros(|padding|);
      assert (padding + rest)[|padding|..] == rest;
      ProcessTwoSteps(cb, InData(u, m.header), body, rest);
    }
  }

  lemma {:induction false} AllZeroOfZeros(n: nat)
    ensures AllZero(Zeros(n))
  {
  }

  lemma {:induction false} ProcessTwoSteps(cb: Callbacks, u: Unpacker, data: Bytes, rest: Bytes)
    requires ValidUnpacker(u) && data != []
    requires Step(cb, u, data).code == Ok && data[Step(cb, u, data).used..] != []
    ensures var s := Step(cb, u, data);
            var t := Step(cb, s.next, data[s.used..]);
            t.code == Ok ==> Process(cb, u, data) == Process(cb, t.next, data[s.used..][t.used..])
  {
    hide Step, ValidUnpacker;
  }

  // ---------------------------------------------------------------------------------------------
  // Completeness: archives are accepted
  // ---------------------------------------------------------------------------------------------

  lemma {:induction false} TrailerStepAt(cb: Callbacks, u: Unpacker, bytes: Bytes)
    requires ValidUnpacker(u) && u.state.ReadTrailer? && u.inTrailer == BLOCK_SIZE && bytes != []
    ensures var s := Step(cb, u, bytes);
            if !AllZero(bytes[..Min(|bytes|, BLOCK_SIZE)]) then s.code == InvalidArchive
            else if |bytes| < BLOCK_SIZE then s.code == Ok && s.used == |bytes|
            else s == Stepped(u.(inTrailer := TRAILER_SIZE), BLOCK_SIZE, ArchiveExhausted)
  {
    hide FileSize, AllZero;
  }

  lemma {:induction false} TrailerAccepted(cb: Callbacks, u: Unpacker, suffix: Bytes)
    requires ValidUnpacker(u) && AtHeader(u)
    ensures var r := Process(cb, u, Zeros(TRAILER_SIZE) + suffix);
            r.code == ArchiveExhausted && r.next.log == u.log
  {
    hide FileSize, AllZero, Validate, Step;
    var bytes := Zeros(TRAILER_SIZE) + suffix;
    HeaderBlockStep(cb, u, bytes);
    assert bytes[..BLOCK_SIZE] == Zeros(BLOCK_SIZE);
    AllZeroOfZeros(BLOCK_SIZE);
    var s := Step(cb, u, bytes);
    assert bytes[BLOCK_SIZE..][..BLOCK_SIZE] == Zeros(BLOCK_SIZE);
    TrailerStepAt(cb, s.next, bytes[BLOCK_SIZE..]);
  }

  lemma {:induction false} ArchiveAccepted(cb: Callbacks, u: Unpacker, ms: seq<Member>, suffix: Bytes)
    requires ValidUnpacker(u) && AtHeader(u) && AllWellFormed(ms) && AgreesToAll(cb, u.log, ms)
    ensures var r := Process(cb, u, MembersBytes(ms) + Zeros(TRAILER_SIZE) + suffix);
            r.code == ArchiveExhausted && r.next.log == LoggedAll(u.log, ms)
    decreases |ms|
  {
    hide Process, ValidUnpacker, WellFormed, MemberBytes, Agrees;
    if ms == [] {
      assert MembersBytes(ms) + Zeros(TRAILER_SIZE) + suffix == Zeros(TRAILER_SIZE) + suffix;
      TrailerAccepted(cb, u, suffix);
    } else {
      var rest := MembersBytes(ms[1..]) + Zeros(TRAILER_SIZE) + suffix;
      assert MembersBytes(ms) + Zeros(TRAILER_SIZE) + suffix == MemberBytes(ms[0]) + rest;
      MemberIsConsumed(cb, u, ms[0], rest);
      ArchiveAccepted(cb, AfterMember(u, ms[0]), ms[1..], suffix);
    }
  }

  // ---------------------------------------------------------------------------------------------
  // Soundness: only archives are accepted
  // ---------------------------------------------------------------------------------------------

  lemma {:induction false} DataMustComplete(cb: Callbacks, u: Unpacker, h: Block, body: Bytes) returns (size: nat)
    requires ValidUnpacker(u) && AtHeader(u) && ValidUnpacker(InData(u, h))
    requires body != [] && Process(cb, InData(u, h), body).code == ArchiveExhausted
    ensures FileSize(h) == Some(size) && size <= |body|
  {
    hide FileSize, ValidUnpacker;
    var in0 := InData(u, h);
    size := FileSize(h).value;
    UsedUp(cb, in0, body);
  }

  /** From the data of a file to what follows it. */
  lemma {:induction false} DataConsumed(cb: Callbacks, u: Unpacker, h: Block, body: Bytes) returns (m: Member, tail: Bytes)
    requires ValidUnpacker(u) && AtHeader(u) && ValidUnpacker(InData(u, h))
    requires cb.onStart(u.log, h)
    requires body != [] && Process(cb, InData(u, h), body).code == ArchiveExhausted
    ensures m.header == h && FileSize(h) == Some(|m.data|) && Agrees(cb, u.log, m)
    ensures body == m.data + tail && tail != []
    ensures ValidUnpacker(DataDone(u, m)) && Process(cb, DataDone(u, m), tail).code == ArchiveExhausted
  {
    hide FileSize, RequiredPadding, Step, ValidUnpacker, AfterMember;
    var size := DataMustComplete(cb, u, h, body);
    m := Member(h, body[..size]);
    tail := body[size..];
    assert body == m.data + tail;
    DataPhase(cb, u, m, tail);
    var s := Step(cb, InData(u, h), body);
    ProcessNothing(cb, s.next);
  }

  /** From the padding after a file to the next header. */
  lemma {:induction false} PaddingConsumed(cb: Callbacks, u: Unpacker, m: Member, tail: Bytes) returns (rest: Bytes)
    requires ValidUnpacker(u) && AtHeader(u) && FileSize(m.header) == Some(|m.data|)
    requires tail != [] && ValidUnpacker(DataDone(u, m))
    requires Process(cb, DataDone(u, m), tail).code == ArchiveExhausted
    ensures tail == Zeros(RequiredPadding(|m.data|)) + rest && rest != []
  {
    hide FileSize, RequiredPadding, Step, ValidUnpacker, AllZero;
    var n := RequiredPadding(|m.data|);
    if n == 0 {
      rest := tail;
      assert Zeros(0) + rest == rest;
    } else {
      PaddingMustComplete(cb, u, m, tail);
      rest := tail[n..];
      assert tail == tail[..n] + rest;
      PaddingPhase(cb, u, m, tail[..n], rest);
      AllZeroIsZeros(tail[..n]);
      ProcessNothing(cb, AfterMember(u, m));
    }
  }

  lemma {:induction false} PaddingMustComplete(cb: Callbacks, u: Unpacker, m: Member, tail: Bytes)
    requires ValidUnpacker(u) && AtHeader(u) && FileSize(m.header) == Some(|m.data|)
    requires RequiredPadding(|m.data|) > 0 && tail != []
    ensures ValidUnpacker(DataDone(u, m))
    ensures Process(cb, DataDone(u, m), tail).code == ArchiveExhausted ==> RequiredPadding(|m.data|) <= |tail|
  {
    hide FileSize, RequiredPadding;
    UsedUp(cb, DataDone(u, m), tail);
  }

  /** A chunk that one step uses up entirely is not exhausted by it. */
  lemma {:induction false} UsedUp(cb: Callbacks, u: Unpacker, bytes: Bytes)
    requires ValidUnpacker(u) && bytes != []
    ensures var s := Step(cb, u, bytes);
            s.code == Ok && s.used == |bytes| ==> Process(cb, u, bytes) == Processed(s.next, Ok)
  {
    hide Step, ValidUnpacker;
    var s := Step(cb, u, bytes);
    if s.code == Ok && s.used == |bytes| {
      assert bytes[s.used..] == [];
      ProcessNothing(cb, s.next);
    }
  }

  /** One member at the front of whatever the parser exhausts, unless the trailer is there. */
  lemma {:induction false} FirstMember(cb: Callbacks, u: Unpacker, bytes: Bytes) returns (m: Member, rest: Bytes)
    requires ValidUnpacker(u) && AtHeader(u) && Process(cb, u, bytes).code == ArchiveExhausted
    requires !(|bytes| >= BLOCK_SIZE && AllZero(bytes[..BLOCK_SIZE]))
    ensures WellFormed(m) && Agrees(cb, u.log, m) && rest != []
    ensures bytes == MemberBytes(m) + rest
  {
    hide FileSize, AllZero, Validate, RequiredPadding, Step, ValidUnpacker, Agrees;
    HeaderBlockStep(cb, u, bytes);
    UsedUp(cb, u, bytes);
    var h := bytes[..BLOCK_SIZE];
    var body := bytes[BLOCK_SIZE..];
    var tail;
    m, tail := DataConsumed(cb, u, h, body);
    rest := PaddingConsumed(cb, u, m, tail);
    assert bytes == h + body;
    assert m.header + (m.data + (Zeros(RequiredPadding(|m.data|)) + rest)) == MemberBytes(m) + rest;
  }

  lemma {:induction false} TrailerMustComplete(cb: Callbacks, u: Unpacker, bytes: Bytes)
    requires ValidUnpacker(u) && AtHeader(u) && Process(cb, u, bytes).code == ArchiveExhausted
    requires |bytes| >= BLOCK_SIZE && AllZero(bytes[..BLOCK_SIZE])
    ensures Zeros(TRAILER_SIZE) <= bytes
  {
    hide FileSize, AllZero, Validate, Step;
    HeaderBlockStep(cb, u, bytes);
    var s := Step(cb, u, bytes);
    var rest := bytes[BLOCK_SIZE..];
    UsedUp(cb, u, bytes);
    TrailerStepAt(cb, s.next, rest);
    UsedUp(cb, s.next, rest);
    AllZeroIsZeros(bytes[..BLOCK_SIZE]);
    AllZeroIsZeros(rest[..BLOCK_SIZE]);
    assert bytes[..TRAILER_SIZE] == bytes[..BLOCK_SIZE] + rest[..BLOCK_SIZE] == Zeros(TRAILER_SIZE);
  }

  lemma {:induction false} AcceptedIsArchive(cb: Callbacks, u: Unpacker, bytes: Bytes) returns (ms: seq<Member>)
    requires ValidUnpacker(u) && AtHeader(u) && Process(cb, u, bytes).code == ArchiveExhausted
    ensures IsArchiveOf(bytes, ms) && AgreesToAll(cb, u.log, ms)
    decreases |bytes|
  {
    hide Process, ValidUnpacker, WellFormed, Agrees, AllZero;
    if |bytes| >= BLOCK_SIZE && AllZero(bytes[..BLOCK_SIZE]) {
      TrailerMustComplete(cb, u, bytes);
      ms := [];
      assert MembersBytes([]) + Zeros(TRAILER_SIZE) == Zeros(TRAILER_SIZE);
    } else {
      var m, rest := FirstMember(cb, u, bytes);
      MemberIsConsumed(cb, u, m, rest);
      var others := AcceptedIsArchive(cb, AfterMember(u, m), rest);
      ms := [m] + others;
      assert ms[1..] == others;
      assert MembersBytes(ms) + Zeros(TRAILER_SIZE) == MemberBytes(m) + (MembersBytes(others) + Zeros(TRAILER_SIZE));
    }
  }
}
