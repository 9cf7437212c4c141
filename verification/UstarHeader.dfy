/**
 The 512-byte USTAR header ("ustar Interchange Format" of the pax utility, IEEE Std 1003.1-2017):
 how the packer writes it, how the unpacker reads it, and the proof that the reader inverts the writer.
 */
module UstarHeader {
  import opened CLib

  const BLOCK_SIZE := 512
  const TRAILER_SIZE := 1024
  const FILE_NAME_BUFF_SIZE := 257

  const NAME_LEN := 100
  const PREFIX_LEN := 155
  const NAME_AT := 0
  const MODE_AT := 100
  const UID_AT := 108
  const GID_AT := 116
  const SIZE_AT := 124
  const MTIME_AT := 136
  const CHKSUM_AT := 148
  const TYPEFLAG_AT := 156
  const MAGIC_AT := 257
  const VERSION_AT := 263
  const PREFIX_AT := 345
  const ID_LEN := 8
  const NUMBER_LEN := 12
  const CHKSUM_LEN := 8

  const FILE_MODE_DEFAULT: nat := 420 // 0644
  const TYPEFLAG_REGULAR: Byte := 48
  const TYPEFLAG_DIRECTORY: Byte := 53
  const MAGIC: Bytes := [117, 115, 116, 97, 114, 0] // "ustar" and a NUL
  const VERSION: Bytes := [48, 48]                  // "00"

  type Block = b: Bytes | |b| == BLOCK_SIZE witness Zeros(BLOCK_SIZE)

  datatype ResultCode =
    | Ok | InternalError | InvalidArgs | InvalidArchive | InsufficientBuff | InvalidMagic
    | InvalidVersion | InvalidChecksum | TruncatedFile | ArchiveExhausted | UserCbkError

  /** Bytes needed after a file of this size to reach the next block boundary. */
  function RequiredPadding(size: nat): (p: nat)
    ensures p < BLOCK_SIZE
  {
    (BLOCK_SIZE - size % BLOCK_SIZE) % BLOCK_SIZE
  }

  /** The padding is what block alignment takes, and no more. */
  lemma {:induction false} PaddingAligns(size: nat)
    ensures (size + RequiredPadding(size)) % BLOCK_SIZE == 0
    ensures RequiredPadding(size) == 0 <==> size % BLOCK_SIZE == 0
  {
  }

  // ---------------------------------------------------------------------------------------------
  // Fields
  // ---------------------------------------------------------------------------------------------

  /** `pack_format_octal`: zero-padded octal filling all but the last character of the field. */
  function FormatOctal(value: nat, width: nat): (r: Option<Bytes>)
    ensures r.Some? ==> |r.value| == width
  {
    if width == 0 then None
    else
      var text := PaddedOctal(value, width - 1);
      if |text| >= width then None else Some(text + [NUL])
  }

  /** Octal formatting succeeds exactly below `8^(width - 1)`, and the reader gets the value back. */
  lemma {:induction false} FormatOctalReadsBack(value: nat, width: nat)
    requires width >= 2
    ensures FormatOctal(value, width).Some? <==> value < Pow8(width - 1)
    ensures FormatOctal(value, width).Some? ==>
              StrToOctal(FormatOctal(value, width).value + [NUL]) == Some(value)
  {
    NumeralLength(value, width - 1);
    if FormatOctal(value, width).Some? {
      var text := PaddedOctal(value, width - 1);
      PaddedOctalReadsBack(value, width - 1);
      StrToOctalOfDigits(text, [NUL, NUL]);
      assert text + [NUL] + [NUL] == text + [NUL, NUL];
    }
  }

  /** A `/` at which a long name may be cut into a prefix and a name field. */
  predicate IsLegalSplit(name: Bytes, p: nat) {
    p < |name| && name[p] == SLASH && p <= PREFIX_LEN && |name| - p - 1 <= NAME_LEN
  }

  /** The first legal split at or after `from`. */
  function FirstSplit(name: Bytes, from: nat): (r: Option<nat>)
    ensures r.Some? ==> from <= r.value && IsLegalSplit(name, r.value)
    ensures r.Some? ==> forall q :: from <= q < r.value ==> !IsLegalSplit(name, q)
    ensures r.None? ==> forall q :: from <= q ==> !IsLegalSplit(name, q)
    decreases |name| - from
  {
    if from >= |name| then None
    else if IsLegalSplit(name, from) then Some(from)
    else FirstSplit(name, from + 1)
  }

  /** The source's scan with `strchr`: hop from slash to slash until one is legal. */
  method FindSplit(name: Bytes) returns (r: Option<nat>)
    ensures r == FirstSplit(name, 0)
  {
    var from := 0;
    while true
      invariant from <= |name|
      invariant FirstSplit(name, 0) == FirstSplit(name, from)
      decreases |name| - from
    {
      var slash := StrChr(name, from);
      if slash == |name| { return None; }
      if slash <= PREFIX_LEN && |name| - slash - 1 <= NAME_LEN { return Some(slash); }
      from := slash + 1;
    }
  }

  /** `strchr(name + from, '/')`, with `|name|` for a null result. */
  method StrChr(name: Bytes, from: nat) returns (at: nat)
    requires from <= |name|
    ensures from <= at <= |name|
    ensures at < |name| ==> name[at] == SLASH
    ensures at == |name| ==> FirstSplit(name, from) == None
    ensures at < |name| && !IsLegalSplit(name, at) ==> FirstSplit(name, from) == FirstSplit(name, at + 1)
    ensures at < |name| && IsLegalSplit(name, at) ==> FirstSplit(name, from) == Some(at)
  {
    at := from;
    while at < |name| && name[at] != SLASH
      invariant from <= at <= |name|
      invariant FirstSplit(name, from) == FirstSplit(name, at)
    {
      at := at + 1;
    }
  }

  /** The contents of the prefix and name fields for a file name, when it fits. */
  function SplitName(name: Bytes): (r: Option<(Bytes, Bytes)>)
    ensures r.Some? ==> |r.value.0| <= PREFIX_LEN && |r.value.1| <= NAME_LEN
  {
    if |name| <= NAME_LEN then Some(([], name))
    else
      var p := FirstSplit(name, 0);
      if p.None? then None else Some((name[..p.value], name[p.value + 1..]))
  }

  predicate PackableName(name: Bytes) { SplitName(name).Some? }

  /** Sizes fit the field exactly when they take at most eleven octal digits. */
  predicate PackableSize(size: nat) { size < Pow8(NUMBER_LEN - 1) }

  // ---------------------------------------------------------------------------------------------
  // Writing a header
  // ---------------------------------------------------------------------------------------------

  /** `get_chksum`: the stored checksum, 0 when the field holds no digits, cut to 32 bits. */
  function StoredChecksum(block: Block): nat {
    match StrToOctal(block[CHKSUM_AT..CHKSUM_AT + CHKSUM_LEN] + [NUL])
    case None => 0
    case Some(v) => v % 0x1_0000_0000
  }

  /** The POSIX checksum: the byte sum with the checksum field read as eight spaces. */
  function Checksum(block: Block): (n: nat)
    ensures n <= 130560 < Pow8(6)
  {
    assert Pow8(6) == 262144;
    Sum(Splice(block, CHKSUM_AT, SPACES))
  }

  const SPACES: Bytes := [SPACE, SPACE, SPACE, SPACE, SPACE, SPACE, SPACE, SPACE]

  /** Six octal digits, a NUL and a space. */
  function ChecksumField(chksum: nat): (f: Bytes)
    requires chksum < Pow8(6)
    ensures |f| == CHKSUM_LEN
  {
    NumeralLength(chksum, 6);
    PaddedOctal(chksum, 6) + [NUL, SPACE]
  }

  /** The header before its checksum is filled in. */
  function Unsigned(prefix: Bytes, name: Bytes, sizeField: Bytes): (b: Block)
    requires |prefix| <= PREFIX_LEN && |sizeField| == NUMBER_LEN
  {
    var b := Splice(Zeros(BLOCK_SIZE), PREFIX_AT, prefix);
    Stamped(Splice(b, NAME_AT, StrNCpyBytes(name, NAME_LEN)), sizeField)
  }

  /** The fields that follow the names, and the blank checksum. */
  function Stamped(block: Block, sizeField: Bytes): (b: Block)
    requires |sizeField| == NUMBER_LEN
    ensures b[CHKSUM_AT..CHKSUM_AT + CHKSUM_LEN] == SPACES
  {
    var b := Splice(block, MODE_AT, PaddedOctalField(FILE_MODE_DEFAULT, ID_LEN));
    var b := Splice(b, UID_AT, PaddedOctalField(0, ID_LEN));
    var b := Splice(b, GID_AT, PaddedOctalField(0, ID_LEN));
    var b := Splice(b, SIZE_AT, sizeField);
    var b := Splice(b, MTIME_AT, PaddedOctalField(0, NUMBER_LEN));
    var b := Splice(b, MAGIC_AT, MAGIC);
    var b := Splice(b, VERSION_AT, VERSION);
    var b := Splice(b, TYPEFLAG_AT, [TYPEFLAG_REGULAR]);
    Splice(b, CHKSUM_AT, SPACES)
  }

  /** Fields whose value always fits. */
  function PaddedOctalField(value: nat, width: nat): (f: Bytes)
    requires width >= 4 && value < 512
    ensures |f| == width && FormatOctal(value, width) == Some(f)
  {
    Pow8Grows(width - 1);
    FormatOctalReadsBack(value, width);
    FormatOctal(value, width).value
  }

  lemma {:induction false} Pow8Grows(n: nat)
    requires n >= 3
    ensures Pow8(n) >= 512
  {
    if n == 3 {
      assert Pow8(3) == 8 * Pow8(2) && Pow8(2) == 8 * Pow8(1) && Pow8(1) == 8 * Pow8(0);
    } else {
      Pow8Grows(n - 1);
    }
  }

  function Signed(block: Block): Block {
    Splice(block, CHKSUM_AT, ChecksumField(Checksum(block)))
  }

  datatype HeaderResult = Header(block: Block) | Refused(code: ResultCode)

  /** The block `pack_handle_header` writes for a file, or the code it returns instead. */
  function PackHeader(name: Bytes, size: nat): (r: HeaderResult)
    ensures r.Refused? ==> r.code in {InvalidArgs, InternalError}
  {
    match SplitName(name)
    case None => Refused(InvalidArgs)
    case Some((prefix, suffix)) =>
      match FormatOctal(size, NUMBER_LEN)
      case None => Refused(InternalError)
      case Some(sizeField) => Header(Signed(Unsigned(prefix, suffix, sizeField)))
  }

  /** The accumulation loop both sides run over the raw header. */
  method SumBytes(header: array<Byte>) returns (sum: nat)
    ensures sum == Sum(header[..])
  {
    sum := 0;
    for i := 0 to header.Length
      invariant sum == Sum(header[..i])
    {
      assert header[..i + 1][..i] == header[..i];
      sum := sum + header[i];
    }
    assert header[..header.Length] == header[..];
  }

  /** The fields that do not depend on the file, around its size field. */
  method FillNumbers(header: array<Byte>, sizeField: Bytes)
    requires header.Length == BLOCK_SIZE && |sizeField| == NUMBER_LEN
    modifies header
    ensures header[..] == Stamped(old(header[..]), sizeField)
  {
    CopyInto(header, MODE_AT, PaddedOctalField(FILE_MODE_DEFAULT, ID_LEN));
    CopyInto(header, UID_AT, PaddedOctalField(0, ID_LEN));
    CopyInto(header, GID_AT, PaddedOctalField(0, ID_LEN));
    CopyInto(header, SIZE_AT, sizeField);
    CopyInto(header, MTIME_AT, PaddedOctalField(0, NUMBER_LEN));
    CopyInto(header, MAGIC_AT, MAGIC);
    CopyInto(header, VERSION_AT, VERSION);
    CopyInto(header, TYPEFLAG_AT, [TYPEFLAG_REGULAR]);
    CopyInto(header, CHKSUM_AT, SPACES);
  }

  /** `pack_handle_header`, up to the copy into the output: build the block in place. */
  method BuildHeader(name: Bytes, size: nat) returns (header: array<Byte>, code: ResultCode)
    ensures fresh(header) && header.Length == BLOCK_SIZE
    ensures match PackHeader(name, size)
            case Header(block) => code == Ok && header[..] == block
            case Refused(c) => code == c != Ok
  {
    hide FormatOctal, FirstSplit, StrNCpyBytes, Stamped, ChecksumField, Sum;
    header := new Byte[BLOCK_SIZE](i => NUL);
    assert header[..] == Zeros(BLOCK_SIZE);
    if |name| <= NAME_LEN {
      assert Splice(header[..], PREFIX_AT, []) == header[..];
      CopyInto(header, NAME_AT, StrNCpyBytes(name, NAME_LEN));
    } else {
      var split := FindSplit(name);
      if split.None? { return header, InvalidArgs; }
      CopyInto(header, PREFIX_AT, name[..split.value]);
      CopyInto(header, NAME_AT, StrNCpyBytes(name[split.value + 1..], NAME_LEN));
    }
    var sizeField := FormatOctal(size, NUMBER_LEN);
    if sizeField.None? { return header, InternalError; }
    FillNumbers(header, sizeField.value);
    assert header[CHKSUM_AT..CHKSUM_AT + CHKSUM_LEN] == SPACES;
    SignHeader(header);
    code := Ok;
  }

  /** Sum the header, whose checksum field is blank, and store the checksum in it. */
  method SignHeader(header: array<Byte>)
    requires header.Length == BLOCK_SIZE
    requires header[CHKSUM_AT..CHKSUM_AT + CHKSUM_LEN] == SPACES
    modifies header
    ensures header[..] == Signed(old(header[..]))
  {
    hide ChecksumField, Sum;
    ghost var unsigned: Block := header[..];
    assert unsigned == unsigned[..CHKSUM_AT] + unsigned[CHKSUM_AT..CHKSUM_AT + CHKSUM_LEN] + unsigned[CHKSUM_AT + CHKSUM_LEN..];
    assert Splice(unsigned, CHKSUM_AT, SPACES) == unsigned;
    var chksum := SumBytes(header);
    assert chksum == Checksum(unsigned);
    CopyInto(header, CHKSUM_AT, ChecksumField(chksum));
  }

  // ---------------------------------------------------------------------------------------------
  // Reading a header
  // ---------------------------------------------------------------------------------------------

  /** `ztar_unpack_get_file_name`: prefix, slash and name, or just the name when the prefix is empty. */
  function FileName(block: Block): (name: Bytes)
    ensures |name| < FILE_NAME_BUFF_SIZE && NulFree(name)
  {
    var prefix := CStr(block[PREFIX_AT..PREFIX_AT + PREFIX_LEN]);
    var name := CStr(block[NAME_AT..NAME_AT + NAME_LEN]);
    if block[PREFIX_AT] != NUL then prefix + [SLASH] + name else name
  }

  /** `ztar_unpack_get_file_size`, cut to the width of `size_t`; `None` when there is no digit. */
  function FileSize(block: Block): Option<nat> {
    match StrToOctal(block[SIZE_AT..SIZE_AT + NUMBER_LEN] + [NUL])
    case None => None
    case Some(v) => Some(v % SIZE_MODULUS)
  }

  datatype FileType = RegularFile | Directory | Unsupported

  function TypeOf(block: Block): FileType {
    var flag := block[TYPEFLAG_AT];
    if flag == TYPEFLAG_REGULAR || flag == NUL then RegularFile
    else if flag == TYPEFLAG_DIRECTORY then Directory
    else Unsupported
  }

  /** `validate_header`: magic, then version, then checksum. */
  function Validate(block: Block): ResultCode {
    if block[MAGIC_AT..MAGIC_AT + |MAGIC|] != MAGIC then InvalidMagic
    else if block[VERSION_AT..VERSION_AT + |VERSION|] != VERSION then InvalidVersion
    else if Checksum(block) != StoredChecksum(block) then InvalidChecksum
    else Ok
  }

  /** The two accumulation loops: sum everything, then trade the checksum bytes for spaces. */
  method ValidateHeader(header: array<Byte>) returns (code: ResultCode)
    requires header.Length == BLOCK_SIZE
    ensures code == Validate(header[..])
  {
    var block: Block := header[..];
    if block[MAGIC_AT..MAGIC_AT + |MAGIC|] != MAGIC { return InvalidMagic; }
    if block[VERSION_AT..VERSION_AT + |VERSION|] != VERSION { return InvalidVersion; }
    var sum := SumBytes(header);
    var expected: int := sum;
    assert Splice(block, CHKSUM_AT, SPACES[..0]) == block;
    for i := 0 to CHKSUM_LEN
      invariant expected == Sum(Splice(block, CHKSUM_AT, SPACES[..i]))
    {
      SumOfOneMoreSpace(block, i);
      expected := expected - header[CHKSUM_AT + i];
      expected := expected + SPACE;
    }
    assert SPACES[..CHKSUM_LEN] == SPACES;
    code := if expected != StoredChecksum(block) then InvalidChecksum else Ok;
  }

  lemma {:induction false} SumOfOneMoreSpace(block: Block, i: nat)
    requires i < CHKSUM_LEN
    ensures Sum(Splice(block, CHKSUM_AT, SPACES[..i + 1]))
         == Sum(Splice(block, CHKSUM_AT, SPACES[..i])) - block[CHKSUM_AT + i] + SPACE
  {
    var at := CHKSUM_AT + i;
    var left := block[..CHKSUM_AT] + SPACES[..i];
    var right := block[at + 1..];
    assert Splice(block, CHKSUM_AT, SPACES[..i]) == left + [block[at]] + right;
    assert Splice(block, CHKSUM_AT, SPACES[..i + 1]) == left + [SPACE] + right;
    SumWithMiddle(left, block[at], right);
    SumWithMiddle(left, SPACE, right);
  }

  lemma {:induction false} SumWithMiddle(left: Bytes, b: Byte, right: Bytes)
    ensures Sum(left + [b] + right) == Sum(left) + b + Sum(right)
  {
    SumOfConcat(left + [b], right);
    assert (left + [b])[..|left|] == left;
  }

  // ---------------------------------------------------------------------------------------------
  // The reader inverts the writer
  // ---------------------------------------------------------------------------------------------

  /** Stamping leaves the name and prefix fields alone. */
  lemma {:induction false} StampedKeeps(block: Block, sizeField: Bytes)
    requires |sizeField| == NUMBER_LEN
    ensures Stamped(block, sizeField)[..MODE_AT] == block[..MODE_AT]
    ensures Stamped(block, sizeField)[PREFIX_AT..] == block[PREFIX_AT..]
  {
    hide PaddedOctalField;
  }

  lemma {:induction false} StampedSize(block: Block, sizeField: Bytes)
    requires |sizeField| == NUMBER_LEN
    ensures Stamped(block, sizeField)[SIZE_AT..SIZE_AT + NUMBER_LEN] == sizeField
  {
    hide PaddedOctalField;
  }

  lemma {:induction false} StampedMarks(block: Block, sizeField: Bytes)
    requires |sizeField| == NUMBER_LEN
    ensures var b := Stamped(block, sizeField);
            && b[MAGIC_AT..MAGIC_AT + |MAGIC|] == MAGIC
            && b[VERSION_AT..VERSION_AT + |VERSION|] == VERSION
            && b[TYPEFLAG_AT] == TYPEFLAG_REGULAR
  {
    hide PaddedOctalField;
  }

  /** Every field the reader looks at, in a block that has just been filled in. */
  lemma {:induction false} UnsignedFields(prefix: Bytes, name: Bytes, sizeField: Bytes)
    requires |prefix| <= PREFIX_LEN && |sizeField| == NUMBER_LEN
    ensures var b := Unsigned(prefix, name, sizeField);
            && b[PREFIX_AT..PREFIX_AT + PREFIX_LEN] == StrNCpyBytes(prefix, PREFIX_LEN)
            && b[NAME_AT..NAME_AT + NAME_LEN] == StrNCpyBytes(name, NAME_LEN)
            && b[SIZE_AT..SIZE_AT + NUMBER_LEN] == sizeField
            && b[MAGIC_AT..MAGIC_AT + |MAGIC|] == MAGIC
            && b[VERSION_AT..VERSION_AT + |VERSION|] == VERSION
            && b[TYPEFLAG_AT] == TYPEFLAG_REGULAR
            && b[CHKSUM_AT..CHKSUM_AT + CHKSUM_LEN] == SPACES
  {
    hide Stamped;
    var named := Splice(Splice(Zeros(BLOCK_SIZE), PREFIX_AT, prefix), NAME_AT, StrNCpyBytes(name, NAME_LEN));
    var b := Unsigned(prefix, name, sizeField);
    StampedKeeps(named, sizeField);
    StampedSize(named, sizeField);
    StampedMarks(named, sizeField);
    assert b[NAME_AT..NAME_AT + NAME_LEN] == named[..MODE_AT];
    assert b[PREFIX_AT..][..PREFIX_LEN] == b[PREFIX_AT..PREFIX_AT + PREFIX_LEN];
    assert named[PREFIX_AT..][..PREFIX_LEN] == StrNCpyBytes(prefix, PREFIX_LEN);
  }

  /** Signing touches only the checksum field, whose contents then validate. */
  lemma {:induction false} SignedFields(block: Block)
    requires block[CHKSUM_AT..CHKSUM_AT + CHKSUM_LEN] == SPACES
    ensures var s := Signed(block);
            && s[..CHKSUM_AT] == block[..CHKSUM_AT]
            && s[CHKSUM_AT + CHKSUM_LEN..] == block[CHKSUM_AT + CHKSUM_LEN..]
            && StoredChecksum(s) == Checksum(s)
  {
    var s := Signed(block);
    var chksum := Checksum(block);
    assert Splice(s, CHKSUM_AT, SPACES) == Splice(block, CHKSUM_AT, SPACES);
    NumeralLength(chksum, 6);
    PaddedOctalReadsBack(chksum, 6);
    var digits := PaddedOctal(chksum, 6);
    StrToOctalOfDigits(digits, [NUL, SPACE, NUL]);
    assert s[CHKSUM_AT..CHKSUM_AT + CHKSUM_LEN] + [NUL] == digits + [NUL, SPACE, NUL];
  }

  /** A header is written exactly when the name can be split and the size fits its field. */
  lemma {:induction false} PackHeaderAccepts(name: Bytes, size: nat)
    ensures PackHeader(name, size).Header? <==> PackableName(name) && PackableSize(size)
    ensures PackHeader(name, size) == Refused(InvalidArgs) <==> !PackableName(name)
    ensures PackHeader(name, size) == Refused(InternalError) <==>
              PackableName(name) && !PackableSize(size)
    ensures PackableSize(size) <==> size < 8589934592
  {
    hide SplitName;
    FormatOctalReadsBack(size, NUMBER_LEN);
    EightToTheEleventh();
  }

  lemma {:induction false} EightToTheEleventh()
    ensures Pow8(11) == 8589934592
  {
    assert Pow8(3) == 8 * Pow8(2) && Pow8(2) == 8 * Pow8(1) && Pow8(1) == 8 * Pow8(0);
    assert Pow8(7) == 8 * Pow8(6) && Pow8(6) == 8 * Pow8(5) && Pow8(5) == 8 * Pow8(4) && Pow8(4) == 8 * Pow8(3);
    assert Pow8(11) == 8 * Pow8(10) && Pow8(10) == 8 * Pow8(9) && Pow8(9) == 8 * Pow8(8) && Pow8(8) == 8 * Pow8(7);
  }

  /** The split succeeds exactly for short names and for names with a legal slash. */
  lemma {:induction false} PackableNameMeaning(name: Bytes)
    ensures PackableName(name) <==>
              || |name| <= 100
              || exists p :: 0 <= p < |name| && name[p] == 47 && p <= 155 && |name| - p - 1 <= 100
  {
    if |name| > NAME_LEN && FirstSplit(name, 0).Some? {
      assert IsLegalSplit(name, FirstSplit(name, 0).value);
    }
    if p: nat :| p < |name| && name[p] == 47 && p <= 155 && |name| - p - 1 <= 100 {
      assert IsLegalSplit(name, p);
    }
  }

  /** A name of 101 characters whose only use of its leading slash is as the split point. */
  predicate LosesLeadingSlash(name: Bytes) {
    |name| == NAME_LEN + 1 && name[0] == SLASH
  }

  /**
   What the reader makes of a packed header: it validates, is not mistaken for the end of the
   archive, and gives back size, type and name. The name comes back unchanged exactly when it is not
   cut at a leading slash, which leaves an empty prefix field.
   */
  lemma {:induction false} HeaderReadsBack(name: Bytes, size: nat)
    requires NulFree(name) && PackHeader(name, size).Header?
    ensures var b := PackHeader(name, size).block;
            && Validate(b) == Ok
            && !AllZero(b)
            && FileSize(b) == Some(size % SIZE_MODULUS)
            && TypeOf(b) == RegularFile
            && (FileName(b) == name <==> !LosesLeadingSlash(name))
            && (LosesLeadingSlash(name) ==> FileName(b) == name[1..])
  {
    var (prefix, suffix) := SplitName(name).value;
    var sizeField := FormatOctal(size, NUMBER_LEN).value;
    var u := Unsigned(prefix, suffix, sizeField);
    var b := PackHeader(name, size).block;
    UnsignedFields(prefix, suffix, sizeField);
    SignedFields(u);
    assert b == Signed(u);
    BeforeChecksum(u, b, NAME_AT, NAME_AT + NAME_LEN);
    BeforeChecksum(u, b, SIZE_AT, SIZE_AT + NUMBER_LEN);
    AfterChecksum(u, b, MAGIC_AT, MAGIC_AT + |MAGIC|);
    AfterChecksum(u, b, VERSION_AT, VERSION_AT + |VERSION|);
    AfterChecksum(u, b, PREFIX_AT, PREFIX_AT + PREFIX_LEN);
    AfterChecksum(u, b, TYPEFLAG_AT, TYPEFLAG_AT + 1);
    assert b[TYPEFLAG_AT] == b[TYPEFLAG_AT..TYPEFLAG_AT + 1][0] == TYPEFLAG_REGULAR;
    assert b[MAGIC_AT] == b[MAGIC_AT..MAGIC_AT + |MAGIC|][0] == MAGIC[0] != NUL;
    FormatOctalReadsBack(size, NUMBER_LEN);
    NameReadsBack(name, b);
  }

  lemma {:induction false} BeforeChecksum(u: Block, b: Block, lo: nat, hi: nat)
    requires b[..CHKSUM_AT] == u[..CHKSUM_AT] && lo <= hi <= CHKSUM_AT
    ensures b[lo..hi] == u[lo..hi]
  {
    assert b[..CHKSUM_AT][lo..hi] == b[lo..hi] && u[..CHKSUM_AT][lo..hi] == u[lo..hi];
  }

  lemma {:induction false} AfterChecksum(u: Block, b: Block, lo: nat, hi: nat)
    requires b[CHKSUM_AT + CHKSUM_LEN..] == u[CHKSUM_AT + CHKSUM_LEN..]
    requires CHKSUM_AT + CHKSUM_LEN <= lo <= hi <= BLOCK_SIZE
    ensures b[lo..hi] == u[lo..hi]
  {
    var at := CHKSUM_AT + CHKSUM_LEN;
    assert b[at..][lo - at..hi - at] == b[lo..hi] && u[at..][lo - at..hi - at] == u[lo..hi];
  }

  /** Prefix, slash and suffix rejoin to the name they were split from. */
  lemma {:induction false} NameReadsBack(name: Bytes, b: Block)
    requires NulFree(name) && SplitName(name).Some?
    requires b[PREFIX_AT..PREFIX_AT + PREFIX_LEN] == StrNCpyBytes(SplitName(name).value.0, PREFIX_LEN)
    requires b[NAME_AT..NAME_AT + NAME_LEN] == StrNCpyBytes(SplitName(name).value.1, NAME_LEN)
    ensures FileName(b) == name <==> !LosesLeadingSlash(name)
    ensures LosesLeadingSlash(name) ==> FileName(b) == name[1..]
  {
    var (prefix, suffix) := SplitName(name).value;
    StrNCpyReadsBack(prefix, PREFIX_LEN);
    StrNCpyReadsBack(suffix, NAME_LEN);
    assert b[PREFIX_AT] == b[PREFIX_AT..PREFIX_AT + PREFIX_LEN][0] == StrNCpyBytes(prefix, PREFIX_LEN)[0];
    if |name| > NAME_LEN {
      var p := FirstSplit(name, 0).value;
      assert name == name[..p] + [SLASH] + name[p + 1..];
      assert p == 0 <==> LosesLeadingSlash(name) by {
        if LosesLeadingSlash(name) { assert IsLegalSplit(name, 0); }
      }
    }
  }
}
