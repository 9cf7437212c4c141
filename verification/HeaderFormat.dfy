/**
 The header in the literal offsets and bytes of the "ustar Interchange Format" (pax utility,
 IEEE Std 1003.1-2017): what the packer writes, byte by byte, and what the parser lets through.
 */
module HeaderFormat {
  import opened CLib
  import opened UstarHeader

  // ---------------------------------------------------------------------------------------------
  // What the packer writes
  // ---------------------------------------------------------------------------------------------

  /** "0000644", "0000000" and "00000000000", each with its NUL. */
  const MODE_0644: Bytes := [48, 48, 48, 48, 54, 52, 52, 0]
  const SEVEN_ZEROS: Bytes := [48, 48, 48, 48, 48, 48, 48, 0]
  const ELEVEN_ZEROS: Bytes := [48, 48, 48, 48, 48, 48, 48, 48, 48, 48, 48, 0]

  lemma {:induction false} FixedFields()
    ensures PaddedOctalField(FILE_MODE_DEFAULT, ID_LEN) == MODE_0644
    ensures PaddedOctalField(0, ID_LEN) == SEVEN_ZEROS
    ensures PaddedOctalField(0, NUMBER_LEN) == ELEVEN_ZEROS
  {
    assert OctalNumeral(420) == OctalNumeral(52) + [52] && OctalNumeral(52) == OctalNumeral(6) + [52];
    assert PaddedOctal(420, 7) == [48, 48, 48, 48, 54, 52, 52];
    assert PaddedOctal(0, 7) == [48, 48, 48, 48, 48, 48, 48];
    assert PaddedOctal(0, 11) == [48, 48, 48, 48, 48, 48, 48, 48, 48, 48, 48];
  }

  /** The fields with fixed contents: mode 0644, owner and group 0, time 0, type '0', magic and version. */
  predicate HasFixedFields(b: Block) { HasNumbers(b) && HasMarks(b) }

  predicate HasNumbers(b: Block) {
    && b[100..108] == [48, 48, 48, 48, 54, 52, 52, 0]
    && b[108..116] == [48, 48, 48, 48, 48, 48, 48, 0]
    && b[116..124] == [48, 48, 48, 48, 48, 48, 48, 0]
    && b[136..148] == [48, 48, 48, 48, 48, 48, 48, 48, 48, 48, 48, 0]
  }

  predicate HasMarks(b: Block) {
    && b[156] == 48
    && AllZero(b[157..257])
    && b[257..263] == [117, 115, 116, 97, 114, 0]
    && b[263..265] == [48, 48]
    && AllZero(b[265..345])
    && AllZero(b[500..512])
  }

  lemma {:induction false} UnsignedNumbers(prefix: Bytes, name: Bytes, sizeField: Bytes)
    requires |prefix| <= 155 && |sizeField| == 12
    ensures HasNumbers(Unsigned(prefix, name, sizeField))
  {
    hide PaddedOctalField, StrNCpyBytes;
    FixedFields();
  }

  lemma {:induction false} UnsignedMarks(prefix: Bytes, name: Bytes, sizeField: Bytes)
    requires |prefix| <= 155 && |sizeField| == 12
    ensures HasMarks(Unsigned(prefix, name, sizeField))
  {
    hide PaddedOctalField, StrNCpyBytes;
    var b := Unsigned(prefix, name, sizeField);
    assert forall i :: 157 <= i < 257 || 265 <= i < 345 || 500 <= i < 512 ==> b[i] == 0;
  }

  lemma {:induction false} SigningKeepsFixed(u: Block, b: Block)
    requires b[..148] == u[..148] && b[156..] == u[156..] && HasFixedFields(u)
    ensures HasFixedFields(b)
  {
    hide AllZero;
    BeforeChecksum(u, b, 100, 108);
    BeforeChecksum(u, b, 108, 116);
    BeforeChecksum(u, b, 116, 124);
    BeforeChecksum(u, b, 136, 148);
    AfterChecksum(u, b, 156, 157);
    assert b[156] == b[156..157][0] && u[156] == u[156..157][0];
    AfterChecksum(u, b, 157, 257);
    AfterChecksum(u, b, 257, 263);
    AfterChecksum(u, b, 263, 265);
    AfterChecksum(u, b, 265, 345);
    AfterChecksum(u, b, 500, 512);
  }

  /** The sum of all bytes of a block, its bytes 148 to 155 counted as spaces. */
  function SumWithSpaces(b: Block): nat { Sum(b[..148]) + 8 * 32 + Sum(b[156..]) }

  lemma {:induction false} ChecksumCountsSpaces(b: Block)
    ensures Checksum(b) == SumWithSpaces(b)
  {
    assert Splice(b, CHKSUM_AT, SPACES) == b[..148] + SPACES + b[156..];
    SumOfConcat(b[..148] + SPACES, b[156..]);
    SumOfConcat(b[..148], SPACES);
    assert Sum(SPACES) == 8 * 32 by { SumOfSpaces(8); }
  }

  lemma {:induction false} SumOfSpaces(n: nat)
    requires n <= 8
    ensures Sum(SPACES[..n]) == n * 32
    ensures SPACES[..8] == SPACES
  {
    if n > 0 {
      SumOfSpaces(n - 1);
      assert SPACES[..n][..n - 1] == SPACES[..n - 1];
    }
  }

  /** A number field of the standard: octal digits, leading zeros, and a NUL, for this value. */
  ghost predicate Numbered(field: Bytes, digits: nat, value: nat) {
    |field| > digits && field[digits] == 0 && AllOctal(field[..digits]) && OctalValue(field[..digits]) == value
  }

  /**
   Every header the packer writes, in the offsets and bytes of the standard: the fixed fields, the size
   in eleven octal digits, and the checksum in six, with a NUL and a space.
   */
  lemma {:induction false} PackedHeaderLayout(name: Bytes, size: nat)
    requires PackHeader(name, size).Header?
    ensures var b := PackHeader(name, size).block;
            && HasFixedFields(b)
            && Numbered(b[124..136], 11, size)
            && Numbered(b[148..156], 6, SumWithSpaces(b)) && b[155] == 32
  {
    hide Unsigned, HasNumbers, HasMarks, PaddedOctalField, Sum, SplitName, OctalValue, StrToOctal, AllOctal;
    var (prefix, suffix) := SplitName(name).value;
    var sizeField := FormatOctal(size, NUMBER_LEN).value;
    var u := Unsigned(prefix, suffix, sizeField);
    var b := PackHeader(name, size).block;
    UnsignedFields(prefix, suffix, sizeField);
    UnsignedNumbers(prefix, suffix, sizeField);
    UnsignedMarks(prefix, suffix, sizeField);
    SignedFields(u);
    SigningKeepsFixed(u, b);
    BeforeChecksum(u, b, 124, 136);
    PaddedOctalReadsBack(size, 11);
    assert sizeField[..11] == PaddedOctal(size, 11);
    ChecksumCountsSpaces(b);
    assert Splice(b, CHKSUM_AT, SPACES) == Splice(u, CHKSUM_AT, SPACES);
    var chksum := Checksum(u);
    PaddedOctalReadsBack(chksum, 6);
    assert b[148..156] == ChecksumField(chksum);
    assert b[148..156][..6] == PaddedOctal(chksum, 6) && b[155] == b[148..156][7];
  }

  /** The two fields a name is stored in. */
  lemma {:induction false} PackedFields(name: Bytes, size: nat)
    requires PackHeader(name, size).Header?
    ensures var b := PackHeader(name, size).block;
            var (prefix, suffix) := SplitName(name).value;
            && b[0..100] == StrNCpyBytes(suffix, 100) && b[345..500] == StrNCpyBytes(prefix, 155)
  {
    hide Unsigned, PaddedOctalField, Signed, ChecksumField, SplitName, StrNCpyBytes;
    var (prefix, suffix) := SplitName(name).value;
    var sizeField := FormatOctal(size, NUMBER_LEN).value;
    var u := Unsigned(prefix, suffix, sizeField);
    var b := PackHeader(name, size).block;
    UnsignedFields(prefix, suffix, sizeField);
    SignedFields(u);
    assert b == Signed(u);
    BeforeChecksum(u, b, 0, 100);
    AfterChecksum(u, b, 345, 500);
  }

  /** The name in bytes 0 to 99, or what follows its first legal slash there and what precedes it from byte 345. */
  lemma {:induction false} PackedNameLayout(name: Bytes, size: nat)
    requires PackHeader(name, size).Header?
    ensures var b := PackHeader(name, size).block;
            if |name| <= 100 then
              b[..|name|] == name && AllZero(b[|name|..100]) && AllZero(b[345..500])
            else
              exists p: nat :: p < |name| && p <= 155 && |name| - p - 1 <= 100 && name[p] == 47
                && b[345..345 + p] == name[..p] && AllZero(b[345 + p..500])
                && b[..|name| - p - 1] == name[p + 1..] && AllZero(b[|name| - p - 1..100])
  {
    PackHeaderAccepts(name, size);
    hide PackHeader, StrNCpyBytes, AllZero;
    var (prefix, suffix) := SplitName(name).value;
    var b := PackHeader(name, size).block;
    PackedFields(name, size);
    FieldHolds(b, 0, 100, suffix);
    FieldHolds(b, 345, 155, prefix);
    assert b[0..|suffix|] == b[..|suffix|] && b[0 + |suffix|..0 + 100] == b[|suffix|..100];
    if |name| > 100 {
      var p := FirstSplit(name, 0).value;
      assert b[345..345 + p] == name[..p] && b[..|name| - p - 1] == name[p + 1..];
    }
  }

  lemma {:induction false} FieldHolds(b: Block, at: nat, len: nat, text: Bytes)
    requires at + len <= 512 && |text| <= len && b[at..at + len] == StrNCpyBytes(text, len)
    ensures b[at..at + |text|] == text && AllZero(b[at + |text|..at + len])
  {
    var field := b[at..at + len];
    assert field[..|text|] == b[at..at + |text|] && field[|text|..] == b[at + |text|..at + len];
  }

  // ---------------------------------------------------------------------------------------------
  // What the parser lets through
  // ---------------------------------------------------------------------------------------------

  /** "ustar" with a NUL, and "00". */
  predicate HasMagic(b: Block) { b[257..263] == [117, 115, 116, 97, 114, 0] }
  predicate HasVersion(b: Block) { b[263..265] == [48, 48] }

  /** The checksum field, read as an octal number of 32 bits, is the sum with spaces. */
  predicate HasChecksum(b: Block) {
    match StrToOctal(b[148..156] + [0])
    case None => false
    case Some(v) => v % 0x1_0000_0000 == SumWithSpaces(b)
  }

  /** The verdict on a header, on literal bytes: each refusal exactly when the checks before it pass. */
  lemma {:induction false} VerdictMeaning(b: Block)
    ensures Validate(b) == InvalidMagic <==> !HasMagic(b)
    ensures Validate(b) == InvalidVersion <==> HasMagic(b) && !HasVersion(b)
    ensures Validate(b) == InvalidChecksum <==> HasMagic(b) && HasVersion(b) && !HasChecksum(b)
    ensures Validate(b) == Ok <==> HasMagic(b) && HasVersion(b) && HasChecksum(b)
  {
    hide Sum, StrToOctal;
    ChecksumCountsSpaces(b);
    assert b[257..263] == b[MAGIC_AT..MAGIC_AT + |MAGIC|] && b[263..265] == b[VERSION_AT..VERSION_AT + |VERSION|];
  }

  /**
   One changed byte is always noticed: outside the checksum field it leaves no valid header valid, and
   the checksum is what gives it away unless the byte is part of the magic or the version.
   */
  lemma {:induction false} OneChangedByteIsCaught(b: Block, i: nat, v: Byte)
    requires Validate(b) == Ok && i < 512 && !(148 <= i < 156) && v != b[i]
    ensures Validate(b[i := v])
         == if 257 <= i < 263 then InvalidMagic else if 263 <= i < 265 then InvalidVersion else InvalidChecksum
  {
    hide Sum, StrToOctal, Validate;
    var c: Block := b[i := v];
    VerdictMeaning(b);
    VerdictMeaning(c);
    assert c[148..156] == b[148..156];
    if 257 <= i < 263 {
      assert c[257..263][i - 257] != b[257..263][i - 257];
    } else {
      assert c[257..263] == b[257..263];
      if 263 <= i < 265 {
        assert c[263..265][i - 263] != b[263..265][i - 263];
      } else {
        assert c[263..265] == b[263..265];
        SumChanges(b, i, v);
      }
    }
  }

  lemma {:induction false} SumChanges(b: Block, i: nat, v: Byte)
    requires i < 512 && !(148 <= i < 156)
    ensures var c: Block := b[i := v]; SumWithSpaces(c) == SumWithSpaces(b) - b[i] + v
  {
    var c: Block := b[i := v];
    if i < 148 {
      SumOfChanged(b[..148], i, v);
      assert c[..148] == b[..148][i := v] && c[156..] == b[156..];
    } else {
      SumOfChanged(b[156..], i - 156, v);
      assert c[..148] == b[..148] && c[156..] == b[156..][i - 156 := v];
    }
  }

  lemma {:induction false} SumOfChanged(s: Bytes, i: nat, v: Byte)
    requires i < |s|
    ensures Sum(s[i := v]) == Sum(s) - s[i] + v
  {
    var left, right := s[..i], s[i + 1..];
    assert s == left + [s[i]] + right && s[i := v] == left + [v] + right;
    SumWithMiddle(left, s[i], right);
    SumWithMiddle(left, v, right);
  }

  /** The type flag in byte 156: '0' or NUL is a file, '5' a directory, and nothing else is supported. */
  lemma {:induction false} TypeMeaning(b: Block)
    ensures TypeOf(b) == RegularFile <==> b[156] == 48 || b[156] == 0
    ensures TypeOf(b) == Directory <==> b[156] == 53
    ensures TypeOf(b) == Unsupported <==> b[156] !in {0, 48, 53}
  {
  }

  // ---------------------------------------------------------------------------------------------
  // Reading a number field
  // ---------------------------------------------------------------------------------------------

  predicate IsBlank(c: Byte) { c == 32 || 9 <= c <= 13 }

  predicate AllBlank(s: Bytes) {
    forall i :: 0 <= i < |s| ==> IsBlank(s[i])
  }

  /** No byte of a number begins here. */
  predicate NoNumber(s: Bytes) {
    s == [] || !(IsBlank(s[0]) || s[0] == 43 || s[0] == 45 || 48 <= s[0] < 56)
  }

  /** Leading white space does not count; a sign may come before the digits; the first other byte ends them. */
  lemma {:induction false} StrToOctalParses(blanks: Bytes, sign: Bytes, digits: Bytes, rest: Bytes)
    requires AllBlank(blanks) && sign in {[], [43], [45]} && digits != [] && AllOctal(digits)
    requires rest == [] || !(48 <= rest[0] < 56)
    ensures StrToOctal(blanks + sign + digits + rest)
         == if sign != [45] then Some(OctalValue(digits))
            else Some((0x1_0000_0000_0000_0000 - OctalValue(digits) % 0x1_0000_0000_0000_0000) % 0x1_0000_0000_0000_0000)
  {
    hide OctalValue, OctalPrefix, SkipSpaces;
    var t := sign + digits + rest;
    assert blanks + sign + digits + rest == blanks + t;
    assert t[0] == if sign != [] then sign[0] else digits[0];
    SkipSpacesStops(blanks, t);
    OctalPrefixOf(digits, rest);
    assert (if sign != [] then t[1..] else t) == digits + rest;
  }

  /** Without a digit there is no number. */
  lemma {:induction false} StrToOctalNeedsDigits(blanks: Bytes, rest: Bytes)
    requires AllBlank(blanks) && NoNumber(rest)
    ensures StrToOctal(blanks + rest) == None
  {
    hide OctalValue, SkipSpaces;
    SkipSpacesStops(blanks, rest);
  }

  lemma {:induction false} SkipSpacesStops(blanks: Bytes, t: Bytes)
    requires AllBlank(blanks) && (t == [] || !IsBlank(t[0]))
    ensures SkipSpaces(blanks + t) == t
  {
    if blanks == [] {
      assert blanks + t == t;
    } else {
      assert (blanks + t)[1..] == blanks[1..] + t;
      SkipSpacesStops(blanks[1..], t);
    }
  }

  /** What a header announces, at literal offsets: the size field as an octal number cut to `size_t`. */
  lemma {:induction false} SizeField(b: Block, blanks: Bytes, digits: Bytes, rest: Bytes)
    requires b[124..136] == blanks + digits + rest && AllBlank(blanks) && AllOctal(digits)
    requires if digits == [] then NoNumber(rest) else rest == [] || !(48 <= rest[0] < 56)
    ensures FileSize(b) == if digits == [] then None else Some(OctalValue(digits) % SIZE_MODULUS)
  {
    hide StrToOctal;
    if digits == [] {
      StrToOctalNeedsDigits(blanks, rest + [0]);
      assert blanks + (rest + [0]) == b[124..136] + [0];
    } else {
      StrToOctalParses(blanks, [], digits, rest + [0]);
      assert blanks + [] + digits + (rest + [0]) == b[124..136] + [0];
    }
  }
}
