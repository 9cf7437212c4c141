/**
 The pieces of the C library the device manager leans on: bytes, NUL-terminated strings,
 octal formatting (`snprintf("%0*o")`) and octal parsing (`strtoull(..., 8)`).
 */
module CLib {

  type Byte = b: int | 0 <= b < 256
  type Bytes = seq<Byte>

  const NUL: Byte := 0
  const SPACE: Byte := 32
  const PLUS: Byte := 43
  const MINUS: Byte := 45
  const DOT: Byte := 46
  const SLASH: Byte := 47
  const DIGIT_ZERO: Byte := 48

  /** `size_t` is 32 or 64 bits wide, depending on the board. */
  type Modulus = m: nat | m == 0x1_0000_0000 || m == 0x1_0000_0000_0000_0000 witness 0x1_0000_0000
  const SIZE_MODULUS: Modulus

  const ULLONG_MODULUS: nat := 0x1_0000_0000_0000_0000

  datatype Option<+T> = None | Some(value: T)

  lemma {:induction false} Associative<T>(a: seq<T>, b: seq<T>, c: seq<T>)
    ensures (a + b) + c == a + (b + c)
  {
  }

  function Min(a: nat, b: nat): nat { if a <= b then a else b }

  function Zeros(n: nat): (s: Bytes)
    ensures |s| == n
  {
    seq(n, i => NUL)
  }

  predicate AllZero(s: Bytes) {
    forall i :: 0 <= i < |s| ==> s[i] == NUL
  }

  predicate NulFree(s: Bytes) {
    forall i :: 0 <= i < |s| ==> s[i] != NUL
  }

  /**
   `(p[0] != 0) || memcmp(p, p + 1, n - 1) != 0` is the source's test for a run of `n >= 1` bytes
   that are not all zero: comparing a run with itself shifted by one spreads the first byte.
   */
  predicate OverlappingCompareIsZero(s: Bytes)
    requires s != []
  {
    s[0] == NUL && s[..|s| - 1] == s[1..]
  }

  lemma {:induction false} OverlappingCompareFinds(s: Bytes)
    requires s != []
    ensures OverlappingCompareIsZero(s) <==> AllZero(s)
  {
    if OverlappingCompareIsZero(s) {
      forall i | 0 <= i < |s| ensures s[i] == NUL { OverlappingCompareSpreads(s, i); }
    }
    if AllZero(s) {
      assert forall i :: 0 <= i < |s| - 1 ==> s[..|s| - 1][i] == s[1..][i];
    }
  }

  lemma {:induction false} OverlappingCompareSpreads(s: Bytes, i: nat)
    requires i < |s| && OverlappingCompareIsZero(s)
    ensures s[i] == NUL
  {
    if i > 0 {
      OverlappingCompareSpreads(s, i - 1);
      assert s[..|s| - 1][i - 1] == s[1..][i - 1];
    }
  }

  lemma {:induction false} AllZeroIsZeros(s: Bytes)
    requires AllZero(s)
    ensures s == Zeros(|s|)
  {
  }

  /** The string a C pointer denotes: everything before the first NUL (all of it when there is none). */
  function CStr(buffer: Bytes): (s: Bytes)
    ensures |s| <= |buffer| && s == buffer[..|s|] && NulFree(s)
    ensures |s| < |buffer| ==> buffer[|s|] == NUL
  {
    if buffer == [] || buffer[0] == NUL then [] else [buffer[0]] + CStr(buffer[1..])
  }

  lemma {:induction false} CStrOfTerminated(s: Bytes, rest: Bytes)
    requires NulFree(s)
    requires rest == [] || rest[0] == NUL
    ensures CStr(s + rest) == s
  {
    if s == [] {
      assert s + rest == rest;
    } else {
      assert s + rest == [s[0]] + (s[1..] + rest);
      CStrOfTerminated(s[1..], rest);
    }
  }

  // ---------------------------------------------------------------------------------------------
  // Byte sums
  // ---------------------------------------------------------------------------------------------

  function Sum(s: Bytes): (n: nat)
    ensures n <= 255 * |s|
  {
    if s == [] then 0 else Sum(s[..|s| - 1]) + s[|s| - 1]
  }

  lemma {:induction false} SumOfConcat(a: Bytes, b: Bytes)
    ensures Sum(a + b) == Sum(a) + Sum(b)
  {
    if b == [] {
      assert a + b == a;
    } else {
      assert (a + b)[..|a + b| - 1] == a + b[..|b| - 1];
      SumOfConcat(a, b[..|b| - 1]);
    }
  }

  // ---------------------------------------------------------------------------------------------
  // Memory: overwriting part of a buffer
  // ---------------------------------------------------------------------------------------------

  /** The buffer after `memcpy(buffer + at, bytes, |bytes|)`. */
  function Splice(buffer: Bytes, at: nat, bytes: Bytes): (r: Bytes)
    requires at + |bytes| <= |buffer|
    ensures |r| == |buffer|
    ensures forall i :: 0 <= i < |r| ==> r[i] == if at <= i < at + |bytes| then bytes[i - at] else buffer[i]
  {
    buffer[..at] + bytes + buffer[at + |bytes|..]
  }

  /** `memcpy`, `memset` and `strncpy` all overwrite a window of their destination. */
  method CopyInto(buffer: array<Byte>, at: nat, bytes: Bytes)
    requires at + |bytes| <= buffer.Length
    modifies buffer
    ensures buffer[..] == Splice(old(buffer[..]), at, bytes)
  {
    ghost var before := buffer[..];
    for i := 0 to |bytes|
      invariant buffer[..] == before[..at] + bytes[..i] + before[at + i..]
    {
      buffer[at + i] := bytes[i];
    }
  }

  /** What `strncpy(dst, src, n)` stores: the source cut at `n`, NUL-padded up to `n`. */
  function StrNCpyBytes(src: Bytes, n: nat): (r: Bytes)
    ensures |r| == n
  {
    if |src| >= n then src[..n] else src + Zeros(n - |src|)
  }

  lemma {:induction false} StrNCpyReadsBack(src: Bytes, n: nat)
    requires NulFree(src) && |src| <= n
    ensures CStr(StrNCpyBytes(src, n)) == src
  {
    if |src| == n {
      assert StrNCpyBytes(src, n) == src + [];
      CStrOfTerminated(src, []);
    } else {
      CStrOfTerminated(src, Zeros(n - |src|));
    }
  }

  // ---------------------------------------------------------------------------------------------
  // Octal numbers
  // ---------------------------------------------------------------------------------------------

  function Pow8(n: nat): (p: nat)
    ensures p >= 1
  {
    if n == 0 then 1 else 8 * Pow8(n - 1)
  }

  predicate IsOctalDigit(b: Byte) { DIGIT_ZERO <= b < DIGIT_ZERO + 8 }

  predicate AllOctal(s: Bytes) {
    forall i :: 0 <= i < |s| ==> IsOctalDigit(s[i])
  }

  /** `%o`: the shortest octal numeral of a value. */
  function OctalNumeral(v: nat): (s: Bytes)
    ensures s != [] && AllOctal(s)
  {
    if v < 8 then [DIGIT_ZERO + v] else OctalNumeral(v / 8) + [DIGIT_ZERO + v % 8]
  }

  /** `%0*o`: the numeral padded on the left with zero digits. */
  function PaddedOctal(v: nat, width: nat): (s: Bytes)
    ensures |s| >= width && AllOctal(s)
  {
    var numeral := OctalNumeral(v);
    if |numeral| >= width then numeral else seq(width - |numeral|, i => DIGIT_ZERO) + numeral
  }

  function OctalValue(digits: Bytes): nat
    requires AllOctal(digits)
  {
    if digits == [] then 0
    else OctalValue(digits[..|digits| - 1]) * 8 + (digits[|digits| - 1] - DIGIT_ZERO)
  }

  lemma {:induction false} NumeralReadsBack(v: nat)
    ensures OctalValue(OctalNumeral(v)) == v
  {
    if v >= 8 {
      NumeralReadsBack(v / 8);
      assert OctalNumeral(v)[..|OctalNumeral(v)| - 1] == OctalNumeral(v / 8);
    }
  }

  lemma {:induction false} NumeralLength(v: nat, n: nat)
    requires n >= 1
    ensures |OctalNumeral(v)| <= n <==> v < Pow8(n)
  {
    if n == 1 {
      assert Pow8(1) == 8 * Pow8(0) == 8;
    } else if v >= 8 {
      NumeralLength(v / 8, n - 1);
      assert v / 8 < Pow8(n - 1) <==> v < 8 * Pow8(n - 1);
    } else {
      assert Pow8(n) == 8 * Pow8(n - 1) >= 8;
    }
  }

  lemma {:induction false} LeadingZeroDigits(k: nat, digits: Bytes)
    requires AllOctal(digits)
    ensures AllOctal(seq(k, i => DIGIT_ZERO) + digits)
    ensures OctalValue(seq(k, i => DIGIT_ZERO) + digits) == OctalValue(digits)
    decreases |digits| + k
  {
    var padded := seq(k, i => DIGIT_ZERO) + digits;
    if digits == [] {
      if k > 0 {
        var fewer := seq(k - 1, i => DIGIT_ZERO) + [];
        LeadingZeroDigits(k - 1, []);
        assert padded[..|padded| - 1] == fewer;
      }
    } else {
      LeadingZeroDigits(k, digits[..|digits| - 1]);
      assert padded[..|padded| - 1] == seq(k, i => DIGIT_ZERO) + digits[..|digits| - 1];
    }
  }

  lemma {:induction false} PaddedOctalReadsBack(v: nat, width: nat)
    ensures OctalValue(PaddedOctal(v, width)) == v
  {
    NumeralReadsBack(v);
    var numeral := OctalNumeral(v);
    if |numeral| < width {
      LeadingZeroDigits(width - |numeral|, numeral);
    }
  }

  predicate IsSpace(b: Byte) { b == SPACE || 9 <= b <= 13 }

  function SkipSpaces(s: Bytes): (r: Bytes)
    ensures |r| <= |s|
  {
    if s != [] && IsSpace(s[0]) then SkipSpaces(s[1..]) else s
  }

  function OctalPrefix(s: Bytes): (r: Bytes)
    ensures |r| <= |s| && AllOctal(r)
  {
    if s == [] || !IsOctalDigit(s[0]) then [] else [s[0]] + OctalPrefix(s[1..])
  }

  /**
   `strtoull(s, &end, 8)`: leading white space, an optional sign, then octal digits; `None` when no
   digit was consumed (`end == s`). A minus sign negates in unsigned arithmetic. The fields this is
   used on hold at most 12 characters, so the value never saturates.
   */
  function StrToOctal(s: Bytes): (r: Option<nat>)
  {
    var t := SkipSpaces(s);
    var negative := t != [] && t[0] == MINUS;
    var digits := OctalPrefix(if t != [] && (t[0] == MINUS || t[0] == PLUS) then t[1..] else t);
    if digits == [] then None
    else
      var v := OctalValue(digits);
      Some(if negative then (ULLONG_MODULUS - v % ULLONG_MODULUS) % ULLONG_MODULUS else v)
  }

  lemma {:induction false} OctalPrefixOf(digits: Bytes, rest: Bytes)
    requires AllOctal(digits)
    requires rest == [] || !IsOctalDigit(rest[0])
    ensures OctalPrefix(digits + rest) == digits
  {
    if digits == [] {
      assert digits + rest == rest;
    } else {
      assert digits + rest == [digits[0]] + (digits[1..] + rest);
      OctalPrefixOf(digits[1..], rest);
    }
  }

  lemma {:induction false} StrToOctalOfDigits(digits: Bytes, rest: Bytes)
    requires digits != [] && AllOctal(digits)
    requires rest == [] || !IsOctalDigit(rest[0])
    ensures StrToOctal(digits + rest) == Some(OctalValue(digits))
  {
    OctalPrefixOf(digits, rest);
    assert (digits + rest)[0] == digits[0];
  }
}
