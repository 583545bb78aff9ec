/**
 * The parts of the C library the LC29H driver relies on, with the
 * semantics of glibc on an LP64 target: NUL-terminated strings, `strlen`,
 * `strchr`, `strncmp`, `strcmp`, `atoi`, `strtol(…, 16)`, `sprintf("%02X")`
 * and the integer conversions of C.
 *
 * A C string is modelled as a `seq<char>` that holds no NUL; a fixed-size
 * `char` buffer is a `seq<char>` (or an `array<char>`) that holds a C string
 * followed by zero bytes. Every buffer the driver hands to the codec is
 * declared `= {0}`, so reading past the terminator reads zeros.
 */
module CLib {

  const NUL: char := '\0'

  const Int32Min: int := -0x8000_0000
  const Int32Max: int := 0x7FFF_FFFF
  const LongMin: int := -0x8000_0000_0000_0000
  const LongMax: int := 0x7FFF_FFFF_FFFF_FFFF

  /** The C integer types the driver stores, as ranges of `int`. */
  type int16 = x: int | -0x8000 <= x < 0x8000
  type int32 = x: int | Int32Min <= x <= Int32Max
  type uint8 = x: int | 0 <= x < 0x100
  type uint16 = x: int | 0 <= x < 0x1_0000
  type uint32 = x: int | 0 <= x < 0x1_0000_0000

  /** A well-formed C string body: no NUL inside. */
  predicate NoNul(s: seq<char>) {
    forall i :: 0 <= i < |s| ==> s[i] != NUL
  }

  /** `buf[i]` for a buffer that holds `s` followed by zero bytes. */
  function CAt(s: seq<char>, i: int): char {
    if 0 <= i < |s| then s[i] else NUL
  }

  /** The C string that starts at `buf + i`, for that same buffer. */
  function CStrAt(s: seq<char>, i: int): (t: seq<char>)
    ensures NoNul(s) ==> NoNul(t)
  {
    if 0 <= i <= |s| then s[i..] else []
  }

  /** First index of `c` in `s`, or `|s|` when there is none. */
  function IndexOf(s: seq<char>, c: char): (k: nat)
    ensures k <= |s|
    ensures k < |s| ==> s[k] == c
    ensures forall j :: 0 <= j < k ==> s[j] != c
  {
    if |s| == 0 then 0
    else if s[0] == c then 0
    else 1 + IndexOf(s[1..], c)
  }

  /** `strlen`: the length of the C string at the start of a buffer. */
  function StrLen(b: seq<char>): (n: nat)
    ensures n <= |b|
    ensures NoNul(b[..n])
    ensures n < |b| ==> b[n] == NUL
  {
    IndexOf(b, NUL)
  }

  /** The string held by a buffer: everything before its first NUL. */
  function CStr(b: seq<char>): (s: seq<char>)
    ensures NoNul(s) && |s| <= |b|
  {
    b[..StrLen(b)]
  }

  /** A buffer that holds a terminated C string and only zero bytes after it. */
  ghost predicate IsCBuffer(b: seq<char>) {
    StrLen(b) < |b| && forall k :: StrLen(b) <= k < |b| ==> b[k] == NUL
  }

  /** A zero-filled buffer of `size` bytes after `strcpy(buf, s)`. */
  function Padded(s: seq<char>, size: nat): (b: seq<char>)
    requires |s| < size
    ensures |b| == size
  {
    s + seq(size - |s|, _ => NUL)
  }

  lemma PaddedHoldsString(s: seq<char>, size: nat)
    requires NoNul(s) && |s| < size
    ensures StrLen(Padded(s, size)) == |s|
    ensures CStr(Padded(s, size)) == s
    ensures IsCBuffer(Padded(s, size))
  {
    var b := Padded(s, size);
    assert b[|s|] == NUL;
    assert forall j :: 0 <= j < |s| ==> b[j] == s[j];
    assert StrLen(b) == |s|;
  }

  /** A string without NUL bytes is its own C string. */
  lemma CStrOfNoNul(s: seq<char>)
    requires NoNul(s)
    ensures CStr(s) == s
  {
    assert StrLen(s) == |s|;
  }

  /** A buffer viewed as its C string reads the same bytes at every index. */
  lemma CBufferReads(b: seq<char>, i: int)
    requires IsCBuffer(b) && 0 <= i < |b|
    ensures b[i] == CAt(CStr(b), i)
  {
  }

  // ---------------------------------------------------------------
  // Character classes
  // ---------------------------------------------------------------

  /** `isspace` in the "C" locale: space, \t, \n, \v, \f, \r. */
  predicate IsSpace(c: char) {
    c == ' ' || ('\t' <= c <= '\r')
  }

  /** Value of a digit in bases up to 16 (either case), 99 for anything else. */
  function DigitValue(c: char): (v: nat)
    ensures v < 16 || v == 99
  {
    if '0' <= c <= '9' then (c as int) - ('0' as int)
    else if 'a' <= c <= 'f' then (c as int) - ('a' as int) + 10
    else if 'A' <= c <= 'F' then (c as int) - ('A' as int) + 10
    else 99
  }

  predicate IsDigitIn(c: char, base: nat) {
    DigitValue(c) < base
  }

  /** Number of leading characters of `s` that are digits of `base`. */
  function DigitRun(s: seq<char>, base: nat): (n: nat)
    ensures n <= |s|
  {
    if |s| > 0 && IsDigitIn(s[0], base) then 1 + DigitRun(s[1..], base) else 0
  }

  /** Value of a run of digits, most significant first. */
  function DigitsValue(d: seq<char>, base: nat): nat {
    if |d| == 0 then 0
    else DigitsValue(d[..|d| - 1], base) * base + DigitValue(d[|d| - 1])
  }

  /** Base 16 accepts an optional "0x" or "0X" prefix. */
  function AfterHexPrefix(u: seq<char>, base: nat): seq<char> {
    if base == 16 && |u| >= 2 && u[0] == '0' && (u[1] == 'x' || u[1] == 'X') then u[2..] else u
  }

  /** Value of the longest leading run of digits; 0 when there is none. */
  function Magnitude(v: seq<char>, base: nat): nat {
    DigitsValue(v[..DigitRun(v, base)], base)
  }

  /**
   * The mathematical value `strtol(s, NULL, base)` computes before it
   * clamps: leading white space is skipped, then an optional sign, for
   * base 16 an optional "0x"/"0X" prefix, then the longest run of digits;
   * 0 when there is none.
   */
  function StrtolValue(s: seq<char>, base: nat): int
    requires base == 10 || base == 16
  {
    if |s| == 0 then 0
    else if IsSpace(s[0]) then StrtolValue(s[1..], base)
    else if s[0] == '-' then -(Magnitude(AfterHexPrefix(s[1..], base), base) as int)
    else if s[0] == '+' then Magnitude(AfterHexPrefix(s[1..], base), base)
    else Magnitude(AfterHexPrefix(s, base), base)
  }

  /** `strtol` saturates at the bounds of `long`. */
  function ClampLong(x: int): (r: int)
    ensures LongMin <= r <= LongMax
    ensures LongMin <= x <= LongMax ==> r == x
  {
    if x < LongMin then LongMin else if x > LongMax then LongMax else x
  }

  /**
   * Conversion of an integer to `int`: two's complement wrap-around, that
   * is, adding or subtracting 2^32 until the value is in range.
   */
  function ToInt32(x: int): (r: int32)
    ensures Int32Min <= x <= Int32Max ==> r == x
    decreases if x > Int32Max then x - Int32Max else if x < Int32Min then Int32Min - x else 0
  {
    if x > Int32Max then ToInt32(x - 0x1_0000_0000)
    else if x < Int32Min then ToInt32(x + 0x1_0000_0000)
    else x
  }

  /** Conversion to `uint8_t`. */
  function ToU8(x: int): (r: uint8)
    ensures 0 <= x < 0x100 ==> r == x
  {
    x % 0x100
  }

  /** Conversion to `uint16_t`. */
  function ToU16(x: int): (r: uint16)
    ensures 0 <= x < 0x1_0000 ==> r == x
  {
    x % 0x1_0000
  }

  /** Conversion to `uint32_t`. */
  function ToU32(x: int): (r: uint32)
    ensures 0 <= x < 0x1_0000_0000 ==> r == x
  {
    x % 0x1_0000_0000
  }

  /** Conversion of an `int` to `bool`: any non-zero value is true. */
  function ToBool(x: int): bool {
    x != 0
  }

  /** `atoi(s)` as glibc defines it: `(int) strtol(s, NULL, 10)`. */
  function Atoi(s: seq<char>): int32 {
    ToInt32(ClampLong(StrtolValue(s, 10)))
  }

  /** `strtol(s, NULL, 16)`; lower- and upper-case hex digits are both accepted. */
  function Strtol16(s: seq<char>): (r: int)
    ensures LongMin <= r <= LongMax
  {
    ClampLong(StrtolValue(s, 16))
  }

  /** `strncmp(a, b, n) == 0` for two C strings. */
  predicate StrnEqual(a: seq<char>, b: seq<char>, n: nat) {
    (if |a| <= n then a else a[..n]) == (if |b| <= n then b else b[..n])
  }

  /** Agreement over `n` bytes implies agreement over any shorter window. */
  lemma StrnEqualShorter(a: seq<char>, b: seq<char>, n: nat, m: nat)
    requires m <= n && StrnEqual(a, b, n)
    ensures StrnEqual(a, b, m)
  {
    var pa := if |a| <= n then a else a[..n];
    var pb := if |b| <= n then b else b[..n];
    assert (if |a| <= m then a else a[..m]) == (if |pa| <= m then pa else pa[..m]);
    assert (if |b| <= m then b else b[..m]) == (if |pb| <= m then pb else pb[..m]);
  }

  /**
   * `strncmp` compares byte by byte and stops at the first NUL; for C
   * strings that is the same as comparing the first `n` bytes of the two
   * zero-padded buffers.
   */
  lemma StrnEqualBytewise(a: seq<char>, b: seq<char>, n: nat)
    requires NoNul(a) && NoNul(b)
    ensures StrnEqual(a, b, n) <==> forall i :: 0 <= i < n ==> CAt(a, i) == CAt(b, i)
  {
    var pa := if |a| <= n then a else a[..n];
    var pb := if |b| <= n then b else b[..n];
    if forall i :: 0 <= i < n ==> CAt(a, i) == CAt(b, i) {
      if |a| < n {
        assert CAt(b, |a|) == CAt(a, |a|);
      }
      if |b| < n {
        assert CAt(a, |b|) == CAt(b, |b|);
      }
      assert |pa| == |pb|;
      assert forall i :: 0 <= i < |pa| ==> pa[i] == CAt(a, i) == CAt(b, i) == pb[i];
    }
    if StrnEqual(a, b, n) {
      forall i | 0 <= i < n ensures CAt(a, i) == CAt(b, i) {
        if i < |pa| {
          assert CAt(a, i) == pa[i] && CAt(b, i) == pb[i];
        }
      }
    }
  }

  // ---------------------------------------------------------------
  // Rendering numbers as text
  // ---------------------------------------------------------------

  /** The upper-case hex digit for 0..15, as `%X` prints it. */
  function HexDigit(v: int): (c: char)
    requires 0 <= v < 16
    ensures DigitValue(c) == v
    ensures !IsSpace(c) && c != '-' && c != '+' && c != 'x' && c != 'X'
  {
    if v < 10 then ('0' as int + v) as char else ('A' as int + v - 10) as char
  }

  /** `sprintf(buf, "%02X", b)`: two upper-case hex digits. */
  function HexByte(b: bv8): (s: seq<char>)
    ensures |s| == 2 && NoNul(s)
  {
    [HexDigit(b as int / 16), HexDigit(b as int % 16)]
  }

  /** Decimal digits of a natural number, most significant first. */
  function NatDigits(n: nat): (s: seq<char>)
    ensures |s| > 0
    ensures forall j :: 0 <= j < |s| ==> IsDigitIn(s[j], 10) && s[j] != NUL
  {
    if n < 10 then [('0' as int + n) as char]
    else NatDigits(n / 10) + [('0' as int + n % 10) as char]
  }

  /** `sprintf(buf, "%d", i)`. */
  function IntToDecimal(i: int): (s: seq<char>)
    ensures NoNul(s)
  {
    if i < 0 then "-" + NatDigits(-i) else NatDigits(i)
  }

  lemma {:induction false} NatDigitsValue(n: nat)
    ensures DigitsValue(NatDigits(n), 10) == n
  {
    var d := NatDigits(n);
    if n >= 10 {
      NatDigitsValue(n / 10);
      assert d[..|d| - 1] == NatDigits(n / 10);
    }
  }

  lemma {:induction false} DigitRunOfDigits(d: seq<char>, rest: seq<char>, base: nat)
    requires forall j :: 0 <= j < |d| ==> IsDigitIn(d[j], base)
    requires |rest| > 0 ==> !IsDigitIn(rest[0], base)
    ensures DigitRun(d + rest, base) == |d|
  {
    if |d| > 0 {
      DigitRunOfDigits(d[1..], rest, base);
      assert (d + rest)[1..] == d[1..] + rest;
    }
  }

  lemma MagnitudeOfDigits(d: seq<char>, rest: seq<char>, base: nat)
    requires forall j :: 0 <= j < |d| ==> IsDigitIn(d[j], base)
    requires |rest| > 0 ==> !IsDigitIn(rest[0], base)
    ensures Magnitude(d + rest, base) == DigitsValue(d, base)
  {
    DigitRunOfDigits(d, rest, base);
    assert (d + rest)[..|d|] == d;
  }

  /** Text that starts with a digit has no white space or sign to skip. */
  lemma StrtolOfUnsigned(t: seq<char>)
    requires |t| > 0 && '0' <= t[0] <= '9'
    ensures StrtolValue(t, 10) == Magnitude(t, 10)
  {
    assert !IsSpace(t[0]) && t[0] != '-' && t[0] != '+';
    assert AfterHexPrefix(t, 10) == t;
  }

  /** A leading minus sign negates the digits that follow it. */
  lemma StrtolOfNegative(t: seq<char>)
    requires |t| > 1 && t[0] == '-' && '0' <= t[1] <= '9'
    ensures StrtolValue(t, 10) == -(Magnitude(t[1..], 10) as int)
  {
    assert !IsSpace(t[0]);
    assert AfterHexPrefix(t[1..], 10) == t[1..];
  }

  /** `strtol(…, 10)` of a digit run not preceded by white space or a sign. */
  lemma StrtolOfDigits(d: seq<char>, rest: seq<char>)
    requires |d| > 0 && forall j :: 0 <= j < |d| ==> IsDigitIn(d[j], 10)
    requires |rest| > 0 ==> !IsDigitIn(rest[0], 10)
    ensures StrtolValue(d + rest, 10) == DigitsValue(d, 10)
  {
    assert (d + rest)[0] == d[0];
    StrtolOfUnsigned(d + rest);
    MagnitudeOfDigits(d, rest, 10);
  }

  /** `strtol(…, 10)` of a minus sign followed by a digit run. */
  lemma StrtolOfNegativeDigits(d: seq<char>, rest: seq<char>)
    requires |d| > 0 && forall j :: 0 <= j < |d| ==> IsDigitIn(d[j], 10)
    requires |rest| > 0 ==> !IsDigitIn(rest[0], 10)
    ensures StrtolValue("-" + (d + rest), 10) == -(DigitsValue(d, 10) as int)
  {
    var u := d + rest;
    assert u[0] == d[0] && IsDigitIn(d[0], 10);
    var t := "-" + u;
    assert t[1..] == u;
    StrtolOfNegative(t);
    MagnitudeOfDigits(d, rest, 10);
  }

  /** Concatenation regrouped, for the steps below. */
  lemma ConcatAssociative(a: seq<char>, b: seq<char>, c: seq<char>)
    ensures (a + b) + c == a + (b + c)
  {
  }

  lemma StrtolOfNegativeDecimal(m: nat, rest: seq<char>)
    requires m > 0
    requires |rest| > 0 ==> !IsDigitIn(rest[0], 10)
    ensures StrtolValue(("-" + NatDigits(m)) + rest, 10) == -(m as int)
  {
    NatDigitsValue(m);
    StrtolOfNegativeDigits(NatDigits(m), rest);
    ConcatAssociative("-", NatDigits(m), rest);
  }

  /**
   * `strtol(…, 10)` reads back what `%d` printed, whatever non-digit follows
   * it: the decimal rendering of any `int` parses to that `int`.
   */
  lemma StrtolOfDecimal(i: int, rest: seq<char>)
    requires |rest| > 0 ==> !IsDigitIn(rest[0], 10)
    ensures StrtolValue(IntToDecimal(i) + rest, 10) == i
  {
    if i < 0 {
      StrtolOfNegativeDecimal(-i, rest);
    } else {
      StrtolOfNatDecimal(i, rest);
    }
  }

  lemma StrtolOfNatDecimal(n: nat, rest: seq<char>)
    requires |rest| > 0 ==> !IsDigitIn(rest[0], 10)
    ensures StrtolValue(NatDigits(n) + rest, 10) == n
  {
    NatDigitsValue(n);
    StrtolOfDigits(NatDigits(n), rest);
  }

  /** `atoi` reads back what `%d` printed for every `int` value. */
  lemma AtoiOfDecimal(i: int, rest: seq<char>)
    requires Int32Min <= i <= Int32Max
    requires |rest| > 0 ==> !IsDigitIn(rest[0], 10)
    ensures Atoi(IntToDecimal(i) + rest) == i
  {
    StrtolOfDecimal(i, rest);
  }

  /** `strtol(…, 16)` reads back the two digits `%02X` printed. */
  lemma Strtol16OfHexByte(b: bv8)
    ensures Strtol16(HexByte(b)) == b as int
  {
    var s := HexByte(b);
    Strtol16OfTwoDigits(s[0], s[1]);
    assert [s[0], s[1]] == s;
  }

  /** `atoi` of text that starts with neither white space, a sign nor a digit is 0. */
  lemma AtoiOfNonNumeric(t: seq<char>)
    requires |t| > 0 && !IsSpace(t[0]) && t[0] != '-' && t[0] != '+' && !IsDigitIn(t[0], 10)
    ensures Atoi(t) == 0
  {
    assert AfterHexPrefix(t, 10) == t;
    assert DigitRun(t, 10) == 0;
  }

  /**
   * `strtol(…, 16)` of two hex digits, each in either case, is their value:
   * so a checksum written in lower case, such as "3e", reads as 0x3E.
   */
  lemma Strtol16OfTwoDigits(a: char, b: char)
    requires IsDigitIn(a, 16) && IsDigitIn(b, 16)
    ensures Strtol16([a, b]) == 16 * DigitValue(a) + DigitValue(b)
  {
    var s := [a, b];
    assert AfterHexPrefix(s, 16) == s;
    assert DigitRun(s, 16) == 2 by {
      assert DigitRun(s[1..], 16) == 1 by { assert s[1..][1..] == []; }
    }
    assert s[..2] == s;
    assert s[..1] == [a];
    assert DigitsValue(s, 16) == DigitsValue([a], 16) * 16 + DigitValue(b);
    assert DigitsValue([a], 16) == DigitsValue([], 16) * 16 + DigitValue(a);
  }
}
