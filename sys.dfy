/**
 * The C ABI the binding talks through: bytes, `c_int`, `dev_t`, `usize`,
 * NUL-terminated strings behind possibly-null pointers, the two errno values
 * the binding names, and the parts of Rust's standard library whose exact
 * behaviour the binding relies on (`CStr::from_ptr`, `str::from_utf8`,
 * `usize::from_str`).
 */
module Sys {

  type Byte = b: int | 0 <= b < 0x100
  type Bytes = seq<Byte>
  const NUL: Byte := 0

  /** `c_int` on Linux: 32-bit two's complement. */
  const INT_MIN: int := -0x8000_0000
  const INT_MAX: int := 0x7fff_ffff
  type CInt = x: int | INT_MIN <= x <= INT_MAX

  /** `dev_t` and `usize` on 64-bit Linux. */
  const U64_MAX: int := 0xffff_ffff_ffff_ffff
  type DevT = x: int | 0 <= x <= U64_MAX
  const USIZE_MAX: int := U64_MAX

  /** Linux errno values. */
  const ENOMEM: CInt := 12
  const EINVAL: CInt := 22

  datatype Option<+T> = None | Some(value: T)

  datatype Result<+T, +E> = Ok(value: T) | Err(error: E)

  /** The empty tuple `()` of `Result<()>`. */
  datatype Unit = Unit

  /** Memory from a C string's first byte on: somewhere in it is the terminating NUL. */
  type CStr = s: Bytes | NUL in s witness [NUL]

  /** A `*const c_char`: null, or pointing at a C string. */
  datatype CPtr = Null | At(mem: CStr)

  /** The bytes `strlen` counts: everything before the first NUL. */
  function Strlen(s: CStr): (n: nat)
    ensures n < |s| && s[n] == NUL
    ensures forall i :: 0 <= i < n ==> s[i] != NUL
  {
    if s[0] == NUL then 0 else (assert NUL in s[1..]; 1 + Strlen(s[1..]))
  }

  /** The C string holding exactly `b` (what `CString::new(b)` allocates). */
  function CStrOf(b: Bytes): (s: CStr)
    requires NUL !in b
    ensures |s| == |b| + 1 && s[..|b|] == b && Strlen(s) == |b|
  {
    var s: CStr := b + [NUL];
    assert s[|b|] == NUL;
    StrlenIsFirstNul(s, |b|);
    s
  }

  lemma StrlenIsFirstNul(s: CStr, n: nat)
    requires n < |s| && s[n] == NUL
    requires forall i :: 0 <= i < n ==> s[i] != NUL
    ensures Strlen(s) == n
  {
  }

  /** Negation of a `c_int` in a release build: -INT_MIN wraps round to INT_MIN. */
  function WrappingNeg(x: CInt): (r: CInt)
    ensures x != INT_MIN ==> r == -x
    ensures x == INT_MIN ==> r == INT_MIN
  {
    if x == INT_MIN then INT_MIN else -x
  }

  predicate IsAscii(s: Bytes) {
    forall i :: 0 <= i < |s| ==> s[i] < 0x80
  }

  predicate IsContinuation(b: Byte) {
    0x80 <= b <= 0xBF
  }

  /** Well-formed UTF-8 as `str::from_utf8` accepts it (Unicode, table 3-7). */
  predicate ValidUtf8(s: Bytes)
    decreases |s|
  {
    if s == [] then true
    else if s[0] < 0x80 then ValidUtf8(s[1..])
    else if 0xC2 <= s[0] <= 0xDF then
      |s| >= 2 && IsContinuation(s[1]) && ValidUtf8(s[2..])
    else if s[0] == 0xE0 then
      |s| >= 3 && 0xA0 <= s[1] <= 0xBF && IsContinuation(s[2]) && ValidUtf8(s[3..])
    else if (0xE1 <= s[0] <= 0xEC) || s[0] == 0xEE || s[0] == 0xEF then
      |s| >= 3 && IsContinuation(s[1]) && IsContinuation(s[2]) && ValidUtf8(s[3..])
    else if s[0] == 0xED then
      |s| >= 3 && 0x80 <= s[1] <= 0x9F && IsContinuation(s[2]) && ValidUtf8(s[3..])
    else if s[0] == 0xF0 then
      |s| >= 4 && 0x90 <= s[1] <= 0xBF && IsContinuation(s[2]) && IsContinuation(s[3])
      && ValidUtf8(s[4..])
    else if 0xF1 <= s[0] <= 0xF3 then
      |s| >= 4 && IsContinuation(s[1]) && IsContinuation(s[2]) && IsContinuation(s[3])
      && ValidUtf8(s[4..])
    else if s[0] == 0xF4 then
      |s| >= 4 && 0x80 <= s[1] <= 0x8F && IsContinuation(s[2]) && IsContinuation(s[3])
      && ValidUtf8(s[4..])
    else false
  }

  /** Every ASCII byte string is valid UTF-8. */
  lemma {:induction false} AsciiIsUtf8(s: Bytes)
    requires IsAscii(s)
    ensures ValidUtf8(s)
  {
    if s != [] {
      assert IsAscii(s[1..]) by {
        forall i | 0 <= i < |s[1..]| ensures s[1..][i] < 0x80 {
          assert s[1..][i] == s[i + 1];
        }
      }
      AsciiIsUtf8(s[1..]);
    }
  }

  /** Some of `str::to_str`: the text when the bytes are UTF-8, else nothing. */
  function ToStr(s: Bytes): (r: Option<Bytes>)
    ensures r.Some? <==> ValidUtf8(s)
    ensures r.Some? ==> r.value == s
  {
    if ValidUtf8(s) then Some(s) else None
  }

  const PLUS: Byte := 0x2B
  const DIGIT_0: Byte := 0x30

  predicate IsDigit(b: Byte) {
    DIGIT_0 <= b <= DIGIT_0 + 9
  }

  predicate AllDigits(s: Bytes) {
    forall i :: 0 <= i < |s| ==> IsDigit(s[i])
  }

  /** The number a string of decimal digits spells, most significant first. */
  function DecimalValue(s: Bytes): nat
    requires AllDigits(s)
  {
    if s == [] then 0
    else DecimalValue(s[..|s| - 1]) * 10 + (s[|s| - 1] - DIGIT_0)
  }

  /**
   * `usize::from_str`: an optional leading `+`, then at least one decimal
   * digit, and the value must fit in 64 bits (the std loop uses checked
   * multiplication and addition; since its partial values never decrease,
   * it overflows exactly when the final value exceeds `usize::MAX`).
   */
  function ParseUsize(s: Bytes): (r: Option<nat>)
    ensures r.Some? ==> r.value <= USIZE_MAX
    ensures r.Some? ==> |s| > 0 && IsAscii(s)
  {
    var digits := if |s| > 0 && s[0] == PLUS then s[1..] else s;
    if |digits| > 0 && AllDigits(digits) && DecimalValue(digits) <= USIZE_MAX then
      assert IsAscii(s) by {
        forall i | 0 <= i < |s| ensures s[i] < 0x80 {
          if s != digits && i > 0 { assert s[i] == digits[i - 1]; }
        }
      }
      Some(DecimalValue(digits))
    else None
  }

  /** The canonical decimal rendering of `n` (no sign, no leading zeros). */
  function Decimal(n: nat): (s: Bytes)
    ensures |s| > 0 && AllDigits(s)
    ensures n > 0 ==> s[0] != DIGIT_0
  {
    if n < 10 then [DIGIT_0 + n]
    else
      var s := Decimal(n / 10) + [DIGIT_0 + n % 10];
      assert s[..|s| - 1] == Decimal(n / 10);
      s
  }

  lemma {:induction false} DecimalValueOfDecimal(n: nat)
    ensures DecimalValue(Decimal(n)) == n
  {
    if n >= 10 {
      var s := Decimal(n);
      assert s[..|s| - 1] == Decimal(n / 10);
      DecimalValueOfDecimal(n / 10);
    }
  }

  /** Parsing the decimal rendering of any `usize` gives the number back. */
  lemma ParseDecimal(n: nat)
    requires n <= USIZE_MAX
    ensures ParseUsize(Decimal(n)) == Some(n)
  {
    DecimalValueOfDecimal(n);
  }
}
