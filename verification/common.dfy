/** Shared vocabulary: Java's nullable values, exceptions as results,
    Java `int` arithmetic and the character classes used by the validators. */
module Common {

  /** A Java reference that may be null. */
  datatype Option<+T> = None | Some(value: T)

  /** A call that either returns a value or throws. */
  datatype Result<+T, +E> = Ok(value: T) | Err(error: E)

  /** The range of Java's 32-bit `int`. */
  const IntMin: int := -0x8000_0000
  const IntMax: int := 0x7FFF_FFFF
  const IntModulus: int := 0x1_0000_0000

  predicate InIntRange(x: int) {
    IntMin <= x <= IntMax
  }

  /** The value a Java `int` holds after an arithmetic result `x` is stored in it
      (two's-complement wrap-around). */
  function WrapInt(x: int): (r: int)
    ensures InIntRange(r)
    ensures (x - r) % IntModulus == 0
    ensures InIntRange(x) ==> r == x
  {
    (x - IntMin) % IntModulus + IntMin
  }

  /** `Character.isWhitespace`: the Unicode space, line and paragraph separators
      except the three no-break spaces, plus the ASCII control characters
      U+0009..U+000D and U+001C..U+001F. */
  predicate IsJavaWhitespace(c: char) {
    var n := c as int;
    || 0x09 <= n <= 0x0D
    || 0x1C <= n <= 0x20
    || n == 0x1680
    || (0x2000 <= n <= 0x200A && n != 0x2007)
    || n == 0x2028 || n == 0x2029
    || n == 0x205F || n == 0x3000
  }

  /** `String.isBlank`: empty or made only of whitespace. */
  predicate IsBlank(s: string) {
    forall i :: 0 <= i < |s| ==> IsJavaWhitespace(s[i])
  }

  /** Bean Validation's `@NotBlank`: non-null and non-empty after `String.trim`,
      which strips every character up to U+0020. */
  predicate NotBlankAfterTrim(s: Option<string>) {
    s.Some? && exists i :: 0 <= i < |s.value| && s.value[i] > ' '
  }

  /** `String.length()`: the number of UTF-16 code units. */
  function Utf16Length(s: string): (n: nat)
    ensures |s| <= n <= 2 * |s|
    ensures (forall i :: 0 <= i < |s| ==> s[i] as int < 0x1_0000) ==> n == |s|
  {
    if s == [] then 0
    else (if s[0] as int >= 0x1_0000 then 2 else 1) + Utf16Length(s[1..])
  }

  predicate IsAsciiDigit(c: char) {
    '0' <= c <= '9'
  }

  predicate IsAsciiLetter(c: char) {
    ('A' <= c <= 'Z') || ('a' <= c <= 'z')
  }

  predicate AllAsciiDigits(s: string) {
    forall i :: 0 <= i < |s| ==> IsAsciiDigit(s[i])
  }

  /** The decimal text Java's string concatenation produces for a `long`. */
  function DecimalText(n: int): (s: string)
    ensures |s| > 0
    decreases if n < 0 then -n + 1 else n
  {
    if n < 0 then "-" + DecimalText(-n)
    else if n < 10 then ["0123456789"[n]]
    else DecimalText(n / 10) + ["0123456789"[n % 10]]
  }

  /** Lower-case hexadecimal, as `UUID.toString` writes it. */
  predicate IsLowerHex(c: char) {
    ('0' <= c <= '9') || ('a' <= c <= 'f')
  }

  /** The text of a random UUID: 36 characters, dashes at 8, 13, 18 and 23,
      lower-case hexadecimal elsewhere. */
  predicate IsUuid(u: string) {
    && |u| == 36
    && forall i :: 0 <= i < 36 ==>
         if i == 8 || i == 13 || i == 18 || i == 23 then u[i] == '-' else IsLowerHex(u[i])
  }
}
