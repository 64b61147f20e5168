/** The `filename*` value of a download's Content-Disposition header: the
    name is form-encoded as UTF-8 (`URLEncoder.encode(name, UTF_8)`), then every
    `+` is replaced by `%20`. The result is compared with a per-character
    percent-encoding and decoded back to the UTF-8 bytes of the name (UTF-8 as
    in RFC 3629 section 3; the ext-value of RFC 5987 section 3.2). */
module FilenameEncoding {
  import opened Common

  type Byte = b: int | 0 <= b < 0x100

  /** The UTF-8 encoding of one Unicode scalar value (RFC 3629 section 3). */
  function Utf8(c: char): (bs: seq<Byte>)
    ensures 1 <= |bs| <= 4
    ensures (c as int < 0x80) <==> |bs| == 1
    ensures c as int < 0x80 ==> bs == [c as int]
    ensures |bs| > 1 ==> 0xC0 <= bs[0] && forall i :: 1 <= i < |bs| ==> 0x80 <= bs[i] < 0xC0
  {
    var n := c as int;
    if n < 0x80 then [n]
    else if n < 0x800 then [0xC0 + n / 0x40, 0x80 + n % 0x40]
    else if n < 0x1_0000 then [0xE0 + n / 0x1000, 0x80 + (n / 0x40) % 0x40, 0x80 + n % 0x40]
    else [0xF0 + n / 0x4_0000, 0x80 + (n / 0x1000) % 0x40, 0x80 + (n / 0x40) % 0x40, 0x80 + n % 0x40]
  }

  /** `name.getBytes(UTF_8)`. */
  function Utf8String(s: string): (bs: seq<Byte>)
    ensures |bs| >= |s|
  {
    if s == [] then [] else Utf8(s[0]) + Utf8String(s[1..])
  }

  /** The characters left as they are: letters, digits, `.`, `-` and `_`,
      plus `*` unless `strict` (which `URLEncoder` keeps and RFC 5987 does not). */
  predicate IsKept(c: char, strict: bool) {
    IsAsciiLetter(c) || IsAsciiDigit(c) || c == '.' || c == '-' || c == '_' || (!strict && c == '*')
  }

  predicate IsUpperHex(c: char) {
    ('0' <= c <= '9') || ('A' <= c <= 'F')
  }

  function HexDigit(n: int): (c: char)
    requires 0 <= n < 16
    ensures IsUpperHex(c)
  {
    "0123456789ABCDEF"[n]
  }

  /** The value of a hexadecimal digit of either case, or -1. */
  function HexValue(c: char): (n: int)
    ensures -1 <= n < 16
    ensures IsUpperHex(c) ==> n >= 0
  {
    if '0' <= c <= '9' then c as int - '0' as int
    else if 'A' <= c <= 'F' then c as int - 'A' as int + 10
    else if 'a' <= c <= 'f' then c as int - 'a' as int + 10
    else -1
  }

  lemma HexValueOfDigit(n: int)
    requires 0 <= n < 16
    ensures HexValue(HexDigit(n)) == n
  {
  }

  /** `%HH` for one byte, upper-case as `URLEncoder` writes it. */
  function PercentByte(b: Byte): string {
    ['%', HexDigit(b / 16), HexDigit(b % 16)]
  }

  function PercentBytes(bs: seq<Byte>): (t: string)
    ensures |t| == 3 * |bs|
    ensures ' ' !in t && '+' !in t
  {
    if bs == [] then [] else PercentByte(bs[0]) + PercentBytes(bs[1..])
  }

  /** One character as `URLEncoder.encode` writes it: kept characters as
      they are, a space as `+`, anything else as its UTF-8 bytes in `%HH`. */
  function FormEncodeChar(c: char): (t: string)
    ensures |t| >= 1 && ' ' !in t
    ensures '+' in t <==> c == ' '
  {
    if IsKept(c, false) then [c]
    else if c == ' ' then "+"
    else PercentBytes(Utf8(c))
  }

  /** `URLEncoder.encode(s, UTF_8)`: no space survives, and every `+` in the
      result stands for a space of the name (a `+` of the name is `%2B`). */
  function FormEncode(s: string): (r: string)
    ensures |r| >= |s| && ' ' !in r
    ensures '+' in r <==> ' ' in s
  {
    if s == [] then [] else FormEncodeChar(s[0]) + FormEncode(s[1..])
  }

  /** `s.replaceAll(regex-quoted c, rep)`: every `c` replaced by `rep`. */
  function ReplaceChar(s: string, c: char, rep: string): (t: string)
    ensures c !in rep ==> c !in t
  {
    if s == [] then []
    else (if s[0] == c then rep else [s[0]]) + ReplaceChar(s[1..], c, rep)
  }

  /** The header's file name: form-encode, then `+` to `%20`. */
  function EncodeFilename(name: string): (t: string)
    ensures '+' !in t
  {
    ReplaceChar(FormEncode(name), '+', "%20")
  }

  /** The same with `*` also written as `%2A`, so that only RFC 5987
      attr-chars and `%HH` remain. */
  function EncodeFilenameStrict(name: string): string {
    ReplaceChar(EncodeFilename(name), '*', "%2A")
  }

  /** The reference: each character kept or written as its UTF-8 bytes in `%HH`. */
  function EncodeChar(c: char, strict: bool): string {
    if IsKept(c, strict) then [c] else PercentBytes(Utf8(c))
  }

  function PercentEncode(s: string, strict: bool): string {
    if s == [] then [] else EncodeChar(s[0], strict) + PercentEncode(s[1..], strict)
  }

  /** Percent-decoding to bytes: `%HH` gives that byte, another ASCII
      character gives its own code, and anything else (a stray `%`, a
      non-ASCII character) is malformed. */
  function PercentDecode(t: string): (r: Option<seq<Byte>>)
    decreases |t|
  {
    if t == [] then Some([])
    else if t[0] == '%' then
      if |t| >= 3 && HexValue(t[1]) >= 0 && HexValue(t[2]) >= 0 then
        match PercentDecode(t[3..])
        case None => None
        case Some(rest) => Some([HexValue(t[1]) * 16 + HexValue(t[2])] + rest)
      else None
    else if t[0] as int < 0x80 then
      match PercentDecode(t[1..])
      case None => None
      case Some(rest) => Some([t[0] as int] + rest)
    else None
  }

  /** An encoded text: only kept characters and `%`, and every `%` starts a
      `%HH` triplet of upper-case hexadecimal digits. */
  predicate IsEncoded(t: string, strict: bool) {
    && (forall i :: 0 <= i < |t| ==> IsKept(t[i], strict) || t[i] == '%')
    && (forall i :: 0 <= i < |t| && t[i] == '%' ==> i + 2 < |t| && IsUpperHex(t[i + 1]) && IsUpperHex(t[i + 2]))
  }

  lemma {:induction false} ReplaceCharAppend(a: string, b: string, c: char, rep: string)
    ensures ReplaceChar(a + b, c, rep) == ReplaceChar(a, c, rep) + ReplaceChar(b, c, rep)
  {
    if a == [] {
      assert a + b == b;
    } else {
      assert (a + b)[1..] == a[1..] + b;
      ReplaceCharAppend(a[1..], b, c, rep);
    }
  }

  lemma {:induction false} ReplaceCharAbsent(a: string, c: char, rep: string)
    requires c !in a
    ensures ReplaceChar(a, c, rep) == a
  {
    if a != [] {
      ReplaceCharAbsent(a[1..], c, rep);
    }
  }

  lemma {:induction false} PercentBytesEncoded(bs: seq<Byte>, strict: bool)
    ensures IsEncoded(PercentBytes(bs), strict)
    ensures '+' !in PercentBytes(bs) && '*' !in PercentBytes(bs) && ' ' !in PercentBytes(bs)
  {
    if bs != [] {
      PercentBytesEncoded(bs[1..], strict);
      EncodedAppend(PercentByte(bs[0]), PercentBytes(bs[1..]), strict);
    }
  }

  lemma EncodedAppend(a: string, b: string, strict: bool)
    requires IsEncoded(a, strict) && IsEncoded(b, strict)
    ensures IsEncoded(a + b, strict)
  {
    var t := a + b;
    forall i | 0 <= i < |t| && t[i] == '%'
      ensures i + 2 < |t| && IsUpperHex(t[i + 1]) && IsUpperHex(t[i + 2])
    {
      if i < |a| {
        assert a[i] == '%';
      } else {
        assert b[i - |a|] == '%';
      }
    }
  }

  /** The code's two steps agree with the per-character reference. */
  lemma {:induction false} EncodeFilenameIsPercentEncode(name: string)
    ensures EncodeFilename(name) == PercentEncode(name, false)
  {
    if name != [] {
      var c := name[0];
      ReplaceCharAppend(FormEncodeChar(c), FormEncode(name[1..]), '+', "%20");
      EncodeFilenameIsPercentEncode(name[1..]);
      if c == ' ' {
        assert Utf8(c) == [0x20];
        assert PercentBytes(Utf8(c)) == "%20";
      } else if !IsKept(c, false) {
        PercentBytesEncoded(Utf8(c), false);
        ReplaceCharAbsent(PercentBytes(Utf8(c)), '+', "%20");
      }
    }
  }

  /** The corrected encoder agrees with the strict per-character reference. */
  lemma {:induction false} EncodeFilenameStrictIsPercentEncode(name: string)
    ensures EncodeFilenameStrict(name) == PercentEncode(name, true)
  {
    EncodeFilenameIsPercentEncode(name);
    StarToHex(name);
  }

  lemma {:induction false} StarToHex(name: string)
    ensures ReplaceChar(PercentEncode(name, false), '*', "%2A") == PercentEncode(name, true)
  {
    if name != [] {
      var c := name[0];
      ReplaceCharAppend(EncodeChar(c, false), PercentEncode(name[1..], false), '*', "%2A");
      StarToHex(name[1..]);
      if c == '*' {
        assert Utf8(c) == [0x2A];
        assert PercentBytes(Utf8(c)) == "%2A";
      } else if !IsKept(c, false) {
        PercentBytesEncoded(Utf8(c), false);
        ReplaceCharAbsent(PercentBytes(Utf8(c)), '*', "%2A");
      }
    }
  }

  /** A space becomes `%20` and a literal `+` becomes `%2B`. */
  lemma SpaceAndPlus()
    ensures EncodeFilename(" ") == "%20"
    ensures EncodeFilename("+") == "%2B"
  {
    EncodeFilenameIsPercentEncode(" ");
    EncodeFilenameIsPercentEncode("+");
    assert Utf8(' ') == [0x20];
    assert Utf8('+') == [0x2B];
    assert PercentBytes([0x2B]) == "%2B";
  }

  /** The reference encoding uses only kept characters and `%HH` triplets. */
  lemma {:induction false} PercentEncodeIsEncoded(s: string, strict: bool)
    ensures IsEncoded(PercentEncode(s, strict), strict)
  {
    if s != [] {
      PercentEncodeIsEncoded(s[1..], strict);
      if !IsKept(s[0], strict) {
        PercentBytesEncoded(Utf8(s[0]), strict);
      }
      EncodedAppend(EncodeChar(s[0], strict), PercentEncode(s[1..], strict), strict);
    }
  }

  /** The header's file name uses only `A-Za-z0-9.-*_` and `%HH`, and so holds
      no `+` and no space. */
  lemma EncodedFilenameAlphabet(name: string)
    ensures IsEncoded(EncodeFilename(name), false)
    ensures '+' !in EncodeFilename(name) && ' ' !in EncodeFilename(name)
  {
    EncodeFilenameIsPercentEncode(name);
    PercentEncodeIsEncoded(name, false);
  }

  /** One `%HH` triplet decodes to its byte. */
  lemma DecodePercentByte(b: Byte, tail: string)
    requires PercentDecode(tail).Some?
    ensures PercentDecode(PercentByte(b) + tail) == Some([b] + PercentDecode(tail).value)
  {
    var hi, lo := HexDigit(b / 16), HexDigit(b % 16);
    var t := PercentByte(b) + tail;
    assert t == ['%', hi, lo] + tail;
    HexValueOfDigit(b / 16);
    HexValueOfDigit(b % 16);
    assert t[0] == '%' && |t| >= 3 && t[1] == hi && t[2] == lo && t[3..] == tail;
    assert HexValue(t[1]) * 16 + HexValue(t[2]) == b;
  }

  lemma {:induction false} DecodePercentBytes(bs: seq<Byte>, rest: string)
    requires PercentDecode(rest).Some?
    ensures PercentDecode(PercentBytes(bs) + rest) == Some(bs + PercentDecode(rest).value)
  {
    if bs != [] {
      var b := bs[0];
      var tail := PercentBytes(bs[1..]) + rest;
      DecodePercentBytes(bs[1..], rest);
      assert PercentBytes(bs) == PercentByte(b) + PercentBytes(bs[1..]);
      assert PercentBytes(bs) + rest == PercentByte(b) + tail;
      DecodePercentByte(b, tail);
      assert bs + PercentDecode(rest).value == [b] + (bs[1..] + PercentDecode(rest).value);
    } else {
      assert PercentBytes(bs) + rest == rest;
      assert bs + PercentDecode(rest).value == PercentDecode(rest).value;
    }
  }

  /** Decoding the reference encoding gives back the UTF-8 bytes. */
  lemma {:induction false} PercentEncodeRoundTrip(s: string, strict: bool)
    ensures PercentDecode(PercentEncode(s, strict)) == Some(Utf8String(s))
  {
    if s != [] {
      var c := s[0];
      PercentEncodeRoundTrip(s[1..], strict);
      if IsKept(c, strict) {
        assert ([c] + PercentEncode(s[1..], strict))[1..] == PercentEncode(s[1..], strict);
      } else {
        DecodePercentBytes(Utf8(c), PercentEncode(s[1..], strict));
      }
    }
  }

  /** Percent-decoding the header's file name gives the UTF-8 bytes of the name. */
  lemma EncodeFilenameRoundTrip(name: string)
    ensures PercentDecode(EncodeFilename(name)) == Some(Utf8String(name))
  {
    EncodeFilenameIsPercentEncode(name);
    PercentEncodeRoundTrip(name, false);
  }

  /** RFC 5987 section 3.2.1: the characters an ext-value may carry unencoded. */
  predicate IsAttrChar(c: char) {
    || IsAsciiLetter(c) || IsAsciiDigit(c)
    || c == '!' || c == '#' || c == '$' || c == '&' || c == '+' || c == '-' || c == '.'
    || c == '^' || c == '_' || c == '`' || c == '|' || c == '~'
  }

  /** `URLEncoder` leaves `*`, which is not an attr-char, in the header. */
  lemma StarIsNotEncoded()
    ensures EncodeFilename("*") == "*"
    ensures !IsAttrChar('*')
  {
    EncodeFilenameIsPercentEncode("*");
  }

  /** With `*` also encoded, every unencoded character is an attr-char, and
      decoding still gives the UTF-8 bytes of the name. */
  lemma StrictFilenameIsExtValue(name: string)
    ensures var t := EncodeFilenameStrict(name);
            && IsEncoded(t, true)
            && (forall i :: 0 <= i < |t| && t[i] != '%' ==> IsAttrChar(t[i]))
            && PercentDecode(t) == Some(Utf8String(name))
  {
    EncodeFilenameStrictIsPercentEncode(name);
    PercentEncodeIsEncoded(name, true);
    PercentEncodeRoundTrip(name, true);
  }

  /** The Content-Disposition value of a download. */
  function ContentDisposition(name: string): (h: string)
    ensures |h| == 29 + |EncodeFilename(name)|
    ensures h[..29] == "attachment; filename*=UTF-8''"
    ensures h[29..] == EncodeFilename(name)
  {
    "attachment; filename*=UTF-8''" + EncodeFilename(name)
  }
}
