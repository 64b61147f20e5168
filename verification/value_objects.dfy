/** The member value objects: an e-mail address, an optional phone number and a
    password, each validated once when it is built and never changed after. */
module ValueObjects {
  import opened Common

  // ---------------------------------------------------------------- e-mail

  datatype EmailError = EmailRequired | EmailMalformed

  datatype EmailVo = EmailVo(value: string)

  /** The character class left of the `@`: `[A-Za-z0-9+_.-]`. */
  predicate IsLocalChar(c: char) {
    IsAsciiLetter(c) || IsAsciiDigit(c) || c == '+' || c == '_' || c == '.' || c == '-'
  }

  /** The character class right of the `@`: `[A-Za-z0-9.-]`. */
  predicate IsDomainChar(c: char) {
    IsAsciiLetter(c) || IsAsciiDigit(c) || c == '.' || c == '-'
  }

  predicate AllLocal(s: string) {
    forall i :: 0 <= i < |s| ==> IsLocalChar(s[i])
  }

  predicate AllDomain(s: string) {
    forall i :: 0 <= i < |s| ==> IsDomainChar(s[i])
  }

  /** Index of the first `c` in `s`, or `|s|` when there is none. */
  function IndexOf(s: string, c: char): (i: nat)
    ensures i <= |s|
    ensures i < |s| ==> s[i] == c
    ensures c !in s[..i]
  {
    if s == [] then 0
    else if s[0] == c then 0
    else 1 + IndexOf(s[1..], c)
  }

  /** `^[A-Za-z0-9+_.-]+@[A-Za-z0-9.-]+$` matched against the whole of `s`,
      decided by splitting at the first `@` (neither class contains `@`). */
  predicate EmailMatches(s: string) {
    var at := IndexOf(s, '@');
    0 < at < |s| - 1 && AllLocal(s[..at]) && AllDomain(s[at + 1..])
  }

  /** The language of the same pattern, stated as the regular expression reads:
      a non-empty local part, one `@`, a non-empty domain part. */
  ghost predicate EmailShape(s: string) {
    exists at :: 0 < at < |s| - 1 && s[at] == '@' && AllLocal(s[..at]) && AllDomain(s[at + 1..])
  }

  /** The split-at-first-`@` matcher accepts exactly the pattern's language. */
  lemma EmailMatchesIsPattern(s: string)
    ensures EmailMatches(s) <==> EmailShape(s)
  {
    if EmailShape(s) {
      var at :| 0 < at < |s| - 1 && s[at] == '@' && AllLocal(s[..at]) && AllDomain(s[at + 1..]);
      assert IndexOf(s, '@') == at by {
        assert '@' !in s[..at] by { assert !IsLocalChar('@'); }
      }
    }
  }

  function Count(s: string, c: char): (n: nat)
    ensures n <= |s|
  {
    if s == [] then 0 else (if s[0] == c then 1 else 0) + Count(s[1..], c)
  }

  lemma {:induction false} CountAppend(a: string, b: string, c: char)
    ensures Count(a + b, c) == Count(a, c) + Count(b, c)
  {
    if a == [] {
      assert a + b == b;
    } else {
      assert (a + b)[1..] == a[1..] + b;
      CountAppend(a[1..], b, c);
    }
  }

  lemma {:induction false} CountAbsent(s: string, c: char)
    requires forall i :: 0 <= i < |s| ==> s[i] != c
    ensures Count(s, c) == 0
  {
    if s != [] {
      CountAbsent(s[1..], c);
    }
  }

  /** An accepted address has exactly one `@`, with a non-empty part on each side. */
  lemma AcceptedEmailHasOneAt(s: string)
    requires EmailMatches(s)
    ensures Count(s, '@') == 1
    ensures exists local, domain :: s == local + "@" + domain && |local| > 0 && |domain| > 0
  {
    var at := IndexOf(s, '@');
    var local, domain := s[..at], s[at + 1..];
    assert s == local + "@" + domain;
    CountAbsent(local, '@');
    CountAbsent(domain, '@');
    CountAppend(local, "@", '@');
    CountAppend(local + "@", domain, '@');
  }

  /** `new EmailVo(value)`: null or blank is "required"; otherwise the whole
      string must match the pattern; an accepted value is kept verbatim. */
  function NewEmail(value: Option<string>): (r: Result<EmailVo, EmailError>)
    ensures value.None? ==> r == Err(EmailRequired)
    ensures value.Some? && IsBlank(value.value) ==> r == Err(EmailRequired)
    ensures value.Some? && !IsBlank(value.value) ==> (r.Ok? <==> EmailMatches(value.value))
    ensures r.Err? && r.error == EmailMalformed ==> value.Some? && !IsBlank(value.value)
    ensures r.Ok? ==> value.Some? && r.value.value == value.value
  {
    if value.None? || IsBlank(value.value) then Err(EmailRequired)
    else if !EmailMatches(value.value) then Err(EmailMalformed)
    else Ok(EmailVo(value.value))
  }

  // ---------------------------------------------------------------- phone

  datatype PhoneError = PhoneMalformed

  /** The phone column: null when no number was given. */
  datatype PhoneVo = PhoneVo(value: Option<string>)

  /** One way the pattern `^01[0-9]-?\d{3,4}-?\d{4}$` can match: with or without
      the first dash, a middle group of `middle` digits, with or without the
      second dash. (`\d` is ASCII `[0-9]` without the UNICODE_CHARACTER_CLASS flag.) */
  predicate PhoneShape(s: string, dash1: bool, middle: nat, dash2: bool) {
    var a := if dash1 then 1 else 0;
    var b := if dash2 then 1 else 0;
    && |s| == 3 + a + middle + b + 4
    && s[0] == '0' && s[1] == '1' && IsAsciiDigit(s[2])
    && (dash1 ==> s[3] == '-')
    && AllAsciiDigits(s[3 + a..3 + a + middle])
    && (dash2 ==> s[3 + a + middle] == '-')
    && AllAsciiDigits(s[3 + a + middle + b..])
  }

  /** `^01[0-9]-?\d{3,4}-?\d{4}$`: the union of its eight shapes. */
  predicate PhoneMatches(s: string) {
    || PhoneShape(s, false, 3, false) || PhoneShape(s, false, 3, true)
    || PhoneShape(s, true, 3, false) || PhoneShape(s, true, 3, true)
    || PhoneShape(s, false, 4, false) || PhoneShape(s, false, 4, true)
    || PhoneShape(s, true, 4, false) || PhoneShape(s, true, 4, true)
  }

  /** `value.replaceAll("-", "")`. */
  function StripDashes(s: string): (r: string)
    ensures '-' !in r
    ensures |r| <= |s|
  {
    if s == [] then []
    else (if s[0] == '-' then [] else [s[0]]) + StripDashes(s[1..])
  }

  lemma {:induction false} StripDashesAppend(a: string, b: string)
    ensures StripDashes(a + b) == StripDashes(a) + StripDashes(b)
  {
    if a == [] {
      assert a + b == b;
    } else {
      var h := if a[0] == '-' then [] else [a[0]];
      assert (a + b)[0] == a[0] && (a + b)[1..] == a[1..] + b;
      assert StripDashes(a + b) == h + StripDashes(a[1..] + b);
      StripDashesAppend(a[1..], b);
      assert StripDashes(a) == h + StripDashes(a[1..]);
      assert h + (StripDashes(a[1..]) + StripDashes(b)) == (h + StripDashes(a[1..])) + StripDashes(b);
    }
  }

  lemma {:induction false} StripDashesKeepsDigits(s: string)
    requires AllAsciiDigits(s)
    ensures StripDashes(s) == s
  {
    if s != [] {
      StripDashesKeepsDigits(s[1..]);
    }
  }

  /** `new PhoneVo(value)`: null or blank leaves the value null; otherwise the
      pattern must match and the stored value is the input without dashes. */
  function NewPhone(value: Option<string>): (r: Result<PhoneVo, PhoneError>)
    ensures value.None? || IsBlank(value.value) ==> r == Ok(PhoneVo(None))
    ensures value.Some? && !IsBlank(value.value) ==> (r.Ok? <==> PhoneMatches(value.value))
    ensures value.Some? && !IsBlank(value.value) && PhoneMatches(value.value) ==>
              r == Ok(PhoneVo(Some(StripDashes(value.value))))
    ensures r.Ok? && r.value.value.Some? ==>
              value.Some? && r.value.value.value == StripDashes(value.value)
  {
    if value.None? || IsBlank(value.value) then Ok(PhoneVo(None))
    else if PhoneMatches(value.value) then Ok(PhoneVo(Some(StripDashes(value.value))))
    else Err(PhoneMalformed)
  }

  /** Taking the dashes out of digit groups joined by at most one dash each. */
  lemma {:induction false} StripDashedGroups(head: string, d1: string, mid: string, d2: string, tail: string)
    requires AllAsciiDigits(head) && AllAsciiDigits(mid) && AllAsciiDigits(tail)
    requires d1 == [] || d1 == "-"
    requires d2 == [] || d2 == "-"
    ensures StripDashes(head + d1 + mid + d2 + tail) == head + mid + tail
  {
    assert StripDashes(d1) == [] by { if d1 != [] { assert d1[1..] == []; } }
    assert StripDashes(d2) == [] by { if d2 != [] { assert d2[1..] == []; } }
    StripDashesKeepsDigits(head);
    StripDashesKeepsDigits(mid);
    StripDashesKeepsDigits(tail);
    StripDashesAppend(head, d1);
    assert StripDashes(head + d1) == head;
    StripDashesAppend(head + d1, mid);
    assert StripDashes(head + d1 + mid) == head + mid;
    StripDashesAppend(head + d1 + mid, d2);
    assert StripDashes(head + d1 + mid + d2) == head + mid;
    StripDashesAppend(head + d1 + mid + d2, tail);
  }

  /** The digits a matching number is made of, with its dashes taken out. */
  lemma ShapeStripped(s: string, dash1: bool, middle: nat, dash2: bool)
    requires PhoneShape(s, dash1, middle, dash2)
    ensures |StripDashes(s)| == 3 + middle + 4
    ensures AllAsciiDigits(StripDashes(s))
    ensures StripDashes(s)[..3] == s[..3]
  {
    var a := if dash1 then 1 else 0;
    var b := if dash2 then 1 else 0;
    var head, d1, mid := s[..3], s[3..3 + a], s[3 + a..3 + a + middle];
    var d2, tail := s[3 + a + middle..3 + a + middle + b], s[3 + a + middle + b..];
    assert s == head + d1 + mid + d2 + tail;
    assert AllAsciiDigits(head) by {
      assert head[0] == '0' && head[1] == '1' && IsAsciiDigit(head[2]);
    }
    assert d1 == [] || d1 == "-";
    assert d2 == [] || d2 == "-";
    StripDashedGroups(head, d1, mid, d2, tail);
    assert (head + mid + tail)[..3] == head;
  }

  /** A stored phone number is 10 or 11 ASCII digits beginning with `01`. */
  lemma StoredPhoneIsDigits(s: string)
    requires PhoneMatches(s)
    ensures var t := StripDashes(s);
            (|t| == 10 || |t| == 11) && AllAsciiDigits(t) && t[0] == '0' && t[1] == '1'
  {
    var dash1, middle, dash2 :|
      middle in {3, 4} && PhoneShape(s, dash1, middle, dash2);
    ShapeStripped(s, dash1, middle, dash2);
  }

  /** Normalisation is idempotent: a stored number is accepted again and stored unchanged. */
  lemma PhoneNormalisationIdempotent(s: string)
    requires PhoneMatches(s)
    ensures var t := StripDashes(s);
            NewPhone(Some(t)) == Ok(PhoneVo(Some(t)))
  {
    var t := StripDashes(s);
    StoredPhoneIsDigits(s);
    assert !IsBlank(t) by { assert !IsJavaWhitespace(t[0]); }
    if |t| == 10 {
      assert PhoneShape(t, false, 3, false);
    } else {
      assert PhoneShape(t, false, 4, false);
    }
    StripDashesKeepsDigits(t);
  }

  // ---------------------------------------------------------------- password

  datatype PasswordError = PasswordRequired

  datatype PasswordVo = PasswordVo(value: string)

  /** `new PasswordVo(value)`: only null and blank are refused; there is no
      length or complexity rule, and an accepted value is kept verbatim. */
  function NewPassword(value: Option<string>): (r: Result<PasswordVo, PasswordError>)
    ensures r.Err? <==> value.None? || IsBlank(value.value)
    ensures r.Ok? ==> r.value.value == value.value
  {
    if value.None? || IsBlank(value.value) then Err(PasswordRequired)
    else Ok(PasswordVo(value.value))
  }

  /** Any password with a non-whitespace character is accepted, however short. */
  lemma PasswordHasNoLengthRule(s: string, i: nat)
    requires i < |s| && !IsJavaWhitespace(s[i])
    ensures NewPassword(Some(s)) == Ok(PasswordVo(s))
  {
  }
}
