/** Phone numbers: `normalize_phone` (validation of the number the caller
    dictates) and `extract_phone_from_identity` (the caller id of a SIP
    participant). Both work in the Peruvian numbering plan: country code
    +51 (ITU-T E.164) followed by a 9-digit mobile number. */
module Phone {
  import opened Wrappers
  import opened Text

  const CountryCode: string := "+51"

  const MissingPhoneMessage: string := "Por favor, proporciona un número de celular válido."
  const InvalidPhoneMessage: string :=
    "El número de celular no es válido. Debe tener 9 dígitos, por ejemplo, +51987654321."

  /** The characters of the class `[\s\-\(\)]`. */
  predicate IsSeparator(c: char)
  {
    IsSpace(c) || c == '-' || c == '(' || c == ')'
  }

  /** `re.sub(r'[\s\-\(\)]+', '', s)`: every separator taken out, the other
      characters kept in order. */
  function RemoveSeparators(s: string): (r: string)
    ensures |r| <= |s|
    ensures forall i :: 0 <= i < |r| ==> !IsSeparator(r[i])
  {
    if s == [] then []
    else if IsSeparator(s[0]) then RemoveSeparators(s[1..])
    else [s[0]] + RemoveSeparators(s[1..])
  }

  predicate IsNineDigits(s: string)
  {
    |s| == 9 && AllAsciiDigits(s)
  }

  /** A normalized Peruvian mobile number: "+51" and exactly 9 digits. */
  predicate IsPeruvianMobile(s: string)
    ensures IsPeruvianMobile(s) ==> StartsWith(s, "+") && forall i :: 1 <= i < |s| ==> IsAsciiDigit(s[i])
  {
    |s| == 12 && s[..3] == CountryCode && IsNineDigits(s[3..])
  }

  /** `re.match(r'^\+51\d{9}$', s)`. Python's `$` also matches just before a
      final newline, hence the second case. */
  predicate MatchesMobilePattern(s: string)
  {
    IsPeruvianMobile(s) || (|s| == 13 && IsPeruvianMobile(s[..12]) && s[12] == '\n')
  }

  /** The number after clean-up and before the format check: separators
      taken out, and "+51" put in front unless it already starts with '+'. */
  function WithCountryCode(cleaned: string): (r: string)
    ensures StartsWith(r, "+")
    ensures |cleaned| <= |r| && r[|r| - |cleaned|..] == cleaned
  {
    if StartsWith(cleaned, "+") then cleaned else CountryCode + cleaned
  }

  /** `normalize_phone(phone)`: the normalized number or the message to read
      back to the caller, never both. */
  function NormalizePhone(phone: Option<string>): (r: Checked<string, string>)
    ensures r.ExactlyOne()
    ensures !Present(phone) <==> r.error == Some(MissingPhoneMessage)
    ensures r.error.Some? ==> r.error.value == MissingPhoneMessage || r.error.value == InvalidPhoneMessage
    ensures r.value.Some? ==> IsPeruvianMobile(r.value.value)
  {
    if !Present(phone) then
      Reject(MissingPhoneMessage)
    else
      var candidate := WithCountryCode(RemoveSeparators(Strip(phone.value)));
      NoNewlineAfterCleanUp(RemoveSeparators(Strip(phone.value)));
      if MatchesMobilePattern(candidate) then Accept(candidate) else Reject(InvalidPhoneMessage)
  }

  /** The clean-up removes every newline, so the `$`-before-newline case of
      the pattern never applies to a cleaned number. */
  lemma NoNewlineAfterCleanUp(cleaned: string)
    requires forall i :: 0 <= i < |cleaned| ==> !IsSeparator(cleaned[i])
    ensures MatchesMobilePattern(WithCountryCode(cleaned)) <==> IsPeruvianMobile(WithCountryCode(cleaned))
  {
    var c := WithCountryCode(cleaned);
    if !StartsWith(cleaned, "+") {
      assert forall i :: 3 <= i < |c| ==> c[i] == cleaned[i - 3];
    }
    if |c| == 13 {
      assert !IsSeparator(c[12]);
    }
  }

  /** Acceptance stated on the cleaned digits alone: the number is accepted
      exactly when, separators removed, it is 9 digits (and gets "+51") or
      already "+51" and 9 digits (and is kept). */
  lemma NormalizeAcceptsExactly(p: string)
    requires p != ""
    ensures var c := RemoveSeparators(Strip(p));
      && (NormalizePhone(Some(p)).value.Some? <==> IsNineDigits(c) || IsPeruvianMobile(c))
      && (IsNineDigits(c) ==> NormalizePhone(Some(p)).value == Some(CountryCode + c))
      && (IsPeruvianMobile(c) ==> NormalizePhone(Some(p)).value == Some(c))
  {
    NormalizeOnCleaned(p);
    CountryCodeRule(RemoveSeparators(Strip(p)));
  }

  /** A given number is accepted exactly when its cleaned form, with the
      country code put in front if needed, is a Peruvian mobile number. */
  lemma NormalizeOnCleaned(p: string)
    requires p != ""
    ensures var w := WithCountryCode(RemoveSeparators(Strip(p)));
      NormalizePhone(Some(p)).value == (if IsPeruvianMobile(w) then Some(w) else None)
  {
    NoNewlineAfterCleanUp(RemoveSeparators(Strip(p)));
  }

  /** The country-code rule: "+51" is put in front of 9 digits, and a number
      that already has it is kept. */
  lemma CountryCodeRule(c: string)
    ensures IsPeruvianMobile(WithCountryCode(c)) <==> IsNineDigits(c) || IsPeruvianMobile(c)
    ensures IsNineDigits(c) ==> WithCountryCode(c) == CountryCode + c
    ensures IsPeruvianMobile(c) ==> WithCountryCode(c) == c
  {
    if IsNineDigits(c) {
      assert !StartsWith(c, "+") by { assert IsAsciiDigit(c[0]); }
      assert (CountryCode + c)[3..] == c;
    }
    if !StartsWith(c, "+") && IsPeruvianMobile(CountryCode + c) {
      assert (CountryCode + c)[3..] == c;
    }
    if IsPeruvianMobile(c) {
      assert StartsWith(c, "+");
    }
  }

  /** A text without separators is left alone by the clean-up. */
  lemma {:induction false} RemoveSeparatorsKeepsClean(s: string)
    requires forall i :: 0 <= i < |s| ==> !IsSeparator(s[i])
    ensures RemoveSeparators(s) == s
  {
    if s != [] {
      RemoveSeparatorsKeepsClean(s[1..]);
      assert [s[0]] + s[1..] == s;
    }
  }

  /** Normalizing is idempotent: an accepted number is accepted again,
      unchanged. */
  lemma NormalizeIdempotent(p: Option<string>)
    requires NormalizePhone(p).value.Some?
    ensures var q := NormalizePhone(p).value.value;
      NormalizePhone(Some(q)) == Checked(Some(q), None)
  {
    MobileNormalizesToItself(NormalizePhone(p).value.value);
  }

  lemma MobileNormalizesToItself(q: string)
    requires IsPeruvianMobile(q)
    ensures NormalizePhone(Some(q)) == Checked(Some(q), None)
  {
    assert q != "" by { assert |q| == 12; }
    MobileIsClean(q);
    RemoveSeparatorsKeepsClean(q);
    assert RemoveSeparators(Strip(q)) == q;
    CountryCodeRule(q);
    NormalizeOnCleaned(q);
    var r := NormalizePhone(Some(q));
    assert r.value == Some(q);
    assert r.error == None by { assert r.ExactlyOne(); }
  }

  /** A normalized number has no blank at either end and no separator. */
  lemma MobileIsClean(q: string)
    requires IsPeruvianMobile(q)
    ensures Strip(q) == q
    ensures forall i :: 0 <= i < |q| ==> !IsSeparator(q[i])
  {
    forall i | 0 <= i < |q| ensures !IsSeparator(q[i]) && !IsSpace(q[i]) {
      if i >= 3 {
        assert q[3..][i - 3] == q[i];
        PlainCharIsClean(q[i]);
      } else {
        assert q[..3][i] == q[i];
        PlainCharIsClean(q[i]);
      }
    }
    StripUnchanged(q);
  }

  /** Digits and the characters of "+51" are neither blanks nor
      separators. */
  lemma PlainCharIsClean(c: char)
    requires IsAsciiDigit(c) || c == '+'
    ensures !IsSpace(c) && !IsSeparator(c)
  {
  }

  /** `extract_phone_from_identity(identity)`: the caller's number as found
      in a SIP participant identity ("sip_<number>" or
      "...sip:<number>@<host>..."), or the stripped identity itself. */
  function ExtractPhoneFromIdentity(identity: Option<string>): (r: Option<string>)
    ensures r.None? <==> !Present(identity)
    ensures r.Some? && StartsWith(Strip(identity.value), "sip_") ==>
      r.value == WithCountryCode(Replace(Strip(identity.value), "sip_", ""))
    ensures r.Some? && !StartsWith(Strip(identity.value), "sip_") && !Contains(Strip(identity.value), "sip:") ==>
      r.value == Strip(identity.value)
  {
    if !Present(identity) then
      None
    else
      var id := Strip(identity.value);
      if StartsWith(id, "sip_") then
        Some(WithCountryCode(Replace(id, "sip_", "")))
      else if Contains(id, "sip:") then
        Some(WithCountryCode(BeforeFirst(BeforeFirst(AfterFirst(id, "sip:"), "sip:"), "@")))
      else
        Some(id)
  }

  /** A stripped "sip_<number>" identity, where the number holds no further
      "sip_", yields the number, with "+51" unless it has its own '+'. */
  lemma ExtractFromSipUnderscore(x: string)
    requires forall j :: !OccursAt(x, "sip_", j)
    requires x == [] || !IsSpace(x[|x| - 1])
    ensures ExtractPhoneFromIdentity(Some("sip_" + x)) == Some(WithCountryCode(x))
  {
    var id := "sip_" + x;
    assert StripLeft(id) == id;
    assert id[|id| - 1] == if x == [] then '_' else x[|x| - 1];
    assert Strip(id) == id;
    assert StartsWith(id, "sip_");
    assert id[..4] == "sip_" && id[4..] == x;
    assert Replace(id, "sip_", "") == Replace(x, "sip_", "");
    ReplaceAbsent(x, "sip_", "");
  }

  /** A stripped "sip:<user>@<host>" identity with no second "sip:" and no
      '@' inside the user part yields the user part, with "+51" unless it
      has its own '+'. */
  lemma ExtractFromSipUri(user: string, host: string)
    requires forall i :: 0 <= i < |user| ==> user[i] != '@'
    requires !Contains(user + "@" + host, "sip:")
    requires host == [] || !IsSpace(host[|host| - 1])
    ensures ExtractPhoneFromIdentity(Some("sip:" + user + "@" + host)) == Some(WithCountryCode(user))
  {
    var rest := user + "@" + host;
    UserPartEndsAtAt(user, host);
    SipUriAfterScheme(rest);
    HostEndsUri(user, host);
    SipUriStripped(rest);
    NoSecondSip(rest);
    SipBranch("sip:" + rest, rest, user);
  }

  /** The identity ends where the host ends, or with the '@' if there is no
      host; either way not in whitespace. */
  lemma HostEndsUri(user: string, host: string)
    requires host == [] || !IsSpace(host[|host| - 1])
    ensures var rest := user + "@" + host;
      rest != [] && !IsSpace(rest[|rest| - 1]) && "sip:" + rest == "sip:" + user + "@" + host
  {
    var rest := user + "@" + host;
    assert rest[|rest| - 1] == if host == [] then '@' else host[|host| - 1];
  }

  lemma SipTailEndsUri(user: string, tail: string)
    requires tail == [] || !IsSpace(tail[|tail| - 1])
    ensures var rest := user + "sip:" + tail;
      rest != [] && !IsSpace(rest[|rest| - 1]) && "sip:" + rest == "sip:" + user + "sip:" + tail
  {
    var rest := user + "sip:" + tail;
    assert rest[|rest| - 1] == if tail == [] then ':' else tail[|tail| - 1];
  }

  /** The `sip:` case of the extraction: for any identity holding `sip:`
      (and not starting with `sip_`), the number is what follows the first
      `sip:`, up to the next `sip:` or the next '@', whichever comes first,
      with the country-code rule. This is the unfolding of the `sip:` branch
      that `ExtractFromSipUri` and `ExtractCutsAtSecondSip` build on; those two
      say what it gives for concrete shapes of identity. */
  lemma ExtractFromSipUriParts(id: string, rest: string)
    requires id != "" && Strip(id) == id && !StartsWith(id, "sip_")
    requires Contains(id, "sip:") && AfterFirst(id, "sip:") == rest
    ensures ExtractPhoneFromIdentity(Some(id)) == Some(WithCountryCode(BeforeFirst(BeforeFirst(rest, "sip:"), "@")))
  {
  }

  lemma SipBranch(id: string, rest: string, user: string)
    requires id != "" && Strip(id) == id && !StartsWith(id, "sip_")
    requires Contains(id, "sip:") && AfterFirst(id, "sip:") == rest
    requires BeforeFirst(BeforeFirst(rest, "sip:"), "@") == user
    ensures ExtractPhoneFromIdentity(Some(id)) == Some(WithCountryCode(user))
  {
    ExtractFromSipUriParts(id, rest);
  }

  lemma NoSecondSip(rest: string)
    requires !Contains(rest, "sip:")
    ensures BeforeFirst(rest, "sip:") == rest
  {
  }

  /** A second `sip:` cuts the number short: "sip:" + user + "sip:" + tail
      yields `user` alone, whatever follows. */
  lemma ExtractCutsAtSecondSip(user: string, tail: string)
    requires forall i :: 0 <= i < |user| ==> user[i] != 's' && user[i] != '@'
    requires tail == [] || !IsSpace(tail[|tail| - 1])
    ensures ExtractPhoneFromIdentity(Some("sip:" + user + "sip:" + tail)) == Some(WithCountryCode(user))
  {
    var rest := user + "sip:" + tail;
    SecondSipIdentity(user, tail);
    SecondSipCut(user, tail);
    AbsentFirstChar(user, "@");
    SipBranch("sip:" + rest, rest, user);
  }

  /** How "sip:" + user + "sip:" + tail splits at its first `sip:`. */
  lemma SecondSipIdentity(user: string, tail: string)
    requires tail == [] || !IsSpace(tail[|tail| - 1])
    ensures var rest := user + "sip:" + tail;
      var id := "sip:" + rest;
      && id == "sip:" + user + "sip:" + tail
      && id != "" && Strip(id) == id && !StartsWith(id, "sip_")
      && Contains(id, "sip:") && AfterFirst(id, "sip:") == rest
  {
    var rest := user + "sip:" + tail;
    SipTailEndsUri(user, tail);
    SipUriAfterScheme(rest);
    SipUriStripped(rest);
  }

  lemma SecondSipCut(user: string, tail: string)
    requires forall i :: 0 <= i < |user| ==> user[i] != 's'
    ensures BeforeFirst(user + "sip:" + tail, "sip:") == user
  {
    var s := user + "sip:" + tail;
    assert s[|user|..|user| + 4] == "sip:";
    forall j | 0 <= j < |user| ensures !OccursAt(s, "sip:", j) {
      if j + 4 <= |s| {
        assert s[j..j + 4][0] == s[j] == user[j];
      }
    }
    FindIsFirst(s, "sip:", |user|);
    assert s[..|user|] == user;
  }

  /** "sip:" + rest is its own strip when `rest` does not end in whitespace. */
  lemma SipUriStripped(rest: string)
    requires rest != [] && !IsSpace(rest[|rest| - 1])
    ensures Strip("sip:" + rest) == "sip:" + rest
  {
    var id := "sip:" + rest;
    assert id[|id| - 1] == rest[|rest| - 1];
    StripUnchanged(id);
  }

  /** What follows the first "sip:" of "sip:" + rest is `rest`. */
  lemma SipUriAfterScheme(rest: string)
    ensures !StartsWith("sip:" + rest, "sip_")
    ensures Contains("sip:" + rest, "sip:") && AfterFirst("sip:" + rest, "sip:") == rest
  {
    var id := "sip:" + rest;
    assert id[3] == ':';
    assert id[0..4] == "sip:";
    FindIsFirst(id, "sip:", 0);
  }

  lemma UserPartEndsAtAt(user: string, host: string)
    requires forall i :: 0 <= i < |user| ==> user[i] != '@'
    ensures BeforeFirst(user + "@" + host, "@") == user
  {
    var rest := user + "@" + host;
    assert rest[|user|..|user| + 1] == "@";
    forall j | 0 <= j < |user| ensures !OccursAt(rest, "@", j) {
      assert rest[j] == user[j];
    }
    FindIsFirst(rest, "@", |user|);
    assert rest[..|user|] == user;
  }

  /** A bare 9-digit number gets the country code. */
  lemma NineDigitsNormalize(d: string)
    requires IsNineDigits(d)
    ensures NormalizePhone(Some(d)) == Checked(Some(CountryCode + d), None)
  {
    assert d != "" by { assert |d| == 9; }
    assert !IsSpace(d[0]) && !IsSpace(d[8]);
    StripUnchanged(d);
    forall i | 0 <= i < |d| ensures !IsSeparator(d[i]) {
      assert IsAsciiDigit(d[i]);
    }
    RemoveSeparatorsKeepsClean(d);
    NormalizeAcceptsExactly(d);
  }

  /** A SIP caller id "sip_" + 9 digits normalizes to "+51" + those digits. */
  lemma SipCallerIdNormalizes(digits: string)
    requires IsNineDigits(digits)
    ensures ExtractPhoneFromIdentity(Some("sip_" + digits)) == Some(CountryCode + digits)
    ensures NormalizePhone(ExtractPhoneFromIdentity(Some("sip_" + digits))) == Checked(Some(CountryCode + digits), None)
  {
    SipCallerIdExtracted(digits);
    NineDigitsNormalize(digits);
    MobileNormalizesToItself(CountryCode + digits);
  }

  lemma SipCallerIdExtracted(digits: string)
    requires IsNineDigits(digits)
    ensures ExtractPhoneFromIdentity(Some("sip_" + digits)) == Some(CountryCode + digits)
  {
    DigitsHoldNoSipUnderscore(digits);
    assert !IsSpace(digits[8]);
    ExtractFromSipUnderscore(digits);
    assert !StartsWith(digits, "+") by { assert IsAsciiDigit(digits[0]); }
  }

  lemma DigitsHoldNoSipUnderscore(digits: string)
    requires IsNineDigits(digits)
    ensures forall j :: !OccursAt(digits, "sip_", j)
  {
    forall j ensures !OccursAt(digits, "sip_", j) {
      if 0 <= j && j + 4 <= |digits| {
        assert digits[j..j + 4][0] == digits[j] && IsAsciiDigit(digits[j]);
      }
    }
  }

  /** A 5-digit number is refused with the 9-digit explanation. */
  lemma NormalizeExampleRefused(d: string)
    requires d == "12345"
    ensures NormalizePhone(Some(d)) == Checked(None, Some(InvalidPhoneMessage))
  {
    assert 0 < |d| < 9 && AllAsciiDigits(d);
    ShortNumberRefused(d);
  }

  /** Fewer than 9 digits, with no separators, is refused as invalid. */
  lemma ShortNumberRefused(d: string)
    requires 0 < |d| < 9 && AllAsciiDigits(d)
    ensures NormalizePhone(Some(d)) == Checked(None, Some(InvalidPhoneMessage))
  {
    assert d != "" by { assert d[0] == d[0]; }
    assert !IsSpace(d[0]) && !IsSpace(d[|d| - 1]);
    StripUnchanged(d);
    forall i | 0 <= i < |d| ensures !IsSeparator(d[i]) {
      assert IsAsciiDigit(d[i]);
    }
    RemoveSeparatorsKeepsClean(d);
    NormalizeAcceptsExactly(d);
  }
}
