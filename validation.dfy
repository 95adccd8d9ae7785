/** The checks and error-accumulating validators of utils/validation.go. */
module Validation {
  import opened Wrappers
  import opened Text

  const InvalidLengthCode := "invalid_length"
  const InvalidCharsCode := "invalid_chars"
  const InvalidFormatCode := "invalid_format"
  const DisallowedPlusCode := "disallowed_plus"
  const DisposableDomainCode := "disposable_domain"
  const InvalidCountryCodeCode := "invalid_country_code"
  const RestrictedCountryCode := "restricted_country"
  const InvalidValueCode := "invalid_value"
  const RequiredCode := "required"

  /** ErrorMessage: the message reported for a missing or malformed field. */
  function ErrorMessage(field: string): string {
    "Appropriate " + field + " required."
  }

  // ---------------------------------------------------------------- pure checks

  /**
   * StringFiledValidation: the trimmed length is at least `minLen` (taken as 1 when not
   * positive) and at most `maxLen`, where a `maxLen` of -1 means unbounded.
   */
  function StringFiledValidation(s: string, minLen: int, maxLen: int): (r: bool)
    ensures r ==> TrimSpace(s) != []
    ensures r <==> |TrimSpace(s)| >= (if minLen <= 0 then 1 else minLen) && (maxLen == -1 || |TrimSpace(s)| <= maxLen)
  {
    var n := TrimSpace(s);
    var min := if minLen <= 0 then 1 else minLen;
    if |n| < min then false
    else if maxLen != -1 && |n| > maxLen then false
    else true
  }

  /** White space around a value never changes the verdict, and white space alone always fails. */
  lemma StringFiledValidationIgnoresPadding(pre: string, s: string, post: string, minLen: int, maxLen: int)
    requires AllSpace(pre) && AllSpace(post)
    ensures StringFiledValidation(pre + s + post, minLen, maxLen) == StringFiledValidation(s, minLen, maxLen)
    ensures AllSpace(s) ==> !StringFiledValidation(s, minLen, maxLen)
  {
    TrimSpaceIgnoresPadding(pre, s, post);
    if AllSpace(s) {
      AllSpaceTrimsToEmpty(s);
    }
  }

  /** StringMaxValidation: the trimmed length is at most `maxLen`, where -1 means unbounded. */
  function StringMaxValidation(s: string, maxLen: int): (r: bool)
    ensures r <==> maxLen == -1 || |TrimSpace(s)| <= maxLen
  {
    var n := TrimSpace(s);
    !(maxLen != -1 && |n| > maxLen)
  }

  /** A value accepted with a maximum is accepted with any larger maximum. */
  lemma StringMaxValidationMonotone(s: string, maxLen: int, larger: int)
    requires 0 <= maxLen <= larger
    ensures StringMaxValidation(s, maxLen) ==> StringMaxValidation(s, larger)
  {
  }

  /** StringInSlice: whether `a` equals some element of `list`, scanning from the front. */
  function StringInSlice(a: string, list: seq<string>): (r: bool)
    ensures r <==> a in list
  {
    if list == [] then false
    else if list[0] == a then true
    else
      assert forall x :: x in list <==> x == list[0] || x in list[1..];
      StringInSlice(a, list[1..])
  }

  /** IsValidCurrencyCode: exactly three bytes, each an upper-case ASCII letter. */
  function IsValidCurrencyCode(s: string): (r: bool)
    ensures r <==> |s| == 3 && forall i :: 0 <= i < |s| ==> IsUpper(s[i])
  {
    |s| == 3 && IsUpper(s[0]) && IsUpper(s[1]) && IsUpper(s[2])
  }

  /** The characters the local part of an address may use: [a-z0-9._%-]. */
  predicate LocalChar(c: char) {
    IsLower(c) || IsDigit(c) || c == '.' || c == '_' || c == '%' || c == '-'
  }

  /** The characters the domain of an address may use: [a-z0-9.-]. */
  predicate DomainChar(c: char) {
    IsLower(c) || IsDigit(c) || c == '.' || c == '-'
  }

  /** Every character may appear in a local part. */
  predicate LocalText(s: string) {
    forall i :: 0 <= i < |s| ==> LocalChar(s[i])
  }

  /** Every character may appear in a domain. */
  predicate DomainText(s: string) {
    forall i :: 0 <= i < |s| ==> DomainChar(s[i])
  }

  /** Every character is a lower-case ASCII letter. */
  predicate LowerText(s: string) {
    forall i :: 0 <= i < |s| ==> IsLower(s[i])
  }

  /** The address splits as local part '@' domain '.' top-level domain at positions `at` and `dot`. */
  predicate EmailShape(e: string, at: int, dot: int) {
    0 < at && at + 1 < dot && dot + 3 <= |e| && e[at] == '@' && e[dot] == '.' &&
    LocalText(e[..at]) && DomainText(e[at + 1..dot]) && LowerText(e[dot + 1..])
  }

  /**
   * IsEmailValid, the pattern ^[a-z0-9._%-]+@[a-z0-9.-]+\.[a-z]{2,}$ written out. No local
   * character is an '@' and no top-level character a '.', so a match can only split the
   * address at its first '@' and at its last '.'.
   */
  predicate IsEmailValid(email: string) {
    EmailShape(email, IndexAny(email, {'@'}), LastIndexOf(email, '.'))
  }

  /** The predicate accepts exactly the strings the pattern matches. */
  lemma EmailValidIffShape(e: string)
    ensures IsEmailValid(e) <==> exists at, dot :: EmailShape(e, at, dot)
  {
    if exists a, d :: EmailShape(e, a, d) {
      var a, d :| EmailShape(e, a, d);
      ShapedEmailIsValid(e, a, d);
    }
  }

  /** An address of the pattern's shape is accepted: its '@' is the first one and its '.' the last. */
  lemma ShapedEmailIsValid(e: string, a: int, d: int)
    requires EmailShape(e, a, d)
    ensures IndexAny(e, {'@'}) == a && LastIndexOf(e, '.') == d
    ensures IsEmailValid(e)
  {
    assert IndexAny(e, {'@'}) == a by {
      assert e[a] in {'@'};
      forall i | 0 <= i < a
        ensures e[i] !in {'@'}
      {
        assert LocalChar(e[..a][i]);
      }
    }
    assert LastIndexOf(e, '.') == d by {
      forall j | d < j < |e|
        ensures e[j] != '.'
      {
        assert IsLower(e[d + 1..][j - d - 1]);
      }
    }
  }

  /** An accepted address holds no capital letter and no '+'. */
  lemma EmailValidIsLowerCaseWithoutPlus(e: string)
    requires IsEmailValid(e)
    ensures forall i :: 0 <= i < |e| ==> !IsUpper(e[i]) && e[i] != '+'
  {
    var at, dot := IndexAny(e, {'@'}), LastIndexOf(e, '.');
    forall i | 0 <= i < |e|
      ensures !IsUpper(e[i]) && e[i] != '+'
    {
      if i < at {
        assert LocalChar(e[..at][i]);
      } else if at < i < dot {
        assert DomainChar(e[at + 1..dot][i - at - 1]);
      } else if dot < i {
        assert IsLower(e[dot + 1..][i - dot - 1]);
      }
    }
  }

  /** One label of a host name: 1 to 63 letters, digits or dashes, starting and ending with a letter or digit. */
  predicate IsHostLabel(part: string) {
    1 <= |part| <= 63 && IsAlphanumeric(part[0]) && IsAlphanumeric(part[|part| - 1]) &&
    forall i :: 0 <= i < |part| ==> IsAlphanumeric(part[i]) || part[i] == '-'
  }

  /** The host-name pattern of IsValidURL: one or more labels separated by single dots. */
  predicate IsHostname(host: string) {
    var labels := Split(host, '.');
    forall k :: 0 <= k < |labels| ==> IsHostLabel(labels[k])
  }

  /** The scheme-less remainder of a URL that starts with http:// or https://. */
  function AfterScheme(u: string): string
    requires HasPrefix(u, "http://") || HasPrefix(u, "https://")
  {
    if HasPrefix(u, "https://") then u[8..] else u[7..]
  }

  /** The host and port: the remainder up to the first '/', '?' or '#'. */
  function HostPort(domain: string): (r: string)
    ensures forall i :: 0 <= i < |r| ==> r[i] !in {'/', '?', '#'}
  {
    var idx := IndexAny(domain, {'/', '?', '#'});
    if idx != -1 then domain[..idx] else domain
  }

  /** The host name: the host and port without the part from the last ':'. */
  function HostnameOf(hostPort: string): string {
    var colon := LastIndexOf(hostPort, ':');
    if colon != -1 then hostPort[..colon] else hostPort
  }

  /** Whatever follows the last ':' is digits only (possibly none). */
  predicate PortIsDigits(hostPort: string) {
    var colon := LastIndexOf(hostPort, ':');
    colon == -1 || forall i :: colon < i < |hostPort| ==> IsDigit(hostPort[i])
  }

  /** The last of two or more dot-separated labels is two or more ASCII letters. */
  predicate HasLetterTld(hostname: string) {
    var tld := LastPiece(hostname, '.');
    |Split(hostname, '.')| >= 2 && |tld| >= 2 && forall i :: 0 <= i < |tld| ==> IsLetter(tld[i])
  }

  /**
   * IsValidURL: after trimming, an http or https URL whose host (port removed) matches the
   * host-name pattern, contains a dot, and ends in a label of two or more ASCII letters; a
   * port, when present, is all digits.
   */
  predicate IsValidURL(urlStr: string) {
    if urlStr == "" then false
    else
      var u := TrimSpace(urlStr);
      if !HasPrefix(u, "http://") && !HasPrefix(u, "https://") then false
      else
        var domain := AfterScheme(u);
        if domain == "" then false
        else
          var hostPort := HostPort(domain);
          if hostPort == "" then false
          else if !PortIsDigits(hostPort) then false
          else if !IsHostname(HostnameOf(hostPort)) then false
          else if !Contains(HostnameOf(hostPort), ".") then false
          else HasLetterTld(HostnameOf(hostPort))
  }

  /**
   * What an accepted URL guarantees: an http:// or https:// prefix, a non-empty host and
   * port before the first '/', '?' or '#', digits only after its last ':', and a host name
   * of valid labels that contains a dot and ends, after its last dot, in two or more letters.
   */
  lemma ValidURLRequirements(urlStr: string)
    requires IsValidURL(urlStr)
    ensures var u := TrimSpace(urlStr);
      (HasPrefix(u, "http://") || HasPrefix(u, "https://")) &&
      var hostPort := HostPort(AfterScheme(u));
      var colon := LastIndexOf(hostPort, ':');
      var h := HostnameOf(hostPort);
      var dot := LastIndexOf(h, '.');
      hostPort != "" &&
      (colon == -1 || forall i :: colon < i < |hostPort| ==> IsDigit(hostPort[i])) &&
      IsHostname(h) && '.' in h &&
      |h| - dot - 1 >= 2 && forall i :: dot < i < |h| ==> IsLetter(h[i])
  {
    var u := TrimSpace(urlStr);
    HostnameRequirements(HostnameOf(HostPort(AfterScheme(u))));
  }

  /** A host name with a dot and a letter top-level label: the text after its last dot is two or more letters. */
  lemma HostnameRequirements(h: string)
    requires Contains(h, ".") && HasLetterTld(h)
    ensures '.' in h
    ensures var dot := LastIndexOf(h, '.');
      |h| - dot - 1 >= 2 && forall i :: dot < i < |h| ==> IsLetter(h[i])
  {
    var i :| OccursAt(h, ".", i);
    assert h[i] == '.';
    SplitLastPiece(h, '.');
    LettersFrom(h, LastIndexOf(h, '.') + 1);
  }

  /** A suffix made of letters, read position by position in the whole string. */
  lemma LettersFrom(h: string, n: nat)
    requires n <= |h| && forall k :: 0 <= k < |h[n..]| ==> IsLetter(h[n..][k])
    ensures forall j :: n <= j < |h| ==> IsLetter(h[j])
  {
    forall j | n <= j < |h|
      ensures IsLetter(h[j])
    {
      assert h[j] == h[n..][j - n];
    }
  }

  /** A URL without a scheme, or with another scheme, is refused. */
  lemma SchemeRequired(urlStr: string)
    requires !HasPrefix(TrimSpace(urlStr), "http://") && !HasPrefix(TrimSpace(urlStr), "https://")
    ensures !IsValidURL(urlStr)
  {
  }

  /** ValidateURL: "required" for "", "invalid_format" for a URL IsValidURL refuses, otherwise "". */
  function ValidateURL(urlStr: string, fieldName: string): (code: string)
    ensures urlStr == "" ==> code == RequiredCode
    ensures urlStr != "" ==> (code == "" <==> IsValidURL(urlStr))
    ensures code in {"", RequiredCode, InvalidFormatCode}
  {
    if urlStr == "" then RequiredCode
    else if !IsValidURL(urlStr) then InvalidFormatCode
    else ""
  }

  /** A first name or last name: a letter, then at most 69 letters, dashes or white space (the pattern's \s). */
  predicate IsValidName(s: string) {
    1 <= |s| <= 70 && IsLetter(s[0]) &&
    forall i :: 1 <= i < |s| ==> IsLetter(s[i]) || s[i] == '-' || s[i] in {'\t', '\n', '\r', ' ', 12 as char}
  }

  // ------------------------------------------------------- error-accumulating validators

  /** `m` after appending `codes`, in order, to the list of `field`; an empty list leaves `m` as it is. */
  function Appended(m: map<string, seq<string>>, field: string, codes: seq<string>): map<string, seq<string>> {
    if codes == [] then m else m[field := CodesOf(m, field) + codes]
  }

  /** Appending changes the list of `field` only, which becomes the old list followed by `codes`. */
  lemma AppendedChangesOneField(m: map<string, seq<string>>, field: string, codes: seq<string>)
    ensures var r := Appended(m, field, codes);
      (forall k :: k != field ==> (k in r <==> k in m) && (k in m ==> r[k] == m[k])) &&
      CodesOf(r, field) == CodesOf(m, field) + codes
  {
    if codes == [] {
      assert CodesOf(m, field) + codes == CodesOf(m, field);
    }
  }

  /** The codes recorded for `field`; a missing entry reads as the empty list. */
  function CodesOf(m: map<string, seq<string>>, field: string): seq<string> {
    if field in m then m[field] else []
  }

  /** The caller-owned `map[string][]string` the validators append error codes to. */
  class FieldErrors {
    var byField: map<string, seq<string>>

    constructor ()
      ensures byField == map[]
    {
      byField := map[];
    }

    /** errors[field] = append(errors[field], code) */
    method Append(field: string, code: string)
      modifies this
      ensures byField == Appended(old(byField), field, [code])
    {
      byField := byField[field := CodesOf(byField, field) + [code]];
    }
  }

  /**
   * ValidateRequiredPositiveInt: 0 records the required message, a negative value records
   * "invalid_value"; both return 0. A positive value is returned and records nothing.
   */
  method ValidateRequiredPositiveInt(value: int, fieldName: string, errors: FieldErrors, fieldPath: string) returns (r: int)
    modifies errors
    ensures value == 0 ==> r == 0 && errors.byField == Appended(old(errors.byField), fieldPath, [ErrorMessage(fieldName)])
    ensures value < 0 ==> r == 0 && errors.byField == Appended(old(errors.byField), fieldPath, [InvalidValueCode])
    ensures value > 0 ==> r == value && errors.byField == old(errors.byField)
  {
    if value == 0 {
      errors.Append(fieldPath, ErrorMessage(fieldName));
      return 0;
    }
    if value <= 0 {
      errors.Append(fieldPath, InvalidValueCode);
      return 0;
    }
    return value;
  }

  /**
   * ValidateOptionalString: "" is accepted as absent; otherwise the trimmed value is returned
   * and "invalid_length" recorded when its length is outside [minLen, maxLen].
   */
  method ValidateOptionalString(value: string, minLen: int, maxLen: int, errors: FieldErrors, fieldPath: string) returns (r: string)
    modifies errors
    ensures value == "" ==> r == "" && errors.byField == old(errors.byField)
    ensures value != "" ==> (r == TrimSpace(value) &&
      errors.byField == Appended(old(errors.byField), fieldPath,
        if |r| < minLen || |r| > maxLen then [InvalidLengthCode] else []))
  {
    if value == "" {
      return "";
    }
    var normalized := TrimSpace(value);
    if |normalized| < minLen || |normalized| > maxLen {
      errors.Append(fieldPath, InvalidLengthCode);
    }
    return normalized;
  }

  /** ValidateOptionalStringWithLength: as ValidateOptionalString, recording the caller's `errorCode`. */
  method ValidateOptionalStringWithLength(value: string, minLength: int, maxLength: int, errors: FieldErrors, fieldPath: string, errorCode: string) returns (r: string)
    modifies errors
    ensures value == "" ==> r == "" && errors.byField == old(errors.byField)
    ensures value != "" ==> (r == TrimSpace(value) &&
      errors.byField == Appended(old(errors.byField), fieldPath,
        if |r| < minLength || |r| > maxLength then [errorCode] else []))
  {
    if value == "" {
      return "";
    }
    var trimmed := TrimSpace(value);
    if |trimmed| < minLength || |trimmed| > maxLength {
      errors.Append(fieldPath, errorCode);
    }
    return trimmed;
  }

  /** ValidateOptionalStringWithMaxLength: "" is absent; otherwise "invalid_length" when the trimmed value is too long. */
  method ValidateOptionalStringWithMaxLength(value: string, maxLength: int, errors: FieldErrors, fieldPath: string) returns (r: string)
    modifies errors
    ensures value == "" ==> r == "" && errors.byField == old(errors.byField)
    ensures value != "" ==> (r == TrimSpace(value) &&
      errors.byField == Appended(old(errors.byField), fieldPath, if |r| > maxLength then [InvalidLengthCode] else []))
  {
    if value == "" {
      return "";
    }
    var trimmed := TrimSpace(value);
    if |trimmed| > maxLength {
      errors.Append(fieldPath, InvalidLengthCode);
    }
    return trimmed;
  }

  /** The domains ValidateEmail treats as disposable, in the order it tries them. */
  const DisposableDomains: seq<string> := ["@10minutemail.com", "@temp-mail.org"]

  /** The address contains one of the disposable domains. */
  predicate IsDisposable(normalized: string) {
    exists j :: 0 <= j < |DisposableDomains| && Contains(normalized, DisposableDomains[j])
  }

  /** The four codes ValidateEmail can record are different strings. */
  lemma CodesDistinct()
    ensures InvalidLengthCode != DisallowedPlusCode && InvalidLengthCode != InvalidFormatCode
    ensures InvalidLengthCode != DisposableDomainCode && DisallowedPlusCode != InvalidFormatCode
    ensures DisallowedPlusCode != DisposableDomainCode && InvalidFormatCode != DisposableDomainCode
  {
    assert |InvalidLengthCode| == 14 && |InvalidFormatCode| == 14;
    assert |DisallowedPlusCode| == 15 && |DisposableDomainCode| == 17;
    assert InvalidLengthCode[8] != InvalidFormatCode[8];
  }

  /** The codes recorded for the four outcomes of ValidateEmail's checks, in the order it runs them. */
  function CodeList(badLength: bool, plus: bool, badFormat: bool, disposable: bool): (codes: seq<string>)
    ensures (DisallowedPlusCode in codes <==> plus) && (DisposableDomainCode in codes <==> disposable)
    ensures (InvalidLengthCode in codes <==> badLength) && (InvalidFormatCode in codes <==> badFormat)
    ensures forall i :: 0 <= i < |codes| - 1 ==> codes[i] != DisposableDomainCode
    ensures codes == [] <==> !badLength && !plus && !badFormat && !disposable
  {
    CodesDistinct();
    (if badLength then [InvalidLengthCode] else []) +
    (if plus then [DisallowedPlusCode] else []) +
    (if badFormat then [InvalidFormatCode] else []) +
    (if disposable then [DisposableDomainCode] else [])
  }

  /** The codes ValidateEmail records for a non-empty address, given its normalized form. */
  function EmailCodes(normalized: string): seq<string> {
    CodeList(|normalized| < 3 || |normalized| > 254, Contains(normalized, "+"), !IsEmailValid(normalized), IsDisposable(normalized))
  }

  /** strings.Contains with a one-character needle is membership. */
  lemma ContainsChar(s: string, c: char)
    ensures Contains(s, [c]) <==> c in s
  {
    if c in s {
      var i :| 0 <= i < |s| && s[i] == c;
      assert OccursAt(s, [c], i);
    }
    if Contains(s, [c]) {
      var i :| OccursAt(s, [c], i);
      assert s[i] == [c][0];
    }
  }

  /**
   * "disallowed_plus" is recorded exactly when the address holds a '+', and then
   * "invalid_format" too; "disposable_domain" is recorded at most once; an address is
   * accepted exactly when it is 3 to 254 long, matches the pattern and is not disposable.
   */
  lemma EmailCodesMeaning(normalized: string)
    ensures DisallowedPlusCode in EmailCodes(normalized) <==> '+' in normalized
    ensures '+' in normalized ==> InvalidFormatCode in EmailCodes(normalized)
    ensures forall i :: 0 <= i < |EmailCodes(normalized)| - 1 ==> EmailCodes(normalized)[i] != DisposableDomainCode
    ensures EmailCodes(normalized) == [] <==>
      3 <= |normalized| <= 254 && IsEmailValid(normalized) && !IsDisposable(normalized)
  {
    ContainsChar(normalized, '+');
    assert "+" == ['+'];
    if '+' in normalized && IsEmailValid(normalized) {
      EmailValidIsLowerCaseWithoutPlus(normalized);
    }
  }

  /** Appending twice to one field is appending the concatenation. */
  lemma AppendedTwice(m: map<string, seq<string>>, field: string, a: seq<string>, b: seq<string>)
    ensures Appended(Appended(m, field, a), field, b) == Appended(m, field, a + b)
  {
    if a == [] {
      assert a + b == b;
    } else if b == [] {
      assert a + b == a;
    } else {
      assert CodesOf(m, field) + a + b == CodesOf(m, field) + (a + b);
    }
  }

  /**
   * ValidateEmail: "" records the required message and returns "". Otherwise the trimmed,
   * lower-cased address is returned and its codes are recorded under `fieldPath` only.
   */
  method ValidateEmail(email: string, fieldName: string, errors: FieldErrors, fieldPath: string) returns (r: string)
    modifies errors
    ensures email == "" ==> r == "" && errors.byField == Appended(old(errors.byField), fieldPath, [ErrorMessage(fieldName)])
    ensures email != "" ==> (r == ToLower(TrimSpace(email)) &&
      errors.byField == Appended(old(errors.byField), fieldPath, EmailCodes(r)))
  {
    if email == "" {
      errors.Append(fieldPath, ErrorMessage(fieldName));
      return "";
    }
    var normalized := ToLower(TrimSpace(email));
    ghost var start := errors.byField;
    var badLength := |normalized| < 3 || |normalized| > 254;
    var plus := Contains(normalized, "+");
    var badFormat := !IsEmailValid(normalized);
    RecordChecks(badLength, plus, badFormat, errors, fieldPath);
    RecordDisposable(normalized, errors, fieldPath);
    EmailCodesRecorded(start, fieldPath, normalized);
    return normalized;
  }

  /** The two recording steps of ValidateEmail together append the address's codes. */
  lemma EmailCodesRecorded(m: map<string, seq<string>>, field: string, normalized: string)
    ensures var badLength := |normalized| < 3 || |normalized| > 254;
      Appended(Appended(m, field, CodeList(badLength, Contains(normalized, "+"), !IsEmailValid(normalized), false)), field,
               if IsDisposable(normalized) then [DisposableDomainCode] else []) ==
      Appended(m, field, EmailCodes(normalized))
  {
    AllCodesAppended(m, field, |normalized| < 3 || |normalized| > 254, Contains(normalized, "+"), !IsEmailValid(normalized),
                     IsDisposable(normalized));
  }

  /** Appending the first three codes, then the disposable code, appends the whole code list. */
  lemma AllCodesAppended(m: map<string, seq<string>>, field: string, badLength: bool, plus: bool, badFormat: bool, disposable: bool)
    ensures Appended(Appended(m, field, CodeList(badLength, plus, badFormat, false)), field,
                     if disposable then [DisposableDomainCode] else []) ==
            Appended(m, field, CodeList(badLength, plus, badFormat, disposable))
  {
    AppendedTwice(m, field, CodeList(badLength, plus, badFormat, false), if disposable then [DisposableDomainCode] else []);
    CodeListLast(badLength, plus, badFormat, disposable);
  }

  /** The three checks of ValidateEmail before the domain loop, each appending its code when it fails. */
  method RecordChecks(badLength: bool, plus: bool, badFormat: bool, errors: FieldErrors, fieldPath: string)
    modifies errors
    ensures errors.byField == Appended(old(errors.byField), fieldPath, CodeList(badLength, plus, badFormat, false))
  {
    ghost var codes: seq<string> := [];
    if badLength {
      errors.Append(fieldPath, InvalidLengthCode);
      codes := [InvalidLengthCode];
    }
    if plus {
      AppendedTwice(old(errors.byField), fieldPath, codes, [DisallowedPlusCode]);
      errors.Append(fieldPath, DisallowedPlusCode);
      codes := codes + [DisallowedPlusCode];
    }
    if badFormat {
      AppendedTwice(old(errors.byField), fieldPath, codes, [InvalidFormatCode]);
      errors.Append(fieldPath, InvalidFormatCode);
      codes := codes + [InvalidFormatCode];
    }
    assert codes == CodeList(badLength, plus, badFormat, false);
  }

  /** The disposable-domain code comes last. */
  lemma CodeListLast(badLength: bool, plus: bool, badFormat: bool, disposable: bool)
    ensures CodeList(badLength, plus, badFormat, disposable) ==
      CodeList(badLength, plus, badFormat, false) + if disposable then [DisposableDomainCode] else []
  {
    var prefix := CodeList(badLength, plus, badFormat, false);
    assert prefix + [] == prefix;
  }

  /** The loop of ValidateEmail over the disposable domains: records "disposable_domain" on the first hit and stops. */
  method RecordDisposable(normalized: string, errors: FieldErrors, fieldPath: string)
    modifies errors
    ensures errors.byField == Appended(old(errors.byField), fieldPath, if IsDisposable(normalized) then [DisposableDomainCode] else [])
  {
    var k := 0;
    while k < |DisposableDomains|
      invariant 0 <= k <= |DisposableDomains|
      invariant errors.byField == old(errors.byField)
      invariant forall j :: 0 <= j < k ==> !Contains(normalized, DisposableDomains[j])
    {
      if Contains(normalized, DisposableDomains[k]) {
        errors.Append(fieldPath, DisposableDomainCode);
        return;
      }
      k := k + 1;
    }
  }

  /**
   * The codes ValidateCountryCodeWithRestrictions records for a non-empty code, given its
   * normalized form: a wrong length, else a pattern mismatch, else a restricted country.
   */
  function CountryCodes(normalized: string, restricted: seq<string>, pattern: Option<string -> bool>): (codes: seq<string>)
    ensures |codes| <= 1
    ensures RestrictedCountryCode in codes ==> |normalized| == 3 && normalized in restricted && (pattern.None? || pattern.value(normalized))
  {
    if |normalized| != 3 then [InvalidLengthCode]
    else if pattern.Some? && !pattern.value(normalized) then [InvalidCountryCodeCode]
    else if normalized in restricted then [RestrictedCountryCode]
    else []
  }

  /**
   * ValidateCountryCodeWithRestrictions: "" records the required message and returns "".
   * Otherwise the trimmed upper-cased code is returned and at most one code recorded; the
   * restricted list is scanned only for a three-character code the pattern accepts.
   */
  method ValidateCountryCodeWithRestrictions(countryCode: string, fieldName: string, restrictedCountries: seq<string>,
                                             errors: FieldErrors, fieldPath: string, pattern: Option<string -> bool>)
    returns (r: string)
    modifies errors
    ensures countryCode == "" ==> r == "" && errors.byField == Appended(old(errors.byField), fieldPath, [ErrorMessage(fieldName)])
    ensures countryCode != "" ==> (r == ToUpper(TrimSpace(countryCode)) &&
      errors.byField == Appended(old(errors.byField), fieldPath, CountryCodes(r, restrictedCountries, pattern)))
  {
    if countryCode == "" {
      errors.Append(fieldPath, ErrorMessage(fieldName));
      return "";
    }
    var normalized := ToUpper(TrimSpace(countryCode));
    if |normalized| != 3 {
      errors.Append(fieldPath, InvalidLengthCode);
    } else if pattern.Some? && !pattern.value(normalized) {
      errors.Append(fieldPath, InvalidCountryCodeCode);
    } else if |restrictedCountries| > 0 {
      var k := 0;
      while k < |restrictedCountries|
        invariant 0 <= k <= |restrictedCountries|
        invariant errors.byField == old(errors.byField)
        invariant normalized !in restrictedCountries[..k]
      {
        if normalized == restrictedCountries[k] {
          errors.Append(fieldPath, RestrictedCountryCode);
          break;
        }
        assert restrictedCountries[..k + 1] == restrictedCountries[..k] + [restrictedCountries[k]];
        k := k + 1;
      }
      if k == |restrictedCountries| {
        assert restrictedCountries[..k] == restrictedCountries;
      }
    }
    return normalized;
  }

  // ------------------------------------------------------------- response shapes

  /** A value stored in an ErrorResponse: a message or a map of field messages. */
  datatype ErrValue = Text(text: string) | Nested(fields: map<string, string>)

  /** The `map[string]interface{}` of error entries handlers return. */
  class ErrorResponse {
    var entries: map<string, ErrValue>

    constructor ()
      ensures entries == map[]
    {
      entries := map[];
    }

    /** Add: sets the entry for `key`, replacing any earlier one. */
    method Add(key: string, value: ErrValue)
      modifies this
      ensures entries == old(entries)[key := value]
    {
      entries := entries[key := value];
    }

    /**
     * AddNested: sets `field` inside the nested map under `key`, keeping that map's other
     * fields; an entry that is not a nested map is replaced by a new one.
     */
    method AddNested(key: string, field: string, message: string)
      modifies this
      ensures key in entries && entries[key].Nested?
      ensures entries[key].fields == NestedOf(old(entries), key)[field := message]
      ensures forall k :: k != key ==> (k in entries <==> k in old(entries)) && (k in entries ==> entries[k] == old(entries)[k])
    {
      var nested := NestedOf(entries, key);
      entries := entries[key := Nested(nested[field := message])];
    }
  }

  /** The nested map under `key`, or an empty one when there is none. */
  function NestedOf(entries: map<string, ErrValue>, key: string): map<string, string> {
    if key in entries && entries[key].Nested? then entries[key].fields else map[]
  }

  /** The outcome of a request validation. */
  datatype Validation = Validation(statusCode: int, status: bool, response: map<string, ErrValue>, message: string, customValidationError: bool)

  /** NewValidationError: a passing (Status false) outcome with status 422 and message "Validation failed!". */
  function NewValidationError(): (v: Validation)
    ensures v.statusCode == 422 && !v.status && v.message == "Validation failed!"
    ensures v.response == map[] && !v.customValidationError
  {
    Validation(422, false, map[], "Validation failed!", false)
  }
}
