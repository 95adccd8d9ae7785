/** The string, number and allow-list helpers of utils/utils.go. */
module Utils {
  import opened Wrappers
  import opened Text
  import Int64

  /** SafeString: the pointed-to string, or "" for a nil pointer. */
  function SafeString(s: Option<string>): (r: string)
    ensures s.Some? ==> r == s.value
    ensures s.None? ==> r == ""
  {
    match s
    case Some(v) => v
    case None => ""
  }

  /** A wall-clock time of day. */
  datatype ClockTime = ClockTime(hour: int, minute: int, second: int)

  /** time.Time.Clock for a UTC instant given in Unix seconds. */
  function Clock(t: int): (c: ClockTime)
    ensures 0 <= c.hour < 24 && 0 <= c.minute < 60 && 0 <= c.second < 60
  {
    var day := t % 86400;
    ClockTime(day / 3600, (day % 3600) / 60, day % 60)
  }

  /** GetTimeInSeconds: the seconds elapsed since midnight (UTC) at instant `t`. */
  function GetTimeInSeconds(t: int): (r: int)
    ensures 0 <= r < 86400
    ensures r == t % 86400
  {
    var c := Clock(t);
    var day := t % 86400;
    assert day % 60 == (day % 3600) % 60;
    c.hour * 3600 + c.minute * 60 + c.second
  }

  /**
   * GetFileExtension: the suffix from the last '.' on, when that dot is neither the first nor
   * the last character of the name; "" otherwise.
   */
  function GetFileExtension(fileName: string): (r: string)
    ensures r != "" ==> 2 <= |r| < |fileName| && HasSuffix(fileName, r) && r[0] == '.' && '.' !in r[1..]
    ensures r == "" <==> forall i :: 0 < i < |fileName| - 1 && fileName[i] == '.' ==> exists j :: i < j < |fileName| && fileName[j] == '.'
  {
    var dotIndex := LastIndexOf(fileName, '.');
    if 0 < dotIndex < |fileName| - 1 then
      var r := fileName[dotIndex..];
      assert forall k :: 1 <= k < |r| ==> r[k] == fileName[dotIndex + k];
      assert !(exists j :: dotIndex < j < |fileName| && fileName[j] == '.');
      r
    else
      fileName[..0]
  }

  /** The state codes Bridge does not serve. */
  const ProhibitedStates: set<string> := {"US-NY", "US-AK"}

  /** The country codes Bridge prohibits or controls. */
  const ProhibitedCountries: set<string> := {
    "PRK", "SYR", "IRN", "CUB",
    "ERI", "SOM", "ZWE", "NIC", "MKD", "SVN", "ALB", "MMR", "BGD", "PAK",
    "UKR", "NPL", "PSE", "CHN", "QAT", "DZA", "KEN", "XKX", "SSD", "SDN",
    "MAR", "MLI", "YEM", "NER"
  }

  /** A code as the allow-lists compare it: trimmed and upper-cased. */
  function NormalizeCode(code: string): string {
    ToUpper(TrimSpace(code))
  }

  /** IsStateAllowedForBridge: every state except the listed ones, compared after normalizing. */
  function IsStateAllowedForBridge(state: string): (r: bool)
    ensures r <==> NormalizeCode(state) !in ProhibitedStates
  {
    var s := NormalizeCode(state);
    !(s in ProhibitedStates)
  }

  /** IsCountryAllowedForBridge: false for "", otherwise every country except the listed ones. */
  function IsCountryAllowedForBridge(countryCode: string): (r: bool)
    ensures r <==> countryCode != "" && NormalizeCode(countryCode) !in ProhibitedCountries
  {
    if countryCode == "" then false
    else
      var c := NormalizeCode(countryCode);
      !(c in ProhibitedCountries)
  }

  /** The shape of every listed code: non-empty, capital letters and dashes only. */
  predicate CodeShape(code: string) {
    code != [] && forall i :: 0 <= i < |code| ==> IsUpper(code[i]) || code[i] == '-'
  }

  lemma ListedCodesHaveCodeShape(code: string)
    requires code in ProhibitedCountries || code in ProhibitedStates
    ensures CodeShape(code)
  {
  }

  /** A code of capitals and dashes normalizes back to itself from any casing and padding. */
  lemma NormalizePadded(code: string, pre: string, post: string)
    requires CodeShape(code)
    requires AllSpace(pre) && AllSpace(post)
    ensures NormalizeCode(pre + code + post) == code
    ensures NormalizeCode(pre + ToLower(code) + post) == code
  {
    var low := ToLower(code);
    CodeCaseRoundTrip(code);
    TrimSpaceOfPadded(pre, low, post);
    TrimSpaceOfPadded(pre, code, post);
  }

  lemma CodeCaseRoundTrip(code: string)
    requires CodeShape(code)
    ensures ToUpper(ToLower(code)) == code && ToUpper(code) == code
    ensures !IsSpace(ToLower(code)[0]) && !IsSpace(ToLower(code)[|code| - 1])
    ensures !IsSpace(code[0]) && !IsSpace(code[|code| - 1])
  {
    var low := ToLower(code);
    forall i | 0 <= i < |code|
      ensures UpperChar(low[i]) == code[i] && UpperChar(code[i]) == code[i] && !IsSpace(low[i])
    {
      CharCaseRoundTrip(code[i]);
    }
  }

  lemma CharCaseRoundTrip(c: char)
    requires IsUpper(c) || c == '-'
    ensures UpperChar(LowerChar(c)) == c && UpperChar(c) == c && !IsSpace(LowerChar(c)) && !IsSpace(c)
  {
  }

  /** A listed country is refused however it is cased or padded with white space. */
  lemma ListedCountryRefusedInAnyCase(code: string, pre: string, post: string)
    requires code in ProhibitedCountries
    requires AllSpace(pre) && AllSpace(post)
    ensures !IsCountryAllowedForBridge(pre + code + post)
    ensures !IsCountryAllowedForBridge(pre + ToLower(code) + post)
  {
    ListedCodesHaveCodeShape(code);
    NormalizePadded(code, pre, post);
  }

  /** A listed state is refused however it is cased or padded with white space. */
  lemma ListedStateRefusedInAnyCase(code: string, pre: string, post: string)
    requires code in ProhibitedStates
    requires AllSpace(pre) && AllSpace(post)
    ensures !IsStateAllowedForBridge(pre + code + post)
    ensures !IsStateAllowedForBridge(pre + ToLower(code) + post)
  {
    ListedCodesHaveCodeShape(code);
    NormalizePadded(code, pre, post);
  }

  /** The empty country code is refused, but a code of white space only is allowed, and "" is an allowed state. */
  lemma BlankCodes(blank: string)
    requires blank != "" && AllSpace(blank)
    ensures !IsCountryAllowedForBridge("")
    ensures IsCountryAllowedForBridge(blank)
    ensures IsStateAllowedForBridge("")
  {
    AllSpaceTrimsToEmpty(blank);
  }

  /** What ToSnakeCase writes for the character `c`; `first` says whether it starts the string. */
  function SnakePiece(c: char, first: bool): string {
    if IsUpper(c) then (if first then [] else ['_']) + [LowerChar(c)]
    else if c == ' ' || c == '-' then ['_']
    else [c]
  }

  /** The snake-case form of `s`: each character's piece, in order. */
  function SnakeCase(s: string): string {
    if s == [] then [] else SnakeCase(s[..|s| - 1]) + SnakePiece(s[|s| - 1], |s| == 1)
  }

  /** ToSnakeCase: appends the piece of each character to a builder, left to right. */
  method ToSnakeCase(str: string) returns (r: string)
    ensures r == SnakeCase(str)
  {
    r := "";
    for i := 0 to |str|
      invariant r == SnakeCase(str[..i])
    {
      var c := str[i];
      if 'A' <= c <= 'Z' {
        if i > 0 {
          r := r + ['_'];
        }
        r := r + [LowerChar(c)];
      } else if c == ' ' || c == '-' {
        r := r + ['_'];
      } else {
        r := r + [c];
      }
      assert str[..i + 1][..i] == str[..i];
    }
    assert str[..|str|] == str;
  }

  /** Snake case holds no capital letter, no space and no dash. */
  lemma {:induction false} SnakeCaseIsLowerSnake(s: string)
    ensures forall i :: 0 <= i < |SnakeCase(s)| ==>
      var c := SnakeCase(s)[i]; !IsUpper(c) && c != ' ' && c != '-'
  {
    if s != [] {
      SnakeCaseIsLowerSnake(s[..|s| - 1]);
    }
  }

  /** A string with no capital, space or dash is already in snake case. */
  lemma {:induction false} SnakeCaseOfSnake(s: string)
    requires forall i :: 0 <= i < |s| ==> !IsUpper(s[i]) && s[i] != ' ' && s[i] != '-'
    ensures SnakeCase(s) == s
  {
    if s != [] {
      SnakeCaseOfSnake(s[..|s| - 1]);
      assert s == s[..|s| - 1] + [s[|s| - 1]];
    }
  }

  /** The number of capital letters of `s` after its first character. */
  function InnerCapitals(s: string): nat {
    if |s| <= 1 then 0 else InnerCapitals(s[..|s| - 1]) + (if IsUpper(s[|s| - 1]) then 1 else 0)
  }

  /** Snake case adds one underscore per capital letter that does not start the string. */
  lemma {:induction false} SnakeCaseLength(s: string)
    ensures |SnakeCase(s)| == |s| + InnerCapitals(s)
  {
    if s != [] {
      SnakeCaseLength(s[..|s| - 1]);
    }
  }

  /** The distinct values of `s`, each at its first occurrence. */
  function Dedup(s: seq<int>): seq<int> {
    if s == [] then []
    else
      var u := Dedup(s[..|s| - 1]);
      if s[|s| - 1] in u then u else u + [s[|s| - 1]]
  }

  /** UniqueInt64Array: one pass that keeps a value the first time it is seen. */
  method UniqueInt64Array(arr: seq<int>) returns (result: seq<int>)
    ensures result == Dedup(arr)
  {
    var seen: set<int> := {};
    result := [];
    for i := 0 to |arr|
      invariant result == Dedup(arr[..i])
      invariant forall x :: x in seen <==> x in result
    {
      var id := arr[i];
      assert arr[..i + 1][..i] == arr[..i];
      if id !in seen {
        seen := seen + {id};
        result := result + [id];
      }
    }
    assert arr[..|arr|] == arr;
  }

  /** De-duplication keeps exactly the values of the input. */
  lemma {:induction false} DedupSameValues(s: seq<int>)
    ensures forall x :: x in Dedup(s) <==> x in s
  {
    if s != [] {
      DedupSameValues(s[..|s| - 1]);
      assert s == s[..|s| - 1] + [s[|s| - 1]];
    }
  }

  /** De-duplication leaves no value twice. */
  lemma {:induction false} DedupDistinct(s: seq<int>)
    ensures forall i, j :: 0 <= i < j < |Dedup(s)| ==> Dedup(s)[i] != Dedup(s)[j]
  {
    if s != [] {
      DedupDistinct(s[..|s| - 1]);
    }
  }

  /** The position of the first occurrence of `x` in `s`. */
  function FirstIndex(s: seq<int>, x: int): (k: nat)
    requires x in s
    ensures k < |s| && s[k] == x && x !in s[..k]
  {
    if s[0] == x then 0
    else
      assert forall y :: y in s[1..] ==> y in s;
      var k := FirstIndex(s[1..], x);
      assert s[..k + 1] == [s[0]] + s[1..][..k];
      k + 1
  }

  /** A first occurrence found in a prefix is the first occurrence in the whole sequence. */
  lemma FirstIndexOfPrefix(s: seq<int>, n: nat, x: int)
    requires n <= |s| && x in s[..n]
    ensures x in s && FirstIndex(s, x) == FirstIndex(s[..n], x)
  {
    var k := FirstIndex(s[..n], x);
    assert s[k] == x;
  }

  /** A value absent from all but the last position first occurs at the last position. */
  lemma FirstIndexOfNewLast(s: seq<int>)
    requires s != [] && s[|s| - 1] !in s[..|s| - 1]
    ensures FirstIndex(s, s[|s| - 1]) == |s| - 1
  {
  }

  /** De-duplication keeps values in the order of their first occurrence. */
  lemma {:induction false} DedupFirstOccurrenceOrder(s: seq<int>)
    ensures forall x :: x in Dedup(s) ==> x in s
    ensures forall i, j :: 0 <= i < j < |Dedup(s)| ==> FirstIndex(s, Dedup(s)[i]) < FirstIndex(s, Dedup(s)[j])
  {
    DedupSameValues(s);
    if s != [] {
      var n := |s| - 1;
      var init := s[..n];
      var u := Dedup(init);
      DedupFirstOccurrenceOrder(init);
      DedupSameValues(init);
      var r := Dedup(s);
      forall i, j | 0 <= i < j < |r|
        ensures FirstIndex(s, r[i]) < FirstIndex(s, r[j])
      {
        FirstIndexOfPrefix(s, n, u[i]);
        if j < |u| {
          FirstIndexOfPrefix(s, n, u[j]);
        } else {
          FirstIndexOfNewLast(s);
        }
      }
    }
  }

  /** HideString: masks all but the last `numChars` characters with '*'; a negative count panics. */
  function HideString(s: string, numChars: int): (r: string)
    requires numChars >= 0
    ensures |s| <= numChars ==> r == s
    ensures |s| > numChars ==>
      |r| == |s| &&
      (forall i :: 0 <= i < |s| - numChars ==> r[i] == '*') &&
      r[|s| - numChars..] == s[|s| - numChars..]
  {
    if |s| <= numChars then s
    else Repeat('*', |s| - numChars) + s[|s| - numChars..]
  }

  /** strings.Repeat for one character. */
  function Repeat(c: char, n: nat): (r: string)
    ensures |r| == n && forall i :: 0 <= i < n ==> r[i] == c
  {
    if n == 0 then [] else Repeat(c, n - 1) + [c]
  }

  /** Go's %q of a string, without the escaping of special characters. */
  function Quote(s: string): string {
    "\"" + s + "\""
  }

  /** ValidateSuffix: nil when `s` ends with `suffix`, otherwise an error naming the suffix. */
  function ValidateSuffix(s: string, suffix: string): (err: Option<string>)
    ensures err.None? <==> HasSuffix(s, suffix)
    ensures err.Some? ==> err.value == "invalid InternalTxRefId: missing required suffix " + Quote(suffix)
  {
    if !HasSuffix(s, suffix) then Some("invalid InternalTxRefId: missing required suffix " + Quote(suffix))
    else None
  }

  /** RemoveSuffix (strings.TrimSuffix): `s` without `suffix` when it ends with it, else `s`. */
  function RemoveSuffix(s: string, suffix: string): (r: string)
    ensures HasSuffix(s, suffix) ==> r + suffix == s
    ensures !HasSuffix(s, suffix) ==> r == s
  {
    if HasSuffix(s, suffix) then s[..|s| - |suffix|] else s
  }

  /** Removing a suffix that was appended gives the original string, which then validates. */
  lemma RemoveSuffixOfAppended(s: string, suffix: string)
    ensures ValidateSuffix(s + suffix, suffix).None?
    ensures RemoveSuffix(s + suffix, suffix) == s
  {
    assert (s + suffix)[|s + suffix| - |suffix|..] == suffix;
  }

  const PrecisionMultiplier: int := 1_000_000

  /**
   * DivMinorUnits as written: scales the numerator by 10^6, rounds the quotient, and scales
   * back with rounding, all in int64 arithmetic that wraps on overflow.
   */
  function DivMinorUnits(numerator: int, denominator: int): (r: Result<int, string>)
    requires Int64.InRange(numerator) && Int64.InRange(denominator)
    ensures r.Err? <==> denominator == 0
    ensures r.Err? ==> r.error == "division by zero"
    ensures r.Ok? ==> Int64.InRange(r.value)
  {
    if denominator == 0 then Err("division by zero")
    else
      var scaled := Int64.Wrap(numerator * PrecisionMultiplier);
      var result := Int64.Div(Int64.Wrap(scaled + Int64.Div(denominator, 2)), denominator);
      Ok(Int64.Div(Int64.Wrap(result + PrecisionMultiplier / 2), PrecisionMultiplier))
  }

  /** The same computation on unbounded integers: the evidently intended result. */
  function DivMinorUnitsExact(numerator: int, denominator: int): (r: Result<int, string>)
    ensures r.Err? <==> denominator == 0
    ensures r.Err? ==> r.error == "division by zero"
  {
    if denominator == 0 then Err("division by zero")
    else
      var scaled := numerator * PrecisionMultiplier;
      var result := Int64.Quot(scaled + Int64.Quot(denominator, 2), denominator);
      Ok(Int64.Quot(result + PrecisionMultiplier / 2, PrecisionMultiplier))
  }

  /** (k * d + e) / d == k for 0 <= e < d. */
  lemma DivOfMultiplePlus(k: nat, d: nat, e: nat)
    requires d >= 1 && e < d
    ensures (k * d + e) / d == k
  {
    var q := (k * d + e) / d;
    Int64.DivRemainder(k * d + e, d);
    var r := k * d + e - q * d;
    assert r == (k - q) * d + e;
    assert 0 <= r < d;
    MulBounds(k - q, d);
  }

  lemma MulBounds(a: int, d: nat)
    requires d >= 1
    ensures a >= 1 ==> a * d >= d
    ensures a <= -1 ==> a * d <= -(d as int)
  {
  }

  /** When a positive denominator divides a non-negative numerator, the exact version returns the quotient. */
  lemma DivMinorUnitsExactOfMultiple(k: nat, d: int)
    requires d >= 1
    ensures DivMinorUnitsExact(k * d, d) == Ok(k)
  {
    var scaled := k * d * PrecisionMultiplier;
    assert scaled == (k * PrecisionMultiplier) * d;
    Int64.QuotOfNatural(d, 2);
    assert d / 2 < d;
    Int64.QuotOfNatural(scaled + d / 2, d);
    DivOfMultiplePlus(k * PrecisionMultiplier, d, d / 2);
    Int64.QuotOfNatural(k * PrecisionMultiplier + PrecisionMultiplier / 2, PrecisionMultiplier);
    DivOfMultiplePlus(k, PrecisionMultiplier, PrecisionMultiplier / 2);
  }

  /** A multiple of 10^6 that fits in int64 leaves room for adding half of 10^6. */
  lemma RoundingFits(k: nat)
    requires k * PrecisionMultiplier <= Int64.Max
    ensures k * PrecisionMultiplier + PrecisionMultiplier / 2 <= Int64.Max
  {
  }

  lemma ScaledBounds(k: nat, d: nat)
    requires d >= 1
    ensures k * d <= k * d * PrecisionMultiplier
    ensures k * PrecisionMultiplier <= k * d * PrecisionMultiplier
    ensures k * d * PrecisionMultiplier == (k * PrecisionMultiplier) * d
  {
  }

  /** The code as written returns the exact quotient as long as the scaled numerator fits in int64. */
  lemma DivMinorUnitsOfMultiple(k: nat, d: int)
    requires d >= 1 && Int64.InRange(d)
    requires k * d * PrecisionMultiplier + d / 2 <= Int64.Max
    ensures Int64.InRange(k * d)
    ensures DivMinorUnits(k * d, d) == Ok(k)
  {
    ScaledBounds(k, d);
    var scaled := k * d * PrecisionMultiplier;
    assert Int64.Wrap(scaled) == scaled;
    Int64.QuotOfNatural(d, 2);
    assert Int64.Div(d, 2) == d / 2;
    assert Int64.Wrap(scaled + d / 2) == scaled + d / 2;
    Int64.QuotOfNatural(scaled + d / 2, d);
    DivOfMultiplePlus(k * PrecisionMultiplier, d, d / 2);
    var result := k * PrecisionMultiplier;
    assert Int64.Div(scaled + d / 2, d) == result;
    RoundingFits(k);
    assert Int64.Wrap(result + PrecisionMultiplier / 2) == result + PrecisionMultiplier / 2;
    Int64.QuotOfNatural(result + PrecisionMultiplier / 2, PrecisionMultiplier);
    DivOfMultiplePlus(k, PrecisionMultiplier, PrecisionMultiplier / 2);
  }

  /**
   * Ten trillion minor units divided by one: the scaled numerator 10^19 exceeds int64, wraps,
   * and the code as written returns a negative amount instead of 10^13.
   */
  lemma DivMinorUnitsOverflows()
    ensures DivMinorUnitsExact(10_000_000_000_000, 1) == Ok(10_000_000_000_000)
    ensures DivMinorUnits(10_000_000_000_000, 1).Ok?
    ensures DivMinorUnits(10_000_000_000_000, 1).value < 0
  {
    DivMinorUnitsExactOfMultiple(10_000_000_000_000, 1);
    assert Int64.Wrap(10_000_000_000_000 * PrecisionMultiplier) == -8446744073709551616;
  }
}
