/**
 * The decimal conversions of Go's `strconv` package the modelled code uses, and the strict
 * integer syntax Redis applies to counters.
 */
module Strconv {
  import opened Wrappers
  import Int64
  import opened Text

  datatype NumError = ErrSyntax | ErrRange

  /** What a strconv parse returns: the value (0 or the clamped bound on error) and the error. */
  datatype Parsed = Parsed(value: int, err: Option<NumError>)

  predicate AllDigits(s: string) {
    forall i :: 0 <= i < |s| ==> IsDigit(s[i])
  }

  function DigitChar(d: int): (c: char)
    requires 0 <= d < 10
    ensures IsDigit(c)
  {
    ('0' as int + d) as char
  }

  /** The value of a string of decimal digits. */
  function ValueOf(s: string): nat
    requires AllDigits(s)
  {
    if s == [] then 0
    else ValueOf(s[..|s| - 1]) * 10 + (s[|s| - 1] as int - '0' as int)
  }

  /** The shortest decimal digits of `n`: no leading zero, and "0" for zero. */
  function DigitsOf(n: nat): (s: string)
    ensures |s| >= 1 && AllDigits(s)
    ensures |s| > 1 ==> s[0] != '0'
  {
    if n < 10 then [DigitChar(n)] else DigitsOf(n / 10) + [DigitChar(n % 10)]
  }

  lemma {:induction false} ValueOfDigitsOf(n: nat)
    ensures ValueOf(DigitsOf(n)) == n
  {
    if n >= 10 {
      var s := DigitsOf(n);
      assert s[..|s| - 1] == DigitsOf(n / 10);
      ValueOfDigitsOf(n / 10);
    }
  }

  /** strconv.Itoa / FormatInt(n, 10): an optional minus sign and the digits of |n|. */
  function Itoa(n: int): string {
    if n < 0 then "-" + DigitsOf(-n) else DigitsOf(n)
  }

  /** strconv.ParseInt(s, 10, 64): an optional sign and decimal digits; out-of-range values clamp. */
  function ParseInt(s: string): (p: Parsed)
    ensures Int64.InRange(p.value)
    ensures p.err == Some(ErrSyntax) ==> p.value == 0
  {
    var signed := s != [] && (s[0] == '+' || s[0] == '-');
    var body := if signed then s[1..] else s;
    if body == [] || !AllDigits(body) then
      Parsed(0, Some(ErrSyntax))
    else
      var v: int := if signed && s[0] == '-' then 0 - (ValueOf(body) as int) else ValueOf(body);
      if v > Int64.Max then Parsed(Int64.Max, Some(ErrRange))
      else if v < Int64.Min then Parsed(Int64.Min, Some(ErrRange))
      else Parsed(v, None)
  }

  /** Every int64 survives formatting and parsing back. */
  lemma ParseIntOfItoa(n: int)
    requires Int64.InRange(n)
    ensures ParseInt(Itoa(n)) == Parsed(n, None)
  {
    if n < 0 {
      ValueOfDigitsOf(-n);
      assert Itoa(n)[1..] == DigitsOf(-n);
    } else {
      ValueOfDigitsOf(n);
    }
  }

  /** strconv.Atoi on a 64-bit platform: the same as ParseInt(s, 10, 64). */
  function Atoi(s: string): Parsed {
    ParseInt(s)
  }

  const MaxUint32: int := 0xFFFF_FFFF

  /** strconv.ParseUint(s, 10, 32): decimal digits, no sign; values above 2^32 - 1 clamp to it. */
  function ParseUint32(s: string): (p: Parsed)
    ensures 0 <= p.value <= MaxUint32
    ensures p.err.None? <==> s != [] && AllDigits(s) && ValueOf(s) <= MaxUint32
  {
    if s == [] || !AllDigits(s) then Parsed(0, Some(ErrSyntax))
    else if ValueOf(s) > MaxUint32 then Parsed(MaxUint32, Some(ErrRange))
    else Parsed(ValueOf(s), None)
  }

  /** Every 32-bit unsigned value survives formatting and parsing back. */
  lemma ParseUint32OfItoa(n: nat)
    requires n <= MaxUint32
    ensures ParseUint32(Itoa(n)) == Parsed(n, None)
  {
    ValueOfDigitsOf(n);
  }

  /** strconv.ParseBool: the accepted spellings of true and false; anything else is an error. */
  function ParseBool(s: string): (r: Result<bool, NumError>)
    ensures r.Err? ==> r.error == ErrSyntax
  {
    if s in {"1", "t", "T", "TRUE", "true", "True"} then Ok(true)
    else if s in {"0", "f", "F", "FALSE", "false", "False"} then Ok(false)
    else Err(ErrSyntax)
  }

  /** How the Redis client writes a Go bool into a command argument. */
  function FormatBool(b: bool): string {
    if b then "1" else "0"
  }

  lemma ParseBoolOfFormatBool(b: bool)
    ensures ParseBool(FormatBool(b)) == Ok(b)
  {
  }

  /**
   * The integer a Redis string holds for INCR: a 64-bit value written in its canonical
   * decimal form (no '+', no leading zero), or none.
   */
  function RedisInteger(s: string): (r: Option<int>)
    ensures r.Some? ==> Int64.InRange(r.value) && Itoa(r.value) == s
    ensures r.Some? ==> ParseInt(s) == Parsed(r.value, None)
  {
    var p := ParseInt(s);
    if p.err.None? && Itoa(p.value) == s then Some(p.value) else None
  }

  /** A counter INCR wrote is read back as the same integer. */
  lemma RedisIntegerOfItoa(n: int)
    requires Int64.InRange(n)
    ensures RedisInteger(Itoa(n)) == Some(n)
  {
    ParseIntOfItoa(n);
  }
}
