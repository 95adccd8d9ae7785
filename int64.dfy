/** Go's 64-bit signed integers: two's-complement wrap-around and division that truncates toward zero. */
module Int64 {

  const Modulus: int := 0x1_0000_0000_0000_0000
  const Min: int := -0x8000_0000_0000_0000
  const Max: int := 0x7FFF_FFFF_FFFF_FFFF

  predicate InRange(x: int) {
    Min <= x <= Max
  }

  /** The int64 an arithmetic result becomes: `x` reduced modulo 2^64 into [Min, Max]. */
  function Wrap(x: int): (r: int)
    ensures InRange(r)
    ensures (x - r) % Modulus == 0
    ensures InRange(x) ==> r == x
  {
    var m := x % Modulus;
    if m > Max then m - Modulus else m
  }

  function Abs(x: int): nat {
    if x < 0 then -x else x
  }

  lemma NatQuotient(x: nat, y: nat)
    requires y > 0
    ensures x / y >= 0
  {
  }

  lemma DivRemainder(x: nat, y: nat)
    requires y > 0
    ensures x - (x / y) * y == x % y < y
  {
  }

  lemma MulAtLeastOne(q: nat, y: nat)
    requires y >= 1
    ensures q <= q * y
  {
  }

  lemma MulAtLeastTwo(q: nat, y: nat)
    requires y >= 2
    ensures q * 2 <= q * y
  {
  }

  /** Facts about Euclidean division of naturals used below. */
  lemma NatDivision(x: nat, y: nat)
    requires y > 0
    ensures x / y <= x
    ensures x - (x / y) * y == x % y < y
    ensures y >= 2 && x > 0 ==> x / y < x
    ensures y == 1 ==> x / y == x
  {
    var q := x / y;
    DivRemainder(x, y);
    MulAtLeastOne(q, y);
    if y >= 2 {
      MulAtLeastTwo(q, y);
    }
  }

  /**
   * Go's `a / b` on unbounded integers, truncating toward zero: the magnitude is the
   * quotient of the magnitudes, the sign is the product of the signs.
   */
  function Quot(a: int, b: int): (q: int)
    requires b != 0
    ensures Abs(q) == Abs(a) / Abs(b)
    ensures q > 0 ==> (a < 0 <==> b < 0)
    ensures q < 0 ==> (a < 0 <==> b > 0)
  {
    var m := Abs(a) / Abs(b);
    NatQuotient(Abs(a), Abs(b));
    if (a < 0) == (b < 0) then m else -m
  }

  /** For non-negative operands Go's and Dafny's division agree. */
  lemma QuotOfNatural(a: nat, b: nat)
    requires b > 0
    ensures Quot(a, b) == a / b
  {
  }

  /** Go's int64 `a / b`: the truncated quotient, wrapped (only Min / -1 wraps, to Min). */
  function Div(a: int, b: int): (r: int)
    requires InRange(a) && InRange(b) && b != 0
    ensures InRange(r)
    ensures r != Quot(a, b) ==> a == Min && b == -1 && r == Min
  {
    var q := Quot(a, b);
    NatDivision(Abs(a), Abs(b));
    if InRange(q) then
      q
    else
      assert a == Min && b == -1 && q == -Min;
      Wrap(q)
  }
}
