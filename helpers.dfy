/** The general helpers of utils/helpers.go: random strings, slice helpers and pagination. */
module Helpers {
  import opened Wrappers
  import opened Text
  import opened Random
  import Int64
  import opened Strconv

  /** Character `k` of the random-string alphabet: 'a'..'z', then 'A'..'Z', then '0'..'9'. */
  function CharsetAt(k: int): char
    requires 0 <= k < 62
  {
    if k < 26 then ('a' as int + k) as char
    else if k < 52 then ('A' as int + k - 26) as char
    else ('0' as int + k - 52) as char
  }

  /** The 62-character alphabet random strings are drawn from. */
  function Charset(): (s: string)
    ensures |s| == 62 && forall k :: 0 <= k < 62 ==> s[k] == CharsetAt(k)
  {
    seq(62, k requires 0 <= k < 62 => CharsetAt(k))
  }

  /** The alphabet is the lower-case letters, the upper-case letters and the digits, in that order. */
  lemma CharsetLayout()
    ensures |Charset()| == 62
    ensures Charset()[0] == 'a' && Charset()[25] == 'z'
    ensures Charset()[26] == 'A' && Charset()[51] == 'Z'
    ensures Charset()[52] == '0' && Charset()[61] == '9'
  {
  }

  /** The alphabet holds exactly the ASCII letters and digits. */
  lemma CharsetIsAlphanumeric(c: char)
    ensures c in Charset() <==> IsAlphanumeric(c)
  {
    if IsLower(c) {
      assert Charset()[c as int - 'a' as int] == c;
    } else if IsUpper(c) {
      assert Charset()[c as int - 'A' as int + 26] == c;
    } else if IsDigit(c) {
      assert Charset()[c as int - '0' as int + 52] == c;
    } else {
      forall k | 0 <= k < 62
        ensures Charset()[k] != c
      {
        assert Charset()[k] == CharsetAt(k);
      }
    }
  }

  /** The alphabet character a random byte selects, as a byte. */
  function CharsetByte(b: byte): (r: byte)
    ensures r as int == Charset()[b as int % 62] as int
  {
    Charset()[b as int % 62] as int as byte
  }

  /** The string `length` bytes of the pool give, or "" when the pool holds fewer. */
  function RandomString(length: nat, pool: seq<byte>): (s: string)
    ensures |pool| >= length ==> |s| == length && forall i :: 0 <= i < length ==> s[i] == Charset()[pool[i] as int % 62]
    ensures |pool| < length ==> s == ""
  {
    if |pool| < length then "" else seq(length, i requires 0 <= i < length => Charset()[pool[i] as int % 62])
  }

  /** What is left of the pool after drawing `length` bytes, or all of it when the draw fails. */
  function PoolAfter(length: nat, pool: seq<byte>): seq<byte> {
    if |pool| < length then pool else pool[length..]
  }

  /** A random string holds only letters and digits. */
  lemma RandomStringIsAlphanumeric(length: nat, pool: seq<byte>)
    ensures forall i :: 0 <= i < |RandomString(length, pool)| ==> IsAlphanumeric(RandomString(length, pool)[i])
  {
    var s := RandomString(length, pool);
    forall i | 0 <= i < |s|
      ensures IsAlphanumeric(s[i])
    {
      CharsetIsAlphanumeric(s[i]);
    }
  }

  /**
   * GenerateRandomString: `length` random bytes, each mapped in place onto the alphabet by
   * its value modulo 62; the empty string when the entropy source cannot supply them.
   */
  method GenerateRandomString(length: nat, rng: Entropy) returns (s: string)
    modifies rng
    ensures s == RandomString(length, old(rng.pool)) && rng.pool == PoolAfter(length, old(rng.pool))
    ensures forall i :: 0 <= i < |s| ==> IsAlphanumeric(s[i])
  {
    var bytes := new byte[length];
    var ok := rng.Read(bytes);
    if !ok {
      return "";
    }
    ghost var drawn := bytes[..];
    for i := 0 to length
      invariant rng.pool == old(rng.pool)[length..]
      invariant bytes[i..] == drawn[i..]
      invariant forall j :: 0 <= j < i ==> bytes[j] == CharsetByte(drawn[j])
    {
      bytes[i] := CharsetByte(bytes[i]);
    }
    s := seq(length, j requires 0 <= j < length reads bytes => bytes[j] as int as char);
    RandomStringIsAlphanumeric(length, old(rng.pool));
  }

  /** InArrayString: whether `target` is one of the elements of `items`. */
  function InArrayString(target: string, items: seq<string>): (r: bool)
    ensures r <==> target in items
  {
    if items == [] then false
    else if items[0] == target then true
    else
      assert forall x :: x in items <==> x == items[0] || x in items[1..];
      InArrayString(target, items[1..])
  }

  /** The elements of `s1` that do not occur in `s2`, in their order in `s1`, duplicates kept. */
  function Extra(s1: seq<string>, s2: seq<string>): seq<string>
  {
    if s1 == [] then []
    else
      var last := s1[|s1| - 1];
      Extra(s1[..|s1| - 1], s2) + (if last in s2 then [] else [last])
  }

  /** Each string occurs in the extra data as often as in `s1`, unless it occurs in `s2`. */
  lemma {:induction false} ExtraCounts(s1: seq<string>, s2: seq<string>)
    ensures forall x :: multiset(Extra(s1, s2))[x] == if x in s2 then 0 else multiset(s1)[x]
  {
    if s1 != [] {
      var init := s1[..|s1| - 1];
      var last := s1[|s1| - 1];
      ExtraCounts(init, s2);
      assert s1 == init + [last];
      assert multiset(s1) == multiset(init) + multiset{last};
    }
  }

  /** FindExtraData: the elements of `slice1` that `slice2` lacks, looked up through a set of `slice2`. */
  method FindExtraData(slice1: seq<string>, slice2: seq<string>) returns (extra: seq<string>)
    ensures extra == Extra(slice1, slice2)
    ensures forall x :: x in extra <==> x in slice1 && x !in slice2
  {
    extra := [];
    var existing: map<string, bool> := map[];
    for i := 0 to |slice2|
      invariant forall x :: x in existing <==> x in slice2[..i]
      invariant forall x :: x in existing ==> existing[x]
    {
      existing := existing[slice2[i] := true];
      assert slice2[..i + 1] == slice2[..i] + [slice2[i]];
    }
    assert slice2[..|slice2|] == slice2;
    for i := 0 to |slice1|
      invariant extra == Extra(slice1[..i], slice2)
    {
      var item := slice1[i];
      assert slice1[..i + 1][..i] == slice1[..i];
      if !(item in existing && existing[item]) {
        extra := extra + [item];
      }
    }
    assert slice1[..|slice1|] == slice1;
    ExtraCounts(slice1, slice2);
    forall x
      ensures x in extra <==> x in slice1 && x !in slice2
    {
      assert x in extra <==> multiset(extra)[x] > 0;
      assert x in slice1 <==> multiset(slice1)[x] > 0;
    }
  }

  /** echo's QueryParam: the value of a query parameter, or "" when it is absent. */
  function QueryParam(query: map<string, string>, name: string): string {
    if name in query then query[name] else ""
  }

  /** The page-size parameter: `per_page`, or `limit` when `per_page` is empty. */
  function LimitParam(query: map<string, string>): string {
    if QueryParam(query, "per_page") != "" then QueryParam(query, "per_page") else QueryParam(query, "limit")
  }

  /** The page-number parameter: `current_page`, or `page` when `current_page` is empty. */
  function PageParam(query: map<string, string>): string {
    if QueryParam(query, "current_page") != "" then QueryParam(query, "current_page") else QueryParam(query, "page")
  }

  /** The page, counting from 1, that the row at `offset` falls on. */
  function PageOf(offset: nat, limit: nat): nat
    requires limit > 0
  {
    offset / limit + 1
  }

  /** The offset of the first row of `page`. */
  function OffsetOf(page: nat, limit: nat): nat
    requires page >= 1
  {
    (page - 1) * limit
  }

  /** The first row of a page lies on that page. */
  lemma PageOfOffsetOf(page: nat, limit: nat)
    requires page >= 1 && limit >= 1
    ensures PageOf(OffsetOf(page, limit), limit) == page
  {
    var o := OffsetOf(page, limit);
    DivOfMultiple(page - 1, limit);
  }

  lemma DivOfMultiple(k: nat, limit: nat)
    requires limit >= 1
    ensures (k * limit) / limit == k
  {
    var q := (k * limit) / limit;
    Int64.DivRemainder(k * limit, limit);
    var r := k * limit - q * limit;
    assert 0 <= r < limit;
    assert r == (k - q) * limit;
    MulSign(k - q, limit);
    MulSign(q - k, limit);
    assert (q - k) * limit == -r;
  }

  lemma MulSign(a: int, b: nat)
    requires b >= 1
    ensures a <= 0 ==> a * b <= 0
    ensures a >= 1 ==> a * b >= b
  {
  }

  /** A row offset lies between the first row of its page and the first row of the next. */
  lemma OffsetWithinPage(offset: nat, limit: nat)
    requires limit >= 1
    ensures OffsetOf(PageOf(offset, limit), limit) <= offset < OffsetOf(PageOf(offset, limit), limit) + limit
  {
    var q := offset / limit;
    Int64.DivRemainder(offset, limit);
    assert OffsetOf(PageOf(offset, limit), limit) == q * limit;
  }

  /**
   * ParsePaginationParams: the page size (default 10), the page (default 1) and the row offset.
   * A valid page number fixes the offset; otherwise a valid offset fixes the page. The int64
   * products wrap as Go's do.
   */
  method ParsePaginationParams(query: map<string, string>) returns (limit: int, page: int, offset: int)
    ensures var l := Atoi(LimitParam(query));
      limit == if l.err.None? && l.value > 0 then l.value else 10
    ensures 1 <= limit && Int64.InRange(limit)
    ensures PageParam(query) != "" ==>
      var p := Atoi(PageParam(query));
      if p.err.None? && p.value > 0 then page == p.value && offset == Int64.Wrap(OffsetOf(p.value, limit))
      else page == 1 && offset == 0
    ensures PageParam(query) == "" ==>
      var o := Atoi(QueryParam(query, "offset"));
      if o.err.None? && o.value >= 0 then offset == o.value && page == Int64.Wrap(PageOf(o.value, limit))
      else page == 1 && offset == 0
  {
    var limitStr := QueryParam(query, "per_page");
    if limitStr == "" {
      limitStr := QueryParam(query, "limit");
    }
    var offsetStr := QueryParam(query, "offset");
    var pageStr := QueryParam(query, "current_page");
    if pageStr == "" {
      pageStr := QueryParam(query, "page");
    }

    limit := 10;
    page := 1;
    offset := 0;

    if limitStr != "" {
      var l := Atoi(limitStr);
      if l.err.None? && l.value > 0 {
        limit := l.value;
      }
    }

    if pageStr != "" {
      var p := Atoi(pageStr);
      if p.err.None? && p.value > 0 {
        page := p.value;
        offset := Int64.Wrap((page - 1) * limit);
      }
    } else if offsetStr != "" {
      var o := Atoi(offsetStr);
      if o.err.None? && o.value >= 0 {
        offset := o.value;
        Int64.QuotOfNatural(offset, limit);
        assert Int64.Div(offset, limit) + 1 == PageOf(offset, limit);
        page := Int64.Wrap(Int64.Div(offset, limit) + 1);
      }
    }
  }

  /** CalculateTotalPages: Go's `(total + limit - 1) / limit` in int64, with 1 for an empty result. */
  function CalculateTotalPages(total: int, limit: int): (r: int)
    requires Int64.InRange(total) && Int64.InRange(limit)
    ensures Int64.InRange(r)
    ensures r != 0
  {
    if total == 0 || limit == 0 then 1
    else
      var totalPages := Int64.Div(Int64.Wrap(total + limit - 1), limit);
      if totalPages == 0 then 1 else totalPages
  }

  /** For positive counts, the page count is the fewest pages of `limit` rows that hold `total` rows. */
  lemma TotalPagesIsCeiling(total: int, limit: int)
    requires 0 < total && 0 < limit && Int64.InRange(total + limit - 1)
    ensures var r := CalculateTotalPages(total, limit);
      r >= 1 && OffsetOf(r, limit) < total <= r * limit
  {
    var n := total + limit - 1;
    var q := n / limit;
    Int64.QuotOfNatural(n, limit);
    Int64.DivRemainder(n, limit);
    assert q * limit <= n < q * limit + limit;
    MulSign(q, limit);
    assert q >= 1;
    assert CalculateTotalPages(total, limit) == q;
    assert OffsetOf(q, limit) == q * limit - limit;
  }
}
