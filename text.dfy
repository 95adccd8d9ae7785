/**
 * The parts of Go's `strings` package the modelled code relies on. Strings are
 * sequences of single-byte characters: ASCII case mapping and ASCII white space only.
 */
module Text {

  /** The ASCII characters `unicode.IsSpace` accepts: '\t', '\n', '\v', '\f', '\r' and ' '. */
  predicate IsSpace(c: char) {
    c == ' ' || ('\t' <= c <= '\r')
  }

  predicate IsUpper(c: char) { 'A' <= c <= 'Z' }

  predicate IsLower(c: char) { 'a' <= c <= 'z' }

  predicate IsDigit(c: char) { '0' <= c <= '9' }

  predicate IsLetter(c: char) { IsUpper(c) || IsLower(c) }

  predicate IsAlphanumeric(c: char) { IsLetter(c) || IsDigit(c) }

  function UpperChar(c: char): char {
    if IsLower(c) then (c as int - 32) as char else c
  }

  function LowerChar(c: char): char {
    if IsUpper(c) then (c as int + 32) as char else c
  }

  /** strings.ToUpper, restricted to ASCII letters. */
  function ToUpper(s: string): (r: string)
    ensures |r| == |s|
    ensures forall i :: 0 <= i < |s| ==> r[i] == UpperChar(s[i])
  {
    seq(|s|, i requires 0 <= i < |s| => UpperChar(s[i]))
  }

  /** strings.ToLower, restricted to ASCII letters. */
  function ToLower(s: string): (r: string)
    ensures |r| == |s|
    ensures forall i :: 0 <= i < |s| ==> r[i] == LowerChar(s[i])
  {
    seq(|s|, i requires 0 <= i < |s| => LowerChar(s[i]))
  }

  /** Drops the leading white space. */
  function TrimLeft(s: string): (r: string)
    ensures |r| <= |s|
    ensures r != [] ==> !IsSpace(r[0])
  {
    if s != [] && IsSpace(s[0]) then TrimLeft(s[1..]) else s
  }

  /** Drops the trailing white space. */
  function TrimRight(s: string): (r: string)
    ensures |r| <= |s|
    ensures r != [] ==> !IsSpace(r[|r| - 1])
  {
    if s != [] && IsSpace(s[|s| - 1]) then TrimRight(s[..|s| - 1]) else s
  }

  /** TrimRight keeps a prefix of its input. */
  lemma {:induction false} TrimRightIsPrefix(s: string)
    ensures TrimRight(s) == s[..|TrimRight(s)|]
  {
    if s != [] && IsSpace(s[|s| - 1]) {
      TrimRightIsPrefix(s[..|s| - 1]);
    }
  }

  /** strings.TrimSpace: the middle part of `s` between its leading and trailing white space. */
  function TrimSpace(s: string): (r: string)
    ensures |r| <= |s|
    ensures r != [] ==> !IsSpace(r[0]) && !IsSpace(r[|r| - 1])
  {
    TrimRightIsPrefix(TrimLeft(s));
    TrimRight(TrimLeft(s))
  }

  predicate AllSpace(s: string) {
    forall i :: 0 <= i < |s| ==> IsSpace(s[i])
  }

  /** Trimming removes exactly the white space around the text. */
  lemma {:induction false} TrimSpaceOfPadded(pre: string, s: string, post: string)
    requires AllSpace(pre) && AllSpace(post)
    requires s != [] ==> !IsSpace(s[0]) && !IsSpace(s[|s| - 1])
    ensures TrimSpace(pre + s + post) == s
  {
    if s == [] {
      assert pre + s + post == (pre + post) + [];
      TrimLeftOfPadded(pre + post, []);
    } else {
      TrimLeftOfPadded(pre, s + post);
      assert (s + post)[0] == s[0];
      assert pre + s + post == pre + (s + post);
      TrimRightOfPadded(s, post);
    }
  }

  lemma {:induction false} TrimLeftOfPadded(pre: string, s: string)
    requires AllSpace(pre)
    requires s != [] ==> !IsSpace(s[0])
    ensures TrimLeft(pre + s) == s
  {
    if pre != [] {
      assert (pre + s)[1..] == pre[1..] + s;
      TrimLeftOfPadded(pre[1..], s);
    }
  }

  lemma {:induction false} TrimRightOfPadded(s: string, post: string)
    requires AllSpace(post)
    requires s != [] ==> !IsSpace(s[|s| - 1])
    ensures TrimRight(s + post) == s
  {
    if post != [] {
      assert (s + post)[..|s + post| - 1] == s + post[..|post| - 1];
      TrimRightOfPadded(s, post[..|post| - 1]);
    } else {
      assert s + post == s;
    }
  }

  /** A string of white space only trims to the empty string. */
  lemma AllSpaceTrimsToEmpty(s: string)
    requires AllSpace(s)
    ensures TrimSpace(s) == []
  {
    TrimSpaceOfPadded(s, [], []);
    assert s + [] + [] == s;
  }

  /** Leading white space never changes what TrimLeft keeps. */
  lemma {:induction false} TrimLeftSkipsSpace(pre: string, x: string)
    requires AllSpace(pre)
    ensures TrimLeft(pre + x) == TrimLeft(x)
  {
    if pre != [] {
      assert (pre + x)[1..] == pre[1..] + x;
      TrimLeftSkipsSpace(pre[1..], x);
    } else {
      assert pre + x == x;
    }
  }

  /** Trailing white space never changes what TrimRight keeps. */
  lemma {:induction false} TrimRightSkipsSpace(x: string, post: string)
    requires AllSpace(post)
    ensures TrimRight(x + post) == TrimRight(x)
  {
    if post != [] {
      assert (x + post)[..|x + post| - 1] == x + post[..|post| - 1];
      TrimRightSkipsSpace(x, post[..|post| - 1]);
    } else {
      assert x + post == x;
    }
  }

  /** Once `s` holds a non-space character, text appended after it survives TrimLeft. */
  lemma {:induction false} TrimLeftAppend(s: string, t: string)
    requires !AllSpace(s)
    ensures TrimLeft(s + t) == TrimLeft(s) + t
  {
    if IsSpace(s[0]) {
      assert (s + t)[1..] == s[1..] + t;
      assert !AllSpace(s[1..]) by {
        var i :| 0 <= i < |s| && !IsSpace(s[i]);
        assert s[1..][i - 1] == s[i];
      }
      TrimLeftAppend(s[1..], t);
    }
  }

  /** White space around a string never changes what TrimSpace keeps. */
  lemma TrimSpaceIgnoresPadding(pre: string, s: string, post: string)
    requires AllSpace(pre) && AllSpace(post)
    ensures TrimSpace(pre + s + post) == TrimSpace(s)
  {
    assert pre + s + post == pre + (s + post);
    TrimLeftSkipsSpace(pre, s + post);
    if AllSpace(s) {
      assert AllSpace(s + post) by {
        assert forall i :: 0 <= i < |s + post| ==> (s + post)[i] == if i < |s| then s[i] else post[i - |s|];
      }
      AllSpaceTrimsToEmpty(s + post);
      AllSpaceTrimsToEmpty(s);
    } else {
      TrimLeftAppend(s, post);
      TrimRightSkipsSpace(TrimLeft(s), post);
    }
  }

  predicate HasPrefix(s: string, prefix: string) {
    |prefix| <= |s| && s[..|prefix|] == prefix
  }

  predicate HasSuffix(s: string, suffix: string) {
    |suffix| <= |s| && s[|s| - |suffix|..] == suffix
  }

  /** `sub` occurs in `s` at position `i`. */
  predicate OccursAt(s: string, sub: string, i: int) {
    0 <= i && i + |sub| <= |s| && s[i..i + |sub|] == sub
  }

  /** strings.Contains, by scanning each start position. */
  function Contains(s: string, sub: string): (r: bool)
    ensures r <==> exists i :: OccursAt(s, sub, i)
  {
    if HasPrefix(s, sub) then
      assert OccursAt(s, sub, 0);
      true
    else if s == [] then
      assert forall i :: !OccursAt(s, sub, i);
      false
    else
      var r := Contains(s[1..], sub);
      assert forall i :: 1 <= i ==> (OccursAt(s, sub, i) <==> OccursAt(s[1..], sub, i - 1));
      if r then
        var i :| OccursAt(s[1..], sub, i);
        assert OccursAt(s, sub, i + 1);
        true
      else
        false
  }

  /** strings.LastIndex with a one-character separator: -1 when `c` does not occur. */
  function LastIndexOf(s: string, c: char): (r: int)
    ensures -1 <= r < |s|
    ensures r == -1 <==> c !in s
    ensures r >= 0 ==> s[r] == c && forall j :: r < j < |s| ==> s[j] != c
  {
    if s == [] then -1
    else if s[|s| - 1] == c then |s| - 1
    else
      assert forall x :: x in s <==> x in s[..|s| - 1] || x == s[|s| - 1];
      LastIndexOf(s[..|s| - 1], c)
  }

  /** strings.IndexAny: the first position holding one of `cs`, or -1. */
  function IndexAny(s: string, cs: set<char>): (r: int)
    ensures -1 <= r < |s|
    ensures r == -1 <==> forall i :: 0 <= i < |s| ==> s[i] !in cs
    ensures r >= 0 ==> s[r] in cs && forall j :: 0 <= j < r ==> s[j] !in cs
  {
    if s == [] then -1
    else if s[0] in cs then 0
    else
      var k := IndexAny(s[1..], cs);
      if k == -1 then -1 else k + 1
  }

  /** The parts joined back together with the separator between them. */
  function Join(parts: seq<string>, sep: char): string
    requires |parts| >= 1
  {
    if |parts| == 1 then parts[0] else parts[0] + [sep] + Join(parts[1..], sep)
  }

  /** strings.Split with a one-character separator: the pieces between the separators, in order. */
  function Split(s: string, sep: char): (parts: seq<string>)
    ensures |parts| >= 1
    ensures forall k :: 0 <= k < |parts| ==> sep !in parts[k]
    ensures Join(parts, sep) == s
    decreases |s|
  {
    var i := IndexAny(s, {sep});
    if i == -1 then
      [s]
    else
      var rest := Split(s[i + 1..], sep);
      assert s == s[..i] + [sep] + s[i + 1..];
      [s[..i]] + rest
  }

  /** A string without the separator is one piece. */
  lemma SplitWithoutSeparator(s: string, sep: char)
    requires sep !in s
    ensures Split(s, sep) == [s]
  {
    assert IndexAny(s, {sep}) == -1;
  }

  /** Splitting `a + sep + b`, where `a` holds no separator, yields `a` followed by the pieces of `b`. */
  lemma SplitAfterFirst(a: string, sep: char, b: string)
    requires sep !in a
    ensures Split(a + [sep] + b, sep) == [a] + Split(b, sep)
  {
    var s := a + [sep] + b;
    assert s[|a|] == sep;
    assert forall j :: 0 <= j < |a| ==> s[j] == a[j];
    assert IndexAny(s, {sep}) == |a|;
    assert s[..|a|] == a;
    assert s[|a| + 1..] == b;
  }

  /** The last separator of `a + [sep] + b` is the last one of `b`, or the one after `a` when `b` has none. */
  lemma LastIndexOfAfter(a: string, sep: char, b: string)
    ensures LastIndexOf(a + [sep] + b, sep) == |a| + 1 + LastIndexOf(b, sep)
  {
    var s := a + [sep] + b;
    var p := LastIndexOf(b, sep);
    assert forall j :: |a| < j < |s| ==> s[j] == b[j - |a| - 1];
    assert s[|a| + 1 + p] == sep;
  }

  /** The last piece Split yields. */
  function LastPiece(s: string, sep: char): string {
    var parts := Split(s, sep);
    parts[|parts| - 1]
  }

  /** The text after the last separator, or all of `s` when it has none. */
  function AfterLast(s: string, sep: char): string {
    s[LastIndexOf(s, sep) + 1..]
  }

  /** The last piece of a split is the text after the last separator (all of `s` when there is none). */
  lemma {:induction false} SplitLastPiece(s: string, sep: char)
    ensures LastPiece(s, sep) == AfterLast(s, sep)
    decreases |s|
  {
    var i := IndexAny(s, {sep});
    if i != -1 {
      var a, b := s[..i], s[i + 1..];
      assert s == a + [sep] + b;
      assert sep !in a by {
        forall j | 0 <= j < |a|
          ensures a[j] != sep
        {
          assert a[j] == s[j] && s[j] !in {sep};
        }
      }
      SplitLastPiece(b, sep);
      SplitAfterFirst(a, sep, b);
      SplitLastPieceStep(a, sep, b, Split(b, sep));
    } else {
      assert sep !in s by {
        forall j | 0 <= j < |s|
          ensures s[j] != sep
        {
          assert s[j] !in {sep};
        }
      }
      SplitWithoutSeparator(s, sep);
    }
  }

  /** The step of SplitLastPiece: a first piece without the separator does not change the last piece. */
  lemma SplitLastPieceStep(a: string, sep: char, b: string, pb: seq<string>)
    requires |pb| >= 1 && pb[|pb| - 1] == AfterLast(b, sep)
    ensures ([a] + pb)[|pb|] == AfterLast(a + [sep] + b, sep)
  {
    LastOfPrepended(a, pb);
    LastIndexOfAfter(a, sep, b);
  }

  lemma LastOfPrepended<T>(x: T, t: seq<T>)
    requires |t| >= 1
    ensures ([x] + t)[|t|] == t[|t| - 1]
  {
  }
}
