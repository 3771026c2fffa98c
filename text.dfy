/**
 * String primitives with the meaning Python gives them: `str.isspace` and the
 * regex class `\s`, `str.strip`, `str.rstrip(c)`, `str.replace`, `sep.join`,
 * `in` on strings, decimal formatting of integers and `int(s)`.
 */
module Text {
  import opened Wrappers

  /** Python's `str.isspace()` (and the regex class `\s` on str patterns). */
  predicate IsSpace(c: char) {
    var n := c as int;
    n == 0x20 || 9 <= n <= 13 || 0x1C <= n <= 0x1F || n == 0x85 || n == 0xA0
    || n == 0x1680 || 0x2000 <= n <= 0x200A || n == 0x2028 || n == 0x2029
    || n == 0x202F || n == 0x205F || n == 0x3000
  }

  /** The regex class `[^\S\n]`: whitespace other than a line feed. */
  predicate IsBlank(c: char) {
    IsSpace(c) && c != '\n'
  }

  predicate IsDigit(c: char) {
    '0' <= c <= '9'
  }

  predicate AllDigits(s: string) {
    forall i :: 0 <= i < |s| ==> IsDigit(s[i])
  }

  predicate StartsWith(s: string, prefix: string) {
    |prefix| <= |s| && s[..|prefix|] == prefix
  }

  predicate EndsWith(s: string, suffix: string) {
    |suffix| <= |s| && s[|s| - |suffix|..] == suffix
  }

  /** Python's `pat in s`. */
  predicate Occurs(pat: string, s: string)
    decreases |s|
  {
    StartsWith(s, pat) || (s != [] && Occurs(pat, s[1..]))
  }

  /**
   * Python's `s.replace(pat, rep)`: every occurrence found scanning left to
   * right, without overlaps, is replaced; an empty pattern matches between
   * every two characters and at both ends.
   */
  function Replace(s: string, pat: string, rep: string): string
    decreases |s|
  {
    if pat == [] then
      (if s == [] then rep else rep + [s[0]] + Replace(s[1..], pat, rep))
    else if StartsWith(s, pat) then rep + Replace(s[|pat|..], pat, rep)
    else if s == [] then []
    else [s[0]] + Replace(s[1..], pat, rep)
  }

  /** The first two parts of a concatenation read back by slicing. */
  lemma SliceOfConcat<T>(a: seq<T>, b: seq<T>, c: seq<T>)
    ensures |a| + |b| <= |a + b + c|
    ensures (a + b + c)[..|a|] == a && (a + b + c)[|a|..|a| + |b|] == b
  {
  }

  /** The last part of a concatenation read back by slicing, with the element just before it. */
  lemma SuffixOfConcat<T>(a: seq<T>, b: seq<T>)
    requires a != []
    ensures (a + b)[|a + b| - |b|..] == b && (a + b)[|a + b| - |b| - 1] == a[|a| - 1]
  {
  }

  /** Concatenation regrouped to the right. */
  lemma DropOfConcat<T>(a: seq<T>, t: seq<T>, n: nat)
    requires n <= |a|
    ensures (a + t)[n..] == a[n..] + t && (a + t)[..n] == a[..n]
    ensures n < |a| ==> (a + t)[n] == a[n]
  {
  }

  lemma SplitOfConcat<T>(a: seq<T>, t: seq<T>)
    ensures (a + t)[..|a|] == a && (a + t)[|a|..] == t
  {
  }

  lemma TailOfCons<T>(c: T, w: seq<T>)
    ensures ([c] + w)[0] == c && ([c] + w)[1..] == w
  {
  }

  lemma ConcatAssoc<T>(a: seq<T>, b: seq<T>, c: seq<T>)
    ensures (a + b) + c == a + (b + c)
  {
  }

  lemma {:induction false} ReplaceAbsent(s: string, pat: string, rep: string)
    requires pat != [] && !Occurs(pat, s)
    ensures Replace(s, pat, rep) == s
    decreases |s|
  {
    if s != [] {
      ReplaceAbsent(s[1..], pat, rep);
      assert [s[0]] + s[1..] == s;
    }
  }

  /** An occurrence at a known position is an occurrence. */
  lemma {:induction false} OccursAt(pat: string, s: string, i: nat)
    requires i + |pat| <= |s| && s[i..i + |pat|] == pat
    ensures Occurs(pat, s)
    decreases i
  {
    if i > 0 {
      assert s[1..][i - 1..i - 1 + |pat|] == pat;
      OccursAt(pat, s[1..], i - 1);
    }
  }

  /** Python's `s.lstrip()`. */
  function TrimStart(s: string): (r: string)
    ensures |r| <= |s| && r == s[|s| - |r|..]
    ensures r == [] || !IsSpace(r[0])
    ensures forall k :: 0 <= k < |s| - |r| ==> IsSpace(s[k])
    decreases |s|
  {
    if s != [] && IsSpace(s[0]) then
      var r := TrimStart(s[1..]);
      assert s[1..][|s| - 1 - |r|..] == s[|s| - |r|..];
      assert forall k :: 1 <= k < |s| - |r| ==> s[k] == s[1..][k - 1];
      r
    else s
  }

  /** Python's `s.rstrip()`. */
  function TrimEnd(s: string): (r: string)
    ensures |r| <= |s| && r == s[..|r|]
    ensures r == [] || !IsSpace(r[|r| - 1])
    ensures forall k :: |r| <= k < |s| ==> IsSpace(s[k])
    decreases |s|
  {
    if s != [] && IsSpace(s[|s| - 1]) then
      var r := TrimEnd(s[..|s| - 1]);
      assert s[..|s| - 1][..|r|] == s[..|r|];
      assert forall k :: |r| <= k < |s| - 1 ==> s[k] == s[..|s| - 1][k];
      r
    else s
  }

  /** Python's `s.strip()`. */
  function Strip(s: string): string {
    TrimEnd(TrimStart(s))
  }

  /** Python's `s.rstrip(c)` for a single character `c`. */
  function RStripChar(s: string, c: char): (r: string)
    ensures |r| <= |s| && r == s[..|r|]
    ensures r == [] || r[|r| - 1] != c
    ensures forall k :: |r| <= k < |s| ==> s[k] == c
    decreases |s|
  {
    if s != [] && s[|s| - 1] == c then RStripChar(s[..|s| - 1], c) else s
  }

  /** Stripping a character ignores any run of it appended at the end. */
  lemma {:induction false} RStripAppended(s: string, run: string, c: char)
    requires forall k :: 0 <= k < |run| ==> run[k] == c
    ensures RStripChar(s + run, c) == RStripChar(s, c)
    decreases |run|
  {
    if run != [] {
      assert (s + run)[..|s + run| - 1] == s + run[..|run| - 1];
      RStripAppended(s, run[..|run| - 1], c);
    } else {
      assert s + run == s;
    }
  }

  /** Python's `sep.join(parts)`. */
  function Join(sep: string, parts: seq<string>): string {
    if parts == [] then []
    else if |parts| == 1 then parts[0]
    else parts[0] + sep + Join(sep, parts[1..])
  }

  /** Length of the longest run of decimal digits that ends `s`. */
  function TrailingDigitCount(s: string): (n: nat)
    ensures n <= |s| && AllDigits(s[|s| - n..])
    ensures n < |s| ==> !IsDigit(s[|s| - n - 1])
    decreases |s|
  {
    if s != [] && IsDigit(s[|s| - 1]) then
      var m := TrailingDigitCount(s[..|s| - 1]);
      TrailingDigitStep(s, m);
      1 + m
    else 0
  }

  /** One more digit at the end lengthens the trailing run by one. */
  lemma TrailingDigitStep(s: string, m: nat)
    requires s != [] && IsDigit(s[|s| - 1]) && m < |s|
    requires AllDigits(s[..|s| - 1][|s| - 1 - m..])
    ensures AllDigits(s[|s| - (m + 1)..])
    ensures s[..|s| - 1][|s| - 1 - m..] + [s[|s| - 1]] == s[|s| - (m + 1)..]
  {
    assert s[..|s| - 1][|s| - 1 - m..] + [s[|s| - 1]] == s[|s| - (m + 1)..];
  }

  /** A digit run appended after a non-digit is exactly the trailing run. */
  lemma {:induction false} TrailingDigitRun(head: string, d: string)
    requires AllDigits(d) && head != [] && !IsDigit(head[|head| - 1])
    ensures TrailingDigitCount(head + d) == |d|
    decreases |d|
  {
    var s := head + d;
    if d == [] {
      assert s == head;
    } else {
      assert s[..|s| - 1] == head + d[..|d| - 1];
      TrailingDigitRun(head, d[..|d| - 1]);
    }
  }

  /** Length of the longest run of decimal digits that starts `s`. */
  function LeadingDigitCount(s: string): (n: nat)
    ensures n <= |s| && AllDigits(s[..n])
    ensures n < |s| ==> !IsDigit(s[n])
    decreases |s|
  {
    if s != [] && IsDigit(s[0]) then 1 + LeadingDigitCount(s[1..]) else 0
  }

  function LeadingSpaceCount(s: string): (n: nat)
    ensures n <= |s|
    ensures forall k :: 0 <= k < n ==> IsSpace(s[k])
    ensures n < |s| ==> !IsSpace(s[n])
    decreases |s|
  {
    if s != [] && IsSpace(s[0]) then 1 + LeadingSpaceCount(s[1..]) else 0
  }

  /** A space run that stops inside `a`, or meets a non-space, is not lengthened by what follows. */
  lemma {:induction false} SpaceCountExtend(a: string, b: string)
    requires LeadingSpaceCount(a) < |a| || b == [] || !IsSpace(b[0])
    ensures LeadingSpaceCount(a + b) == LeadingSpaceCount(a)
    decreases |a|
  {
    if a == [] {
      assert a + b == b;
    } else {
      assert (a + b)[0] == a[0];
      if IsSpace(a[0]) {
        assert (a + b)[1..] == a[1..] + b;
        SpaceCountExtend(a[1..], b);
      }
    }
  }

  // ---------------------------------------------------------------------
  // Decimal numbers
  // ---------------------------------------------------------------------

  function DigitChar(d: nat): char
    requires d < 10
  {
    "0123456789"[d]
  }

  function DigitValue(c: char): nat
    requires IsDigit(c)
  {
    (c - '0') as nat
  }

  /** The value of a string of decimal digits (Python's `int` on it). */
  function DigitsValue(s: string): nat
    requires AllDigits(s)
  {
    if s == [] then 0 else DigitsValue(s[..|s| - 1]) * 10 + DigitValue(s[|s| - 1])
  }

  /** Python's `str(n)` for a natural number: no sign, no leading zeros. */
  function NatToString(n: nat): (s: string)
    ensures s != [] && AllDigits(s)
  {
    if n < 10 then [DigitChar(n)] else NatToString(n / 10) + [DigitChar(n % 10)]
  }

  /** Python's `str(i)` (and the `{i}` of an f-string) for an integer. */
  function IntToString(i: int): string {
    if i < 0 then "-" + NatToString(-i) else NatToString(i)
  }

  /**
   * Python's `int(s)` on a string: surrounding whitespace is ignored, an
   * optional sign, then at least one decimal digit; `None` where Python
   * raises `ValueError`.
   */
  function ParseInt(s: string): Option<int> {
    ParseSigned(Strip(s))
  }

  /** An optional sign followed by at least one decimal digit, nothing else. */
  function ParseSigned(t: string): Option<int> {
    if t != [] && (t[0] == '-' || t[0] == '+') then
      var d := t[1..];
      if d != [] && AllDigits(d) then
        Some(if t[0] == '-' then 0 - DigitsValue(d) else DigitsValue(d))
      else None
    else if t != [] && AllDigits(t) then Some(DigitsValue(t))
    else None
  }

  lemma {:induction false} NatToStringValue(n: nat)
    ensures DigitsValue(NatToString(n)) == n
  {
    var s := NatToString(n);
    if n >= 10 {
      NatToStringValue(n / 10);
      assert s[..|s| - 1] == NatToString(n / 10);
    }
  }

  /** Formatting then parsing an integer gives the integer back. */
  lemma ParseIntRoundTrip(i: int)
    ensures ParseInt(IntToString(i)) == Some(i)
  {
    NoSpaceInNumber(i);
    StripUnchanged(IntToString(i));
    ParseSignedRoundTrip(i);
  }

  lemma ParseSignedRoundTrip(i: int)
    ensures ParseSigned(IntToString(i)) == Some(i)
  {
    if i < 0 {
      ParseNegative(-i);
      assert IntToString(i) == "-" + NatToString(-i);
    } else {
      ParseUnsigned(i);
      assert IntToString(i) == NatToString(i);
    }
  }

  /** `int("-" + str(n))` is −n. */
  lemma ParseNegative(n: nat)
    ensures ParseSigned("-" + NatToString(n)) == Some(0 - n)
  {
    var d := NatToString(n);
    NatToStringValue(n);
    assert ("-" + d)[1..] == d;
  }

  /** `int(str(n))` is n. */
  lemma ParseUnsigned(n: nat)
    ensures ParseSigned(NatToString(n)) == Some(n)
  {
    var d := NatToString(n);
    NatToStringValue(n);
    assert IsDigit(d[0]);
  }

  lemma NoSpaceInNumber(i: int)
    ensures var s := IntToString(i); s != [] && !IsSpace(s[0]) && !IsSpace(s[|s| - 1])
  {
    var s := IntToString(i);
    var d := NatToString(if i < 0 then -i else i);
    assert IsDigit(d[|d| - 1]);
  }

  lemma StripUnchanged(s: string)
    requires s != [] && !IsSpace(s[0]) && !IsSpace(s[|s| - 1])
    ensures Strip(s) == s
  {
  }

  /** Different numbers have different decimal spellings. */
  lemma NatToStringInjective(m: nat, n: nat)
    requires NatToString(m) == NatToString(n)
    ensures m == n
  {
    NatToStringValue(m);
    NatToStringValue(n);
  }
}
