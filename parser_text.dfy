/**
 * `normalize_text` of the page parser: Unicode NFC, then every run of
 * whitespace other than line feeds becomes one space, every run of three or
 * more line feeds becomes two, then the ends are stripped. NFC itself is
 * given from outside as a function on strings.
 */
module ParserText {
  import opened Text

  // ---------------------------------------------------------------------
  // The shape of normalized text
  // ---------------------------------------------------------------------

  ghost predicate NoAdjacentBlanks(s: string) {
    forall i, j :: 0 <= i && j == i + 1 && j < |s| ==> !(IsBlank(s[i]) && IsBlank(s[j]))
  }

  predicate BlanksAreSpaces(s: string) {
    forall i :: 0 <= i < |s| ==> IsBlank(s[i]) ==> s[i] == ' '
  }

  ghost predicate NoTripleNewline(s: string) {
    forall i, j, k :: 0 <= i && j == i + 1 && k == i + 2 && k < |s| ==> !(s[i] == '\n' && s[j] == '\n' && s[k] == '\n')
  }

  predicate NoEdgeSpace(s: string) {
    s == [] || (!IsSpace(s[0]) && !IsSpace(s[|s| - 1]))
  }

  /** What `normalize_text` guarantees of its output. */
  ghost predicate Normalized(s: string) {
    NoAdjacentBlanks(s) && BlanksAreSpaces(s) && NoTripleNewline(s) && NoEdgeSpace(s)
  }

  /** The characters of `s` that are not blanks, in order. */
  function WithoutBlanks(s: string): string {
    if s == [] then [] else (if IsBlank(s[0]) then [] else [s[0]]) + WithoutBlanks(s[1..])
  }

  /** The characters of `s` that are not line feeds, in order. */
  function WithoutNewlines(s: string): string {
    if s == [] then [] else (if s[0] == '\n' then [] else [s[0]]) + WithoutNewlines(s[1..])
  }

  // ---------------------------------------------------------------------
  // The three rewriting steps
  // ---------------------------------------------------------------------

  function LeadingBlankCount(s: string): (n: nat)
    ensures n <= |s|
    ensures forall k :: 0 <= k < n ==> IsBlank(s[k])
    ensures n < |s| ==> !IsBlank(s[n])
    decreases |s|
  {
    if s != [] && IsBlank(s[0]) then 1 + LeadingBlankCount(s[1..]) else 0
  }

  function LeadingNewlineCount(s: string): (n: nat)
    ensures n <= |s|
    ensures forall k :: 0 <= k < n ==> s[k] == '\n'
    ensures n < |s| ==> s[n] != '\n'
    decreases |s|
  {
    if s != [] && s[0] == '\n' then 1 + LeadingNewlineCount(s[1..]) else 0
  }

  /**
   * `re.sub(r"[^\S\n]+", " ", s)`: each maximal run of blanks becomes one
   * space; everything else is kept in order.
   */
  function CollapseBlanks(s: string): (r: string)
    ensures NoAdjacentBlanks(r) && BlanksAreSpaces(r)
    ensures r == [] <==> s == []
    ensures r != [] ==> (IsBlank(r[0]) <==> IsBlank(s[0]))
    ensures WithoutBlanks(r) == WithoutBlanks(s)
    decreases |s|
  {
    if s == [] then []
    else if IsBlank(s[0]) then
      var n := LeadingBlankCount(s);
      var rest := CollapseBlanks(s[n..]);
      SkipBlanks(s, n);
      SpaceBeforeCollapsed(rest);
      " " + rest
    else
      var rest := CollapseBlanks(s[1..]);
      KeptBeforeCollapsed(s[0], rest);
      [s[0]] + rest
  }

  /** One space in front of collapsed text that starts with no blank. */
  lemma SpaceBeforeCollapsed(rest: string)
    requires NoAdjacentBlanks(rest) && BlanksAreSpaces(rest)
    requires rest != [] ==> !IsBlank(rest[0])
    ensures NoAdjacentBlanks(" " + rest) && BlanksAreSpaces(" " + rest)
    ensures WithoutBlanks(" " + rest) == WithoutBlanks(rest)
  {
    var t := " " + rest;
    assert t[1..] == rest;
    forall i | 0 < i < |t| ensures t[i] == rest[i - 1] {
    }
  }

  /** A kept character in front of collapsed text. */
  lemma KeptBeforeCollapsed(c: char, rest: string)
    requires !IsBlank(c) && NoAdjacentBlanks(rest) && BlanksAreSpaces(rest)
    ensures NoAdjacentBlanks([c] + rest) && BlanksAreSpaces([c] + rest)
    ensures WithoutBlanks([c] + rest) == [c] + WithoutBlanks(rest)
  {
    var t := [c] + rest;
    assert t[1..] == rest;
    forall i | 0 < i < |t| ensures t[i] == rest[i - 1] {
    }
  }

  lemma {:induction false} SkipBlanks(s: string, n: nat)
    requires n <= |s| && forall k :: 0 <= k < n ==> IsBlank(s[k])
    ensures WithoutBlanks(s) == WithoutBlanks(s[n..])
    decreases n
  {
    if n > 0 {
      SkipBlanks(s[1..], n - 1);
      assert s[1..][n - 1..] == s[n..];
    }
  }

  /**
   * `re.sub(r"\n{3,}", "\n\n", s)`: each maximal run of three or more line
   * feeds becomes exactly two; everything else is kept in order.
   */
  function CollapseNewlines(s: string): (r: string)
    ensures NoTripleNewline(r)
    ensures r == [] <==> s == []
    ensures r != [] ==> r[0] == s[0]
    decreases |s|
  {
    if s == [] then []
    else if s[0] == '\n' then
      var n := LeadingNewlineCount(s);
      var rest := CollapseNewlines(s[n..]);
      var run := if n >= 3 then "\n\n" else s[..n];
      NoTripleAfterRun(run, rest);
      run + rest
    else
      var rest := CollapseNewlines(s[1..]);
      NoTripleAfterChar(s[0], rest);
      [s[0]] + rest
  }

  lemma NoTripleAfterRun(run: string, rest: string)
    requires |run| <= 2 && NoTripleNewline(rest) && (rest == [] || rest[0] != '\n')
    ensures NoTripleNewline(run + rest)
  {
    var t := run + rest;
    forall i | 0 <= i < |t| - 2
      ensures !(t[i] == '\n' && t[i + 1] == '\n' && t[i + 2] == '\n')
    {
      if i >= |run| {
        assert t[i] == rest[i - |run|] && t[i + 1] == rest[i - |run| + 1] && t[i + 2] == rest[i - |run| + 2];
      } else if i + 1 == |run| {
        assert t[i + 1] == rest[0];
      } else {
        assert t[i + 2] == rest[0];
      }
    }
  }

  lemma NoTripleAfterChar(c: char, rest: string)
    requires c != '\n' && NoTripleNewline(rest)
    ensures NoTripleNewline([c] + rest)
  {
    var t := [c] + rest;
    forall i | 1 <= i < |t| - 2
      ensures !(t[i] == '\n' && t[i + 1] == '\n' && t[i + 2] == '\n')
    {
      assert t[i] == rest[i - 1] && t[i + 1] == rest[i] && t[i + 2] == rest[i + 1];
    }
  }

  /** Collapsing line feeds keeps every other character, in order. */
  lemma {:induction false} CollapseNewlinesKeepsContent(s: string)
    ensures WithoutNewlines(CollapseNewlines(s)) == WithoutNewlines(s)
    decreases |s|
  {
    if s != [] {
      if s[0] == '\n' {
        var n := LeadingNewlineCount(s);
        var run := if n >= 3 then "\n\n" else s[..n];
        CollapseNewlinesKeepsContent(s[n..]);
        SkipNewlines(s, n);
        SkipNewlines(run + CollapseNewlines(s[n..]), |run|);
        assert (run + CollapseNewlines(s[n..]))[|run|..] == CollapseNewlines(s[n..]);
      } else {
        CollapseNewlinesKeepsContent(s[1..]);
        assert ([s[0]] + CollapseNewlines(s[1..]))[1..] == CollapseNewlines(s[1..]);
      }
    }
  }

  /** Collapsing line feeds creates no adjacent blanks and no blank other than a space. */
  lemma {:induction false} CollapseNewlinesKeepsBlanks(s: string)
    requires NoAdjacentBlanks(s) && BlanksAreSpaces(s)
    ensures NoAdjacentBlanks(CollapseNewlines(s)) && BlanksAreSpaces(CollapseNewlines(s))
    decreases |s|
  {
    if s != [] {
      if s[0] == '\n' {
        var n := LeadingNewlineCount(s);
        var run := if n >= 3 then "\n\n" else s[..n];
        BlankShapeSuffix(s, n);
        CollapseNewlinesKeepsBlanks(s[n..]);
        NewlinesBeforeBlanks(run, CollapseNewlines(s[n..]));
      } else {
        BlankShapeSuffix(s, 1);
        CollapseNewlinesKeepsBlanks(s[1..]);
        assert |s| > 1 ==> !(IsBlank(s[0]) && IsBlank(s[1]));
        CharBeforeBlanks(s[0], CollapseNewlines(s[1..]));
      }
    }
  }

  lemma BlankShapeSuffix(s: string, n: nat)
    requires n <= |s| && NoAdjacentBlanks(s) && BlanksAreSpaces(s)
    ensures NoAdjacentBlanks(s[n..]) && BlanksAreSpaces(s[n..])
  {
    var t := s[n..];
    forall i, j | 0 <= i && j == i + 1 && j < |t| ensures !(IsBlank(t[i]) && IsBlank(t[j])) {
      assert t[i] == s[n + i] && t[j] == s[n + j];
    }
  }

  lemma NewlinesBeforeBlanks(run: string, rest: string)
    requires (forall k :: 0 <= k < |run| ==> run[k] == '\n') && NoAdjacentBlanks(rest) && BlanksAreSpaces(rest)
    ensures NoAdjacentBlanks(run + rest) && BlanksAreSpaces(run + rest)
  {
    var t := run + rest;
    forall i | 0 <= i < |t| ensures t[i] == if i < |run| then run[i] else rest[i - |run|] {
    }
  }

  lemma CharBeforeBlanks(c: char, rest: string)
    requires NoAdjacentBlanks(rest) && BlanksAreSpaces(rest) && (IsBlank(c) ==> c == ' ')
    requires rest != [] ==> !(IsBlank(c) && IsBlank(rest[0]))
    ensures NoAdjacentBlanks([c] + rest) && BlanksAreSpaces([c] + rest)
  {
    var t := [c] + rest;
    forall i | 0 < i < |t| ensures t[i] == rest[i - 1] {
    }
  }

  lemma {:induction false} SkipNewlines(s: string, n: nat)
    requires n <= |s| && forall k :: 0 <= k < n ==> s[k] == '\n'
    ensures WithoutNewlines(s) == WithoutNewlines(s[n..])
    decreases n
  {
    if n > 0 {
      SkipNewlines(s[1..], n - 1);
      assert s[1..][n - 1..] == s[n..];
    }
  }

  /** The whitespace part of `normalize_text`, after NFC. */
  function CleanWhitespace(s: string): (r: string)
    ensures Normalized(r)
  {
    var a := CollapseBlanks(s);
    var b := CollapseNewlines(a);
    CollapseNewlinesKeepsBlanks(a);
    StripKeepsShape(b);
    Strip(b)
  }

  /** `normalize_text(text)`, with NFC given as `nfc`. */
  function NormalizeText(nfc: string -> string, text: string): (r: string)
    ensures Normalized(r)
  {
    CleanWhitespace(nfc(text))
  }

  /** Stripping takes a slice, so the run properties survive it. */
  lemma StripKeepsShape(b: string)
    requires NoAdjacentBlanks(b) && BlanksAreSpaces(b) && NoTripleNewline(b)
    ensures Normalized(Strip(b))
  {
    var t := TrimStart(b);
    TrimStartKeepsShape(b);
    TrimEndKeepsShape(t);
    StripEdges(b);
  }

  lemma TrimStartKeepsShape(b: string)
    requires NoAdjacentBlanks(b) && BlanksAreSpaces(b) && NoTripleNewline(b)
    ensures var t := TrimStart(b); NoAdjacentBlanks(t) && BlanksAreSpaces(t) && NoTripleNewline(t)
  {
    var t := TrimStart(b);
    SuffixKeepsShape(b, |b| - |t|);
  }

  lemma SuffixKeepsShape(b: string, lo: nat)
    requires lo <= |b|
    requires NoAdjacentBlanks(b) && BlanksAreSpaces(b) && NoTripleNewline(b)
    ensures NoAdjacentBlanks(b[lo..]) && BlanksAreSpaces(b[lo..]) && NoTripleNewline(b[lo..])
  {
    assert b[lo..] == b[lo..|b|];
    SliceKeepsShape(b, lo, |b|);
  }

  lemma TrimEndKeepsShape(t: string)
    requires NoAdjacentBlanks(t) && BlanksAreSpaces(t) && NoTripleNewline(t)
    ensures var r := TrimEnd(t); NoAdjacentBlanks(r) && BlanksAreSpaces(r) && NoTripleNewline(r)
  {
    var r := TrimEnd(t);
    assert r == t[0..|r|];
    SliceKeepsShape(t, 0, |r|);
  }

  /** A stripped string neither starts nor ends with whitespace. */
  lemma StripEdges(b: string)
    ensures NoEdgeSpace(Strip(b))
  {
    var t := TrimStart(b);
    var r := TrimEnd(t);
    assert r != [] ==> r[0] == t[0];
  }

  lemma SliceKeepsShape(b: string, lo: nat, hi: nat)
    requires lo <= hi <= |b|
    requires NoAdjacentBlanks(b) && BlanksAreSpaces(b) && NoTripleNewline(b)
    ensures NoAdjacentBlanks(b[lo..hi]) && BlanksAreSpaces(b[lo..hi]) && NoTripleNewline(b[lo..hi])
  {
    var r := b[lo..hi];
    forall i | 0 <= i < |r| - 1 ensures !(IsBlank(r[i]) && IsBlank(r[i + 1])) {
      assert r[i] == b[lo + i] && r[i + 1] == b[lo + i + 1];
    }
    forall i | 0 <= i < |r| - 2 ensures !(r[i] == '\n' && r[i + 1] == '\n' && r[i + 2] == '\n') {
      assert r[i] == b[lo + i] && r[i + 1] == b[lo + i + 1] && r[i + 2] == b[lo + i + 2];
    }
  }

  // ---------------------------------------------------------------------
  // What each run becomes
  // ---------------------------------------------------------------------

  predicate AllBlank(w: string) {
    forall i :: 0 <= i < |w| ==> IsBlank(w[i])
  }

  predicate AllNewlines(w: string) {
    forall i :: 0 <= i < |w| ==> w[i] == '\n'
  }

  predicate NoWhitespace(u: string) {
    forall i :: 0 <= i < |u| ==> !IsSpace(u[i])
  }

  /** A maximal run of blanks between two other stretches becomes one space. */
  lemma CollapseBlanksRun(a: string, w: string, b: string)
    requires a == [] || !IsBlank(a[|a| - 1])
    requires w != [] && AllBlank(w)
    requires b == [] || !IsBlank(b[0])
    ensures CollapseBlanks(a + w + b) == CollapseBlanks(a) + " " + CollapseBlanks(b)
  {
    var wb := w + b;
    ConcatAssoc(a, w, b);
    CollapseBlanksAppend(a, wb);
    BlankRunLength(w, b);
    assert wb[0] == w[0];
    CollapseBlanksHeadRun(wb, |w|);
    assert wb[|w|..] == b;
    ConcatAssoc(CollapseBlanks(a), " ", CollapseBlanks(b));
  }

  /** Text that does not end in a blank collapses on its own: no run crosses its end. */
  lemma {:induction false} CollapseBlanksAppend(a: string, t: string)
    requires a == [] || !IsBlank(a[|a| - 1])
    ensures CollapseBlanks(a + t) == CollapseBlanks(a) + CollapseBlanks(t)
    decreases |a|
  {
    if a == [] {
      assert a + t == t;
    } else if IsBlank(a[0]) {
      var n := LeadingBlankCount(a);
      BlankRunStops(a);
      assert a[n..][|a| - n - 1] == a[|a| - 1];
      CollapseBlanksAppend(a[n..], t);
      CollapseBlanksAppendRun(a, t, n);
    } else {
      assert a[1..] == [] || a[1..][|a| - 2] == a[|a| - 1];
      CollapseBlanksAppend(a[1..], t);
      CollapseBlanksAppendChar(a, t);
    }
  }

  lemma CollapseBlanksAppendRun(a: string, t: string, n: nat)
    requires a != [] && IsBlank(a[0]) && n == LeadingBlankCount(a) && n < |a|
    requires CollapseBlanks(a[n..] + t) == CollapseBlanks(a[n..]) + CollapseBlanks(t)
    ensures CollapseBlanks(a + t) == CollapseBlanks(a) + CollapseBlanks(t)
  {
    var u := a + t;
    DropOfConcat(a, t, 0);
    DropOfConcat(a, t, n);
    BlankCountExtend(a, t);
    CollapseBlanksHeadRun(u, n);
    CollapseBlanksHeadRun(a, n);
    ConcatAssoc(" ", CollapseBlanks(a[n..]), CollapseBlanks(t));
  }

  lemma CollapseBlanksAppendChar(a: string, t: string)
    requires a != [] && !IsBlank(a[0])
    requires CollapseBlanks(a[1..] + t) == CollapseBlanks(a[1..]) + CollapseBlanks(t)
    ensures CollapseBlanks(a + t) == CollapseBlanks(a) + CollapseBlanks(t)
  {
    var u := a + t;
    DropOfConcat(a, t, 0);
    DropOfConcat(a, t, 1);
    CollapseBlanksHeadChar(u);
    CollapseBlanksHeadChar(a);
    ConcatAssoc([a[0]], CollapseBlanks(a[1..]), CollapseBlanks(t));
  }

  lemma CollapseBlanksHeadRun(s: string, n: nat)
    requires s != [] && IsBlank(s[0]) && n == LeadingBlankCount(s)
    ensures CollapseBlanks(s) == " " + CollapseBlanks(s[n..])
  {
  }

  lemma CollapseBlanksHeadChar(s: string)
    requires s != [] && !IsBlank(s[0])
    ensures CollapseBlanks(s) == [s[0]] + CollapseBlanks(s[1..])
  {
  }

  lemma {:induction false} BlankRunLength(w: string, b: string)
    requires AllBlank(w) && (b == [] || !IsBlank(b[0]))
    ensures LeadingBlankCount(w + b) == |w|
    decreases |w|
  {
    if w == [] {
      assert w + b == b;
    } else {
      assert (w + b)[1..] == w[1..] + b;
      BlankRunLength(w[1..], b);
    }
  }

  lemma {:induction false} BlankRunStops(a: string)
    requires a != [] && !IsBlank(a[|a| - 1])
    ensures LeadingBlankCount(a) < |a|
    decreases |a|
  {
    if IsBlank(a[0]) {
      assert a[1..][|a| - 2] == a[|a| - 1];
      BlankRunStops(a[1..]);
    }
  }

  lemma {:induction false} BlankCountExtend(a: string, t: string)
    requires LeadingBlankCount(a) < |a|
    ensures LeadingBlankCount(a + t) == LeadingBlankCount(a)
    decreases |a|
  {
    assert (a + t)[0] == a[0];
    if IsBlank(a[0]) {
      assert (a + t)[1..] == a[1..] + t;
      BlankCountExtend(a[1..], t);
    }
  }

  /** A maximal run of line feeds becomes two when it has three or more, and stays as it is otherwise. */
  lemma CollapseNewlinesRun(a: string, nl: string, b: string)
    requires a == [] || a[|a| - 1] != '\n'
    requires nl != [] && AllNewlines(nl)
    requires b == [] || b[0] != '\n'
    ensures CollapseNewlines(a + nl + b)
      == CollapseNewlines(a) + (if |nl| >= 3 then "\n\n" else nl) + CollapseNewlines(b)
  {
    var nb := nl + b;
    ConcatAssoc(a, nl, b);
    CollapseNewlinesAppend(a, nb);
    NewlineRunLength(nl, b);
    assert nb[0] == nl[0];
    CollapseNewlinesHeadRun(nb, |nl|);
    assert nb[..|nl|] == nl;
    assert nb[|nl|..] == b;
    ConcatAssoc(CollapseNewlines(a), if |nl| >= 3 then "\n\n" else nl, CollapseNewlines(b));
  }

  /** Text that does not end in a line feed collapses on its own. */
  lemma {:induction false} CollapseNewlinesAppend(a: string, t: string)
    requires a == [] || a[|a| - 1] != '\n'
    ensures CollapseNewlines(a + t) == CollapseNewlines(a) + CollapseNewlines(t)
    decreases |a|
  {
    if a == [] {
      assert a + t == t;
    } else if a[0] == '\n' {
      var n := LeadingNewlineCount(a);
      NewlineRunStops(a);
      assert a[n..][|a| - n - 1] == a[|a| - 1];
      CollapseNewlinesAppend(a[n..], t);
      CollapseNewlinesAppendRun(a, t, n);
    } else {
      assert a[1..] == [] || a[1..][|a| - 2] == a[|a| - 1];
      CollapseNewlinesAppend(a[1..], t);
      CollapseNewlinesAppendChar(a, t);
    }
  }

  lemma CollapseNewlinesAppendRun(a: string, t: string, n: nat)
    requires a != [] && a[0] == '\n' && n == LeadingNewlineCount(a) && n < |a|
    requires CollapseNewlines(a[n..] + t) == CollapseNewlines(a[n..]) + CollapseNewlines(t)
    ensures CollapseNewlines(a + t) == CollapseNewlines(a) + CollapseNewlines(t)
  {
    var u := a + t;
    DropOfConcat(a, t, 0);
    DropOfConcat(a, t, n);
    NewlineCountExtend(a, t);
    CollapseNewlinesHeadRun(u, n);
    CollapseNewlinesHeadRun(a, n);
    ConcatAssoc(if n >= 3 then "\n\n" else a[..n], CollapseNewlines(a[n..]), CollapseNewlines(t));
  }

  lemma CollapseNewlinesAppendChar(a: string, t: string)
    requires a != [] && a[0] != '\n'
    requires CollapseNewlines(a[1..] + t) == CollapseNewlines(a[1..]) + CollapseNewlines(t)
    ensures CollapseNewlines(a + t) == CollapseNewlines(a) + CollapseNewlines(t)
  {
    var u := a + t;
    DropOfConcat(a, t, 0);
    DropOfConcat(a, t, 1);
    CollapseNewlinesHeadChar(u);
    CollapseNewlinesHeadChar(a);
    ConcatAssoc([a[0]], CollapseNewlines(a[1..]), CollapseNewlines(t));
  }

  lemma CollapseNewlinesHeadRun(s: string, n: nat)
    requires s != [] && s[0] == '\n' && n == LeadingNewlineCount(s)
    ensures CollapseNewlines(s) == (if n >= 3 then "\n\n" else s[..n]) + CollapseNewlines(s[n..])
  {
  }

  lemma CollapseNewlinesHeadChar(s: string)
    requires s != [] && s[0] != '\n'
    ensures CollapseNewlines(s) == [s[0]] + CollapseNewlines(s[1..])
  {
  }

  lemma {:induction false} NewlineRunLength(nl: string, b: string)
    requires AllNewlines(nl) && (b == [] || b[0] != '\n')
    ensures LeadingNewlineCount(nl + b) == |nl|
    decreases |nl|
  {
    if nl == [] {
      assert nl + b == b;
    } else {
      assert (nl + b)[1..] == nl[1..] + b;
      NewlineRunLength(nl[1..], b);
    }
  }

  lemma {:induction false} NewlineRunStops(a: string)
    requires a != [] && a[|a| - 1] != '\n'
    ensures LeadingNewlineCount(a) < |a|
    decreases |a|
  {
    if a[0] == '\n' {
      assert a[1..][|a| - 2] == a[|a| - 1];
      NewlineRunStops(a[1..]);
    }
  }

  lemma {:induction false} NewlineCountExtend(a: string, t: string)
    requires LeadingNewlineCount(a) < |a|
    ensures LeadingNewlineCount(a + t) == LeadingNewlineCount(a)
    decreases |a|
  {
    assert (a + t)[0] == a[0];
    if a[0] == '\n' {
      assert (a + t)[1..] == a[1..] + t;
      NewlineCountExtend(a[1..], t);
    }
  }

  /** A word without whitespace has the normalized run shape. */
  lemma WordShape(u: string)
    requires NoWhitespace(u)
    ensures NoAdjacentBlanks(u) && BlanksAreSpaces(u) && NoTripleNewline(u)
  {
  }

  /** Two words joined by one space have the normalized run shape. */
  lemma SpacedShape(u: string, v: string)
    requires NoWhitespace(u) && NoWhitespace(v)
    ensures var x := u + " " + v; NoTripleNewline(x)
  {
    var x := u + " " + v;
    forall i | 0 <= i < |x| ensures x[i] != '\n' {
      if i < |u| {
        assert x[i] == u[i];
      } else if i > |u| {
        assert x[i] == v[i - |u| - 1];
      }
    }
  }

  /** Two words joined by line feeds have no adjacent blanks and no blank but a space. */
  lemma LinedShape(u: string, nl: string, v: string)
    requires NoWhitespace(u) && NoWhitespace(v) && AllNewlines(nl)
    ensures var x := u + nl + v; NoAdjacentBlanks(x) && BlanksAreSpaces(x)
  {
    var x := u + nl + v;
    forall i | 0 <= i < |x| ensures !IsBlank(x[i]) {
      if i < |u| {
        assert x[i] == u[i];
      } else if i < |u| + |nl| {
        assert x[i] == nl[i - |u|];
      } else {
        assert x[i] == v[i - |u| - |nl|];
      }
    }
  }

  /** Two words separated by blanks come out separated by exactly one space. */
  lemma CleanWhitespaceJoinsWords(u: string, w: string, v: string)
    requires u != [] && v != [] && NoWhitespace(u) && NoWhitespace(v)
    requires w != [] && AllBlank(w)
    ensures CleanWhitespace(u + w + v) == u + " " + v
  {
    var x := u + " " + v;
    CollapseBlanksRun(u, w, v);
    WordShape(u);
    WordShape(v);
    CollapseBlanksFixes(u);
    CollapseBlanksFixes(v);
    assert CollapseBlanks(u + w + v) == x;
    SpacedShape(u, v);
    CollapseNewlinesFixes(x);
    assert x[0] == u[0] && x[|x| - 1] == v[|v| - 1];
    StripUnchanged(x);
  }

  /**
   * Two words separated by line feeds come out separated by two line feeds
   * when there were three or more, and by the same line feeds otherwise.
   */
  lemma CleanWhitespaceJoinsParagraphs(u: string, nl: string, v: string)
    requires u != [] && v != [] && NoWhitespace(u) && NoWhitespace(v)
    requires nl != [] && AllNewlines(nl)
    ensures CleanWhitespace(u + nl + v) == u + (if |nl| >= 3 then "\n\n" else nl) + v
  {
    var x := u + nl + v;
    var y := u + (if |nl| >= 3 then "\n\n" else nl) + v;
    LinedShape(u, nl, v);
    CollapseBlanksFixes(x);
    CollapseNewlinesRun(u, nl, v);
    WordShape(u);
    WordShape(v);
    CollapseNewlinesFixes(u);
    CollapseNewlinesFixes(v);
    assert CollapseNewlines(x) == y;
    assert y[0] == u[0] && y[|y| - 1] == v[|v| - 1];
    StripUnchanged(y);
  }

  /**
   * `normalize_text` on text NFC leaves unchanged: two words separated by
   * blanks are joined by one space, and separated by line feeds keep at
   * most two of them.
   */
  lemma NormalizeTextJoins(nfc: string -> string, u: string, w: string, v: string)
    requires nfc(u + w + v) == u + w + v
    requires u != [] && v != [] && NoWhitespace(u) && NoWhitespace(v) && w != []
    ensures AllBlank(w) ==> NormalizeText(nfc, u + w + v) == u + " " + v
    ensures AllNewlines(w) ==> NormalizeText(nfc, u + w + v) == u + (if |w| >= 3 then "\n\n" else w) + v
  {
    if AllBlank(w) {
      CleanWhitespaceJoinsWords(u, w, v);
    }
    if AllNewlines(w) {
      CleanWhitespaceJoinsParagraphs(u, w, v);
    }
  }

  /** Text that neither starts nor ends with whitespace is not changed by stripping. */
  lemma StripUnchanged(x: string)
    requires x != [] && !IsSpace(x[0]) && !IsSpace(x[|x| - 1])
    ensures Strip(x) == x
  {
    assert TrimStart(x) == x;
  }

  // ---------------------------------------------------------------------
  // Idempotence
  // ---------------------------------------------------------------------

  lemma {:induction false} CollapseBlanksFixes(s: string)
    requires NoAdjacentBlanks(s) && BlanksAreSpaces(s)
    ensures CollapseBlanks(s) == s
    decreases |s|
  {
    if s != [] {
      CollapseBlanksFixes(s[1..]);
      if IsBlank(s[0]) {
        assert LeadingBlankCount(s) == 1;
        assert [s[0]] == " ";
      }
      assert [s[0]] + s[1..] == s;
    }
  }

  lemma {:induction false} CollapseNewlinesFixes(s: string)
    requires NoTripleNewline(s)
    ensures CollapseNewlines(s) == s
    decreases |s|
  {
    if s != [] {
      if s[0] == '\n' {
        var n := LeadingNewlineCount(s);
        assert 0 < |s| - 2 ==> !(s[0] == '\n' && s[1] == '\n' && s[2] == '\n');
        assert n < 3;
        CollapseNewlinesFixes(s[n..]);
        assert s[..n] + s[n..] == s;
      } else {
        CollapseNewlinesFixes(s[1..]);
        assert [s[0]] + s[1..] == s;
      }
    }
  }

  /** Normalizing whitespace twice is the same as once. */
  lemma CleanWhitespaceIdempotent(s: string)
    ensures CleanWhitespace(CleanWhitespace(s)) == CleanWhitespace(s)
  {
    var y := CleanWhitespace(s);
    CollapseBlanksFixes(y);
    CollapseNewlinesFixes(y);
  }

  /** `normalize_text` is idempotent wherever NFC leaves its output as it is. */
  lemma NormalizeTextIdempotent(nfc: string -> string, text: string)
    requires nfc(NormalizeText(nfc, text)) == NormalizeText(nfc, text)
    ensures NormalizeText(nfc, NormalizeText(nfc, text)) == NormalizeText(nfc, text)
  {
    CleanWhitespaceIdempotent(nfc(text));
  }

  /** Normalizing keeps every character that is not whitespace, in order. */
  lemma CleanWhitespaceKeepsContent(s: string)
    ensures WithoutSpaces(CleanWhitespace(s)) == WithoutSpaces(s)
  {
    var a := CollapseBlanks(s);
    var b := CollapseNewlines(a);
    WithoutSpacesOfBlanks(s);
    WithoutSpacesOfBlanks(a);
    WithoutSpacesOfNewlines(a);
    WithoutSpacesOfNewlines(b);
    CollapseNewlinesKeepsContent(a);
    WithoutSpacesOfStrip(b);
  }

  /** The characters of `s` that are not whitespace, in order. */
  function WithoutSpaces(s: string): string {
    if s == [] then [] else (if IsSpace(s[0]) then [] else [s[0]]) + WithoutSpaces(s[1..])
  }

  lemma {:induction false} WithoutSpacesOfBlanks(s: string)
    ensures WithoutSpaces(s) == WithoutSpaces(WithoutBlanks(s))
    decreases |s|
  {
    if s != [] {
      WithoutSpacesOfBlanks(s[1..]);
      var w := WithoutBlanks(s[1..]);
      var x := if IsSpace(s[0]) then [] else [s[0]];
      assert WithoutSpaces(s) == x + WithoutSpaces(s[1..]);
      if IsBlank(s[0]) {
        assert WithoutBlanks(s) == w;
        assert x == [];
      } else {
        assert WithoutBlanks(s) == [s[0]] + w;
        TailOfCons(s[0], w);
        assert WithoutSpaces([s[0]] + w) == x + WithoutSpaces(w);
      }
    }
  }

  lemma {:induction false} WithoutSpacesOfNewlines(s: string)
    ensures WithoutSpaces(s) == WithoutSpaces(WithoutNewlines(s))
    decreases |s|
  {
    if s != [] {
      WithoutSpacesOfNewlines(s[1..]);
      var w := WithoutNewlines(s[1..]);
      var x := if IsSpace(s[0]) then [] else [s[0]];
      assert WithoutSpaces(s) == x + WithoutSpaces(s[1..]);
      if s[0] == '\n' {
        assert WithoutNewlines(s) == w;
        assert x == [];
      } else {
        assert WithoutNewlines(s) == [s[0]] + w;
        TailOfCons(s[0], w);
        assert WithoutSpaces([s[0]] + w) == x + WithoutSpaces(w);
      }
    }
  }

  lemma WithoutSpacesOfStrip(s: string)
    ensures WithoutSpaces(Strip(s)) == WithoutSpaces(s)
  {
    var t := TrimStart(s);
    WithoutSpacesSkip(s, |s| - |t|);
    var r := TrimEnd(t);
    WithoutSpacesDrop(t, |r|);
  }

  lemma {:induction false} WithoutSpacesSkip(s: string, n: nat)
    requires n <= |s| && forall k :: 0 <= k < n ==> IsSpace(s[k])
    ensures WithoutSpaces(s) == WithoutSpaces(s[n..])
    decreases n
  {
    if n > 0 {
      WithoutSpacesSkip(s[1..], n - 1);
      assert s[1..][n - 1..] == s[n..];
    }
  }

  lemma {:induction false} WithoutSpacesDrop(s: string, n: nat)
    requires n <= |s| && forall k :: n <= k < |s| ==> IsSpace(s[k])
    ensures WithoutSpaces(s) == WithoutSpaces(s[..n])
    decreases |s|
  {
    if n == 0 {
      WithoutSpacesSkip(s, |s|);
      assert s[|s|..] == [] == s[..0];
    } else {
      WithoutSpacesDrop(s[1..], n - 1);
      assert s[1..][..n - 1] == s[..n][1..];
      var x := if IsSpace(s[0]) then [] else [s[0]];
      assert WithoutSpaces(s) == x + WithoutSpaces(s[1..]);
      assert WithoutSpaces(s[..n]) == x + WithoutSpaces(s[..n][1..]);
    }
  }
}
