/**
 * `_extract_content_with_quotes`: the post body's text with every quote
 * block replaced, in place, by a `<quote author="…" post_id="…">…</quote>`
 * annotation. The quote blocks' html is first masked by numbered
 * placeholder tokens, the text is extracted from the masked html, and each
 * token is then replaced by its annotation between line feeds.
 *
 * The html engine is given from outside: a quote block arrives with its
 * attributes, its outer html and the text nodes of its content, and
 * `textNodes` extracts the text nodes of an html string.
 */
module ParserQuotes {
  import opened Wrappers
  import opened Text
  import opened ParserText

  /** One `.bbCodeBlock--quote` element, as the html engine reports it. */
  datatype QuoteBlock = QuoteBlock(
    dataQuote: string,                 // the `data-quote` attribute ("" when absent)
    dataSource: string,                // the `data-source` attribute ("" when absent)
    outerHtml: string,                 // `qb.get()`
    content: Option<seq<string>>)      // text nodes of the expand-content (or else content) element, if any

  // ---------------------------------------------------------------------
  // The quoted post id: `post:\s*(\d+)`
  // ---------------------------------------------------------------------

  /** The digits of a `post:\s*(\d+)` match that starts right at `s`, if there is one. */
  function PostRefHere(s: string): (r: Option<string>)
    ensures r.Some? ==> StartsWith(s, "post:") && r.value != [] && AllDigits(r.value)
    ensures r.Some? ==> (5 + LeadingSpaceCount(s[5..]) + |r.value| <= |s|
      && s[5 + LeadingSpaceCount(s[5..])..5 + LeadingSpaceCount(s[5..]) + |r.value|] == r.value)
  {
    if !StartsWith(s, "post:") then None
    else
      var after := s[5..];
      var k := LeadingSpaceCount(after);
      if k < |after| && IsDigit(after[k]) then
        var n := LeadingDigitCount(after[k..]);
        assert s[5 + k..5 + k + n] == after[k..][..n];
        Some(after[k..][..n])
      else None
  }

  /**
   * `_POST_ID_RE.search(source)`: the group of the leftmost match. The
   * greedy `\s*` and `\d+` take the whole whitespace run and the whole digit
   * run, since the two classes do not overlap.
   */
  function PostRef(s: string): (r: Option<string>)
    ensures r.Some? ==> r.value != [] && AllDigits(r.value)
    ensures r.Some? ==> Occurs("post:", s) && Occurs(r.value, s)
    decreases |s|
  {
    var here := PostRefHere(s);
    if here.Some? then
      OccursAt("post:", s, 0);
      OccursAt(here.value, s, 5 + LeadingSpaceCount(s[5..]));
      here
    else if s == [] then None
    else PostRef(s[1..])
  }

  /** No `post:` in the source, no quoted post id. */
  lemma {:induction false} PostRefNeedsMarker(s: string)
    requires !Occurs("post:", s)
    ensures PostRef(s) == None
    decreases |s|
  {
    if s != [] {
      PostRefNeedsMarker(s[1..]);
    }
  }

  /**
   * A source that begins with `post:`, optional whitespace and a digit run
   * yields exactly that digit run, whatever follows a non-digit.
   */
  lemma PostRefReadsDigits(spaces: string, digits: string, tail: string)
    requires forall i :: 0 <= i < |spaces| ==> IsSpace(spaces[i])
    requires digits != [] && AllDigits(digits)
    requires tail == [] || !IsDigit(tail[0])
    ensures PostRef("post:" + spaces + digits + tail) == Some(digits)
  {
    PostRefHereReads(spaces, digits, tail);
  }

  lemma PostRefHereReads(spaces: string, digits: string, tail: string)
    requires forall i :: 0 <= i < |spaces| ==> IsSpace(spaces[i])
    requires digits != [] && AllDigits(digits)
    requires tail == [] || !IsDigit(tail[0])
    ensures PostRefHere("post:" + spaces + digits + tail) == Some(digits)
  {
    var s := "post:" + spaces + digits + tail;
    MarkerSplit(spaces, digits + tail);
    assert s == "post:" + (spaces + (digits + tail));
    SpaceRunLength(spaces, digits + tail);
    var rest := s[5..][|spaces|..];
    assert rest == digits + tail;
    DigitRunLength(digits, tail);
    assert rest[..|digits|] == digits;
  }

  lemma MarkerSplit(spaces: string, rest: string)
    ensures var s := "post:" + (spaces + rest); s[..5] == "post:" && s[5..] == spaces + rest
  {
  }

  lemma {:induction false} SpaceRunLength(spaces: string, rest: string)
    requires forall i :: 0 <= i < |spaces| ==> IsSpace(spaces[i])
    requires rest != [] && !IsSpace(rest[0])
    ensures LeadingSpaceCount(spaces + rest) == |spaces|
    decreases |spaces|
  {
    if spaces == [] {
      assert spaces + rest == rest;
    } else {
      assert (spaces + rest)[1..] == spaces[1..] + rest;
      SpaceRunLength(spaces[1..], rest);
    }
  }

  lemma {:induction false} DigitRunLength(digits: string, tail: string)
    requires AllDigits(digits)
    requires tail == [] || !IsDigit(tail[0])
    ensures LeadingDigitCount(digits + tail) == |digits|
    decreases |digits|
  {
    if digits == [] {
      assert digits + tail == tail;
    } else {
      assert (digits + tail)[1..] == digits[1..] + tail;
      DigitRunLength(digits[1..], tail);
    }
  }

  /**
   * The search returns the first match: a lead-in with no match, then
   * `post:`, whitespace and a digit run, yields that digit run. No condition
   * on how the lead-in ends is needed, since `post:` cannot overlap itself.
   */
  lemma PostRefAfter(p: string, spaces: string, digits: string, tail: string)
    requires PostRef(p) == None
    requires forall i :: 0 <= i < |spaces| ==> IsSpace(spaces[i])
    requires digits != [] && AllDigits(digits)
    requires tail == [] || !IsDigit(tail[0])
    ensures PostRef(p + "post:" + spaces + digits + tail) == Some(digits)
  {
    var a := "post:" + spaces;
    var b := a + digits;
    var rest := b + tail;
    ConcatAssoc(p, "post:", spaces);
    ConcatAssoc(p, a, digits);
    ConcatAssoc(p, b, tail);
    DropOfConcat("post:", spaces, 5);
    DropOfConcat(a, digits, 5);
    DropOfConcat(b, tail, 5);
    PostRefSkip(p, rest);
    PostRefReadsDigits(spaces, digits, tail);
  }

  /** A lead-in with no match, before a `post:`, is skipped by the search. */
  lemma {:induction false} PostRefSkip(p: string, rest: string)
    requires PostRef(p) == None
    requires StartsWith(rest, "post:")
    ensures PostRef(p + rest) == PostRef(rest)
    decreases |p|
  {
    if p == [] {
      assert p + rest == rest;
    } else {
      PostRefHereExtend(p, rest);
      DropOfConcat(p, rest, 1);
      PostRefSkip(p[1..], rest);
    }
  }

  /** No match at the start of a lead-in stays no match when `post:` follows it. */
  lemma PostRefHereExtend(p: string, rest: string)
    requires p != [] && PostRefHere(p) == None
    requires StartsWith(rest, "post:")
    ensures PostRefHere(p + rest) == None
  {
    var s := p + rest;
    if |p| < 5 {
      MarkerNoOverlap(p, rest);
    } else if StartsWith(s, "post:") {
      DropOfConcat(p, rest, 5);
      var after := p[5..];
      assert s[5..] == after + rest;
      var k := LeadingSpaceCount(after);
      SpaceCountExtend(after, rest);
      if k < |after| {
        assert (after + rest)[k] == after[k];
      } else {
        assert (after + rest)[k] == rest[0];
      }
    }
  }

  /** `post:` cannot start again inside itself: no letter after its first is a `p`. */
  lemma MarkerNoOverlap(p: string, rest: string)
    requires 0 < |p| < 5
    requires StartsWith(rest, "post:")
    ensures !StartsWith(p + rest, "post:")
  {
    var s := p + rest;
    assert s[|p|] == rest[0] == 'p';
    assert "post:"[|p|] != 'p';
    assert |s| < 5 || s[..5][|p|] == s[|p|];
  }

  // ---------------------------------------------------------------------
  // Annotations
  // ---------------------------------------------------------------------

  /** `<quote{attr_str}>{text}</quote>`: each attribute only when its value is non-empty. */
  function QuoteAnnotation(author: string, postId: string, text: string): string {
    "<quote" + AttrString(author, postId) + ">" + text + "</quote>"
  }

  /** The annotation one quote block is replaced by. */
  function Annotation(nfc: string -> string, qb: QuoteBlock): string {
    var author := Strip(qb.dataQuote);
    var postId := PostRef(qb.dataSource).GetOr("");
    var text := if qb.content.Some? then NormalizeText(nfc, Join(" ", qb.content.value)) else "";
    QuoteAnnotation(author, postId, text)
  }

  /** The list `replacements`, one annotation per quote block, in document order. */
  function Annotations(nfc: string -> string, blocks: seq<QuoteBlock>): (r: seq<string>)
    ensures |r| == |blocks|
    ensures forall i :: 0 <= i < |blocks| ==> r[i] == Annotation(nfc, blocks[i])
  {
    seq(|blocks|, i requires 0 <= i < |blocks| => Annotation(nfc, blocks[i]))
  }

  /** The attribute part of an annotation, by which attributes are present. */
  lemma AttrStringShapes(author: string, postId: string)
    ensures author != "" && postId != "" ==>
      AttrString(author, postId) == " author=\"" + author + "\" post_id=\"" + postId + "\""
    ensures author != "" && postId == "" ==> AttrString(author, postId) == " author=\"" + author + "\""
    ensures author == "" && postId != "" ==> AttrString(author, postId) == " post_id=\"" + postId + "\""
    ensures author == "" && postId == "" ==> AttrString(author, postId) == ""
  {
    if author != "" && postId != "" {
      AttrStringBoth(author, postId);
    } else if author != "" {
      AttrStringAuthor(author);
    } else if postId != "" {
      AttrStringPostId(postId);
    }
  }

  lemma AttrStringAuthor(author: string)
    requires author != ""
    ensures AttrString(author, "") == " author=\"" + author + "\""
  {
    var a := "author=\"" + author + "\"";
    assert [a] + [] == [a];
    assert " " + a == " author=\"" + author + "\"";
  }

  lemma AttrStringPostId(postId: string)
    requires postId != ""
    ensures AttrString("", postId) == " post_id=\"" + postId + "\""
  {
    var p := "post_id=\"" + postId + "\"";
    assert [] + [p] == [p];
    assert " " + p == " post_id=\"" + postId + "\"";
  }

  lemma AttrStringBoth(author: string, postId: string)
    requires author != "" && postId != ""
    ensures AttrString(author, postId) == " author=\"" + author + "\" post_id=\"" + postId + "\""
  {
    var a := "author=\"" + author + "\"";
    var p := "post_id=\"" + postId + "\"";
    assert [a] + [p] == [a, p];
    assert Join(" ", [a, p]) == a + " " + p;
    BothSpelled(author, postId);
  }

  lemma BothSpelled(author: string, postId: string)
    ensures " " + (("author=\"" + author + "\"") + " " + ("post_id=\"" + postId + "\""))
      == " author=\"" + author + "\" post_id=\"" + postId + "\""
  {
    var a1 := "author=\"" + author + "\"";
    var p1 := "post_id=\"" + postId + "\"";
    var z := postId + "\"";
    var x := " " + p1;
    // the left side, grouped to the right
    ConcatAssoc(a1, " ", p1);
    ConcatAssoc("author=\"" + author, "\"", x);
    ConcatAssoc("author=\"", author, "\"" + x);
    ConcatAssoc("post_id=\"", postId, "\"");
    // the right side, grouped to the right
    var y := "\" post_id=\"" + z;
    ConcatAssoc(" author=\"" + author + "\" post_id=\"", postId, "\"");
    ConcatAssoc(" author=\"" + author, "\" post_id=\"", z);
    ConcatAssoc(" author=\"", author, y);
    assert " author=\"" == " " + "author=\"";
    ConcatAssoc(" ", "author=\"", author + y);
    assert "\" post_id=\"" == "\"" + (" " + "post_id=\"");
    ConcatAssoc("\"", " " + "post_id=\"", z);
    ConcatAssoc(" ", "post_id=\"", z);
  }

  function AttrString(author: string, postId: string): string {
    var attrs := (if author != "" then ["author=\"" + author + "\""] else [])
      + (if postId != "" then ["post_id=\"" + postId + "\""] else []);
    if attrs != [] then " " + Join(" ", attrs) else ""
  }

  // ---------------------------------------------------------------------
  // Placeholders
  // ---------------------------------------------------------------------

  /** The token quote block `i` is masked with. */
  function Placeholder(i: nat): string {
    "__QUOTE_PLACEHOLDER_" + NatToString(i) + "__"
  }

  /** What the token for a quote is finally replaced by. */
  function Expansion(annotation: string): string {
    "\n" + annotation + "\n"
  }

  /** The masked body html: block `k`, `k+1`, … replaced by their tokens, in that order. */
  function MaskFrom(html: string, blocks: seq<QuoteBlock>, k: nat): string
    decreases |blocks| - k
  {
    if k >= |blocks| then html
    else MaskFrom(Replace(html, blocks[k].outerHtml, Placeholder(k)), blocks, k + 1)
  }

  /** The extracted text with tokens `k`, `k+1`, … replaced by their expansions, in that order. */
  function RestoreFrom(text: string, annotations: seq<string>, k: nat): string
    decreases |annotations| - k
  {
    if k >= |annotations| then text
    else RestoreFrom(Replace(text, Placeholder(k), Expansion(annotations[k])), annotations, k + 1)
  }

  /** `_extract_content_with_quotes(article)`, with `body` the html of the post body if there is one. */
  function ContentWithQuotes(nfc: string -> string, textNodes: string -> seq<string>,
                             body: Option<string>, blocks: seq<QuoteBlock>): string
  {
    if body.None? then ""
    else
      var masked := MaskFrom(body.value, blocks, 0);
      var raw := Join(" ", textNodes(masked));
      NormalizeText(nfc, RestoreFrom(raw, Annotations(nfc, blocks), 0))
  }

  /** The loops of `_extract_content_with_quotes`, step by step. */
  method ExtractContentWithQuotes(nfc: string -> string, textNodes: string -> seq<string>,
                                  body: Option<string>, blocks: seq<QuoteBlock>) returns (text: string)
    ensures text == ContentWithQuotes(nfc, textNodes, body, blocks)
    ensures Normalized(text)
  {
    if body.None? {
      return "";
    }
    var replacements := CollectAnnotations(nfc, blocks);
    var modifiedHtml := MaskQuotes(body.value, blocks);
    var rawText := Join(" ", textNodes(modifiedHtml));
    rawText := RestoreQuotes(rawText, replacements);
    return NormalizeText(nfc, rawText);
  }

  /** The first loop: one annotation per quote block. */
  method CollectAnnotations(nfc: string -> string, blocks: seq<QuoteBlock>) returns (replacements: seq<string>)
    ensures replacements == Annotations(nfc, blocks)
  {
    replacements := [];
    for idx := 0 to |blocks|
      invariant replacements == Annotations(nfc, blocks)[..idx]
    {
      TakeStep(Annotations(nfc, blocks), idx);
      replacements := replacements + [Annotation(nfc, blocks[idx])];
    }
  }

  /** A prefix one longer is the prefix with the next element appended. */
  lemma TakeStep<T>(r: seq<T>, idx: nat)
    requires idx < |r|
    ensures r[..idx + 1] == r[..idx] + [r[idx]]
  {
  }

  /** The second loop: each quote block's html replaced by its token. */
  method MaskQuotes(html: string, blocks: seq<QuoteBlock>) returns (modifiedHtml: string)
    ensures modifiedHtml == MaskFrom(html, blocks, 0)
  {
    modifiedHtml := html;
    for idx := 0 to |blocks|
      invariant MaskFrom(modifiedHtml, blocks, idx) == MaskFrom(html, blocks, 0)
    {
      modifiedHtml := Replace(modifiedHtml, blocks[idx].outerHtml, Placeholder(idx));
    }
  }

  /** The third loop: each token replaced by its annotation between line feeds. */
  method RestoreQuotes(raw: string, replacements: seq<string>) returns (rawText: string)
    ensures rawText == RestoreFrom(raw, replacements, 0)
  {
    rawText := raw;
    for idx := 0 to |replacements|
      invariant RestoreFrom(rawText, replacements, idx) == RestoreFrom(raw, replacements, 0)
    {
      rawText := Replace(rawText, Placeholder(idx), Expansion(replacements[idx]));
    }
  }

  /** No post body, no content. */
  lemma NoBodyNoContent(nfc: string -> string, textNodes: string -> seq<string>, blocks: seq<QuoteBlock>)
    ensures ContentWithQuotes(nfc, textNodes, None, blocks) == ""
  {
  }

  /** A post without quote blocks is its body's normalized text. */
  lemma NoQuotesPlainText(nfc: string -> string, textNodes: string -> seq<string>, html: string)
    ensures ContentWithQuotes(nfc, textNodes, Some(html), []) == NormalizeText(nfc, Join(" ", textNodes(html)))
  {
    var none: seq<QuoteBlock> := [];
    assert MaskFrom(html, none, 0) == html;
    var raw := Join(" ", textNodes(html));
    assert Annotations(nfc, none) == [];
    assert RestoreFrom(raw, [], 0) == raw;
  }

  // ---------------------------------------------------------------------
  // Reading order
  // ---------------------------------------------------------------------

  /** A stretch of the extracted text: ordinary text, or the token of quote `index`. */
  datatype Piece = Plain(text: string) | Token(index: nat)

  predicate NoUnderscore(t: string) {
    forall i :: 0 <= i < |t| ==> t[i] != '_'
  }

  /**
   * Plain text that cannot take part in spelling a token: it holds no
   * `_QUOTE_P` and does not begin with `QUOTE_P`.
   */
  predicate ClearText(t: string) {
    !Occurs("_QUOTE_P", "_" + t)
  }

  /** The text with the tokens of quotes below `k` already expanded. */
  function Render(ps: seq<Piece>, annotations: seq<string>, k: nat): string
    decreases |ps|
  {
    if ps == [] then []
    else
      var head := match ps[0]
        case Plain(t) => t
        case Token(i) => if i < k && i < |annotations| then Expansion(annotations[i]) else Placeholder(i);
      head + Render(ps[1..], annotations, k)
  }

  /**
   * The conditions under which the token scheme is faithful: the plain text
   * cannot help spell a token and is split into maximal runs, every token
   * names a quote block, and no annotation contains a token.
   */
  ghost predicate WellFormed(ps: seq<Piece>, annotations: seq<string>) {
    (forall i :: 0 <= i < |ps| ==> ps[i].Plain? ==> ps[i].text != [] && ClearText(ps[i].text))
    && (forall i :: 0 <= i < |ps| - 1 ==> !(ps[i].Plain? && ps[i + 1].Plain?))
    && (forall i :: 0 <= i < |ps| ==> ps[i].Token? ==> ps[i].index < |annotations|)
    && (forall i, m :: 0 <= i < |annotations| ==> !Occurs(Placeholder(m), annotations[i]))
  }

  /**
   * Reading order: when the text extracted from the masked html is plain text
   * interleaved with tokens, restoring puts each quote's annotation exactly
   * where its token stood, and the surrounding text is kept as it was.
   */
  lemma {:induction false} RestoreInReadingOrder(ps: seq<Piece>, annotations: seq<string>, k: nat)
    requires WellFormed(ps, annotations) && k <= |annotations|
    ensures RestoreFrom(Render(ps, annotations, k), annotations, k) == Render(ps, annotations, |annotations|)
    decreases |annotations| - k
  {
    if k < |annotations| {
      RestoreStep(ps, annotations, k);
      RestoreInReadingOrder(ps, annotations, k + 1);
    }
  }

  /** The end-to-end form: the post's content is its pieces with every quote expanded, normalized. */
  lemma ContentInReadingOrder(nfc: string -> string, textNodes: string -> seq<string>,
                              html: string, blocks: seq<QuoteBlock>, ps: seq<Piece>)
    requires WellFormed(ps, Annotations(nfc, blocks))
    requires Join(" ", textNodes(MaskFrom(html, blocks, 0))) == Render(ps, Annotations(nfc, blocks), 0)
    ensures ContentWithQuotes(nfc, textNodes, Some(html), blocks)
      == NormalizeText(nfc, Render(ps, Annotations(nfc, blocks), |blocks|))
  {
    RestoreInReadingOrder(ps, Annotations(nfc, blocks), 0);
  }

  /** One pass of the restore loop expands exactly the tokens of quote `k`. */
  lemma {:induction false} RestoreStep(ps: seq<Piece>, annotations: seq<string>, k: nat)
    requires WellFormed(ps, annotations) && k < |annotations|
    ensures Replace(Render(ps, annotations, k), Placeholder(k), Expansion(annotations[k]))
      == Render(ps, annotations, k + 1)
    decreases |ps|
  {
    var pat := Placeholder(k);
    var rep := Expansion(annotations[k]);
    if ps != [] {
      var rest := Render(ps[1..], annotations, k);
      assert WellFormed(ps[1..], annotations) by {
        assert forall i :: 0 <= i < |ps| - 1 ==> ps[1..][i] == ps[i + 1];
      }
      RestoreStep(ps[1..], annotations, k);
      PlaceholderShape(k);
      match ps[0]
      case Plain(t) =>
        assert ps[0] == Plain(t) && ClearText(t);
        if |ps| > 1 {
          assert ps[1].Token?;
          StartsLikeToken(ps[1..], annotations, k);
        }
        PassPlain(t, rest, k, rep);
      case Token(i) =>
        if i < k {
          assert !Occurs(pat, annotations[i]);
          PassLine(annotations[i], rest, pat, rep);
        } else if i == k {
          assert (pat + rest)[|pat|..] == rest;
        } else {
          ClearAfterRender(ps, annotations, k);
          PassPlaceholder(i, k, rest, rep);
        }
    }
  }

  // ---------------------------------------------------------------------
  // How one `replace` pass scans the rendered text
  // ---------------------------------------------------------------------

  /** The token spelled out piece by piece, in front of any text. */
  lemma PlaceholderSpelled(i: nat, x: string)
    ensures Placeholder(i) + x
      == "_" + ("_" + ("QUOTE" + ("_" + ("PLACEHOLDER" + ("_" + (NatToString(i) + ("__" + x)))))))
  {
    var d := NatToString(i);
    ConcatAssoc("__QUOTE_PLACEHOLDER_" + d, "__", x);
    ConcatAssoc("__QUOTE_PLACEHOLDER_", d, "__" + x);
    PrefixSpelled(d + ("__" + x));
  }

  lemma PrefixSpelled(y: string)
    ensures "__QUOTE_PLACEHOLDER_" + y == "_" + ("_" + ("QUOTE" + ("_" + ("PLACEHOLDER" + ("_" + y)))))
  {
    assert "__QUOTE_PLACEHOLDER_" == "_" + ("_" + ("QUOTE" + ("_" + ("PLACEHOLDER" + "_"))));
  }

  /** A token is longer than 22 characters, starts `__QUOTE_P` and holds no line feed. */
  lemma PlaceholderShape(i: nat)
    ensures |Placeholder(i)| >= 23 && Placeholder(i)[..9] == "__QUOTE_P"
    ensures forall j :: 0 <= j < |Placeholder(i)| ==> Placeholder(i)[j] != '\n'
  {
    var d := NatToString(i);
    var p := Placeholder(i);
    assert p[..9] == "__QUOTE_PLACEHOLDER_"[..9];
    forall j | 0 <= j < |p| ensures p[j] != '\n' {
      if j < 20 {
        assert p[j] == "__QUOTE_PLACEHOLDER_"[j];
      } else if j < 20 + |d| {
        assert p[j] == d[j - 20];
      } else {
        assert p[j] == '_';
      }
    }
  }

  /** A string that differs from the pattern at a position before its end does not begin with it. */
  lemma NotPrefixAt(s: string, pat: string, m: nat)
    requires m < |pat| && (m >= |s| || s[m] != pat[m])
    ensures !StartsWith(s, pat)
  {
    if m < |s| && |pat| <= |s| {
      assert s[..|pat|][m] == s[m];
    }
  }

  /** One scanning step: no match at the front, so the first character is kept. */
  lemma SkipOne(s: string, pat: string, rep: string, m: nat)
    requires s != [] && pat != [] && m < |pat| && (m >= |s| || s[m] != pat[m])
    ensures Replace(s, pat, rep) == [s[0]] + Replace(s[1..], pat, rep)
  {
    NotPrefixAt(s, pat, m);
  }

  /** Text that holds no copy of the pattern's first character passes through unchanged. */
  lemma {:induction false} PassFree(t: string, s: string, pat: string, rep: string)
    requires pat != [] && forall i :: 0 <= i < |t| ==> t[i] != pat[0]
    ensures Replace(t + s, pat, rep) == t + Replace(s, pat, rep)
    decreases |t|
  {
    if t == [] {
      assert t + s == s;
    } else {
      SkipOne(t + s, pat, rep, 0);
      assert (t + s)[1..] == t[1..] + s;
      PassFree(t[1..], s, pat, rep);
      ConsRest(t, Replace(s, pat, rep));
    }
  }

  /** Clear plain text followed by nothing or a token passes through one restore pass. */
  lemma PassPlain(t: string, rest: string, k: nat, rep: string)
    requires ClearText(t)
    requires rest == [] || (|rest| >= 2 && (rest[0] == '\n' || (rest[0] == '_' && rest[1] == '_')))
    ensures Replace(t + rest, Placeholder(k), rep) == t + Replace(rest, Placeholder(k), rep)
  {
    assert ("_" + t)[1..] == t;
    PlaceholderShape(k);
    PassClear(t, rest, Placeholder(k), rep);
  }

  /**
   * Clear text followed by nothing, a line feed or a token passes through the
   * replacement of a token unchanged.
   */
  lemma {:induction false} PassClear(t: string, s: string, pat: string, rep: string)
    requires |pat| >= 9 && pat[..9] == "__QUOTE_P" && !Occurs("_QUOTE_P", t)
    requires s == [] || (|s| >= 2 && (s[0] == '\n' || (s[0] == '_' && s[1] == '_')))
    ensures Replace(t + s, pat, rep) == t + Replace(s, pat, rep)
    decreases |t|
  {
    if t == [] {
      assert t + s == s;
    } else {
      NoMatchInClear(t, s, pat);
      SkipNoMatch(t + s, pat, rep);
      assert (t + s)[1..] == t[1..] + s;
      PassClear(t[1..], s, pat, rep);
      ConsRest(t, Replace(s, pat, rep));
    }
  }

  /** No token starts inside clear text that is followed by nothing, a line feed or a token. */
  lemma NoMatchInClear(t: string, s: string, pat: string)
    requires t != [] && |pat| >= 9 && pat[..9] == "__QUOTE_P" && !Occurs("_QUOTE_P", t)
    requires s == [] || (|s| >= 2 && (s[0] == '\n' || (s[0] == '_' && s[1] == '_')))
    ensures !StartsWith(t + s, pat)
  {
    var u := t + s;
    assert forall j :: 0 <= j < 9 ==> pat[j] == "__QUOTE_P"[j];
    if |t| >= 9 {
      assert !StartsWith(t[1..], "_QUOTE_P");
      assert t[1..][..8] != "_QUOTE_P";
      var m :| 0 <= m < 8 && t[1..][m] != "_QUOTE_P"[m];
      assert u[1 + m] == t[1 + m];
      NotPrefixAt(u, pat, 1 + m);
    } else if s == [] {
      NotPrefixAt(u, pat, |t|);
    } else {
      assert u[|t|] == s[0] && u[|t| + 1] == s[1];
      if s[0] == '_' && pat[|t|] == '_' {
        NotPrefixAt(u, pat, |t| + 1);
      } else {
        NotPrefixAt(u, pat, |t|);
      }
    }
  }

  /**
   * A line-feed-framed annotation with no copy of the pattern passes through
   * unchanged: a match cannot cross the line feeds.
   */
  lemma PassLine(a: string, s: string, pat: string, rep: string)
    requires pat != [] && !Occurs(pat, a)
    requires forall j :: 0 <= j < |pat| ==> pat[j] != '\n'
    ensures Replace(Expansion(a) + s, pat, rep) == Expansion(a) + Replace(s, pat, rep)
  {
    var t := "\n" + s;
    PassNewline(s, pat, rep);
    PassAnnotation(a, t, pat, rep);
    PassNewline(a + t, pat, rep);
    ConcatAssoc("\n" + a, "\n", s);
    ConcatAssoc("\n", a, t);
  }

  /** A line feed passes through the replacement of a pattern that holds none. */
  lemma PassNewline(s: string, pat: string, rep: string)
    requires pat != [] && pat[0] != '\n'
    ensures Replace("\n" + s, pat, rep) == "\n" + Replace(s, pat, rep)
  {
    var t := "\n" + s;
    SkipOne(t, pat, rep, 0);
    assert t[1..] == s;
  }

  lemma {:induction false} PassAnnotation(a: string, t: string, pat: string, rep: string)
    requires pat != [] && !Occurs(pat, a)
    requires forall j :: 0 <= j < |pat| ==> pat[j] != '\n'
    requires t != [] && t[0] == '\n'
    ensures Replace(a + t, pat, rep) == a + Replace(t, pat, rep)
    decreases |a|
  {
    if a == [] {
      assert a + t == t;
    } else {
      PassFirst(a, t, pat, rep);
      PassAnnotation(a[1..], t, pat, rep);
      ConsRest(a, Replace(t, pat, rep));
    }
  }

  /** Putting a string's first character back in front of its tail and a suffix. */
  lemma ConsRest(a: string, r: string)
    requires a != []
    ensures [a[0]] + (a[1..] + r) == a + r
  {
    assert [a[0]] + a[1..] == a;
  }

  /** The first character of a pattern-free annotation before a line feed is kept, and the rest is pattern-free. */
  lemma PassFirst(a: string, t: string, pat: string, rep: string)
    requires a != [] && pat != [] && !Occurs(pat, a)
    requires forall j :: 0 <= j < |pat| ==> pat[j] != '\n'
    requires t != [] && t[0] == '\n'
    ensures Replace(a + t, pat, rep) == [a[0]] + Replace(a[1..] + t, pat, rep)
    ensures !Occurs(pat, a[1..])
  {
    assert !StartsWith(a, pat) && !Occurs(pat, a[1..]);
    PassFirstChar(a, t, pat, rep);
  }

  /** A first character where the pattern cannot start passes through, the line feed after it bounding any match. */
  lemma PassFirstChar(a: string, t: string, pat: string, rep: string)
    requires a != [] && pat != [] && !StartsWith(a, pat)
    requires forall j :: 0 <= j < |pat| ==> pat[j] != '\n'
    requires t != [] && t[0] == '\n'
    ensures Replace(a + t, pat, rep) == [a[0]] + Replace(a[1..] + t, pat, rep)
  {
    var u := a + t;
    if |pat| <= |a| {
      var m := Mismatch(a, pat);
      assert u[m] == a[m];
      SkipOne(u, pat, rep, m);
    } else {
      assert u[|a|] == '\n';
      SkipOne(u, pat, rep, |a|);
    }
    assert u[1..] == a[1..] + t;
  }

  /** Where a string that does not begin with the pattern first differs from it. */
  ghost function Mismatch(a: string, pat: string): (m: nat)
    requires |pat| <= |a| && !StartsWith(a, pat)
    ensures m < |pat| && a[m] != pat[m]
  {
    var m :| 0 <= m < |pat| && a[m] != pat[m];
    m
  }

  /** What may follow a token without a longer-numbered token's scan matching across it. */
  predicate ClearAfterToken(rest: string) {
    !StartsWith(rest, "QUOTE_P") && !StartsWith(rest, "_QUOTE_P")
  }

  /** Where a token's number sits: after the 20-character prefix, and followed by `_`. */
  lemma PlaceholderDigits(i: nat)
    ensures var p := Placeholder(i); var d := NatToString(i);
      |p| == 22 + |d| && p[..20] == "__QUOTE_PLACEHOLDER_" && p[20 + |d|] == '_'
      && forall m :: 0 <= m < |d| ==> p[20 + m] == d[m]
  {
  }

  /** Tokens for different quotes differ before either ends. */
  lemma PlaceholderNotPrefix(j: nat, k: nat, rest: string)
    requires j != k
    ensures !StartsWith(Placeholder(j) + rest, Placeholder(k))
  {
    PlaceholderDigits(j);
    PlaceholderDigits(k);
    if |NatToString(j)| == |NatToString(k)| {
      NatToStringValue(j);
      NatToStringValue(k);
    }
    NumberedDiffer(Placeholder(j), rest, Placeholder(k), NatToString(j), NatToString(k));
  }

  /** Two strings with different digit runs at offset 20, each closed by `_`, differ before the second ends. */
  lemma NumberedDiffer(pj: string, rest: string, p: string, dj: string, dk: string)
    requires |pj| == 22 + |dj| && pj[20 + |dj|] == '_' && forall m :: 0 <= m < |dj| ==> pj[20 + m] == dj[m]
    requires |p| == 22 + |dk| && p[20 + |dk|] == '_' && forall m :: 0 <= m < |dk| ==> p[20 + m] == dk[m]
    requires AllDigits(dj) && AllDigits(dk) && (|dj| == |dk| ==> dj != dk)
    ensures !StartsWith(pj + rest, p)
  {
    var s := pj + rest;
    if |dk| < |dj| {
      assert s[20 + |dk|] == pj[20 + |dk|] == dj[|dk|] && IsDigit(dj[|dk|]);
      NotPrefixAt(s, p, 20 + |dk|);
    } else if |dk| > |dj| {
      assert s[20 + |dj|] == pj[20 + |dj|] && p[20 + |dj|] == dk[|dj|] && IsDigit(dk[|dj|]);
      NotPrefixAt(s, p, 20 + |dj|);
    } else {
      var m :| 0 <= m < |dk| && dk[m] != dj[m];
      assert s[20 + m] == pj[20 + m];
      NotPrefixAt(s, p, 20 + m);
    }
  }

  /** A token for another quote passes through unchanged when what follows it is clear. */
  lemma PassPlaceholder(j: nat, k: nat, rest: string, rep: string)
    requires j != k && ClearAfterToken(rest)
    ensures Replace(Placeholder(j) + rest, Placeholder(k), rep) == Placeholder(j) + Replace(rest, Placeholder(k), rep)
  {
    var pat := Placeholder(k);
    var r := Replace(rest, pat, rep);
    var s1 := Spelled(j, rest);
    PassSpelled(j, k, rest, rep);
    PlaceholderSpelled(j, rest);
    PlaceholderSpelled(j, r);
    PlaceholderNotPrefix(j, k, rest);
    SkipNoMatch("_" + s1, pat, rep);
    assert ("_" + s1)[1..] == s1;
  }

  /** A token followed by `x`, spelled out after its first underscore. */
  function Spelled(i: nat, x: string): string {
    "_" + ("QUOTE" + ("_" + ("PLACEHOLDER" + ("_" + (NatToString(i) + ("__" + x))))))
  }

  /** Past its first underscore, a token for quote `j` passes through the replacement of another token. */
  lemma PassSpelled(j: nat, k: nat, rest: string, rep: string)
    requires ClearAfterToken(rest)
    ensures Replace(Spelled(j, rest), Placeholder(k), rep) == Spelled(j, Replace(rest, Placeholder(k), rep))
  {
    var pat := Placeholder(k);
    var s5 := "_" + (NatToString(j) + ("__" + rest));
    PlaceholderShape(k);
    assert pat[0] == '_' && pat[1] == '_';
    PassNumber(j, k, rest, rep);
    var s3 := "_" + ("PLACEHOLDER" + s5);
    PassUnderscoreWord("PLACEHOLDER", s5, pat, rep);
    PassUnderscoreWord("QUOTE", s3, pat, rep);
  }

  /** The number of a token and its closing underscores pass through the replacement of another token. */
  lemma PassNumber(j: nat, k: nat, rest: string, rep: string)
    requires ClearAfterToken(rest)
    ensures var d := NatToString(j);
      Replace("_" + (d + ("__" + rest)), Placeholder(k), rep) == "_" + (d + ("__" + Replace(rest, Placeholder(k), rep)))
  {
    var pat := Placeholder(k);
    PlaceholderShape(k);
    assert pat[0] == '_' && pat[1] == '_';
    PassTokenEnd(k, rest, rep);
    PassUnderscoreWord(NatToString(j), "__" + rest, pat, rep);
  }

  /** A string that does not begin with the pattern keeps its first character. */
  lemma SkipNoMatch(s: string, pat: string, rep: string)
    requires s != [] && pat != [] && !StartsWith(s, pat)
    ensures Replace(s, pat, rep) == [s[0]] + Replace(s[1..], pat, rep)
  {
  }

  /** An underscore followed by a word without underscores passes through, for a pattern starting `__`. */
  lemma PassUnderscoreWord(w: string, tail: string, pat: string, rep: string)
    requires w != [] && NoUnderscore(w)
    requires |pat| >= 2 && pat[0] == '_' && pat[1] == '_'
    ensures Replace("_" + (w + tail), pat, rep) == "_" + (w + Replace(tail, pat, rep))
  {
    var s := "_" + (w + tail);
    assert s[1] == w[0];
    SkipOne(s, pat, rep, 1);
    assert s[1..] == w + tail;
    PassFree(w, tail, pat, rep);
  }

  /** The closing `__` of a token passes through when what follows it is clear. */
  lemma PassTokenEnd(k: nat, rest: string, rep: string)
    requires ClearAfterToken(rest)
    ensures Replace("__" + rest, Placeholder(k), rep) == "__" + Replace(rest, Placeholder(k), rep)
  {
    var pat := Placeholder(k);
    PlaceholderShape(k);
    var s8 := "_" + rest;
    var s7 := "_" + s8;
    assert s7 == "__" + rest;
    PassLastUnderscore(k, rest, rep);
    NoMatchBeforeQuote(s7, pat, rest);
    SkipNoMatch(s7, pat, rep);
  }

  /** The second closing underscore of a token passes through the replacement of a token. */
  lemma PassLastUnderscore(k: nat, rest: string, rep: string)
    requires ClearAfterToken(rest)
    ensures Replace("_" + rest, Placeholder(k), rep) == "_" + Replace(rest, Placeholder(k), rep)
  {
    var s8 := "_" + rest;
    PlaceholderShape(k);
    NoMatchBeforeQ(s8, Placeholder(k), rest);
    SkipNoMatch(s8, Placeholder(k), rep);
    assert s8[1..] == rest;
  }

  lemma NoMatchBeforeQ(s8: string, pat: string, rest: string)
    requires s8 == "_" + rest && |pat| >= 9 && pat[..9] == "__QUOTE_P"
    requires !StartsWith(rest, "_QUOTE_P")
    ensures !StartsWith(s8, pat)
  {
    if |rest| < 8 {
      NotPrefixAt(s8, pat, 8);
    } else {
      assert rest[..8] != "_QUOTE_P";
      var m :| 0 <= m < 8 && rest[m] != "_QUOTE_P"[m];
      assert s8[1 + m] == rest[m];
      assert pat[1 + m] == "_QUOTE_P"[m];
      NotPrefixAt(s8, pat, 1 + m);
    }
  }

  lemma NoMatchBeforeQuote(s7: string, pat: string, rest: string)
    requires s7 == "__" + rest && |pat| >= 9 && pat[..9] == "__QUOTE_P"
    requires !StartsWith(rest, "QUOTE_P")
    ensures !StartsWith(s7, pat)
  {
    if |rest| < 7 {
      NotPrefixAt(s7, pat, 8);
    } else {
      assert rest[..7] != "QUOTE_P";
      var m :| 0 <= m < 7 && rest[m] != "QUOTE_P"[m];
      assert s7[2 + m] == rest[m];
      assert pat[2 + m] == "QUOTE_P"[m];
      NotPrefixAt(s7, pat, 2 + m);
    }
  }

  /** In well-formed pieces, whatever follows a token is clear. */
  lemma ClearAfterRender(ps: seq<Piece>, annotations: seq<string>, k: nat)
    requires WellFormed(ps, annotations) && ps != [] && ps[0].Token?
    ensures ClearAfterToken(Render(ps[1..], annotations, k))
  {
    if |ps| > 1 {
      var rest := Render(ps[1..], annotations, k);
      if ps[1].Token? {
        StartsLikeToken(ps[1..], annotations, k);
        ClearTokenStart(rest);
      } else {
        var t := ps[1].text;
        var tail := Render(ps[2..], annotations, k);
        assert ps[1..][1..] == ps[2..];
        assert rest == t + tail;
        if |ps| > 2 {
          assert ps[2].Token?;
          StartsLikeToken(ps[2..], annotations, k);
        }
        ClearPlainStart(t, tail);
      }
    }
  }

  lemma ClearTokenStart(rest: string)
    requires |rest| >= 2 && (rest[0] == '\n' || (rest[0] == '_' && rest[1] == '_'))
    ensures ClearAfterToken(rest)
  {
    NotPrefixAt(rest, "QUOTE_P", 0);
    if rest[0] == '\n' {
      NotPrefixAt(rest, "_QUOTE_P", 0);
    } else {
      NotPrefixAt(rest, "_QUOTE_P", 1);
    }
  }

  /** Clear plain text, then nothing or a token, is clear. */
  lemma ClearPlainStart(t: string, tail: string)
    requires t != [] && ClearText(t)
    requires tail == [] || (|tail| >= 2 && (tail[0] == '\n' || (tail[0] == '_' && tail[1] == '_')))
    ensures ClearAfterToken(t + tail)
  {
    assert ("_" + t)[1..] == t;
    assert !Occurs("_QUOTE_P", t);
    assert !StartsWith(t, "_QUOTE_P");
    if |t| >= 8 {
      PrefixWithin(t, tail, "_QUOTE_P");
    } else {
      ClearWordStart(t, tail, "_QUOTE_P");
    }
    if |t| >= 7 {
      assert ("_" + t)[..8] == "_" + t[..7];
      assert t[..7] != "QUOTE_P";
      PrefixWithin(t, tail, "QUOTE_P");
    } else {
      ClearWordStart(t, tail, "QUOTE_P");
    }
  }

  /** A word no longer than `t` that does not begin `t` does not begin `t + tail` either. */
  lemma PrefixWithin(t: string, tail: string, w: string)
    requires |w| <= |t| && !StartsWith(t, w)
    ensures !StartsWith(t + tail, w)
  {
    assert (t + tail)[..|w|] == t[..|w|];
  }

  /** Text shorter than a token word, then nothing or a token, does not begin with the word. */
  lemma ClearWordStart(t: string, tail: string, w: string)
    requires t != [] && (w == "QUOTE_P" || w == "_QUOTE_P") && |t| < |w|
    requires tail == [] || (|tail| >= 2 && (tail[0] == '\n' || (tail[0] == '_' && tail[1] == '_')))
    ensures !StartsWith(t + tail, w)
  {
    var r := t + tail;
    if tail == [] {
      NotPrefixAt(r, w, |t|);
    } else {
      assert r[|t|] == tail[0] && r[|t| + 1] == tail[1];
      if tail[0] == '_' && w[|t|] == '_' {
        NotPrefixAt(r, w, |t| + 1);
      } else {
        NotPrefixAt(r, w, |t|);
      }
    }
  }

  /** A rendering that starts with a token starts with a line feed or with two underscores. */
  lemma StartsLikeToken(ps: seq<Piece>, annotations: seq<string>, k: nat)
    requires ps != [] && ps[0].Token?
    ensures var r := Render(ps, annotations, k);
      |r| >= 2 && (r[0] == '\n' || (r[0] == '_' && r[1] == '_'))
  {
    var i := ps[0].index;
    PlaceholderShape(i);
  }
}
