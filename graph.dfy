/**
 * The reply graph: quote tags read back from post text, the reply edges
 * they give, and the directed graph of posts built from them. Rows are the
 * flattened posts (`post_id`, `username`, `page`, `content_text`).
 */
module Graph {
  import opened Wrappers
  import opened Text
  import opened ParserQuotes

  datatype PostRow = PostRow(postId: string, username: string, page: int, contentText: string)

  datatype ReplyEdge = ReplyEdge(fromPostId: string, fromUsername: string, toPostId: string, toUsername: string)

  // ---------------------------------------------------------------------
  // Quote tags: `<quote\s+author="([^"]+)"(?:\s+post_id="(\d+)")?>`
  // ---------------------------------------------------------------------

  /** The two groups of one match: the author, and the post id ("" when the optional group did not take part). */
  datatype QuoteRef = QuoteRef(author: string, postId: string)

  /** A match: its groups, and the text after it, where the search resumes. */
  datatype TagMatch = TagMatch(author: string, postId: string, rest: string)

  /** Length of the run of characters other than `"` that starts `s`. */
  function NonQuoteCount(s: string): (n: nat)
    ensures n <= |s| && (forall k :: 0 <= k < n ==> s[k] != '"') && (n < |s| ==> s[n] == '"')
    decreases |s|
  {
    if s != [] && s[0] != '"' then 1 + NonQuoteCount(s[1..]) else 0
  }

  /** The optional group `\s+post_id="(\d+)"` at the start of `u`: the digits and what follows the group. */
  function PostIdAttr(u: string): (r: Option<(string, string)>)
    ensures r.Some? ==> |r.value.1| < |u|
  {
    var w := LeadingSpaceCount(u);
    if w > 0 && StartsWith(u[w..], "post_id=\"") then
      var x := u[w + 9..];
      var d := LeadingDigitCount(x);
      if 0 < d < |x| && x[d] == '"' then Some((x[..d], x[d + 1..])) else None
    else None
  }

  /** The closing `>` right after the author, when the optional group is not used. */
  function Closing(author: string, after: string): (r: Option<TagMatch>)
    ensures r.Some? ==> |r.value.rest| < |after|
  {
    if after != [] && after[0] == '>' then Some(TagMatch(author, "", after[1..])) else None
  }

  /** From just after `author="`: the author group, the optional post id group and the closing `>`. */
  function AuthorValue(v: string): (r: Option<TagMatch>)
    ensures r.Some? ==> |r.value.rest| < |v|
  {
    var m := NonQuoteCount(v);
    if m == 0 || m == |v| then None
    else
      var author := v[..m];
      var after := v[m + 1..];
      var group := PostIdAttr(after);
      if group.Some? && group.value.1 != [] && group.value.1[0] == '>' then
        Some(TagMatch(author, group.value.0, group.value.1[1..]))
      else Closing(author, after)
  }

  /** From just after `<quote`: `\s+author="` and the rest of the tag. */
  function AuthorAttr(u: string): (r: Option<TagMatch>)
    ensures r.Some? ==> |r.value.rest| < |u|
  {
    var w := LeadingSpaceCount(u);
    if w > 0 && StartsWith(u[w..], "author=\"") then AuthorValue(u[w + 8..]) else None
  }

  /** A match of the quote-tag pattern starting exactly at the start of `t`. */
  function TagHere(t: string): (r: Option<TagMatch>)
    ensures r.Some? ==> |r.value.rest| < |t|
  {
    if StartsWith(t, "<quote") then AuthorAttr(t[6..]) else None
  }

  /** `_QUOTE_RE.findall(t)`: matches left to right, each search resuming after the previous match. */
  function FindQuotes(t: string): seq<QuoteRef>
    decreases |t|
  {
    if t == [] then []
    else
      var here := TagHere(t);
      if here.Some? then [QuoteRef(here.value.author, here.value.postId)] + FindQuotes(here.value.rest)
      else FindQuotes(t[1..])
  }

  lemma PostIdAttrReads(d: string, r: string)
    requires d != [] && AllDigits(d)
    ensures PostIdAttr(" post_id=\"" + d + "\"" + r) == Some((d, r))
  {
    var u := " post_id=\"" + d + "\"" + r;
    assert u[0] == ' ' && u[1] == 'p';
    assert u[1..][0] == 'p';
    assert LeadingSpaceCount(u) == 1;
    assert u[1..][..9] == "post_id=\"";
    var x := u[10..];
    assert x == d + ("\"" + r);
    DigitRunLength(d, "\"" + r);
    assert x[..|d|] == d;
    assert x[|d| + 1..] == r;
  }

  lemma PostIdAttrAbsent(r: string)
    ensures PostIdAttr(">" + r) == None
  {
    assert (">" + r)[0] == '>';
  }

  lemma AuthorValueReads(author: string, after: string)
    requires author != [] && forall k :: 0 <= k < |author| ==> author[k] != '"'
    ensures NonQuoteCount(author + "\"" + after) == |author|
    ensures var v := author + "\"" + after; v[..|author|] == author && v[|author| + 1..] == after
  {
    QuoteRunLength(author, "\"" + after);
    var v := author + "\"" + after;
    assert v == author + ("\"" + after);
  }

  lemma {:induction false} QuoteRunLength(run: string, rest: string)
    requires forall k :: 0 <= k < |run| ==> run[k] != '"'
    requires rest != [] && rest[0] == '"'
    ensures NonQuoteCount(run + rest) == |run|
    decreases |run|
  {
    if run == [] {
      assert run + rest == rest;
    } else {
      assert (run + rest)[1..] == run[1..] + rest;
      QuoteRunLength(run[1..], rest);
    }
  }

  lemma AuthorAttrReads(v: string)
    ensures AuthorAttr(" author=\"" + v) == AuthorValue(v)
  {
    var u := " author=\"" + v;
    assert u[0] == ' ' && u[1..][0] == 'a';
    assert LeadingSpaceCount(u) == 1;
    assert u[1..][..8] == "author=\"";
    assert u[9..] == v;
  }

  lemma TagHereOpens(u: string)
    ensures TagHere("<quote" + u) == AuthorAttr(u)
  {
    var t := "<quote" + u;
    assert t[..6] == "<quote";
    assert t[6..] == u;
  }

  /**
   * The annotation, regrouped so that its attribute string is followed by
   * one tail. The regrouping steps are spelled out: the solver finds them
   * unaided, but at many times the cost.
   */
  lemma AnnotationRegrouped(author: string, postId: string, text: string, rest: string)
    ensures QuoteAnnotation(author, postId, text) + rest
      == "<quote" + (AttrString(author, postId) + (">" + (text + "</quote>" + rest)))
  {
    var attrs := AttrString(author, postId);
    ConcatAssoc("<quote" + attrs + ">" + text, "</quote>", rest);
    ConcatAssoc("<quote" + attrs + ">", text, "</quote>" + rest);
    ConcatAssoc("<quote" + attrs, ">", text + ("</quote>" + rest));
    ConcatAssoc("<quote", attrs, ">" + (text + ("</quote>" + rest)));
    ConcatAssoc(text, "</quote>", rest);
  }

  lemma WithIdRegrouped(author: string, postId: string, closing: string)
    ensures (" author=\"" + author + "\" post_id=\"" + postId + "\"") + closing
      == " author=\"" + (author + "\"" + (" post_id=\"" + postId + "\"" + closing))
  {
  }

  lemma WithoutIdRegrouped(author: string, closing: string)
    ensures (" author=\"" + author + "\"") + closing == " author=\"" + (author + "\"" + closing)
  {
  }

  lemma AnnotationWithIdReadsBack(author: string, postId: string, tail: string)
    requires author != [] && forall k :: 0 <= k < |author| ==> author[k] != '"'
    requires postId != [] && AllDigits(postId)
    ensures TagHere("<quote" + (AttrString(author, postId) + (">" + tail))) == Some(TagMatch(author, postId, tail))
  {
    AttrStringBoth(author, postId);
    var closing := ">" + tail;
    var v := author + "\"" + (" post_id=\"" + postId + "\"" + closing);
    WithIdRegrouped(author, postId, closing);
    TagHereOpens(" author=\"" + v);
    AuthorAttrReads(v);
    AuthorValueWithId(author, postId, tail);
  }

  lemma AuthorValueWithId(author: string, postId: string, tail: string)
    requires author != [] && forall k :: 0 <= k < |author| ==> author[k] != '"'
    requires postId != [] && AllDigits(postId)
    ensures AuthorValue(author + "\"" + (" post_id=\"" + postId + "\"" + (">" + tail))) == Some(TagMatch(author, postId, tail))
  {
    var closing := ">" + tail;
    var after := " post_id=\"" + postId + "\"" + closing;
    var v := author + "\"" + after;
    AuthorValueReads(author, after);
    PostIdAttrReads(postId, closing);
    assert v[|author| + 1..] == after && v[..|author|] == author;
    assert PostIdAttr(after) == Some((postId, closing));
    assert closing[0] == '>' && closing[1..] == tail;
  }

  lemma AuthorValueClosing(author: string, tail: string)
    requires author != [] && forall k :: 0 <= k < |author| ==> author[k] != '"'
    ensures AuthorValue(author + "\"" + (">" + tail)) == Some(TagMatch(author, "", tail))
  {
    var closing := ">" + tail;
    AuthorValueReads(author, closing);
    PostIdAttrAbsent(tail);
    assert closing[1..] == tail;
  }

  lemma AnnotationWithoutIdReadsBack(author: string, tail: string)
    requires author != [] && forall k :: 0 <= k < |author| ==> author[k] != '"'
    ensures TagHere("<quote" + (AttrString(author, "") + (">" + tail))) == Some(TagMatch(author, "", tail))
  {
    AttrStringShapes(author, "");
    var v := author + "\"" + (">" + tail);
    WithoutIdRegrouped(author, ">" + tail);
    assert AttrString(author, "") + (">" + tail) == " author=\"" + v;
    TagHereOpens(" author=\"" + v);
    AuthorAttrReads(v);
    AuthorValueClosing(author, tail);
  }

  /**
   * The annotation a quote block becomes reads back, as a quote tag, as its
   * author and post id when the author is non-empty (and has no `"`), and the
   * search resumes with the annotation's text.
   */
  lemma AnnotationReadsBack(author: string, postId: string, text: string, rest: string)
    requires author != [] && forall k :: 0 <= k < |author| ==> author[k] != '"'
    requires postId == [] || AllDigits(postId)
    ensures TagHere(QuoteAnnotation(author, postId, text) + rest)
      == Some(TagMatch(author, postId, text + "</quote>" + rest))
    ensures FindQuotes(QuoteAnnotation(author, postId, text) + rest)
      == [QuoteRef(author, postId)] + FindQuotes(text + "</quote>" + rest)
  {
    AnnotationRegrouped(author, postId, text, rest);
    if postId != [] {
      AnnotationWithIdReadsBack(author, postId, text + "</quote>" + rest);
    } else {
      AnnotationWithoutIdReadsBack(author, text + "</quote>" + rest);
    }
  }

  lemma NoAuthorAfterSpace(u: string)
    requires |u| >= 2 && u[0] == ' ' && u[1] == 'p'
    ensures AuthorAttr(u) == None
  {
    assert u[1..][0] == 'p';
    assert LeadingSpaceCount(u) == 1;
  }

  lemma NoAuthorAtClose(x: string)
    ensures AuthorAttr(">" + x) == None
  {
    assert (">" + x)[0] == '>';
  }

  lemma PostIdOnlyOpens(postId: string, closing: string)
    requires postId != []
    ensures var u := AttrString("", postId) + closing; |u| >= 2 && u[0] == ' ' && u[1] == 'p'
  {
    AttrStringPostId(postId);
    var attrs := AttrString("", postId);
    assert attrs[0] == ' ' && attrs[1] == 'p';
  }

  /** The opening tag of an annotation without an author matches no quote tag. */
  lemma AnonymousTagAbsent(postId: string, tail: string)
    ensures TagHere("<quote" + (AttrString("", postId) + (">" + tail))) == None
  {
    var attrs := AttrString("", postId);
    var u := attrs + (">" + tail);
    TagHereOpens(u);
    if postId != [] {
      PostIdOnlyOpens(postId, ">" + tail);
      NoAuthorAfterSpace(u);
    } else {
      assert u == ">" + tail;
      NoAuthorAtClose(tail);
    }
  }

  /** An annotation without an author is no quote tag: the search moves past its first character. */
  lemma AnonymousAnnotationIsNoTag(postId: string, text: string, rest: string)
    ensures TagHere(QuoteAnnotation("", postId, text) + rest) == None
    ensures FindQuotes(QuoteAnnotation("", postId, text) + rest) == FindQuotes((QuoteAnnotation("", postId, text) + rest)[1..])
  {
    var t := QuoteAnnotation("", postId, text) + rest;
    AnnotationRegrouped("", postId, text, rest);
    AnonymousTagAbsent(postId, text + "</quote>" + rest);
    assert TagHere(t) == None;
    assert t != [];
  }

  // ---------------------------------------------------------------------
  // Edges
  // ---------------------------------------------------------------------

  /** `post_user_map`: post id to username, a later row overwriting an earlier one. */
  function UserMap(rows: seq<PostRow>): map<string, string>
    decreases |rows|
  {
    if rows == [] then map[]
    else UserMap(rows[..|rows| - 1])[rows[|rows| - 1].postId := rows[|rows| - 1].username]
  }

  /** Whether a quote of `row` gives an edge: not a self-quote (when excluded), and naming a known post. */
  predicate Resolves(row: PostRow, q: QuoteRef, known: map<string, string>, excludeSelf: bool) {
    !(excludeSelf && q.author == row.username) && q.postId != "" && q.postId in known
  }

  /** The edges of one row's quotes, in the order of the quotes. */
  function RefEdges(row: PostRow, refs: seq<QuoteRef>, known: map<string, string>, excludeSelf: bool): seq<ReplyEdge>
    decreases |refs|
  {
    if refs == [] then []
    else
      var q := refs[|refs| - 1];
      RefEdges(row, refs[..|refs| - 1], known, excludeSelf)
        + (if Resolves(row, q, known, excludeSelf) then [ReplyEdge(row.postId, row.username, q.postId, q.author)] else [])
  }

  /** The edges of the rows, row after row. */
  function EdgesOf(rows: seq<PostRow>, known: map<string, string>, excludeSelf: bool): seq<ReplyEdge>
    decreases |rows|
  {
    if rows == [] then []
    else
      var row := rows[|rows| - 1];
      EdgesOf(rows[..|rows| - 1], known, excludeSelf) + RefEdges(row, FindQuotes(row.contentText), known, excludeSelf)
  }

  /** `extract_reply_edges(df, exclude_self_quotes=excludeSelf)`. */
  function ReplyEdges(rows: seq<PostRow>, excludeSelf: bool): seq<ReplyEdge> {
    EdgesOf(rows, UserMap(rows), excludeSelf)
  }

  /** The two loops of `extract_reply_edges`. */
  method ExtractReplyEdges(rows: seq<PostRow>, excludeSelf: bool) returns (edges: seq<ReplyEdge>)
    ensures edges == ReplyEdges(rows, excludeSelf)
  {
    var postUserMap := BuildUserMap(rows);
    edges := [];
    for i := 0 to |rows|
      invariant edges == EdgesOf(rows[..i], postUserMap, excludeSelf)
    {
      edges := AppendRowEdges(edges, rows[i], postUserMap, excludeSelf);
      assert rows[..i + 1][..i] == rows[..i];
    }
    assert rows[..|rows|] == rows;
  }

  /** The first loop of `extract_reply_edges`: `post_user_map`. */
  method BuildUserMap(rows: seq<PostRow>) returns (postUserMap: map<string, string>)
    ensures postUserMap == UserMap(rows)
  {
    postUserMap := map[];
    for i := 0 to |rows|
      invariant postUserMap == UserMap(rows[..i])
    {
      assert rows[..i + 1][..i] == rows[..i];
      postUserMap := postUserMap[rows[i].postId := rows[i].username];
    }
    assert rows[..|rows|] == rows;
  }

  /** The inner loop of `extract_reply_edges`: the edges of one row's quote tags, appended. */
  method AppendRowEdges(before: seq<ReplyEdge>, row: PostRow, postUserMap: map<string, string>, excludeSelf: bool)
    returns (edges: seq<ReplyEdge>)
    ensures edges == before + RefEdges(row, FindQuotes(row.contentText), postUserMap, excludeSelf)
  {
    var quotes := FindQuotes(row.contentText);
    edges := before;
    for k := 0 to |quotes|
      invariant edges == before + RefEdges(row, quotes[..k], postUserMap, excludeSelf)
    {
      var q := quotes[k];
      assert quotes[..k + 1][..k] == quotes[..k];
      if excludeSelf && q.author == row.username {
        continue;
      }
      if q.postId != "" && q.postId in postUserMap {
        edges := edges + [ReplyEdge(row.postId, row.username, q.postId, q.author)];
      }
    }
    assert quotes[..|quotes|] == quotes;
  }

  /** The keys of `post_user_map` are the rows' post ids. */
  lemma {:induction false} UserMapKeys(rows: seq<PostRow>)
    ensures forall id :: id in UserMap(rows) <==> exists i :: 0 <= i < |rows| && rows[i].postId == id
    decreases |rows|
  {
    if rows != [] {
      var init := rows[..|rows| - 1];
      UserMapKeys(init);
      forall id
        ensures id in UserMap(rows) <==> exists i :: 0 <= i < |rows| && rows[i].postId == id
      {
        if exists i :: 0 <= i < |init| && init[i].postId == id {
          var i :| 0 <= i < |init| && init[i].postId == id;
          assert rows[i].postId == id;
        }
        if exists i :: 0 <= i < |rows| && rows[i].postId == id {
          var i :| 0 <= i < |rows| && rows[i].postId == id;
          if i < |init| {
            assert init[i].postId == id;
          }
        }
      }
    }
  }

  /** Every edge of a row's quotes comes from a quote that resolves, with the row as its source. */
  lemma {:induction false} RefEdgesSound(row: PostRow, refs: seq<QuoteRef>, known: map<string, string>, excludeSelf: bool)
    ensures forall e :: e in RefEdges(row, refs, known, excludeSelf) ==>
      e.fromPostId == row.postId && e.fromUsername == row.username
      && QuoteRef(e.toUsername, e.toPostId) in refs
      && Resolves(row, QuoteRef(e.toUsername, e.toPostId), known, excludeSelf)
    ensures forall q :: q in refs && Resolves(row, q, known, excludeSelf) ==>
      ReplyEdge(row.postId, row.username, q.postId, q.author) in RefEdges(row, refs, known, excludeSelf)
    decreases |refs|
  {
    if refs != [] {
      var init := refs[..|refs| - 1];
      RefEdgesSound(row, init, known, excludeSelf);
      assert refs == init + [refs[|refs| - 1]];
    }
  }

  /** The edges of a row's earlier quotes come first: appending quotes only appends edges. */
  lemma {:induction false} RefEdgesPrefix(row: PostRow, refs: seq<QuoteRef>, k: nat, known: map<string, string>, excludeSelf: bool)
    requires k <= |refs|
    ensures var early := RefEdges(row, refs[..k], known, excludeSelf);
      var all := RefEdges(row, refs, known, excludeSelf);
      |early| <= |all| && all[..|early|] == early
    decreases |refs|
  {
    if k == |refs| {
      assert refs[..k] == refs;
    } else {
      var init := refs[..|refs| - 1];
      assert init[..k] == refs[..k];
      RefEdgesPrefix(row, init, k, known, excludeSelf);
    }
  }

  /** Each resolving quote gives one edge per occurrence, and a quote that does not resolve gives none. */
  lemma {:induction false} RefEdgesCounts(row: PostRow, refs: seq<QuoteRef>, known: map<string, string>, excludeSelf: bool)
    ensures forall q: QuoteRef ::
      multiset(RefEdges(row, refs, known, excludeSelf))[ReplyEdge(row.postId, row.username, q.postId, q.author)]
      == (if Resolves(row, q, known, excludeSelf) then multiset(refs)[q] else 0)
    decreases |refs|
  {
    if refs != [] {
      var init := refs[..|refs| - 1];
      RefEdgesCounts(row, init, known, excludeSelf);
      assert refs == init + [refs[|refs| - 1]];
    }
  }

  /** Every edge comes from some row's resolving quote, and every resolving quote of every row gives an edge. */
  lemma EdgesOfSound(rows: seq<PostRow>, known: map<string, string>, excludeSelf: bool)
    ensures forall e :: e in EdgesOf(rows, known, excludeSelf) ==>
      exists i :: 0 <= i < |rows| && e.fromPostId == rows[i].postId && e.fromUsername == rows[i].username
        && QuoteRef(e.toUsername, e.toPostId) in FindQuotes(rows[i].contentText)
        && Resolves(rows[i], QuoteRef(e.toUsername, e.toPostId), known, excludeSelf)
    ensures forall i, q :: 0 <= i < |rows| && q in FindQuotes(rows[i].contentText) && Resolves(rows[i], q, known, excludeSelf) ==>
      ReplyEdge(rows[i].postId, rows[i].username, q.postId, q.author) in EdgesOf(rows, known, excludeSelf)
  {
    EdgesOfFromRows(rows, known, excludeSelf);
    EdgesOfComplete(rows, known, excludeSelf);
  }

  /** Edge `e` comes from a resolving quote of `row`. */
  predicate FromQuoteOf(row: PostRow, e: ReplyEdge, known: map<string, string>, excludeSelf: bool) {
    e.fromPostId == row.postId && e.fromUsername == row.username
    && QuoteRef(e.toUsername, e.toPostId) in FindQuotes(row.contentText)
    && Resolves(row, QuoteRef(e.toUsername, e.toPostId), known, excludeSelf)
  }

  lemma {:induction false} EdgesOfFromRows(rows: seq<PostRow>, known: map<string, string>, excludeSelf: bool)
    ensures forall e :: e in EdgesOf(rows, known, excludeSelf) ==>
      exists i :: 0 <= i < |rows| && FromQuoteOf(rows[i], e, known, excludeSelf)
    decreases |rows|
  {
    if rows != [] {
      var init := rows[..|rows| - 1];
      var row := rows[|rows| - 1];
      EdgesOfFromRows(init, known, excludeSelf);
      RefEdgesSound(row, FindQuotes(row.contentText), known, excludeSelf);
      forall e | e in EdgesOf(rows, known, excludeSelf)
        ensures exists i :: 0 <= i < |rows| && FromQuoteOf(rows[i], e, known, excludeSelf)
      {
        if e in EdgesOf(init, known, excludeSelf) {
          var i :| 0 <= i < |init| && FromQuoteOf(init[i], e, known, excludeSelf);
          assert rows[i] == init[i];
        } else {
          assert FromQuoteOf(rows[|rows| - 1], e, known, excludeSelf);
        }
      }
    }
  }

  lemma {:induction false} EdgesOfComplete(rows: seq<PostRow>, known: map<string, string>, excludeSelf: bool)
    ensures forall i, q :: 0 <= i < |rows| && q in FindQuotes(rows[i].contentText) && Resolves(rows[i], q, known, excludeSelf) ==>
      ReplyEdge(rows[i].postId, rows[i].username, q.postId, q.author) in EdgesOf(rows, known, excludeSelf)
    decreases |rows|
  {
    if rows != [] {
      var init := rows[..|rows| - 1];
      var row := rows[|rows| - 1];
      EdgesOfComplete(init, known, excludeSelf);
      RefEdgesSound(row, FindQuotes(row.contentText), known, excludeSelf);
      forall i, q | 0 <= i < |rows| && q in FindQuotes(rows[i].contentText) && Resolves(rows[i], q, known, excludeSelf)
        ensures ReplyEdge(rows[i].postId, rows[i].username, q.postId, q.author) in EdgesOf(rows, known, excludeSelf)
      {
        if i < |init| {
          assert rows[i] == init[i];
        }
      }
    }
  }

  /**
   * The edges `extract_reply_edges` returns: each goes from a row to the
   * post a quote tag in that row's text names, carries the tag's author as
   * `to_username`, points at a post id some row has, and (when self-quotes
   * are excluded) is not a self-quote; conversely every such tag gives an edge.
   */
  lemma ReplyEdgesCharacterized(rows: seq<PostRow>, excludeSelf: bool)
    ensures forall e :: e in ReplyEdges(rows, excludeSelf) ==>
      e.toPostId != ""
      && (exists j :: 0 <= j < |rows| && rows[j].postId == e.toPostId)
      && (excludeSelf ==> e.toUsername != e.fromUsername)
      && exists i :: 0 <= i < |rows| && e.fromPostId == rows[i].postId && e.fromUsername == rows[i].username
           && QuoteRef(e.toUsername, e.toPostId) in FindQuotes(rows[i].contentText)
    ensures forall i, q ::
      (0 <= i < |rows| && q in FindQuotes(rows[i].contentText) && q.postId != ""
        && (exists j :: 0 <= j < |rows| && rows[j].postId == q.postId)
        && !(excludeSelf && q.author == rows[i].username)) ==>
      ReplyEdge(rows[i].postId, rows[i].username, q.postId, q.author) in ReplyEdges(rows, excludeSelf)
  {
    UserMapKeys(rows);
    EdgesOfSound(rows, UserMap(rows), excludeSelf);
  }

  /** The edges come row by row: those of a prefix of the rows, then those of the remaining rows. */
  lemma {:induction false} EdgesInRowOrder(rows: seq<PostRow>, k: nat, known: map<string, string>, excludeSelf: bool)
    requires k <= |rows|
    ensures EdgesOf(rows, known, excludeSelf) == EdgesOf(rows[..k], known, excludeSelf) + EdgesOf(rows[k..], known, excludeSelf)
    decreases |rows|
  {
    if k < |rows| {
      var init := rows[..|rows| - 1];
      var row := rows[|rows| - 1];
      var last := RefEdges(row, FindQuotes(row.contentText), known, excludeSelf);
      EdgesInRowOrder(init, k, known, excludeSelf);
      assert init[..k] == rows[..k];
      var tail := rows[k..];
      assert tail[..|tail| - 1] == init[k..];
      assert tail[|tail| - 1] == row;
      assert EdgesOf(rows, known, excludeSelf) == EdgesOf(init, known, excludeSelf) + last;
      assert EdgesOf(tail, known, excludeSelf) == EdgesOf(init[k..], known, excludeSelf) + last;
      ConcatAssoc(EdgesOf(rows[..k], known, excludeSelf), EdgesOf(init[k..], known, excludeSelf), last);
    } else {
      assert rows[..k] == rows;
      assert rows[k..] == [];
    }
  }

  // ---------------------------------------------------------------------
  // The graph
  // ---------------------------------------------------------------------

  /** The attributes `build_reply_graph` gives a node. */
  datatype NodeAttrs = NodeAttrs(username: string, page: int)

  /**
   * A directed graph without parallel edges (networkx's DiGraph): nodes in
   * insertion order, the attributes of the nodes that have them, and the
   * edge set.
   */
  class ReplyGraph {
    var nodes: seq<string>
    var attrs: map<string, NodeAttrs>
    var edges: set<(string, string)>

    ghost predicate Valid()
      reads this
    {
      Distinct(nodes)
      && (forall x :: x in attrs ==> x in nodes)
      && (forall e :: e in edges ==> e.0 in nodes && e.1 in nodes)
    }

    constructor ()
      ensures Valid() && nodes == [] && attrs == map[] && edges == {}
    {
      nodes := [];
      attrs := map[];
      edges := {};
    }

    /** `has_node(x)`. */
    function HasNode(x: string): (b: bool)
      reads this
      requires Valid()
      ensures b <==> x in nodes
    {
      x in nodes
    }

    /** `add_node(x, **a)`: a new node goes last; an existing one keeps its place and takes the new attributes. */
    method AddNode(x: string, a: NodeAttrs)
      requires Valid()
      modifies this
      ensures Valid()
      ensures nodes == if x in old(nodes) then old(nodes) else old(nodes) + [x]
      ensures attrs == old(attrs)[x := a] && edges == old(edges)
    {
      if x !in nodes {
        nodes := nodes + [x];
      }
      attrs := attrs[x := a];
    }

    /** `add_edge(u, v)`: missing endpoints become nodes without attributes; a repeated edge changes nothing. */
    method AddEdge(u: string, v: string)
      requires Valid()
      modifies this
      ensures Valid()
      ensures nodes == old(nodes) + (if u in old(nodes) then [] else [u])
        + (if v in old(nodes) || v == u then [] else [v])
      ensures attrs == old(attrs) && edges == old(edges) + {(u, v)}
    {
      if u !in nodes {
        nodes := nodes + [u];
      }
      if v !in nodes {
        nodes := nodes + [v];
      }
      edges := edges + {(u, v)};
    }
  }

  /** The node order `build_reply_graph` produces: post ids in order of first appearance. */
  function NodeOrder(rows: seq<PostRow>): seq<string>
    decreases |rows|
  {
    if rows == [] then []
    else
      var prev := NodeOrder(rows[..|rows| - 1]);
      var id := rows[|rows| - 1].postId;
      if id in prev then prev else prev + [id]
  }

  /** The node attributes: each post id's username and page, from its last row. */
  function NodeAttrsOf(rows: seq<PostRow>): map<string, NodeAttrs>
    decreases |rows|
  {
    if rows == [] then map[]
    else
      var row := rows[|rows| - 1];
      NodeAttrsOf(rows[..|rows| - 1])[row.postId := NodeAttrs(row.username, row.page)]
  }

  /** The edges that land in the graph: those whose two ends are nodes, as (from, to) pairs. */
  function GraphEdges(ids: map<string, NodeAttrs>, es: seq<ReplyEdge>): set<(string, string)> {
    set e | e in es && e.fromPostId in ids && e.toPostId in ids :: (e.fromPostId, e.toPostId)
  }

  /** `build_reply_graph(df, edges)`. */
  method BuildReplyGraph(rows: seq<PostRow>, es: seq<ReplyEdge>) returns (g: ReplyGraph)
    ensures fresh(g) && g.Valid()
    ensures g.nodes == NodeOrder(rows) && g.attrs == NodeAttrsOf(rows)
    ensures g.edges == GraphEdges(NodeAttrsOf(rows), es)
  {
    g := new ReplyGraph();
    AddPostNodes(g, rows);
    AddReplyEdges(g, rows, es);
  }

  /** The first loop of `build_reply_graph`: one node per row, the last row's attributes winning. */
  method AddPostNodes(g: ReplyGraph, rows: seq<PostRow>)
    requires g.Valid() && g.nodes == [] && g.attrs == map[] && g.edges == {}
    modifies g
    ensures g.Valid() && g.nodes == NodeOrder(rows) && g.attrs == NodeAttrsOf(rows) && g.edges == {}
  {
    for i := 0 to |rows|
      invariant g.Valid()
      invariant g.nodes == NodeOrder(rows[..i]) && g.attrs == NodeAttrsOf(rows[..i]) && g.edges == {}
    {
      assert rows[..i + 1][..i] == rows[..i];
      g.AddNode(rows[i].postId, NodeAttrs(rows[i].username, rows[i].page));
    }
    assert rows[..|rows|] == rows;
  }

  /** The second loop of `build_reply_graph`: an edge only when both ends are already nodes. */
  method AddReplyEdges(g: ReplyGraph, rows: seq<PostRow>, es: seq<ReplyEdge>)
    requires g.Valid() && g.nodes == NodeOrder(rows) && g.attrs == NodeAttrsOf(rows) && g.edges == {}
    modifies g
    ensures g.Valid() && g.nodes == NodeOrder(rows) && g.attrs == NodeAttrsOf(rows)
    ensures g.edges == GraphEdges(NodeAttrsOf(rows), es)
  {
    NodeAttrsKeys(rows);
    for k := 0 to |es|
      invariant g.Valid()
      invariant g.nodes == NodeOrder(rows) && g.attrs == NodeAttrsOf(rows)
      invariant g.edges == GraphEdges(NodeAttrsOf(rows), es[..k])
    {
      var e := es[k];
      GraphEdgesStep(NodeAttrsOf(rows), es, k);
      if g.HasNode(e.fromPostId) && g.HasNode(e.toPostId) {
        g.AddEdge(e.fromPostId, e.toPostId);
      }
    }
    assert es[..|es|] == es;
  }

  lemma GraphEdgesStep(ids: map<string, NodeAttrs>, es: seq<ReplyEdge>, k: nat)
    requires k < |es|
    ensures GraphEdges(ids, es[..k + 1]) == GraphEdges(ids, es[..k])
      + (if es[k].fromPostId in ids && es[k].toPostId in ids then {(es[k].fromPostId, es[k].toPostId)} else {})
  {
    assert es[..k + 1] == es[..k] + [es[k]];
  }

  /** The nodes with attributes are exactly the listed nodes. */
  lemma {:induction false} NodeAttrsKeys(rows: seq<PostRow>)
    ensures forall x :: x in NodeAttrsOf(rows) <==> x in NodeOrder(rows)
    decreases |rows|
  {
    if rows != [] {
      NodeAttrsKeys(rows[..|rows| - 1]);
    }
  }

  /**
   * The nodes are the rows' post ids, each once, in order of first
   * appearance, and each carries the username and page of the last row with
   * that id.
   */
  lemma NodesArePostIds(rows: seq<PostRow>)
    ensures forall i, j :: 0 <= i < j < |NodeOrder(rows)| ==> NodeOrder(rows)[i] != NodeOrder(rows)[j]
    ensures forall x :: x in NodeOrder(rows) <==> exists i :: 0 <= i < |rows| && rows[i].postId == x
    ensures forall i :: 0 <= i < |rows| ==> (rows[i].postId in NodeAttrsOf(rows)
      && ((forall j :: i < j < |rows| ==> rows[j].postId != rows[i].postId) ==>
            NodeAttrsOf(rows)[rows[i].postId] == NodeAttrs(rows[i].username, rows[i].page)))
  {
    NodeOrderDistinct(rows);
    NodeOrderMembers(rows);
    NodeAttrsLastRow(rows);
  }

  predicate Distinct(s: seq<string>) {
    forall i, j :: 0 <= i < j < |s| ==> s[i] != s[j]
  }

  lemma DistinctAppend(s: seq<string>, x: string)
    requires Distinct(s) && x !in s
    ensures Distinct(s + [x])
  {
    var r := s + [x];
    forall i, j | 0 <= i < j < |r|
      ensures r[i] != r[j]
    {
      assert r[i] == s[i];
      if j < |s| {
        assert r[j] == s[j];
      }
    }
  }

  lemma {:induction false} NodeOrderDistinct(rows: seq<PostRow>)
    ensures Distinct(NodeOrder(rows))
    decreases |rows|
  {
    if rows != [] {
      var prev := NodeOrder(rows[..|rows| - 1]);
      var id := rows[|rows| - 1].postId;
      NodeOrderDistinct(rows[..|rows| - 1]);
      if id !in prev {
        DistinctAppend(prev, id);
      }
    }
  }

  /** Some row has post id `x`. */
  predicate HasPost(rows: seq<PostRow>, x: string) {
    exists i :: 0 <= i < |rows| && rows[i].postId == x
  }

  lemma HasPostLast(rows: seq<PostRow>, x: string)
    requires rows != []
    ensures HasPost(rows, x) <==> (HasPost(rows[..|rows| - 1], x) || rows[|rows| - 1].postId == x)
  {
    var init := rows[..|rows| - 1];
    if HasPost(init, x) {
      var i :| 0 <= i < |init| && init[i].postId == x;
      assert rows[i] == init[i];
    }
    if HasPost(rows, x) {
      var i :| 0 <= i < |rows| && rows[i].postId == x;
      if i < |init| {
        assert init[i] == rows[i];
      }
    }
  }

  lemma {:induction false} NodeOrderMembers(rows: seq<PostRow>)
    ensures forall x :: x in NodeOrder(rows) <==> HasPost(rows, x)
    decreases |rows|
  {
    if rows != [] {
      NodeOrderMembers(rows[..|rows| - 1]);
      forall x
        ensures x in NodeOrder(rows) <==> HasPost(rows, x)
      {
        HasPostLast(rows, x);
      }
    }
  }

  /** No row after row `i` has its post id. */
  predicate LastOfId(rows: seq<PostRow>, i: nat)
    requires i < |rows|
  {
    forall j :: i < j < |rows| ==> rows[j].postId != rows[i].postId
  }

  lemma {:induction false} NodeAttrsLastRow(rows: seq<PostRow>)
    ensures forall i :: 0 <= i < |rows| ==> rows[i].postId in NodeAttrsOf(rows)
    ensures forall i :: 0 <= i < |rows| && LastOfId(rows, i) ==>
      NodeAttrsOf(rows)[rows[i].postId] == NodeAttrs(rows[i].username, rows[i].page)
    decreases |rows|
  {
    if rows != [] {
      var init := rows[..|rows| - 1];
      var id := rows[|rows| - 1].postId;
      NodeAttrsLastRow(init);
      forall i | 0 <= i < |init|
        ensures rows[i].postId in NodeAttrsOf(rows)
        ensures LastOfId(rows, i) ==> NodeAttrsOf(rows)[rows[i].postId] == NodeAttrs(rows[i].username, rows[i].page)
      {
        EarlierRow(rows, i);
      }
    }
  }

  /** An earlier row seen from the rows without the last one. */
  lemma EarlierRow(rows: seq<PostRow>, i: nat)
    requires i < |rows| - 1
    ensures rows[i] == rows[..|rows| - 1][i]
    ensures LastOfId(rows, i) ==> rows[|rows| - 1].postId != rows[i].postId && LastOfId(rows[..|rows| - 1], i)
  {
  }

  /** An edge lands in the graph exactly when both its ends are post ids of the rows. */
  lemma GraphEdgesBetweenPosts(rows: seq<PostRow>, es: seq<ReplyEdge>)
    ensures forall e :: e in es ==>
      ((e.fromPostId, e.toPostId) in GraphEdges(NodeAttrsOf(rows), es)
        <== (exists i :: 0 <= i < |rows| && rows[i].postId == e.fromPostId)
            && (exists j :: 0 <= j < |rows| && rows[j].postId == e.toPostId))
    ensures forall p :: p in GraphEdges(NodeAttrsOf(rows), es) ==>
      (exists i :: 0 <= i < |rows| && rows[i].postId == p.0) && (exists j :: 0 <= j < |rows| && rows[j].postId == p.1)
  {
    NodesArePostIds(rows);
    NodeAttrsKeys(rows);
  }
}
