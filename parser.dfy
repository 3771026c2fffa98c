/**
 * The page parser: `parse_post`, `parse_pagination` and `parse_thread_page`.
 * The CSS selection is done by an html engine given from outside (`Engine`):
 * it turns a page into the attribute strings and text-node lists the
 * parser reads, and the rules here are what the parser does with them.
 */
module Parser {
  import opened Wrappers
  import opened Text
  import opened Errors
  import opened ParserText
  import opened ParserQuotes

  const BaseUrl: string := "https://voz.vn"

  /** The `time.u-dt` element: its `datetime` ("" when absent) and `data-timestamp` attributes. */
  datatype TimeElement = TimeElement(datetime: string, dataTimestamp: Option<string>)

  /** The `.message-body .bbWrapper` element: its html, the `src` of its images and the `href` of its `a.link`s ("" when absent). */
  datatype Body = Body(html: string, imageSrcs: seq<string>, linkHrefs: seq<string>)

  /** A `.reaction img`: its `alt` and `title` attributes ("" when absent). */
  datatype ReactionIcon = ReactionIcon(alt: string, title: string)

  /** The `.reactionsBar`: its icons, the first text of its summary link, and the named users in that link. */
  datatype ReactionBar = ReactionBar(icons: seq<ReactionIcon>, linkText: string, namedUsers: seq<string>)

  /**
   * One `article.message`. Each string field is the first match of the
   * selector `parse_post` uses, or "" when there is none.
   */
  datatype Article = Article(
    dataContent: string,
    dataAuthor: string,
    permalink: string,
    time: Option<TimeElement>,
    userLink: string,
    userTitle: string,
    avatarSrc: string,
    userBanner: string,
    body: Option<Body>,
    quoteBlocks: seq<QuoteBlock>,
    reactionBar: Option<ReactionBar>)

  /** `ul.pageNav-main`: the current page's label and the last entry's label ("" when absent). */
  datatype PageNav = PageNav(currentLabel: string, lastLabel: string)

  datatype Document = Document(articles: seq<Article>, pageNav: Option<PageNav>)

  /** The html engine: css selection, text-node extraction and Unicode NFC. */
  datatype Engine = Engine(select: string -> Document, textNodes: string -> seq<string>, nfc: string -> string)

  datatype PostData = PostData(
    postId: string,
    postUrl: string,
    datetime: string,
    timestamp: int,
    username: string,
    userId: Option<nat>,
    userUrl: string,
    userTitle: string,
    userBanner: string,
    avatarUrl: string,
    contentText: string,
    contentHtml: string,
    images: seq<string>,
    links: seq<string>,
    reactionTypes: seq<string>,
    reactionCount: nat)

  datatype PageData = PageData(currentPage: int, totalPages: int, posts: seq<PostData>, threadUrl: string)

  // ---------------------------------------------------------------------
  // Identifiers
  // ---------------------------------------------------------------------

  /** `post_id`: `data-content` with every `post-` removed. */
  function PostId(dataContent: string): string {
    Replace(dataContent, "post-", "")
  }

  /** The usual `data-content="post-123"` gives the bare number. */
  lemma PostIdOfPostAnchor(digits: string)
    requires AllDigits(digits)
    ensures PostId("post-" + digits) == digits
  {
    var s := "post-" + digits;
    assert s[..5] == "post-";
    assert s[5..] == digits;
    NoMarkerInDigits(digits, "post-");
    ReplaceAbsent(digits, "post-", "");
  }

  /** A pattern that starts with a non-digit does not occur in a run of digits. */
  lemma {:induction false} NoMarkerInDigits(d: string, pat: string)
    requires AllDigits(d) && pat != [] && !IsDigit(pat[0])
    ensures !Occurs(pat, d)
    decreases |d|
  {
    if |pat| <= |d| {
      assert d[..|pat|][0] == d[0];
    }
    if d != [] {
      NoMarkerInDigits(d[1..], pat);
    }
  }

  /**
   * `_USER_ID_RE.search(user_link)` with `\.(\d+)/?$`: the digit run that
   * ends the link (before one optional `/`), when a `.` precedes it.
   */
  function UserId(link: string): Option<nat> {
    TrailingId(if link != [] && link[|link| - 1] == '/' then link[..|link| - 1] else link)
  }

  /** The value of the digit run that ends `t`, when a `.` precedes it. */
  function TrailingId(t: string): Option<nat> {
    var n := TrailingDigitCount(t);
    if 0 < n < |t| && t[|t| - n - 1] == '.' then Some(DigitsValue(t[|t| - n..])) else None
  }

  /** A profile link `….N` or `….N/` gives the user id N. */
  lemma UserIdOfProfileLink(prefix: string, n: nat, slash: bool)
    ensures UserId(prefix + "." + NatToString(n) + (if slash then "/" else "")) == Some(n)
  {
    var d := NatToString(n);
    var t := prefix + "." + d;
    TrailingIdReads(prefix + ".", d);
    NatToStringValue(n);
    if slash {
      var link := t + "/";
      assert link[..|link| - 1] == t;
    } else {
      assert t[|t| - 1] == d[|d| - 1];
      assert t + "" == t;
    }
  }

  lemma TrailingIdReads(head: string, d: string)
    requires head != [] && head[|head| - 1] == '.'
    requires d != [] && AllDigits(d)
    ensures TrailingId(head + d) == Some(DigitsValue(d))
  {
    var t := head + d;
    TrailingDigitRun(head, d);
    SuffixOfConcat(head, d);
    assert TrailingDigitCount(t) == |d| && 0 < |d| < |t|;
  }

  /** A link without a `.` has no user id. */
  lemma UserIdNeedsDot(link: string)
    requires forall i :: 0 <= i < |link| ==> link[i] != '.'
    ensures UserId(link) == None
  {
    var t := if link != [] && link[|link| - 1] == '/' then link[..|link| - 1] else link;
    var n := TrailingDigitCount(t);
    if 0 < n < |t| {
      assert t[|t| - n - 1] == link[|t| - n - 1];
    }
  }

  // ---------------------------------------------------------------------
  // Images and links
  // ---------------------------------------------------------------------

  /** `a` is `b` with some elements left out, order kept. */
  predicate SubsequenceOf(a: seq<string>, b: seq<string>)
    decreases |b|
  {
    if a == [] then true
    else if b == [] then false
    else (a[0] == b[0] && SubsequenceOf(a[1..], b[1..])) || SubsequenceOf(a, b[1..])
  }

  /** The elements of `xs` that satisfy `keep`, in order (a list comprehension with a condition). */
  function Keep(xs: seq<string>, keep: string -> bool): (r: seq<string>)
    ensures SubsequenceOf(r, xs)
    ensures forall i :: 0 <= i < |r| ==> keep(r[i])
    ensures forall x :: x in xs && keep(x) ==> x in r
    ensures forall x :: x in r ==> x in xs
    ensures forall x :: multiset(r)[x] == if keep(x) then multiset(xs)[x] else 0
    decreases |xs|
  {
    if xs == [] then []
    else
      assert xs == [xs[0]] + xs[1..];
      var rest := Keep(xs[1..], keep);
      if keep(xs[0]) then [xs[0]] + rest else rest
  }

  /** An image `src` the post keeps: non-empty, not an emoji and not a reaction icon. */
  predicate IsContentImage(src: string) {
    src != "" && !Occurs("smilies", src) && !Occurs("reactions", src)
  }

  predicate NonEmpty(s: string) {
    s != ""
  }

  // ---------------------------------------------------------------------
  // Reactions
  // ---------------------------------------------------------------------

  /** `react.attrib.get("alt", "") or react.attrib.get("title", "")`. */
  function Label(icon: ReactionIcon): string {
    if icon.alt != "" then icon.alt else icon.title
  }

  /** The labels of the icons, in order. */
  function Labels(icons: seq<ReactionIcon>): (r: seq<string>)
    ensures |r| == |icons| && forall i :: 0 <= i < |icons| ==> r[i] == Label(icons[i])
  {
    seq(|icons|, i requires 0 <= i < |icons| => Label(icons[i]))
  }

  /** `reaction_types`: each non-empty label the first time it appears. */
  function ReactionTypes(icons: seq<ReactionIcon>): seq<string>
    decreases |icons|
  {
    if icons == [] then []
    else
      var prev := ReactionTypes(icons[..|icons| - 1]);
      var newLabel := Label(icons[|icons| - 1]);
      if newLabel != "" && newLabel !in prev then prev + [newLabel] else prev
  }

  /** The loop of `parse_post` that collects the reaction types. */
  method CollectReactionTypes(icons: seq<ReactionIcon>) returns (types: seq<string>)
    ensures types == ReactionTypes(icons)
  {
    types := [];
    for i := 0 to |icons|
      invariant types == ReactionTypes(icons[..i])
    {
      var rtype := if icons[i].alt != "" then icons[i].alt else icons[i].title;
      assert icons[..i + 1][..i] == icons[..i];
      if rtype != "" && rtype !in types {
        types := types + [rtype];
      }
    }
    assert icons[..|icons|] == icons;
  }

  /** No two entries equal, and none empty. */
  predicate DistinctNonEmpty(r: seq<string>) {
    (forall i, j :: 0 <= i < j < |r| ==> r[i] != r[j])
    && (forall i :: 0 <= i < |r| ==> r[i] != "")
  }

  /** The reaction types are distinct and non-empty. */
  lemma {:induction false} ReactionTypesDistinct(icons: seq<ReactionIcon>)
    ensures DistinctNonEmpty(ReactionTypes(icons))
    decreases |icons|
  {
    if icons != [] {
      var init := icons[..|icons| - 1];
      var prev := ReactionTypes(init);
      var last := Label(icons[|icons| - 1]);
      ReactionTypesDistinct(init);
      var r := ReactionTypes(icons);
      if last != "" && last !in prev {
        assert r == prev + [last];
        forall i, j | 0 <= i < j < |r|
          ensures r[i] != r[j]
        {
          if j == |prev| {
            assert r[i] == prev[i] && prev[i] in prev;
          } else {
            assert r[i] == prev[i] && r[j] == prev[j];
          }
        }
      } else {
        assert r == prev;
      }
    }
  }

  /** The reaction types are exactly the non-empty labels. */
  lemma {:induction false} ReactionTypesMembers(icons: seq<ReactionIcon>)
    ensures forall x :: x in ReactionTypes(icons) <==> x != "" && x in Labels(icons)
    decreases |icons|
  {
    if icons != [] {
      var init := icons[..|icons| - 1];
      var prev := ReactionTypes(init);
      var last := Label(icons[|icons| - 1]);
      ReactionTypesMembers(init);
      assert Labels(icons) == Labels(init) + [last];
      var r := ReactionTypes(icons);
      assert r == prev + [last] || r == prev;
      forall x
        ensures x in r <==> x != "" && x in Labels(icons)
      {
        assert x in Labels(icons) <==> x in Labels(init) || x == last;
      }
    }
  }

  /** Where `x` first appears among the labels. */
  function FirstLabelAt(labels: seq<string>, x: string): (i: nat)
    requires x in labels
    ensures i < |labels| && labels[i] == x && forall j :: 0 <= j < i ==> labels[j] != x
  {
    if labels[0] == x then 0 else 1 + FirstLabelAt(labels[1..], x)
  }

  /** Every entry of `r` is among `labels`, and earlier entries first appear earlier there. */
  predicate InFirstAppearanceOrder(r: seq<string>, labels: seq<string>) {
    (forall i :: 0 <= i < |r| ==> r[i] in labels)
    && forall i, j :: 0 <= i < j < |r| && r[i] in labels && r[j] in labels ==>
      FirstLabelAt(labels, r[i]) < FirstLabelAt(labels, r[j])
  }

  /** The reaction types come in the order of their first appearance. */
  lemma {:induction false} ReactionTypesFirstAppearance(icons: seq<ReactionIcon>)
    ensures InFirstAppearanceOrder(ReactionTypes(icons), Labels(icons))
    decreases |icons|
  {
    if icons != [] {
      var init := icons[..|icons| - 1];
      var prev := ReactionTypes(init);
      var last := Label(icons[|icons| - 1]);
      ReactionTypesFirstAppearance(init);
      ReactionTypesMembers(init);
      assert Labels(icons) == Labels(init) + [last];
      if last != "" && last !in prev {
        assert ReactionTypes(icons) == prev + [last];
        assert last !in Labels(init);
        OrderExtended(prev, Labels(init), last);
      } else {
        assert ReactionTypes(icons) == prev;
        OrderKept(prev, Labels(init), last);
      }
    }
  }

  /** A label appended after the others leaves their first appearances, and so their order, as they were. */
  lemma OrderKept(prev: seq<string>, ls0: seq<string>, x: string)
    requires InFirstAppearanceOrder(prev, ls0)
    ensures InFirstAppearanceOrder(prev, ls0 + [x])
  {
    var ls := ls0 + [x];
    forall y | y in ls0
      ensures y in ls && FirstLabelAt(ls, y) == FirstLabelAt(ls0, y)
    {
      FirstLabelPrefix(ls0, [x], y);
    }
    forall i | 0 <= i < |prev|
      ensures prev[i] in ls
    {
      assert prev[i] in ls0;
    }
  }

  /** A label seen for the first time goes last in both lists, after every earlier first appearance. */
  lemma OrderExtended(prev: seq<string>, ls0: seq<string>, x: string)
    requires InFirstAppearanceOrder(prev, ls0) && x !in ls0
    ensures InFirstAppearanceOrder(prev + [x], ls0 + [x])
  {
    var ls := ls0 + [x];
    var r := prev + [x];
    OrderKept(prev, ls0, x);
    forall y | y in ls0
      ensures y in ls && FirstLabelAt(ls, y) == FirstLabelAt(ls0, y) < |ls0|
    {
      FirstLabelPrefix(ls0, [x], y);
    }
    assert FirstLabelAt(ls, x) == |ls0|;
    forall i | 0 <= i < |r|
      ensures r[i] in ls
    {
      if i < |prev| {
        assert r[i] == prev[i];
      }
    }
    forall i, j | 0 <= i < j < |r| && r[i] in ls && r[j] in ls
      ensures FirstLabelAt(ls, r[i]) < FirstLabelAt(ls, r[j])
    {
      assert r[i] == prev[i] && prev[i] in ls0;
      if j < |prev| {
        assert r[j] == prev[j];
      }
    }
  }

  lemma {:induction false} FirstLabelPrefix(a: seq<string>, b: seq<string>, x: string)
    requires x in a
    ensures x in a + b && FirstLabelAt(a + b, x) == FirstLabelAt(a, x)
    decreases |a|
  {
    if a[0] != x {
      assert (a + b)[1..] == a[1..] + b;
      FirstLabelPrefix(a[1..], b, x);
    }
  }

  /** The count `N` of an `N others` match that starts right at `s`. */
  function OthersHere(s: string): Option<nat> {
    var n := LeadingDigitCount(s);
    if n > 0 && SpacedOther(s[n..]) then Some(DigitsValue(s[..n])) else None
  }

  /** The `\s+others?` part: at least one space, then `other`. */
  predicate SpacedOther(q: string) {
    var w := LeadingSpaceCount(q);
    w > 0 && StartsWith(q[w..], "other")
  }

  /** `_OTHERS_RE.search(text)` with `(\d+)\s+others?`, as the number it captures. */
  function OthersCount(s: string): Option<nat>
    decreases |s|
  {
    var here := OthersHere(s);
    if here.Some? then here
    else if s == [] then None
    else OthersCount(s[1..])
  }

  /** `reaction_count`: the named users, plus N when the summary says "N others". */
  function ReactionCount(bar: Option<ReactionBar>): nat {
    var named := if bar.Some? then |bar.value.namedUsers| else 0;
    var text := if bar.Some? then bar.value.linkText else "";
    match OthersCount(text)
    case Some(n) => n + named
    case None => named
  }

  /** "N others" (or "N other") at the start of the summary adds N. */
  lemma OthersCountReads(n: nat, spaces: string, tail: string)
    requires spaces != [] && forall i :: 0 <= i < |spaces| ==> IsSpace(spaces[i])
    ensures OthersCount(NatToString(n) + spaces + "other" + tail) == Some(n)
  {
    var rest := "other" + tail;
    assert rest[..5] == "other";
    OthersHereReads(NatToString(n), spaces, rest);
    assert NatToString(n) + spaces + "other" + tail == NatToString(n) + spaces + rest;
    NatToStringValue(n);
  }

  lemma OthersHereReads(d: string, spaces: string, rest: string)
    requires d != [] && AllDigits(d)
    requires spaces != [] && forall i :: 0 <= i < |spaces| ==> IsSpace(spaces[i])
    requires StartsWith(rest, "other")
    ensures OthersHere(d + spaces + rest) == Some(DigitsValue(d))
  {
    var q := spaces + rest;
    ConcatAssoc(d, spaces, rest);
    SpacedOtherReads(spaces, rest);
    DigitRunLength(d, q);
    SplitOfConcat(d, q);
  }

  lemma SpacedOtherReads(spaces: string, rest: string)
    requires spaces != [] && forall i :: 0 <= i < |spaces| ==> IsSpace(spaces[i])
    requires StartsWith(rest, "other")
    ensures SpacedOther(spaces + rest)
  {
    assert rest[0] == 'o';
    SpaceRunLength(spaces, rest);
    SplitOfConcat(spaces, rest);
  }

  /** A summary with no digit in it adds nothing. */
  lemma {:induction false} OthersCountNeedsDigits(s: string)
    requires forall i :: 0 <= i < |s| ==> !IsDigit(s[i])
    ensures OthersCount(s) == None
    decreases |s|
  {
    if s != [] {
      OthersCountNeedsDigits(s[1..]);
    }
  }

  /**
   * "N others" after a lead-in that holds no match of its own and does not
   * end in a digit adds N: `search` finds the first match, and that is it.
   */
  lemma OthersCountAfter(p: string, n: nat, spaces: string, tail: string)
    requires OthersCount(p) == None && (p == [] || !IsDigit(p[|p| - 1]))
    requires spaces != [] && forall i :: 0 <= i < |spaces| ==> IsSpace(spaces[i])
    ensures OthersCount(p + NatToString(n) + spaces + "other" + tail) == Some(n)
  {
    var rest := NatToString(n) + spaces + "other" + tail;
    assert p + NatToString(n) + spaces + "other" + tail == p + rest;
    assert rest[0] == NatToString(n)[0];
    OthersCountSkip(p, rest);
    OthersCountReads(n, spaces, tail);
  }

  /** A lead-in with no match that does not end in a digit, before a digit, is skipped by the search. */
  lemma {:induction false} OthersCountSkip(p: string, rest: string)
    requires OthersCount(p) == None && (p == [] || !IsDigit(p[|p| - 1]))
    requires rest != [] && IsDigit(rest[0])
    ensures OthersCount(p + rest) == OthersCount(rest)
    decreases |p|
  {
    if p == [] {
      assert p + rest == rest;
    } else {
      OthersHereExtend(p, rest);
      assert (p + rest)[1..] == p[1..] + rest;
      assert p[1..] == [] || p[1..][|p| - 2] == p[|p| - 1];
      OthersCountSkip(p[1..], rest);
    }
  }

  /** No match at the start of a lead-in stays no match when a digit follows it. */
  lemma OthersHereExtend(p: string, rest: string)
    requires p != [] && !IsDigit(p[|p| - 1]) && OthersHere(p) == None
    requires rest != [] && IsDigit(rest[0])
    ensures OthersHere(p + rest) == None
  {
    var n := LeadingDigitCount(p);
    DigitRunStops(p);
    DigitCountExtend(p, rest);
    if n > 0 {
      assert (p + rest)[n..] == p[n..] + rest;
      SpacedOtherExtend(p[n..], rest);
    }
  }

  /** Spaces then `other` do not follow a digit run in `q + rest` when they do not in `q`. */
  lemma SpacedOtherExtend(q: string, rest: string)
    requires rest != [] && IsDigit(rest[0])
    requires !SpacedOther(q)
    ensures !SpacedOther(q + rest)
  {
    assert !IsSpace(rest[0]);
    SpaceCountExtend(q, rest);
    var w := LeadingSpaceCount(q);
    if w > 0 {
      assert (q + rest)[w..] == q[w..] + rest;
      OtherNotAcross(q[w..], rest);
    }
  }

  /** `other` does not begin a string that a digit interrupts before it could end. */
  lemma OtherNotAcross(u: string, rest: string)
    requires !StartsWith(u, "other") && rest != [] && IsDigit(rest[0])
    ensures !StartsWith(u + rest, "other")
  {
    if |u| >= 5 {
      assert (u + rest)[..5] == u[..5];
    } else {
      assert (u + rest)[|u|] == rest[0];
      NotPrefixAt(u + rest, "other", |u|);
    }
  }

  /** The digit run of a string that ends in a non-digit stops inside it. */
  lemma {:induction false} DigitRunStops(p: string)
    requires p != [] && !IsDigit(p[|p| - 1])
    ensures LeadingDigitCount(p) < |p|
    decreases |p|
  {
    if IsDigit(p[0]) {
      assert p[1..][|p| - 2] == p[|p| - 1];
      DigitRunStops(p[1..]);
    }
  }

  /** A digit run that stops inside `a` is not lengthened by what follows `a`. */
  lemma {:induction false} DigitCountExtend(a: string, b: string)
    requires LeadingDigitCount(a) < |a|
    ensures LeadingDigitCount(a + b) == LeadingDigitCount(a)
    decreases |a|
  {
    assert (a + b)[0] == a[0];
    if IsDigit(a[0]) {
      assert (a + b)[1..] == a[1..] + b;
      DigitCountExtend(a[1..], b);
    }
  }

  // ---------------------------------------------------------------------
  // Posts
  // ---------------------------------------------------------------------

  /** `int(time_el.attrib.get("data-timestamp", 0))`, or 0 without a time element. */
  function Timestamp(time: Option<TimeElement>): Result<int, Failure> {
    if time.None? || time.value.dataTimestamp.None? then Ok(0)
    else
      var literal := time.value.dataTimestamp.value;
      match ParseInt(literal)
      case Some(v) => Ok(v)
      case None => Err(ValueError(literal))
  }

  /** `parse_post(article)`. */
  function ParsePost(eng: Engine, a: Article): Result<PostData, Failure> {
    var ts := Timestamp(a.time);
    if ts.Err? then Err(ts.error) else Ok(PostFields(eng, a, ts.value))
  }

  /** The record `parse_post` builds once the timestamp has been read. */
  function PostFields(eng: Engine, a: Article, timestamp: int): PostData {
    var bodyHtml := if a.body.Some? then Some(a.body.value.html) else None;
    PostData(
      postId := PostId(a.dataContent),
      postUrl := if a.permalink != "" then BaseUrl + a.permalink else "",
      datetime := if a.time.Some? then a.time.value.datetime else "",
      timestamp := timestamp,
      username := a.dataAuthor,
      userId := UserId(a.userLink),
      userUrl := if a.userLink != "" then BaseUrl + a.userLink else "",
      userTitle := Strip(a.userTitle),
      userBanner := a.userBanner,
      avatarUrl := a.avatarSrc,
      contentText := ContentWithQuotes(eng.nfc, eng.textNodes, bodyHtml, a.quoteBlocks),
      contentHtml := if a.body.Some? then a.body.value.html else "",
      images := if a.body.Some? then Keep(a.body.value.imageSrcs, IsContentImage) else [],
      links := if a.body.Some? then Keep(a.body.value.linkHrefs, NonEmpty) else [],
      reactionTypes := if a.reactionBar.Some? then ReactionTypes(a.reactionBar.value.icons) else [],
      reactionCount := ReactionCount(a.reactionBar))
  }

  /** A post fails to parse exactly when its `data-timestamp` is not an integer literal. */
  lemma ParsePostFailsOnlyOnTimestamp(eng: Engine, a: Article)
    ensures ParsePost(eng, a).Err? <==>
      a.time.Some? && a.time.value.dataTimestamp.Some? && ParseInt(a.time.value.dataTimestamp.value).None?
    ensures ParsePost(eng, a).Err? ==> ParsePost(eng, a).error == ValueError(a.time.value.dataTimestamp.value)
  {
  }

  /** The text of a parsed post is normalized, and empty when the post has no body. */
  lemma ParsePostContent(eng: Engine, a: Article)
    requires ParsePost(eng, a).Ok?
    ensures Normalized(ParsePost(eng, a).value.contentText)
    ensures a.body.None? ==> ParsePost(eng, a).value.contentText == "" && ParsePost(eng, a).value.contentHtml == ""
  {
    var bodyHtml := if a.body.Some? then Some(a.body.value.html) else None;
    ContentIsNormalized(eng, bodyHtml, a.quoteBlocks);
  }

  /** The images of a parsed post are the body's content images, in order. */
  lemma ParsePostImages(eng: Engine, a: Article)
    requires ParsePost(eng, a).Ok?
    ensures var images := ParsePost(eng, a).value.images;
      (a.body.None? ==> images == [])
      && (a.body.Some? ==>
            SubsequenceOf(images, a.body.value.imageSrcs)
            && (forall x :: x in images <==> x in a.body.value.imageSrcs && IsContentImage(x))
            && forall x :: multiset(images)[x] == if IsContentImage(x) then multiset(a.body.value.imageSrcs)[x] else 0)
  {
  }

  /** The reaction types of a parsed post are distinct non-empty labels, and the count includes every named user. */
  lemma ParsePostReactions(eng: Engine, a: Article)
    requires ParsePost(eng, a).Ok?
    ensures DistinctNonEmpty(ParsePost(eng, a).value.reactionTypes)
    ensures a.reactionBar.None? ==>
      ParsePost(eng, a).value.reactionTypes == [] && ParsePost(eng, a).value.reactionCount == 0
    ensures a.reactionBar.Some? ==>
      ParsePost(eng, a).value.reactionCount >= |a.reactionBar.value.namedUsers|
  {
    if a.reactionBar.Some? {
      ReactionTypesDistinct(a.reactionBar.value.icons);
    }
    ReactionCountCoversNamed(a.reactionBar);
  }

  /**
   * The count of a parsed post with a reactions bar: the named users plus the
   * first "N others" of the summary, or the named users alone when it has none.
   */
  lemma ParsePostReactionCount(eng: Engine, a: Article, p: string, n: nat, spaces: string, tail: string)
    requires ParsePost(eng, a).Ok? && a.reactionBar.Some?
    requires OthersCount(p) == None && (p == [] || !IsDigit(p[|p| - 1]))
    requires spaces != [] && forall i :: 0 <= i < |spaces| ==> IsSpace(spaces[i])
    ensures var bar := a.reactionBar.value;
      bar.linkText == p + NatToString(n) + spaces + "other" + tail ==>
        ParsePost(eng, a).value.reactionCount == |bar.namedUsers| + n
    ensures var bar := a.reactionBar.value;
      OthersCount(bar.linkText) == None ==> ParsePost(eng, a).value.reactionCount == |bar.namedUsers|
  {
    OthersCountAfter(p, n, spaces, tail);
  }

  /** Without a reactions bar the count is 0; with one it is at least the number of named users. */
  lemma ReactionCountCoversNamed(bar: Option<ReactionBar>)
    ensures bar.None? ==> ReactionCount(bar) == 0
    ensures bar.Some? ==> ReactionCount(bar) >= |bar.value.namedUsers|
  {
    if bar.None? {
      OthersCountNeedsDigits("");
    }
  }

  lemma ContentIsNormalized(eng: Engine, body: Option<string>, blocks: seq<QuoteBlock>)
    ensures Normalized(ContentWithQuotes(eng.nfc, eng.textNodes, body, blocks))
  {
    if body.None? {
      assert ContentWithQuotes(eng.nfc, eng.textNodes, body, blocks) == "";
    }
  }

  // ---------------------------------------------------------------------
  // Pages
  // ---------------------------------------------------------------------

  /** `parse_pagination(sel)`: (current page, total pages). */
  function ParsePagination(nav: Option<PageNav>): (int, int) {
    if nav.None? then (1, 1)
    else
      var current := match ParseInt(nav.value.currentLabel) case Some(c) => c case None => 1;
      var total := match ParseInt(nav.value.lastLabel) case Some(t) => t case None => current;
      (current, total)
  }

  /** Labels that are the decimal spelling of two numbers read back as those numbers; unreadable labels fall back. */
  lemma PaginationRules(c: int, t: int, bad: string)
    requires ParseInt(bad).None?
    ensures ParsePagination(None) == (1, 1)
    ensures ParsePagination(Some(PageNav(IntToString(c), IntToString(t)))) == (c, t)
    ensures ParsePagination(Some(PageNav(bad, IntToString(t)))) == (1, t)
    ensures ParsePagination(Some(PageNav(IntToString(c), bad))) == (c, c)
    ensures ParsePagination(Some(PageNav(bad, bad))) == (1, 1)
  {
    ParseIntRoundTrip(c);
    ParseIntRoundTrip(t);
  }

  /** `[parse_post(a) for a in articles]`: one post per article, in order, unless one fails. */
  function ParsePosts(eng: Engine, articles: seq<Article>): (r: Result<seq<PostData>, Failure>)
    ensures r.Ok? ==> (|r.value| == |articles|
      && forall i :: 0 <= i < |articles| ==> ParsePost(eng, articles[i]) == Ok(r.value[i]))
    decreases |articles|
  {
    if articles == [] then Ok([])
    else
      var first := ParsePost(eng, articles[0]);
      if first.Err? then Err(first.error)
      else
        var rest := ParsePosts(eng, articles[1..]);
        if rest.Err? then Err(rest.error) else Ok([first.value] + rest.value)
  }

  /** A failure is the failure of the first article that does not parse. */
  lemma {:induction false} ParsePostsFirstFailure(eng: Engine, articles: seq<Article>) returns (i: nat)
    requires ParsePosts(eng, articles).Err?
    ensures i < |articles| && ParsePost(eng, articles[i]) == Err(ParsePosts(eng, articles).error)
    ensures forall j :: 0 <= j < i ==> ParsePost(eng, articles[j]).Ok?
    decreases |articles|
  {
    if ParsePost(eng, articles[0]).Err? {
      i := 0;
    } else {
      var k := ParsePostsFirstFailure(eng, articles[1..]);
      i := k + 1;
      forall j | 0 <= j < i
        ensures ParsePost(eng, articles[j]).Ok?
      {
        if j > 0 {
          assert articles[j] == articles[1..][j - 1];
        }
      }
    }
  }

  /** `parse_thread_page(html, thread_url=…)`. */
  function ParseThreadPage(eng: Engine, html: string, threadUrl: string): Result<PageData, Failure> {
    var doc := eng.select(html);
    if doc.articles == [] then Err(Raised(PageParsingError(threadUrl, "No posts found on page")))
    else
      var (current, total) := ParsePagination(doc.pageNav);
      match ParsePosts(eng, doc.articles)
      case Err(e) => Err(e)
      case Ok(posts) => Ok(PageData(current, total, posts, threadUrl))
  }

  /**
   * A page with no article is a parse error for its url; otherwise the page
   * carries one post per article in document order, its pagination and url.
   */
  lemma ParseThreadPageGuarantees(eng: Engine, html: string, threadUrl: string)
    ensures var r := ParseThreadPage(eng, html, threadUrl);
      var doc := eng.select(html);
      (r == Err(Raised(PageParsingError(threadUrl, "No posts found on page"))) <==> doc.articles == [])
      && (r.Ok? ==>
        r.value.threadUrl == threadUrl
        && (r.value.currentPage, r.value.totalPages) == ParsePagination(doc.pageNav)
        && |r.value.posts| == |doc.articles|
        && forall i :: 0 <= i < |doc.articles| ==> ParsePost(eng, doc.articles[i]) == Ok(r.value.posts[i]))
      && (r.Err? && doc.articles != [] ==> r.error.ValueError?)
  {
    var doc := eng.select(html);
    if doc.articles != [] {
      var ps := ParsePosts(eng, doc.articles);
      if ps.Err? {
        var i := ParsePostsFirstFailure(eng, doc.articles);
        ParsePostFailsOnlyOnTimestamp(eng, doc.articles[i]);
      }
    }
  }
}
