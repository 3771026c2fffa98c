/**
 * The crawler (VozCrawler): page urls, the cache-first fetch with its
 * throttle and status handling, single pages, page ranges and the cache
 * management calls. The server is a function from url to reply, the wall
 * clock an integer the crawler carries, and each reply says how long it
 * took to arrive.
 */
module Crawler {
  import opened Wrappers
  import opened Text
  import opened Errors
  import opened Cache
  import opened Parser

  // ---------------------------------------------------------------------
  // Page urls
  // ---------------------------------------------------------------------

  /** `re.sub(r"/page-\d+/?$", "", u)` for a `u` without trailing slash: drop one `/page-N` suffix. */
  function StripPageSuffix(u: string): string {
    var n := TrailingDigitCount(u);
    if 0 < n && n + 6 <= |u| && u[|u| - n - 6..|u| - n] == "/page-" then u[..|u| - n - 6] else u
  }

  /** The thread url with its trailing slashes and then one page suffix removed. */
  function PageBase(threadUrl: string): string {
    StripPageSuffix(RStripChar(threadUrl, '/'))
  }

  /** `_build_page_url(thread_url, page)`. */
  function BuildPageUrl(threadUrl: string, page: int): string {
    if page <= 1 then PageBase(threadUrl) + "/"
    else PageBase(threadUrl) + "/page-" + IntToString(page)
  }

  /** A thread url already in base form: no trailing slash and no page suffix. */
  predicate IsBase(base: string) {
    RStripChar(base, '/') == base && StripPageSuffix(base) == base
  }

  /** The page number a page url names: the `/page-N` suffix, or 1 without one. */
  function PageNumber(url: string): int {
    var u := RStripChar(url, '/');
    var n := TrailingDigitCount(u);
    if StripPageSuffix(u) != u then DigitsValue(u[|u| - n..]) else 1
  }

  /** A base url followed by `/page-D` loses exactly that suffix. */
  lemma StripSuffixOf(base: string, d: string)
    requires d != [] && AllDigits(d)
    ensures TrailingDigitCount(base + "/page-" + d) == |d|
    ensures StripPageSuffix(base + "/page-" + d) == base
  {
    var head := base + "/page-";
    var u := head + d;
    TrailingDigitRun(head, d);
    assert u[|u| - |d| - 6..|u| - |d|] == "/page-";
    assert u[..|u| - |d| - 6] == base;
  }

  /** The url of a base with a page suffix, and any trailing slashes, has that base. */
  lemma PageBaseOfSuffixed(base: string, d: string, slashes: string)
    requires d != [] && AllDigits(d)
    requires forall k :: 0 <= k < |slashes| ==> slashes[k] == '/'
    ensures RStripChar(base + "/page-" + d + slashes, '/') == base + "/page-" + d
    ensures PageBase(base + "/page-" + d + slashes) == base
  {
    var u := base + "/page-" + d;
    RStripAppended(u, slashes, '/');
    assert u[|u| - 1] == d[|d| - 1];
    StripSuffixOf(base, d);
  }

  /**
   * Building from a url that already names a page (with or without trailing
   * slashes) gives the same url as building from its base.
   */
  lemma BuildIgnoresOldSuffix(base: string, k: nat, slashes: string, page: int)
    requires IsBase(base)
    requires forall i :: 0 <= i < |slashes| ==> slashes[i] == '/'
    ensures BuildPageUrl(base + "/page-" + NatToString(k) + slashes, page) == BuildPageUrl(base, page)
    ensures BuildPageUrl(base + slashes, page) == BuildPageUrl(base, page)
  {
    PageBaseOfSuffixed(base, NatToString(k), slashes);
    RStripAppended(base, slashes, '/');
  }

  /** Round trip: the url built for a page has the thread's base and names that page (page 1 for any page up to 1). */
  lemma BuildPageUrlRoundTrip(base: string, page: int)
    requires IsBase(base)
    ensures PageBase(BuildPageUrl(base, page)) == base
    ensures PageNumber(BuildPageUrl(base, page)) == if page <= 1 then 1 else page
  {
    if page <= 1 {
      RStripAppended(base, "/", '/');
    } else {
      var d := NatToString(page);
      PageBaseOfSuffixed(base, d, "");
      assert base + "/page-" + d + "" == base + "/page-" + d;
      var u := base + "/page-" + d;
      assert u[|u| - |d|..] == d;
      NatToStringValue(page);
    }
  }

  /** The first page's url ends with a slash; later pages' urls end with their number. */
  lemma BuildPageUrlShape(threadUrl: string, page: int)
    ensures page <= 1 ==> EndsWith(BuildPageUrl(threadUrl, page), "/")
    ensures page > 1 ==> EndsWith(BuildPageUrl(threadUrl, page), "/page-" + NatToString(page))
  {
    var b := PageBase(threadUrl);
    if page <= 1 {
      var u := b + "/";
      assert u[|u| - 1..] == "/";
    } else {
      var sfx := "/page-" + NatToString(page);
      var u := b + "/page-" + NatToString(page);
      assert u == b + sfx;
      assert u[|u| - |sfx|..] == sfx;
    }
  }

  // ---------------------------------------------------------------------
  // Fetching
  // ---------------------------------------------------------------------

  /** Which `requests` exception ended a request: a timeout or connection error, or any other. */
  datatype TransportFault = ConnectionFailed | RequestFailed

  /** What the server does with a GET: fail in transport, or answer; `took` is how long it took. */
  datatype Reply =
    | TransportError(fault: TransportFault, detail: string, took: nat)
    | Response(status: int, text: string, took: nat)

  /** The text of the NetworkError a transport failure becomes. */
  function TransportMessage(fault: TransportFault, url: string, detail: string): string {
    match fault
    case ConnectionFailed => "Connection failed for " + url + ": " + detail
    case RequestFailed => "Request error for " + url + ": " + detail
  }

  /** The error a response status raises, checked in the order 404, 403, then any status of 400 or more. */
  function StatusError(status: int, url: string): Option<CrawlError> {
    if status == 404 then Some(ThreadNotFoundError(url))
    else if status == 403 then Some(CloudflareBlockedError(url))
    else if status >= 400 then Some(NewHttpError(status, url, ""))
    else None
  }

  /** Exactly the statuses of 400 and above fail; each failure names the url and, for the HTTP kinds, the status. */
  lemma StatusErrorKinds(status: int, url: string)
    ensures StatusError(status, url).None? <==> status < 400
    ensures status == 404 ==> StatusError(status, url) == Some(ThreadNotFoundError(url))
    ensures status == 403 ==> StatusError(status, url) == Some(CloudflareBlockedError(url))
    ensures StatusError(status, url).Some? ==> StatusError(status, url).value.Url() == url
    ensures StatusError(status, url).Some? && status != 404 ==>
      StatusError(status, url).value.IsHttpError() && StatusError(status, url).value.StatusCode() == status
    ensures status >= 400 && status != 403 && status != 404 ==>
      StatusError(status, url).value.Message() == DefaultHttpMessage(status, url)
  {
  }

  /** `_throttle`: how long to sleep so that requests are at least `delay` apart. */
  function ThrottleWait(delay: int, lastRequestAt: int, now: int): nat {
    if delay <= 0 then 0
    else if now - lastRequestAt < delay then delay - (now - lastRequestAt)
    else 0
  }

  /** After the wait the last request is at least `delay` old, and the wait is no longer than that needs. */
  lemma ThrottleWaitSpacing(delay: int, lastRequestAt: int, now: int)
    ensures delay <= 0 ==> ThrottleWait(delay, lastRequestAt, now) == 0
    ensures delay > 0 ==> now + ThrottleWait(delay, lastRequestAt, now) - lastRequestAt >= delay
    ensures ThrottleWait(delay, lastRequestAt, now) > 0 ==>
      now + ThrottleWait(delay, lastRequestAt, now) - lastRequestAt == delay
  {
  }

  /** What stays fixed while crawling: the cache settings, the delay, the server and the html engine. */
  datatype Setup = Setup(
    keyOf: string -> Slot,
    ttl: int,
    enabled: bool,
    writeFault: Option<WriteFault>,
    delay: int,
    server: string -> Reply,
    engine: Engine)

  /** What changes while crawling: the cache directory, the clock and the time of the last request. */
  datatype CrawlState = CrawlState(store: Store, clock: int, lastRequestAt: int)

  /** `fetch_html(url, use_cache=useCache)`: the result and the state afterwards. */
  function Fetch(c: Setup, s: CrawlState, url: string, useCache: bool): (Result<string, CrawlError>, CrawlState) {
    var consult := useCache && c.enabled;
    var looked := if consult then Read(s.store, c.ttl, c.keyOf(url), url, s.clock) else Ok(None);
    var store := if consult then AfterRead(s.store, c.ttl, c.keyOf(url), s.clock) else s.store;
    if looked.Err? then (Err(looked.error), s.(store := store))
    else if looked.value.Some? then (Ok(looked.value.value), s.(store := store))
    else Download(c, s.(store := store), url)
  }

  /** The request half of `fetch_html`: throttle, send, classify the status, write the cache. */
  function Download(c: Setup, s: CrawlState, url: string): (Result<string, CrawlError>, CrawlState) {
    var sentAt := s.clock + ThrottleWait(c.delay, s.lastRequestAt, s.clock);
    match c.server(url)
    case TransportError(fault, detail, took) =>
      (Err(NetworkError(TransportMessage(fault, url, detail))), CrawlState(s.store, sentAt + took, s.lastRequestAt))
    case Response(status, text, took) =>
      var at := sentAt + took;
      var answered := CrawlState(s.store, at, at);
      var failure := StatusError(status, url);
      if failure.Some? then (Err(failure.value), answered)
      else if !c.enabled then (Ok(text), answered)
      else if c.writeFault.Some? then
        (Err(CacheWriteError("Failed to write cache for " + url + ": " + c.writeFault.value.error)),
         answered.(store := AfterFailedWrite(s.store, c.keyOf(url), c.writeFault.value)))
      else (Ok(text), answered.(store := s.store[c.keyOf(url) := Written(url, text, at)]))
  }

  /** A cache hit is returned as is: no request, no change to the clock or the last request time. */
  lemma FetchCacheHit(c: Setup, s: CrawlState, url: string, html: string)
    requires c.enabled && Read(s.store, c.ttl, c.keyOf(url), url, s.clock) == Ok(Some(html))
    ensures Fetch(c, s, url, true) == (Ok(html), s)
  {
  }

  /** A transport failure is a NetworkError; the last request time stays and nothing is written to the cache. */
  lemma FetchTransportFailure(c: Setup, s: CrawlState, url: string, useCache: bool)
    requires !(useCache && c.enabled) || Read(s.store, c.ttl, c.keyOf(url), url, s.clock) == Ok(None)
    requires c.server(url).TransportError?
    ensures Fetch(c, s, url, useCache).0 == Err(NetworkError(TransportMessage(c.server(url).fault, url, c.server(url).detail)))
    ensures Fetch(c, s, url, useCache).1.lastRequestAt == s.lastRequestAt
    ensures Fetch(c, s, url, useCache).1.store ==
      if useCache && c.enabled then AfterRead(s.store, c.ttl, c.keyOf(url), s.clock) else s.store
  {
  }

  /**
   * A response after a miss: a failing status raises its error and writes
   * nothing; any other status returns the body and (on an enabled cache)
   * stores it under the url's slot, stamped with the arrival time, which is
   * also the new last request time.
   */
  lemma FetchResponse(c: Setup, s: CrawlState, url: string, useCache: bool)
    requires !(useCache && c.enabled) || Read(s.store, c.ttl, c.keyOf(url), url, s.clock) == Ok(None)
    requires c.server(url).Response?
    ensures var (r, s') := Fetch(c, s, url, useCache);
      var reply := c.server(url);
      var before := if useCache && c.enabled then AfterRead(s.store, c.ttl, c.keyOf(url), s.clock) else s.store;
      s'.lastRequestAt == s'.clock
      && s'.clock == s.clock + ThrottleWait(c.delay, s.lastRequestAt, s.clock) + reply.took
      && (reply.status >= 400 ==> r == Err(StatusError(reply.status, url).value) && s'.store == before)
      && (reply.status < 400 && c.enabled && c.writeFault.None? ==>
            r == Ok(reply.text) && s'.store == before[c.keyOf(url) := Written(url, reply.text, s'.clock)])
      && (reply.status < 400 && c.enabled && c.writeFault.Some? ==>
            r == Err(CacheWriteError("Failed to write cache for " + url + ": " + c.writeFault.value.error))
            && s'.store == AfterFailedWrite(before, c.keyOf(url), c.writeFault.value))
      && (reply.status < 400 && !c.enabled ==> r == Ok(reply.text) && s'.store == before)
  {
    StatusErrorKinds(c.server(url).status, url);
  }

  /** A fetch never goes back in time, and the last request is never later than the clock. */
  lemma FetchKeepsClockOrder(c: Setup, s: CrawlState, url: string, useCache: bool)
    requires s.lastRequestAt <= s.clock
    ensures var s' := Fetch(c, s, url, useCache).1;
      s.clock <= s'.clock && s.lastRequestAt <= s'.lastRequestAt <= s'.clock
  {
  }

  /** A fetch fails only with a network, HTTP, not-found or cache error. */
  lemma FetchErrorKinds(c: Setup, s: CrawlState, url: string, useCache: bool)
    ensures var r := Fetch(c, s, url, useCache).0;
      r.Err? ==> r.error.NetworkError? || r.error.IsHttpError() || r.error.ThreadNotFoundError? || r.error.IsCacheError()
  {
  }

  // ---------------------------------------------------------------------
  // Pages
  // ---------------------------------------------------------------------

  /** `crawl_page(thread_url, page)`: fetch, parse against the page url, and check the page against the total. */
  function CrawlOne(c: Setup, s: CrawlState, threadUrl: string, page: int): (Result<PageData, Failure>, CrawlState) {
    var url := BuildPageUrl(threadUrl, page);
    var (fetched, s') := Fetch(c, s, url, true);
    if fetched.Err? then (Err(Raised(fetched.error)), s')
    else match ParseThreadPage(c.engine, fetched.value, url)
      case Err(e) => (Err(e), s')
      case Ok(pd) =>
        if page > pd.totalPages then (Err(Raised(PageOutOfRangeError(page, pd.totalPages, threadUrl))), s')
        else (Ok(pd), s')
  }

  /**
   * `crawl_page` fails with PageOutOfRangeError exactly when the page
   * fetched and parsed and its number exceeds the parsed total; a page it
   * returns is the parsed page, whose url is the page url.
   */
  lemma CrawlOneRange(c: Setup, s: CrawlState, threadUrl: string, page: int)
    ensures var url := BuildPageUrl(threadUrl, page);
      var fetched := Fetch(c, s, url, true).0;
      var r := CrawlOne(c, s, threadUrl, page).0;
      (r.Err? && r.error.Raised? && r.error.error.PageOutOfRangeError?)
        <==> (fetched.Ok? && ParseThreadPage(c.engine, fetched.value, url).Ok?
              && page > ParseThreadPage(c.engine, fetched.value, url).value.totalPages)
    ensures var url := BuildPageUrl(threadUrl, page);
      var r := CrawlOne(c, s, threadUrl, page).0;
      r.Ok? ==>
        r == ParseThreadPage(c.engine, Fetch(c, s, url, true).0.value, url)
        && page <= r.value.totalPages && r.value.threadUrl == url
    ensures var r := CrawlOne(c, s, threadUrl, page).0;
      r.Err? && r.error.Raised? && r.error.error.PageOutOfRangeError? ==>
        r.error.error.page == page && r.error.error.url == threadUrl && page > r.error.error.maxPage
  {
    var url := BuildPageUrl(threadUrl, page);
    var fetched := Fetch(c, s, url, true).0;
    FetchErrorKinds(c, s, url, true);
    if fetched.Ok? {
      ParseThreadPageGuarantees(c.engine, fetched.value, url);
    }
  }

  /** A crawled page is the page asked for: its url is the page url and its number is within its total. */
  predicate IsPageOf(pd: PageData, threadUrl: string, page: int) {
    pd.threadUrl == BuildPageUrl(threadUrl, page) && page <= pd.totalPages
  }

  /** `IsPageOf` as a test of a page and the number it was asked for. */
  function IsPage(threadUrl: string): (PageData, int) -> bool {
    (pd, q) => IsPageOf(pd, threadUrl, q)
  }

  lemma CrawlOneIsPageOf(c: Setup, s: CrawlState, threadUrl: string, page: int)
    ensures CrawlOne(c, s, threadUrl, page).0.Ok? ==> IsPageOf(CrawlOne(c, s, threadUrl, page).0.value, threadUrl, page)
  {
    var url := BuildPageUrl(threadUrl, page);
    var fetched := Fetch(c, s, url, true).0;
    if fetched.Ok? {
      ParseThreadPageGuarantees(c.engine, fetched.value, url);
    }
  }

  /**
   * The last page of the range: `end_page` when it is given, else the
   * thread's `total_pages`, and never more than `total_pages`.
   */
  function LastPage(endPage: Option<int>, total: int): int {
    var last := endPage.GetOr(total);
    if last > total then total else last
  }

  /** One crawl step: the page crawled from a state, and the state after it. */
  type Step = (CrawlState, int) -> (Result<PageData, Failure>, CrawlState)

  /** `crawl_page` of the thread, as a step. */
  function PageStep(c: Setup, threadUrl: string): Step {
    (st: CrawlState, q: int) => CrawlOne(c, st, threadUrl, q)
  }

  /** The loop of `crawl_pages` from page `p` to `last`, appending to `done`; the first failure ends it. */
  function CrawlFrom(step: Step, s: CrawlState, p: int, last: int, done: seq<PageData>)
    : (Result<seq<PageData>, Failure>, CrawlState)
    decreases last - p + 1
  {
    if p > last then (Ok(done), s)
    else
      var (r, s') := step(s, p);
      if r.Err? then (Err(r.error), s')
      else CrawlFrom(step, s', p + 1, last, done + [r.value])
  }

  /** One turn of the loop: the step for page p, then the rest of the range. */
  lemma CrawlFromUnfold(step: Step, s: CrawlState, p: int, last: int, done: seq<PageData>)
    requires p <= last
    ensures step(s, p).0.Ok? ==>
      CrawlFrom(step, s, p, last, done) == CrawlFrom(step, step(s, p).1, p + 1, last, done + [step(s, p).0.value])
    ensures step(s, p).0.Err? ==> CrawlFrom(step, s, p, last, done) == (Err(step(s, p).0.error), step(s, p).1)
  {
  }

  /** `crawl_pages(thread_url, start_page, end_page)`. */
  function CrawlRange(c: Setup, s: CrawlState, threadUrl: string, start: int, endPage: Option<int>)
    : (Result<seq<PageData>, Failure>, CrawlState)
  {
    var (first, s') := CrawlOne(c, s, threadUrl, start);
    CrawlRest(PageStep(c, threadUrl), s', start, endPage, first)
  }

  /** What `crawl_pages` does once the start page has been crawled. */
  function CrawlRest(step: Step, s: CrawlState, start: int, endPage: Option<int>,
                     first: Result<PageData, Failure>): (Result<seq<PageData>, Failure>, CrawlState)
  {
    if first.Err? then (Err(first.error), s)
    else CrawlFrom(step, s, start + 1, LastPage(endPage, first.value.totalPages), [first.value])
  }

  /** How many pages a range from `start` holds: 1 + max(0, last − start). */
  function RangeLength(start: int, endPage: Option<int>, total: int): nat {
    var last := LastPage(endPage, total);
    1 + (if last > start then last - start else 0)
  }

  /** Every page a step returns satisfies `good` for the page number it was asked for. */
  ghost predicate StepsSatisfy(step: Step, good: (PageData, int) -> bool) {
    forall st, q :: step(st, q).0.Ok? ==> good(step(st, q).0.value, q)
  }

  lemma PageStepIsPages(c: Setup, threadUrl: string)
    ensures StepsSatisfy(PageStep(c, threadUrl), IsPage(threadUrl))
  {
    forall st, q | PageStep(c, threadUrl)(st, q).0.Ok?
      ensures IsPageOf(PageStep(c, threadUrl)(st, q).0.value, threadUrl, q)
    {
      CrawlOneIsPageOf(c, st, threadUrl, q);
    }
  }

  /** The pages `CrawlFrom` adds are the steps' pages for p, p+1, …, last, in order. */
  lemma {:induction false} CrawlFromPages(step: Step, good: (PageData, int) -> bool, s: CrawlState, p: int, last: int,
                                          done: seq<PageData>)
    requires StepsSatisfy(step, good)
    ensures CrawlFrom(step, s, p, last, done).0.Ok? ==>
      |CrawlFrom(step, s, p, last, done).0.value| == |done| + (if last >= p then last - p + 1 else 0)
    ensures CrawlFrom(step, s, p, last, done).0.Ok? ==>
      CrawlFrom(step, s, p, last, done).0.value[..|done|] == done
    ensures CrawlFrom(step, s, p, last, done).0.Ok? ==>
      forall i :: |done| <= i < |CrawlFrom(step, s, p, last, done).0.value| ==>
        good(CrawlFrom(step, s, p, last, done).0.value[i], p + (i - |done|))
    decreases last - p + 1
  {
    if p <= last {
      var (r, s') := step(s, p);
      if r.Ok? {
        var done' := done + [r.value];
        CrawlFromPages(step, good, s', p + 1, last, done');
        var rs := CrawlFrom(step, s', p + 1, last, done').0;
        assert CrawlFrom(step, s, p, last, done).0 == rs;
        if rs.Ok? {
          assert rs.value[..|done'|] == done';
          assert rs.value[..|done|] == done'[..|done|];
          forall i | |done| <= i < |rs.value|
            ensures good(rs.value[i], p + (i - |done|))
          {
            if i == |done| {
              assert rs.value[i] == done'[|done|] == r.value;
            } else {
              assert p + 1 + (i - |done'|) == p + (i - |done|);
            }
          }
        }
      }
    }
  }

  /**
   * `crawl_pages` returns the start page and then pages start+1 … last in
   * increasing order: 1 + max(0, last − start) pages, each the page url it
   * was asked for and none beyond its parsed total.
   */
  lemma CrawlRangePages(c: Setup, s: CrawlState, threadUrl: string, start: int, endPage: Option<int>)
    ensures CrawlRange(c, s, threadUrl, start, endPage).0.Ok? ==>
      CrawlOne(c, s, threadUrl, start).0.Ok?
      && |CrawlRange(c, s, threadUrl, start, endPage).0.value|
        == RangeLength(start, endPage, CrawlOne(c, s, threadUrl, start).0.value.totalPages)
      && CrawlRange(c, s, threadUrl, start, endPage).0.value[0] == CrawlOne(c, s, threadUrl, start).0.value
    ensures CrawlRange(c, s, threadUrl, start, endPage).0.Ok? ==>
      forall i :: 0 <= i < |CrawlRange(c, s, threadUrl, start, endPage).0.value| ==>
        IsPage(threadUrl)(CrawlRange(c, s, threadUrl, start, endPage).0.value[i], start + i)
  {
    var (first, s') := CrawlOne(c, s, threadUrl, start);
    CrawlOneIsPageOf(c, s, threadUrl, start);
    PageStepIsPages(c, threadUrl);
    CrawlRestPages(PageStep(c, threadUrl), IsPage(threadUrl), s', start, endPage, first);
  }

  /** After a good first page the loop returns that page, then one good page for each of start+1 … last. */
  lemma CrawlRestPages(step: Step, good: (PageData, int) -> bool, s: CrawlState, start: int, endPage: Option<int>,
                       first: Result<PageData, Failure>)
    requires StepsSatisfy(step, good) && (first.Ok? ==> good(first.value, start))
    ensures var rs := CrawlRest(step, s, start, endPage, first).0;
      rs.Ok? ==>
        first.Ok?
        && |rs.value| == RangeLength(start, endPage, first.value.totalPages)
        && rs.value[0] == first.value
        && forall i :: 0 <= i < |rs.value| ==> good(rs.value[i], start + i)
  {
    if first.Ok? {
      var last := LastPage(endPage, first.value.totalPages);
      CrawlFromPages(step, good, s, start + 1, last, [first.value]);
      var rs := CrawlFrom(step, s, start + 1, last, [first.value]).0;
      if rs.Ok? {
        assert rs.value[..1] == [first.value];
        assert rs.value[0] == rs.value[..1][0];
        forall i | 0 <= i < |rs.value|
          ensures good(rs.value[i], start + i)
        {
          if i > 0 {
            assert start + 1 + (i - 1) == start + i;
          }
        }
      }
    }
  }

  /** One row per post, in page order then post order, each with its page's current page number. */
  function Flatten(pages: seq<PageData>): seq<(PostData, int)>
    decreases |pages|
  {
    if pages == [] then []
    else
      var lastPage := pages[|pages| - 1];
      Flatten(pages[..|pages| - 1])
        + seq(|lastPage.posts|, k requires 0 <= k < |lastPage.posts| => (lastPage.posts[k], lastPage.currentPage))
  }

  /** The flattening loop of `pages_to_dataframe`: `row["page"] = page.current_page`. */
  method FlattenPages(pages: seq<PageData>) returns (rows: seq<(PostData, int)>)
    ensures rows == Flatten(pages)
  {
    rows := [];
    for i := 0 to |pages|
      invariant rows == Flatten(pages[..i])
    {
      ghost var before := rows;
      for k := 0 to |pages[i].posts|
        invariant rows == before + seq(k, j requires 0 <= j < k => (pages[i].posts[j], pages[i].currentPage))
      {
        rows := rows + [(pages[i].posts[k], pages[i].currentPage)];
      }
      assert pages[..i + 1][..i] == pages[..i];
    }
    assert pages[..|pages|] == pages;
  }

  /** Every post appears once, with its own page's number, and nothing else does. */
  lemma {:induction false} FlattenRows(pages: seq<PageData>)
    ensures |Flatten(pages)| == PostTotal(pages)
    ensures forall i, k :: 0 <= i < |pages| && 0 <= k < |pages[i].posts| ==>
      (pages[i].posts[k], pages[i].currentPage) in Flatten(pages)
    ensures forall row :: row in Flatten(pages) ==>
      exists i :: 0 <= i < |pages| && row.0 in pages[i].posts && row.1 == pages[i].currentPage
    decreases |pages|
  {
    if pages != [] {
      var init := pages[..|pages| - 1];
      var lastPage := pages[|pages| - 1];
      FlattenRows(init);
      var tail := seq(|lastPage.posts|, k requires 0 <= k < |lastPage.posts| => (lastPage.posts[k], lastPage.currentPage));
      assert Flatten(pages) == Flatten(init) + tail;
      forall i, k | 0 <= i < |pages| && 0 <= k < |pages[i].posts|
        ensures (pages[i].posts[k], pages[i].currentPage) in Flatten(pages)
      {
        if i < |init| {
          assert pages[i] == init[i];
        } else {
          assert tail[k] == (pages[i].posts[k], pages[i].currentPage);
        }
      }
      forall row | row in Flatten(pages)
        ensures exists i :: 0 <= i < |pages| && row.0 in pages[i].posts && row.1 == pages[i].currentPage
      {
        if row in Flatten(init) {
          var i :| 0 <= i < |init| && row.0 in init[i].posts && row.1 == init[i].currentPage;
          assert pages[i] == init[i];
        } else {
          assert row in tail;
          var k :| 0 <= k < |tail| && tail[k] == row;
          assert row.0 == lastPage.posts[k];
        }
      }
    }
  }

  /** How many posts the pages hold together. */
  function PostTotal(pages: seq<PageData>): nat
    decreases |pages|
  {
    if pages == [] then 0 else PostTotal(pages[..|pages| - 1]) + |pages[|pages| - 1].posts|
  }

  // ---------------------------------------------------------------------
  // The crawler object
  // ---------------------------------------------------------------------

  class VozCrawler {
    const cache: PageCache
    const delay: int
    /** The HTTP client's view of the server. */
    const server: string -> Reply
    /** The html engine `parse_thread_page` uses. */
    const engine: Engine
    /** `time.time()`. */
    var clock: int
    var lastRequestAt: int

    ghost predicate Valid()
      reads this, cache
    {
      cache.Valid() && lastRequestAt <= clock
    }

    function Settings(): Setup
      reads this, cache
    {
      Setup(cache.keyOf, cache.ttl, cache.enabled, cache.writeFault, delay, server, engine)
    }

    function State(): CrawlState
      reads this, cache
    {
      CrawlState(cache.store, clock, lastRequestAt)
    }

    /** A fresh crawler: its own cache, no request made yet (`_last_request_at` is 0). */
    constructor (keyOf: string -> Slot, ttl: int, enabled: bool, existing: Option<Store>, writeFault: Option<WriteFault>,
                 delay: int, server: string -> Reply, engine: Engine, startTime: nat)
      ensures Valid() && fresh(cache)
      ensures Settings() == Setup(keyOf, ttl, enabled, writeFault, delay, server, engine)
      ensures State() == CrawlState(existing.GetOr(map[]), startTime, 0)
    {
      cache := new PageCache(keyOf, ttl, enabled, existing, writeFault);
      this.delay := delay;
      this.server := server;
      this.engine := engine;
      clock := startTime;
      lastRequestAt := 0;
    }

    /** `fetch_html(url, use_cache=useCache)`. */
    method FetchHtml(url: string, useCache: bool) returns (r: Result<string, CrawlError>)
      requires Valid()
      modifies this, cache`store
      ensures Valid()
      ensures (r, State()) == Fetch(Settings(), old(State()), url, useCache)
    {
      if useCache {
        var cached := cache.Get(url, clock);
        if cached.Err? {
          return Err(cached.error);
        }
        if cached.value.Some? {
          return Ok(cached.value.value);
        }
      }
      r := DownloadHtml(url);
    }

    /** The request half of `fetch_html`, after a cache miss or with the cache skipped. */
    method DownloadHtml(url: string) returns (r: Result<string, CrawlError>)
      requires Valid()
      modifies this, cache`store
      ensures Valid()
      ensures (r, State()) == Download(Settings(), old(State()), url)
    {
      clock := clock + ThrottleWait(delay, lastRequestAt, clock);
      var reply := server(url);
      clock := clock + reply.took;
      if reply.TransportError? {
        return Err(NetworkError(TransportMessage(reply.fault, url, reply.detail)));
      }
      lastRequestAt := clock;
      if reply.status == 404 {
        return Err(ThreadNotFoundError(url));
      }
      if reply.status == 403 {
        return Err(CloudflareBlockedError(url));
      }
      if reply.status >= 400 {
        return Err(NewHttpError(reply.status, url, ""));
      }
      var written := cache.Put(url, reply.text, clock);
      if written.Err? {
        return Err(written.error);
      }
      return Ok(reply.text);
    }

    /** `crawl_page(thread_url, page)`. */
    method CrawlPage(threadUrl: string, page: int) returns (r: Result<PageData, Failure>)
      requires Valid()
      modifies this, cache`store
      ensures Valid()
      ensures (r, State()) == CrawlOne(Settings(), old(State()), threadUrl, page)
    {
      var url := BuildPageUrl(threadUrl, page);
      var html := FetchHtml(url, true);
      if html.Err? {
        return Err(Raised(html.error));
      }
      var parsed := ParseThreadPage(engine, html.value, url);
      if parsed.Err? {
        return Err(parsed.error);
      }
      if page > parsed.value.totalPages {
        return Err(Raised(PageOutOfRangeError(page, parsed.value.totalPages, threadUrl)));
      }
      return Ok(parsed.value);
    }

    /** `crawl_pages(thread_url, start_page, end_page)`. */
    method CrawlPages(threadUrl: string, start: int, endPage: Option<int>) returns (r: Result<seq<PageData>, Failure>)
      requires Valid()
      modifies this, cache`store
      ensures Valid()
      ensures (r, State()) == CrawlRange(Settings(), old(State()), threadUrl, start, endPage)
    {
      var first := CrawlPage(threadUrl, start);
      r := CrawlAfterFirst(threadUrl, start, endPage, first);
    }

    /** The rest of `crawl_pages` once the start page is crawled: stop on its failure, else crawl up to the last page. */
    method CrawlAfterFirst(threadUrl: string, start: int, endPage: Option<int>, first: Result<PageData, Failure>)
      returns (r: Result<seq<PageData>, Failure>)
      requires Valid()
      modifies this, cache`store
      ensures Valid()
      ensures (r, State()) == CrawlRest(PageStep(Settings(), threadUrl), old(State()), start, endPage, first)
    {
      if first.Err? {
        return Err(first.error);
      }
      var last := endPage.GetOr(first.value.totalPages);
      if last > first.value.totalPages {
        last := first.value.totalPages;
      }
      r := CrawlFollowing(threadUrl, start + 1, last, [first.value]);
    }

    /** The loop of `crawl_pages`: crawl pages p … last in turn, appending each to `results`. */
    method CrawlFollowing(threadUrl: string, p: int, last: int, results: seq<PageData>)
      returns (r: Result<seq<PageData>, Failure>)
      requires Valid()
      modifies this, cache`store
      ensures Valid()
      ensures (r, State()) == CrawlFrom(PageStep(Settings(), threadUrl), old(State()), p, last, results)
    {
      var page := p;
      var pages := results;
      while page <= last
        invariant Valid()
        invariant Settings() == old(Settings())
        invariant CrawlFrom(PageStep(Settings(), threadUrl), State(), page, last, pages)
          == CrawlFrom(PageStep(Settings(), threadUrl), old(State()), p, last, results)
        decreases last - page + 1
      {
        ghost var before := State();
        var pageData := CrawlPage(threadUrl, page);
        CrawlFromUnfold(PageStep(Settings(), threadUrl), before, page, last, pages);
        assert PageStep(Settings(), threadUrl)(before, page) == (pageData, State());
        if pageData.Err? {
          return Err(pageData.error);
        }
        pages := pages + [pageData.value];
        page := page + 1;
      }
      return Ok(pages);
    }

    /** `clear_cache()`. */
    method ClearCache() returns (count: nat)
      requires Valid()
      modifies cache`store
      ensures Valid()
      ensures count == |old(cache.store)| && cache.store == map[]
    {
      count := cache.Clear();
    }

    /** `invalidate_page(thread_url, page)`: exactly the cache's `invalidate` of the page url. */
    method InvalidatePage(threadUrl: string, page: int) returns (existed: bool)
      requires Valid()
      modifies cache`store
      ensures Valid()
      ensures existed == (cache.keyOf(BuildPageUrl(threadUrl, page)) in old(cache.store))
      ensures cache.store == old(cache.store) - {cache.keyOf(BuildPageUrl(threadUrl, page))}
    {
      existed := cache.Invalidate(BuildPageUrl(threadUrl, page));
    }
  }
}
