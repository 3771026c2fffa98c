# voz-crawler, modelled in Dafny

voz-crawler downloads the pages of a thread on the voz.vn forum, keeps each
downloaded page in a disk cache, parses every post of a page into a record, and
turns the quotes between posts into a directed reply graph with summary
statistics. This project models that core and proves what it promises:

- `wrappers.dfy` (`Wrappers`): `Option` and `Result`.
- `text.dfy` (`Text`): the pieces of Python `str`, `int()` and `re` the code
  relies on (`\s` as `str.isspace`, `strip`, `rstrip("/")`, `replace`, digit
  runs, the decimal spelling of an `int`).
- `errors.dfy` (`Errors`): the exception hierarchy of `exceptions.py` as one
  tagged datatype, plus `Failure`, which also covers the bare `ValueError`
  that `int()` raises in `parse_post`.
- `cache.dfy` (`Cache`): `PageCache` as a class over the cache directory. The
  directory is a map from file name to content. The URL fingerprint, the clock
  and write failures come from outside.
- `parser_text.dfy` (`ParserText`): `normalize_text`.
- `parser_quotes.dfy` (`ParserQuotes`): `_extract_content_with_quotes`. Each
  quote block is masked with a placeholder, the text is extracted, and each
  placeholder is replaced by a `<quote author=".." post_id="..">` annotation.
- `parser.dfy` (`Parser`): `parse_post`, `parse_pagination` and
  `parse_thread_page`. The HTML engine (CSS selection and text-node
  extraction) and Unicode NFC normalisation are parameters.
- `crawler.py` maps to `crawler.dfy` (`Crawler`):
  - `_build_page_url`;
  - `VozCrawler` as a class that holds the cache, a clock and
    `_last_request_at`;
  - `fetch_html`, `crawl_page`, `crawl_pages`, flattening the pages into rows,
    `clear_cache` and `invalidate_page`.

  The server is a function from URL to reply. Each reply also says how long
  the request took.
- `graph.dfy` (`Graph`):
  - `_QUOTE_RE.findall` as a small matcher;
  - `extract_reply_edges`;
  - `build_reply_graph`, with the `networkx.DiGraph` it uses as the class
    `ReplyGraph`.
- `graph_stats.dfy` (`GraphStats`): `compute_graph_stats`, covering degrees,
  a stable descending sort, Python slicing, and `Counter` with
  `most_common`.

Each stateful operation is a method. Its `ensures` ties the result and the new
state to a function of the old state. Lemmas about those functions state the
properties.

`parse_pagination` enforces no bound between `current_page` and
`total_pages`, and neither is required to be at least 1: it returns whatever
integers the page navigation spells, falling back as `PaginationRules`
states. `crawl_page` is the only place that compares the page number with
`total_pages`.

## Model

| member | source | states |
|---|---|---|
| Text.RStripChar | src/voz_crawler/crawler.py:43 | `rstrip("/")` returns a prefix of the input with no trailing `/`, and everything it removed was `/` |
| Text.ParseIntRoundTrip | src/voz_crawler/parser.py:237-240 | `int()` reads back the decimal spelling of every integer |
| Text.ParseSignedRoundTrip | src/voz_crawler/parser.py:137-139 | the signed reading under `int()` recovers every integer from its spelling |
| Text.NatToStringInjective | src/voz_crawler/crawler.py:46 | distinct page numbers give distinct `page-N` suffixes |
| Errors.NewHttpError | src/voz_crawler/exceptions.py:15-23 | an `HTTPError` records its status and url, and its message is the given one or else `HTTP <status> for <url>` |
| Errors.CloudflareIsHttp403 | src/voz_crawler/exceptions.py:26-31 | a Cloudflare block is an HTTP error with status 403 for its url, and not a cache error |
| Errors.DefaultHttpMessageNamesStatus | src/voz_crawler/exceptions.py:21-23 | the default HTTP message starts `HTTP ` followed by the status, which reads back as the status |
| Errors.PageOutOfRangeRecords | src/voz_crawler/exceptions.py:52-64 | `PageOutOfRangeError` keeps its page, max page and url, and is not an HTTP error |
| Errors.KindsPartition | src/voz_crawler/exceptions.py:4-77 | every error falls in exactly one family: network, HTTP, not found, parsing, out of range, or cache |
| Cache.PageCache.constructor | src/voz_crawler/cache.py:31-48 | an enabled cache has its directory; settings are kept; the store is what is on disk |
| Cache.PageCache.Get | src/voz_crawler/cache.py:54-75 | a disabled cache always misses; an enabled one returns `Read` and deletes a stale entry (`AfterRead`) |
| Cache.PageCache.Put | src/voz_crawler/cache.py:77-91 | a disabled cache writes nothing; a failed write raises `CacheWriteError` with the url and the OS message, and leaves the url's file as it was when it failed at `open`, or undecodable when it failed after `open` had emptied it; otherwise the url's file becomes a record of url, time and html |
| Cache.PageCache.Invalidate | src/voz_crawler/cache.py:93-99 | the answer is whether the url's file existed, and afterwards it does not |
| Cache.PageCache.Clear | src/voz_crawler/cache.py:101-109 | the count is the number of files, and the directory is then empty |
| Cache.PutThenRead | src/voz_crawler/cache.py:54-91 | a page just put reads back as a hit, for any url sharing its file, while it has not expired |
| Cache.StaleEntryDeleted | src/voz_crawler/cache.py:68-73 | an expired entry misses and its file is deleted; at exactly `ttl` seconds it is still a hit |
| Cache.NonPositiveTtlNeverExpires | src/voz_crawler/cache.py:69-75 | with `ttl <= 0` a record always reads back and is never deleted |
| Cache.UndecodableIsError | src/voz_crawler/cache.py:63-66 | a file that does not decode raises `CacheReadError` and is left in place |
| Cache.FailedWriteThenRead | src/voz_crawler/cache.py:61-91 | a write that fails at `open` leaves the directory unchanged; one that fails after `open` makes the next `get` of that file raise `Corrupted cache entry`; other files are untouched either way |
| Cache.ReplayUntouched | src/voz_crawler/cache.py:77-99 | puts and invalidations of other files leave a file as it was |
| Cache.ReplayLastWriteWins | src/voz_crawler/cache.py:77-99 | after a sequence of puts and invalidations, a file holds what the last operation on it left |
| ParserText.CleanWhitespace | src/voz_crawler/parser.py:59-61 | the result has no run of two blanks, only plain spaces as blanks, no three newlines in a row, and no leading or trailing whitespace; what each run becomes is stated by `CollapseBlanksRun`, `CollapseNewlinesRun`, `CleanWhitespaceJoinsWords` and `CleanWhitespaceJoinsParagraphs` |
| ParserText.NormalizeText | src/voz_crawler/parser.py:56-61 | `normalize_text` returns normalised text, as above; what its whitespace runs become is stated by `NormalizeTextJoins` |
| ParserText.CleanWhitespaceIdempotent | src/voz_crawler/parser.py:59-61 | collapsing and trimming twice is the same as once |
| ParserText.NormalizeTextIdempotent | src/voz_crawler/parser.py:56-61 | `normalize_text` is idempotent whenever NFC leaves its result unchanged |
| ParserText.CleanWhitespaceKeepsContent | src/voz_crawler/parser.py:59-61 | normalisation only changes whitespace: the non-space characters and their order are kept |
| ParserText.CollapseNewlinesKeepsContent | src/voz_crawler/parser.py:60 | collapsing newline runs removes only newlines |
| ParserText.CollapseBlanksFixes | src/voz_crawler/parser.py:59 | collapsing blanks leaves already collapsed text unchanged |
| ParserText.CollapseNewlinesFixes | src/voz_crawler/parser.py:60 | collapsing newlines leaves text without three newlines in a row unchanged |
| ParserText.CollapseBlanksRun | src/voz_crawler/parser.py:59 | a maximal run of blanks between two other characters (or an edge) becomes exactly one space, and the text on either side is collapsed on its own |
| ParserText.CollapseNewlinesRun | src/voz_crawler/parser.py:60 | a maximal run of newlines becomes two newlines when it has three or more and is kept as it is otherwise, the text on either side collapsed on its own |
| ParserText.CleanWhitespaceJoinsWords | src/voz_crawler/parser.py:59-61 | two whitespace-free words separated by a run of blanks come out joined by exactly one space |
| ParserText.CleanWhitespaceJoinsParagraphs | src/voz_crawler/parser.py:59-61 | two whitespace-free words separated by a run of newlines come out separated by that run, cut to two newlines when it is longer |
| ParserText.NormalizeTextJoins | src/voz_crawler/parser.py:56-61 | on text NFC leaves unchanged, two words separated by blanks come out joined by one space, and separated by newlines keep the run, cut to two when it has three or more |
| ParserQuotes.PostRef | src/voz_crawler/parser.py:88-91 | `post:\s*(\d+)` yields a non-empty digit string; the source attribute contains `post:` and contains that digit string (which match is taken is stated by `PostRefAfter`) |
| ParserQuotes.PostRefNeedsMarker | src/voz_crawler/parser.py:88-91 | without `post:` there is no post id |
| ParserQuotes.PostRefReadsDigits | src/voz_crawler/parser.py:88-91 | `post:` plus spaces plus digits yields exactly those digits |
| ParserQuotes.PostRefAfter | src/voz_crawler/parser.py:88-91 | `search` takes the first match: after a lead-in that holds no match, `post:`, whitespace and a digit run yield exactly that digit run |
| ParserQuotes.AttrStringShapes | src/voz_crawler/parser.py:102-108 | the attribute string holds ` author="A"` when the author is non-empty and ` post_id="P"` when the id is non-empty, in that order |
| ParserQuotes.ExtractContentWithQuotes | src/voz_crawler/parser.py:75-124 | the loop computes `ContentWithQuotes`, and its result is normalised text |
| ParserQuotes.CollectAnnotations | src/voz_crawler/parser.py:84-108 | the first loop appends one annotation per quote block, in block order, giving exactly `Annotations` |
| ParserQuotes.MaskQuotes | src/voz_crawler/parser.py:111-115 | the masking loop replaces each block's html by its own token, block by block, giving exactly `MaskFrom` from block 0 |
| ParserQuotes.RestoreQuotes | src/voz_crawler/parser.py:119-122 | the restoring loop replaces each token by its line-feed-framed annotation, in order, giving exactly `RestoreFrom` from token 0 |
| ParserQuotes.NoBodyNoContent | src/voz_crawler/parser.py:78-80 | a post without a body has empty content |
| ParserQuotes.NoQuotesPlainText | src/voz_crawler/parser.py:75-124 | without quote blocks the content is the normalised join of the body's text nodes |
| ParserQuotes.RestoreInReadingOrder | src/voz_crawler/parser.py:119-122 | replacing the placeholders one by one yields the text with every quote annotation in its reading position |
| ParserQuotes.ContentInReadingOrder | src/voz_crawler/parser.py:75-124 | the content is the normalised text with each quote's annotation where the quote stood |
| Parser.PostIdOfPostAnchor | src/voz_crawler/parser.py:130 | `data-content="post-N"` gives post id `N` |
| Parser.UserIdOfProfileLink | src/voz_crawler/parser.py:143-145 | a profile link ending `.N` or `.N/` gives user id `N` |
| Parser.UserIdNeedsDot | src/voz_crawler/parser.py:143-145 | a link without `.` gives no user id |
| Parser.Keep | src/voz_crawler/parser.py:160-173 | a list comprehension's filter keeps, in order, exactly the items that pass, each as many times as it occurs in the input; items that fail do not occur |
| Parser.CollectReactionTypes | src/voz_crawler/parser.py:176-182 | the reaction loop computes `ReactionTypes` |
| Parser.ReactionTypesDistinct | src/voz_crawler/parser.py:176-182 | reaction types are non-empty and have no duplicates |
| Parser.ReactionTypesMembers | src/voz_crawler/parser.py:178-181 | a type is listed exactly when it is a non-empty `alt or title` of some icon |
| Parser.ReactionTypesFirstAppearance | src/voz_crawler/parser.py:176-182 | reaction types come in order of their first appearance among the icons |
| Parser.OthersCountReads | src/voz_crawler/parser.py:192-195 | `N others` / `N other` reads as `N` |
| Parser.OthersCountNeedsDigits | src/voz_crawler/parser.py:192-195 | a text without digits has no "others" count |
| Parser.OthersCountAfter | src/voz_crawler/parser.py:192-195 | `search` reads the first `N others` / `N other`: after a lead-in that holds no match and does not end in a digit, the count is `N` |
| Parser.ParsePostReactionCount | src/voz_crawler/parser.py:184-195 | with a reactions bar, the count is the named users plus the `N` of the summary's first `N others`, and the named users alone when the summary has no such match |
| Parser.ReactionCountCoversNamed | src/voz_crawler/parser.py:184-195 | no reaction bar gives 0; otherwise the count is at least the number of named users |
| Parser.ParsePostFailsOnlyOnTimestamp | src/voz_crawler/parser.py:137-139 | `parse_post` fails exactly when the `time` element has a `data-timestamp` that `int()` rejects, and the failure is that `ValueError` |
| Parser.ParsePostContent | src/voz_crawler/parser.py:155-157 | the content text is normalised, and a post without a body has empty text and html |
| Parser.ParsePostImages | src/voz_crawler/parser.py:160-166 | images are, in order, exactly the body's non-empty image sources that name neither `smilies` nor `reactions`, each as many times as the body has it |
| Parser.ParsePostReactions | src/voz_crawler/parser.py:176-195 | reaction types are distinct and non-empty; no bar means no types and count 0; otherwise the count covers the named users |
| Parser.ContentIsNormalized | src/voz_crawler/parser.py:155 | the content text is normalised |
| Parser.PaginationRules | src/voz_crawler/parser.py:222-243 | no page nav gives (1, 1); numbers are read as written; an unreadable current page is 1; an unreadable last page is the current page |
| Parser.ParsePosts | src/voz_crawler/parser.py:262 | on success there is one post per article, each the parse of its article |
| Parser.ParsePostsFirstFailure | src/voz_crawler/parser.py:262 | on failure the error is that of the first article that fails, and all earlier ones parse |
| Parser.ParseThreadPageGuarantees | src/voz_crawler/parser.py:246-269 | `PageParsingError(thread_url, "No posts found on page")` exactly when there are no articles; otherwise the pagination, the posts in article order and the thread url, or the `ValueError` of a post |
| Crawler.StripSuffixOf | src/voz_crawler/crawler.py:43 | `/page-N` at the end is removed |
| Crawler.PageBaseOfSuffixed | src/voz_crawler/crawler.py:43 | trailing slashes, then `/page-N`, are removed to leave the base url |
| Crawler.BuildIgnoresOldSuffix | src/voz_crawler/crawler.py:40-46 | a thread url with an old `/page-K` suffix or trailing slashes builds the same page url as its base |
| Crawler.BuildPageUrlRoundTrip | src/voz_crawler/crawler.py:40-46 | the built url's base is the thread's base, and its page number is `page`, or 1 when `page <= 1` |
| Crawler.BuildPageUrlShape | src/voz_crawler/crawler.py:44-46 | pages up to 1 end in `/`; other pages end in `/page-N` |
| Crawler.StatusErrorKinds | src/voz_crawler/crawler.py:128-133 | a status of 400 or more is an error: 404 not found, 403 Cloudflare, others an HTTP error with the default message, all naming the url |
| Crawler.ThrottleWaitSpacing | src/voz_crawler/crawler.py:88-94 | no wait when `delay <= 0`; otherwise at least `delay` passes since the last request, and any actual wait makes it exactly `delay` |
| Crawler.FetchCacheHit | src/voz_crawler/crawler.py:111-115 | a cache hit returns the cached html and touches neither clock nor state |
| Crawler.FetchTransportFailure | src/voz_crawler/crawler.py:118-125 | a transport failure raises `NetworkError` with the connection or request message and leaves `_last_request_at` unchanged |
| Crawler.FetchResponse | src/voz_crawler/crawler.py:117-137 | after throttling, `_last_request_at` is the reply time; an error status raises the status error; a good status returns the body and stores it in the cache, or raises the cache's `CacheWriteError` and leaves the url's file as the failed write left it |
| Crawler.FetchKeepsClockOrder | src/voz_crawler/crawler.py:88-125 | the clock never goes back, and `_last_request_at` never passes it |
| Crawler.FetchErrorKinds | src/voz_crawler/crawler.py:96-137 | of the failures the model represents (the `requests` exceptions, error statuses, undecodable cache files and OS errors on write), `fetch_html` raises only network, HTTP, not-found or cache errors |
| Crawler.CrawlOneRange | src/voz_crawler/crawler.py:163-172 | `PageOutOfRangeError(page, total, thread_url)` exactly when the fetched page parses and `page > total_pages`; a success is the parse of the fetched page, with its own url |
| Crawler.CrawlOneIsPageOf | src/voz_crawler/crawler.py:163-172 | a crawled page carries the built url of its page number, and that number does not exceed its page count |
| Crawler.CrawlFromPages | src/voz_crawler/crawler.py:204-206 | the loop appends one page per number from `p` to `last`, in order, each satisfying what every step guarantees |
| Crawler.CrawlRangePages | src/voz_crawler/crawler.py:174-208 | on success the first page is crawled first; the pages run from `start_page` to `min(end_page, total_pages)`, the i-th being page `start_page + i` of the thread |
| Crawler.CrawlRestPages | src/voz_crawler/crawler.py:199-208 | once the first page is known, for any per-page step whose pages pass a test for the number they were asked for: the first page, then `min(end_page, total_pages) - start_page` more pages, each passing the test for its own number |
| Crawler.FlattenPages | src/voz_crawler/crawler.py:219-224 | the nested loop computes `Flatten` |
| Crawler.FlattenRows | src/voz_crawler/crawler.py:219-224 | one row per post, each post paired with its page's `current_page`, and nothing else |
| Crawler.VozCrawler.constructor | src/voz_crawler/crawler.py:69-82 | the cache and settings are as given, and `_last_request_at` is 0 |
| Crawler.VozCrawler.FetchHtml | src/voz_crawler/crawler.py:96-137 | result and new state are those of `Fetch` on the old state |
| Crawler.VozCrawler.DownloadHtml | src/voz_crawler/crawler.py:117-137 | after a miss or with the cache skipped: throttle, send, raise by status, write the cache; the result and new state are those of `Download` on the old state |
| Crawler.VozCrawler.CrawlPage | src/voz_crawler/crawler.py:143-172 | result and new state are those of `CrawlOne` |
| Crawler.VozCrawler.CrawlPages | src/voz_crawler/crawler.py:174-208 | result and new state are those of `CrawlRange` |
| Crawler.VozCrawler.CrawlFollowing | src/voz_crawler/crawler.py:204-206 | the `for p in range(...)` loop computes `CrawlFrom` |
| Crawler.VozCrawler.ClearCache | src/voz_crawler/crawler.py:237-239 | returns the number of cached files and empties the cache |
| Crawler.VozCrawler.InvalidatePage | src/voz_crawler/crawler.py:241-244 | removes the file of the page's built url, answering whether it existed |
| Graph.TagHere | src/voz_crawler/graph.py:13 | a quote-tag match is followed by strictly less text, so the search moves forward |
| Graph.AnnotationReadsBack | src/voz_crawler/graph.py:72-73 | the annotation the parser writes for a quote with an author reads back as that author and post id, and the search resumes inside the quoted text |
| Graph.AnonymousAnnotationIsNoTag | src/voz_crawler/graph.py:13 | an annotation without an author is not a match |
| Graph.PostIdAttrReads | src/voz_crawler/graph.py:13 | ` post_id="D"` is read as the optional group `D` |
| Graph.ExtractReplyEdges | src/voz_crawler/graph.py:47-85 | the two loops compute `ReplyEdges` |
| Graph.BuildUserMap | src/voz_crawler/graph.py:66-68 | the first loop builds `UserMap`, where a later row with the same post id overwrites an earlier one |
| Graph.AppendRowEdges | src/voz_crawler/graph.py:71-84 | one turn of the outer loop appends exactly the row's resolving quotes as edges, in quote order, after the edges already found |
| Graph.UserMapKeys | src/voz_crawler/graph.py:66-68 | `post_user_map` has exactly the rows' post ids as keys |
| Graph.RefEdgesSound | src/voz_crawler/graph.py:73-84 | every edge of a row has the row as its source and comes from one of its quotes that resolves; every resolving quote gives an edge |
| Graph.RefEdgesPrefix | src/voz_crawler/graph.py:73-84 | the edges of a row's earlier quotes are a prefix of the row's edges, so edges follow the order of the quotes |
| Graph.RefEdgesCounts | src/voz_crawler/graph.py:73-84 | each resolving quote gives as many edges as it occurs, and a quote that does not resolve (self-quote when excluded, empty or unknown post id) gives none |
| Graph.EdgesOfSound | src/voz_crawler/graph.py:70-84 | every edge comes from a resolving quote of some row, and every resolving quote of every row gives an edge |
| Graph.ReplyEdgesCharacterized | src/voz_crawler/graph.py:47-85 | every edge points to a non-empty, known post id, carries the quoting row's id and username and the tag's author, and is no self-quote when those are excluded; conversely every such quote gives an edge |
| Graph.EdgesInRowOrder | src/voz_crawler/graph.py:70-84 | the edges of earlier rows come before those of later rows |
| Graph.ReplyGraph.constructor | src/voz_crawler/graph.py:121 | an empty graph |
| Graph.ReplyGraph.AddNode | src/voz_crawler/graph.py:123 | a new node goes last; an existing node keeps its place and takes the new attributes |
| Graph.ReplyGraph.AddEdge | src/voz_crawler/graph.py:127 | the edge set gains the pair; missing endpoints become nodes |
| Graph.BuildReplyGraph | src/voz_crawler/graph.py:100-129 | the nodes are `NodeOrder`, the attributes `NodeAttrsOf`, and the edges the pairs whose two ends are nodes |
| Graph.AddPostNodes | src/voz_crawler/graph.py:121-123 | adding a node per row leaves the graph valid, with nodes `NodeOrder` (first appearance), attributes `NodeAttrsOf` (last row wins) and no edges |
| Graph.AddReplyEdges | src/voz_crawler/graph.py:125-127 | adding the edges keeps nodes and attributes, and the edge set becomes the pairs of edges whose two ends are nodes |
| Graph.NodesArePostIds | src/voz_crawler/graph.py:121-123 | the nodes are the rows' post ids, each once, and each carries the username and page of its last row |
| Graph.GraphEdgesBetweenPosts | src/voz_crawler/graph.py:125-127 | an edge lands in the graph exactly when both ends are post ids of the rows |
| GraphStats.DegreesSumToEdges | src/voz_crawler/graph.py:142-143 | in-degrees and out-degrees each add up to the number of edges |
| GraphStats.SortDescSpec | src/voz_crawler/graph.py:146 | the sort is a permutation, non-increasing, and keeps entries of equal count in their original order |
| GraphStats.Take | src/voz_crawler/graph.py:149 | `[:n]` is a prefix of length `min(n, len)` for `n >= 0`, and drops `-n` entries from the end otherwise |
| GraphStats.AddSpec | src/voz_crawler/graph.py:156-159 | `counter[k] += n` adds `k` as a key, even for `n == 0`, and adds `n` to its count and to the total |
| GraphStats.UserTotalsSpec | src/voz_crawler/graph.py:154-159 | one entry per username, each the sum of that user's degrees, adding up to the sum of all degrees |
| GraphStats.UserCountersSumToEdges | src/voz_crawler/graph.py:154-159 | `user_quoted` and `user_replies` each add up to `num_edges` |
| GraphStats.MostCommonShape | src/voz_crawler/graph.py:164-165 | `most_common(n)` has `min(n, len)` entries for `n > 0`, zero counts included, and none otherwise; it is non-increasing and drawn from the counter |
| GraphStats.MostCommonLargest | src/voz_crawler/graph.py:164-165 | whatever `most_common(n)` leaves out counts no more than what it keeps |
| GraphStats.MostCommonTies | src/voz_crawler/graph.py:164-165 | users of equal count appear in the counter's insertion order |
| GraphStats.TopQuotedBounds | src/voz_crawler/graph.py:146-151 | at most `top_n` posts when `top_n >= 0`; each is a node with its in-degree, positive, and non-increasing |
| GraphStats.TopQuotedLength | src/voz_crawler/graph.py:146-151 | the list holds `min(top_n, number of quoted posts)` posts for `top_n >= 0`; for negative `top_n` the slice first drops the last `-top_n` sorted posts |
| GraphStats.TopQuotedLargest | src/voz_crawler/graph.py:146-151 | a quoted post left out counts no more than any listed one, and posts of equal count are listed in node order |
| GraphStats.StatsSummary | src/voz_crawler/graph.py:132-167 | node count, distinct (from, to) pair count, top posts with their own in-degree and username, rankings bounded and non-increasing, user totals adding up to the edge count |
| GraphStats.ComputeGraphStats | src/voz_crawler/graph.py:132-167 | the method computes `StatsOf` |
| GraphStats.DegreesOf | src/voz_crawler/graph.py:142-143 | the loop computes each node's degree in node order |
| GraphStats.TopQuotedPosts | src/voz_crawler/graph.py:147-151 | the comprehension keeps the positive counts in order and attaches each post's username, or `?` |
| GraphStats.Tally | src/voz_crawler/graph.py:154-159 | the counter loop computes `UserTotals` |

## Left out

- HTML parsing and CSS selection (parsel), the text-node extraction of the
  body, and Unicode NFC normalisation. These are foreign code, so they are
  parameters of the model (`Engine`, `nfc`).
- Network I/O (cloudscraper, its 30-second timeout, the exception classes of
  `requests`). These become a server function returning a transport fault or
  a response.
- Real time and sleeping. `time.time()` and `time.sleep` become an integer
  clock that the throttle wait and each reply's duration advance.
- Floating-point `delay` and timestamps. The model uses integers (whole time
  units).
- File-system I/O, SHA-256 file names and JSON encoding in `cache.py`. The
  cache directory is a map from file name to decoded entry. The fingerprint is
  a parameter and is not assumed injective. An undecodable file stands for
  JSON or OS read errors.
- Cache.PageCache.Put: an OSError while writing is modelled in two ways.
  Either it is raised at `open` and the file is untouched, or it is raised
  after `open` has emptied the file, which leaves a truncated record that no
  longer decodes. A failure at `close` after the whole record has reached the
  disk, which would leave a readable file, is not modelled.
- Crawler.FetchErrorKinds: the statement covers only the failures the model
  represents. Two more escape `fetch_html` in the source and are not
  modelled:
  - an exception from the scraper that is not a `requests` exception
    (crawler.py:122-125 converts only those) propagates as it is, while every
    transport failure of the model becomes a `NetworkError`;
  - a cache file holding valid JSON that is not an object, or a non-numeric
    `cached_at`, makes `get` raise `AttributeError` or `TypeError`
    (cache.py:70-75) rather than `CacheReadError`, and `Entry` cannot
    represent such a file.
- Cache.PageCache.constructor: a failing `mkdir` (which raises
  `CacheWriteError`) is not modelled. The directory always exists after an
  enabled construction.
- Cache.PageCache.Clear: the glob over `*.json` is modelled as deleting every
  file of the directory. Files of other kinds are not modelled.
- Logging (`logger.debug`/`logger.info`) has no effect on results and is not
  modelled.
- `_THREAD_URL_RE` is defined but never used by the code.
- `pages_to_dataframe`:
  - the pandas post-processing (`to_datetime` coercion, `image_count`,
    `link_count` columns) is not modelled;
  - `Flatten` models the row records (post plus page);
  - `Graph.PostRow` keeps only the columns the graph functions read.
- `edges_to_dataframe` and `plot_reply_graph` (pandas and matplotlib output)
  are not modelled.
- Regular expression details:
  - `\d` is modelled as ASCII digits only; Python also accepts other Unicode
    decimal digits.
  - `$` matching before a final newline (`\.(\d+)/?$`, `/page-\d+/?$`) is not
    modelled. The model requires the match at the very end.
- `int()` accepting `_` separators and non-ASCII digits is not modelled.
  Surrounding whitespace and a sign are modelled.
- ParserQuotes.RestoreInReadingOrder: stated for pieces that satisfy
  `WellFormed`:
  - each run of surrounding text contains no `_QUOTE_P` and does not begin
    with `QUOTE_P` (`ClearText`), so it cannot help spell a placeholder;
  - no annotation contains a placeholder spelling;
  - every placeholder in the extracted text stands for one quote block.
  Text that breaks these conditions (for example a post that itself writes
  `__QUOTE_PLACEHOLDER_0__`) is not covered. The source substitutes such
  text too.
- ParserQuotes.ContentInReadingOrder: stated under the same `WellFormed`
  conditions as `RestoreInReadingOrder`, for the same reason.
- Graph.AnnotationReadsBack: stated for authors without `"` and post ids made
  of digits, which is what the annotation syntax can carry.
- GraphStats.TopQuotedBounds: "at most `top_n` entries" is proved for
  `top_n >= 0` only. For negative `top_n` the Python slice keeps all but the
  last `-top_n` sorted posts. `Take` models that, and `TopQuotedLength`
  states the resulting length.
- Graph.ReplyGraph: networkx's node and edge attribute dictionaries are
  reduced to the `username` and `page` attributes that `build_reply_graph`
  sets.
