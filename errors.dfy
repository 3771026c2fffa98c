/**
 * The crawler's exception hierarchy as one closed datatype. Every variant is
 * a kind of the root error (VozCrawlerError); HttpError and
 * CloudflareBlockedError are the two HTTP kinds, CacheReadError and
 * CacheWriteError the two cache kinds. Each variant keeps the attributes the
 * Python class stores; `Message()` is the exception's text.
 */
module Errors {
  import opened Wrappers
  import opened Text

  datatype CrawlError =
    | NetworkError(message: string)
    | HttpError(statusCode: int, url: string, message: string)
    | CloudflareBlockedError(url: string)
    | PageParsingError(url: string, detail: string)
    | ThreadNotFoundError(url: string)
    | PageOutOfRangeError(page: int, maxPage: int, url: string)
    | CacheReadError(message: string)
    | CacheWriteError(message: string)
  {
    /** `isinstance(e, HTTPError)`: CloudflareBlockedError is a subclass. */
    predicate IsHttpError() {
      HttpError? || CloudflareBlockedError?
    }

    /** `isinstance(e, CacheError)`. */
    predicate IsCacheError() {
      CacheReadError? || CacheWriteError?
    }

    /** The `status_code` attribute of an HTTP error. */
    function StatusCode(): int
      requires IsHttpError()
    {
      if CloudflareBlockedError? then 403 else statusCode
    }

    /** The `url` attribute, for the kinds that have one. */
    function Url(): string
      requires !NetworkError? && !IsCacheError()
    {
      url
    }

    /** `str(e)`. */
    function Message(): string {
      match this
      case NetworkError(m) => m
      case HttpError(_, _, m) => m
      case CloudflareBlockedError(u) => "Cloudflare blocked request to " + u
      case PageParsingError(u, d) => "Failed to parse page " + u + ": " + d
      case ThreadNotFoundError(u) => "Thread not found: " + u
      case PageOutOfRangeError(p, m, u) =>
        "Page " + IntToString(p) + " out of range (thread has " + IntToString(m) + " pages): " + u
      case CacheReadError(m) => m
      case CacheWriteError(m) => m
    }
  }

  /**
   * What can escape a call into the crawler: one of its own errors, or the
   * `ValueError` Python's `int()` raises on a malformed `data-timestamp`
   * attribute (nothing in the crawler catches it).
   */
  datatype Failure = Raised(error: CrawlError) | ValueError(literal: string)

  /** The text `HTTPError` falls back to when no message is given. */
  function DefaultHttpMessage(status: int, url: string): string {
    "HTTP " + IntToString(status) + " for " + url
  }

  /** `HTTPError(status_code, url, message)`: an empty message means the default text. */
  function NewHttpError(status: int, url: string, message: string): (e: CrawlError)
    ensures e.IsHttpError() && e.StatusCode() == status && e.Url() == url
    ensures e.Message() == if message == "" then DefaultHttpMessage(status, url) else message
  {
    HttpError(status, url, if message == "" then DefaultHttpMessage(status, url) else message)
  }

  /** A Cloudflare block is an HTTP error with status 403 for the same url. */
  lemma CloudflareIsHttp403(url: string)
    ensures var e := CloudflareBlockedError(url);
      e.IsHttpError() && e.StatusCode() == 403 && e.Url() == url && !e.IsCacheError()
  {
  }

  /**
   * The default HTTP message names the status: the digits right after
   * "HTTP " read back as the status code.
   */
  lemma DefaultHttpMessageNamesStatus(status: int, url: string)
    ensures var m := DefaultHttpMessage(status, url);
      var n := |IntToString(status)|;
      5 + n <= |m| && m[..5] == "HTTP " && ParseInt(m[5..5 + n]) == Some(status)
  {
    var s := IntToString(status);
    ConcatAssoc("HTTP " + s, " for ", url);
    SliceOfConcat("HTTP ", s, " for " + url);
    ParseIntRoundTrip(status);
  }

  /** Out-of-range errors keep the three values they were raised with. */
  lemma PageOutOfRangeRecords(page: int, maxPage: int, url: string)
    ensures var e := PageOutOfRangeError(page, maxPage, url);
      e.page == page && e.maxPage == maxPage && e.Url() == url && !e.IsHttpError()
  {
  }

  /**
   * The classification is a partition: every error is exactly one of a
   * network failure, an HTTP failure, a missing thread, a parse failure,
   * an out-of-range page or a cache failure.
   */
  lemma KindsPartition(e: CrawlError)
    ensures (if e.NetworkError? then 1 else 0) + (if e.IsHttpError() then 1 else 0)
      + (if e.ThreadNotFoundError? then 1 else 0) + (if e.PageParsingError? then 1 else 0)
      + (if e.PageOutOfRangeError? then 1 else 0) + (if e.IsCacheError() then 1 else 0) == 1
  {
  }
}
