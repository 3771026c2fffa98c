/**
 * The disk cache of fetched pages (PageCache). The cache directory is a map
 * from file name (the url's fingerprint) to the file's content; the
 * fingerprint function, the clock and the state of the disk are given from
 * outside.
 */
module Cache {
  import opened Wrappers
  import opened Errors

  /** A file name inside the cache directory, as `_key_path` derives it from a url. */
  type Slot = string

  /** One cache file: a decodable JSON record, or content that does not decode. */
  datatype Entry =
    | Record(url: string, cachedAt: Option<int>, html: Option<string>)
    | Undecodable(reason: string)

  /** The cache directory: which files exist and what each holds. */
  type Store = map<Slot, Entry>

  /** The TTL rule: with a positive TTL, an entry older than the TTL is stale. A missing timestamp reads as 0. */
  predicate Expired(ttl: int, cachedAt: Option<int>, now: int) {
    ttl > 0 && now - cachedAt.GetOr(0) > ttl
  }

  /** What an enabled cache's `get(url)` returns when `url` maps to `slot`. */
  function Read(store: Store, ttl: int, slot: Slot, url: string, now: int): Result<Option<string>, CrawlError> {
    if slot !in store then Ok(None)
    else match store[slot]
      case Undecodable(reason) => Err(CacheReadError("Corrupted cache entry for " + url + ": " + reason))
      case Record(_, cachedAt, html) => if Expired(ttl, cachedAt, now) then Ok(None) else Ok(html)
  }

  /** The directory after that `get`: a stale entry has been deleted, nothing else changes. */
  function AfterRead(store: Store, ttl: int, slot: Slot, now: int): Store {
    if slot in store && store[slot].Record? && Expired(ttl, store[slot].cachedAt, now)
    then store - {slot}
    else store
  }

  /**
   * How a file write fails with an OSError: at `open`, before the file is
   * touched, or after `open` has emptied it, which leaves a truncated record
   * that fails to decode with `decodeError`.
   */
  datatype WriteFault =
    | FailsAtOpen(error: string)
    | FailsAfterOpen(error: string, decodeError: string)

  /** The directory after a write to `slot` that met `fault`. */
  function AfterFailedWrite(store: Store, slot: Slot, fault: WriteFault): Store {
    match fault
    case FailsAtOpen(_) => store
    case FailsAfterOpen(_, decodeError) => store[slot := Undecodable(decodeError)]
  }

  /** The file `put(url, html)` writes at time `now`. */
  function Written(url: string, html: string, now: int): Entry {
    Record(url, Some(now), Some(html))
  }

  class PageCache {
    /** `_key_path` without the directory: a fixed-width fingerprint, not necessarily injective. */
    const keyOf: string -> Slot
    const ttl: int
    const enabled: bool
    /** Whether the cache directory exists. */
    var dirExists: bool
    /** The OS error a file write would meet, or None when writes succeed. */
    var writeFault: Option<WriteFault>
    var store: Store

    ghost predicate Valid()
      reads this
    {
      (!dirExists ==> store == map[]) && (enabled ==> dirExists)
    }

    /**
     * An enabled cache creates its directory; `existing` is the directory
     * found on disk (None when it is absent).
     */
    constructor (keyOf: string -> Slot, ttl: int, enabled: bool, existing: Option<Store>, writeFault: Option<WriteFault>)
      ensures Valid()
      ensures this.keyOf == keyOf && this.ttl == ttl && this.enabled == enabled
      ensures this.writeFault == writeFault
      ensures dirExists == (enabled || existing.Some?)
      ensures store == existing.GetOr(map[])
    {
      this.keyOf := keyOf;
      this.ttl := ttl;
      this.enabled := enabled;
      this.writeFault := writeFault;
      dirExists := enabled || existing.Some?;
      store := existing.GetOr(map[]);
    }

    /** Return the cached html for `url`, deleting the entry if it has expired. */
    method Get(url: string, now: int) returns (r: Result<Option<string>, CrawlError>)
      requires Valid()
      modifies this`store
      ensures Valid()
      ensures !enabled ==> r == Ok(None) && store == old(store)
      ensures enabled ==> r == Read(old(store), ttl, keyOf(url), url, now)
      ensures enabled ==> store == AfterRead(old(store), ttl, keyOf(url), now)
    {
      if !enabled {
        return Ok(None);
      }
      var slot := keyOf(url);
      if slot !in store {
        return Ok(None);
      }
      var entry := store[slot];
      if entry.Undecodable? {
        return Err(CacheReadError("Corrupted cache entry for " + url + ": " + entry.reason));
      }
      if ttl > 0 {
        var cachedAt := entry.cachedAt.GetOr(0);
        if now - cachedAt > ttl {
          store := store - {slot};
          return Ok(None);
        }
      }
      return Ok(entry.html);
    }

    /** Store `html` for `url`; the write replaces whatever the url's file held. */
    method Put(url: string, html: string, now: int) returns (r: Result<(), CrawlError>)
      requires Valid()
      modifies this`store
      ensures Valid()
      ensures !enabled ==> r == Ok(()) && store == old(store)
      ensures enabled && writeFault.Some? ==>
        r == Err(CacheWriteError("Failed to write cache for " + url + ": " + writeFault.value.error))
        && store == AfterFailedWrite(old(store), keyOf(url), writeFault.value)
      ensures enabled && writeFault.None? ==>
        r == Ok(()) && store == old(store)[keyOf(url) := Written(url, html, now)]
    {
      if !enabled {
        return Ok(());
      }
      var slot := keyOf(url);
      if writeFault.Some? {
        if writeFault.value.FailsAfterOpen? {
          store := store[slot := Undecodable(writeFault.value.decodeError)];
        }
        return Err(CacheWriteError("Failed to write cache for " + url + ": " + writeFault.value.error));
      }
      store := store[slot := Written(url, html, now)];
      return Ok(());
    }

    /** Remove the file for `url`; report whether it existed. Works on a disabled cache too. */
    method Invalidate(url: string) returns (existed: bool)
      requires Valid()
      modifies this`store
      ensures Valid()
      ensures existed == (keyOf(url) in old(store))
      ensures store == old(store) - {keyOf(url)}
    {
      var slot := keyOf(url);
      if slot in store {
        store := store - {slot};
        return true;
      }
      return false;
    }

    /** Delete every cache file, one at a time, and count them. */
    method Clear() returns (count: nat)
      requires Valid()
      modifies this`store
      ensures Valid()
      ensures count == |old(store)|
      ensures store == map[]
    {
      if !dirExists {
        return 0;
      }
      count := 0;
      while store != map[]
        invariant count + |store| == |old(store)|
        invariant dirExists
        decreases |store|
      {
        var f :| f in store;
        store := store - {f};
        count := count + 1;
      }
    }
  }

  // ---------------------------------------------------------------------
  // Properties of the cache rules
  // ---------------------------------------------------------------------

  /**
   * Round trip: reading a slot right after `put` wrote it gives back the
   * html, whatever url maps to that slot, as long as the age is at most the
   * TTL or the TTL is not positive.
   */
  lemma PutThenRead(store: Store, ttl: int, slot: Slot, url: string, html: string, putAt: int,
                    otherUrl: string, now: int)
    requires ttl <= 0 || now - putAt <= ttl
    ensures Read(store[slot := Written(url, html, putAt)], ttl, slot, otherUrl, now) == Ok(Some(html))
    ensures AfterRead(store[slot := Written(url, html, putAt)], ttl, slot, now)
      == store[slot := Written(url, html, putAt)]
  {
  }

  /** A stale entry reads as a miss and is removed; an age equal to the TTL is not stale. */
  lemma StaleEntryDeleted(store: Store, ttl: int, slot: Slot, url: string, now: int)
    requires slot in store && store[slot].Record?
    ensures Expired(ttl, store[slot].cachedAt, now) ==>
      Read(store, ttl, slot, url, now) == Ok(None) && AfterRead(store, ttl, slot, now) == store - {slot}
    ensures ttl > 0 && now - store[slot].cachedAt.GetOr(0) == ttl ==>
      Read(store, ttl, slot, url, now) == Ok(store[slot].html) && AfterRead(store, ttl, slot, now) == store
  {
  }

  /** With a TTL of zero or less nothing expires, however old. */
  lemma NonPositiveTtlNeverExpires(store: Store, ttl: int, slot: Slot, url: string, now: int)
    requires ttl <= 0 && slot in store && store[slot].Record?
    ensures Read(store, ttl, slot, url, now) == Ok(store[slot].html)
    ensures AfterRead(store, ttl, slot, now) == store
  {
  }

  /** An undecodable file is an error, not a miss, and it is left in place. */
  lemma UndecodableIsError(store: Store, ttl: int, slot: Slot, url: string, now: int)
    requires slot in store && store[slot].Undecodable?
    ensures Read(store, ttl, slot, url, now).Err?
    ensures Read(store, ttl, slot, url, now).error.CacheReadError?
    ensures AfterRead(store, ttl, slot, now) == store
  {
  }

  /**
   * A write that fails at `open` leaves the slot as it was; one that fails
   * after `open` leaves a file the next `get` reports as corrupted. Other
   * slots are untouched either way.
   */
  lemma FailedWriteThenRead(store: Store, ttl: int, slot: Slot, fault: WriteFault, url: string, now: int, other: Slot)
    requires other != slot
    ensures fault.FailsAtOpen? ==> AfterFailedWrite(store, slot, fault) == store
    ensures fault.FailsAfterOpen? ==>
      Read(AfterFailedWrite(store, slot, fault), ttl, slot, url, now)
        == Err(CacheReadError("Corrupted cache entry for " + url + ": " + fault.decodeError))
    ensures fault.FailsAfterOpen? ==>
      AfterRead(AfterFailedWrite(store, slot, fault), ttl, slot, now) == AfterFailedWrite(store, slot, fault)
    ensures (other in AfterFailedWrite(store, slot, fault)) == (other in store)
    ensures other in store ==> AfterFailedWrite(store, slot, fault)[other] == store[other]
  {
  }

  /** A successful write to the cache directory: `put` or `invalidate`. */
  datatype Write = PutPage(url: string, html: string, at: int) | InvalidatePage(url: string)

  /** The directory after a successful write. */
  function Apply(store: Store, keyOf: string -> Slot, w: Write): Store {
    match w
    case PutPage(u, h, t) => store[keyOf(u) := Written(u, h, t)]
    case InvalidatePage(u) => store - {keyOf(u)}
  }

  /** The directory after a sequence of successful writes, in order. */
  function Replay(store: Store, keyOf: string -> Slot, ws: seq<Write>): Store
    decreases |ws|
  {
    if ws == [] then store else Apply(Replay(store, keyOf, ws[..|ws| - 1]), keyOf, ws[|ws| - 1])
  }

  /** A slot no write maps to keeps its file (or its absence). */
  lemma {:induction false} ReplayUntouched(store: Store, keyOf: string -> Slot, ws: seq<Write>, slot: Slot)
    requires forall j :: 0 <= j < |ws| ==> keyOf(ws[j].url) != slot
    ensures slot in Replay(store, keyOf, ws) <==> slot in store
    ensures slot in store ==> Replay(store, keyOf, ws)[slot] == store[slot]
    decreases |ws|
  {
    if ws != [] {
      ReplayUntouched(store, keyOf, ws[..|ws| - 1], slot);
    }
  }

  /**
   * Last write wins: after a sequence of writes, a slot holds what the last
   * write mapping to it left there, whatever came before.
   */
  lemma {:induction false} ReplayLastWriteWins(store: Store, keyOf: string -> Slot, ws: seq<Write>, i: nat, slot: Slot)
    requires i < |ws| && keyOf(ws[i].url) == slot
    requires forall j :: i < j < |ws| ==> keyOf(ws[j].url) != slot
    ensures ws[i].PutPage? ==>
      slot in Replay(store, keyOf, ws)
      && Replay(store, keyOf, ws)[slot] == Written(ws[i].url, ws[i].html, ws[i].at)
    ensures ws[i].InvalidatePage? ==> slot !in Replay(store, keyOf, ws)
    decreases |ws|
  {
    if i < |ws| - 1 {
      ReplayLastWriteWins(store, keyOf, ws[..|ws| - 1], i, slot);
    }
  }
}
