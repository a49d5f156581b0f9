/** `DataSourceHandler` of the package module (src/magicformulabr/main.py):
    where the table comes from. The cache file is modelled as what it
    holds on disk (nothing, or a table and the time it was written); the
    clock and the download are parameters. */
module DataSource {
  import opened Frames

  const Url := "http://fundamentus.com.br/resultado.php"
  const CacheFile := "data_cache.json"
  /** 24 hours. */
  const CacheDurationSeconds: real := 86400.0

  /** The cache file on disk: the table it serialises and its modification
      time. */
  datatype CacheEntry = CacheEntry(table: Frame, writtenAt: real)

  /** What `fetch_data` comes back with: the first table of the page, or a
      request that failed (connection error, timeout or HTTP error status). */
  datatype Fetch = RequestFailed | Fetched(table: Frame)

  /** What `get_data` ends in: a table for the caller, or `sys.exit(status)`. */
  datatype DataResult = Loaded(table: Frame) | Exit(status: int)

  /** `is_cache_valid`: the file exists and its age is at most the duration. */
  predicate CacheValid(cache: Option<CacheEntry>, duration: real, now: real) {
    if cache.None? then false
    else if now - cache.value.writtenAt > duration then false
    else true
  }

  /** `get_data`, as the result it returns and the cache file it leaves. */
  function Retrieve(cache: Option<CacheEntry>, duration: real, force: bool, now: real, fetched: Fetch)
    : (r: (DataResult, Option<CacheEntry>))
    ensures !force && CacheValid(cache, duration, now) ==> r == (Loaded(cache.value.table), cache)
    ensures (force || !CacheValid(cache, duration, now)) && (fetched.RequestFailed? || IsEmpty(fetched.table))
            ==> r == (Exit(1), cache)
    ensures (force || !CacheValid(cache, duration, now)) && fetched.Fetched? && !IsEmpty(fetched.table)
            ==> r == (Loaded(fetched.table), Some(CacheEntry(fetched.table, now)))
    ensures r.0.Exit? ==> r.0.status == 1 && r.1 == cache
    ensures r.0.Loaded? && r.1 == cache ==> cache.Some? && r.0.table == cache.value.table
  {
    if force || !CacheValid(cache, duration, now) then
      match fetched
      case RequestFailed => (Exit(1), cache)
      case Fetched(table) =>
        if IsEmpty(table) then (Exit(1), cache)
        else (Loaded(table), Some(CacheEntry(table, now)))
    else
      (Loaded(cache.value.table), cache)
  }

  /** The boundary of validity: a cache exactly `duration` seconds old is
      still valid, and one a moment older is not. */
  lemma CacheExpiry(e: CacheEntry, duration: real, now: real)
    ensures CacheValid(Some(e), duration, e.writtenAt + duration)
    ensures now > e.writtenAt + duration ==> !CacheValid(Some(e), duration, now)
    ensures !CacheValid(None, duration, now)
  {
  }

  /** A valid cache stays valid for every earlier moment, back to when it
      was written. */
  lemma CacheValidEarlier(cache: Option<CacheEntry>, duration: real, now: real, earlier: real)
    requires CacheValid(cache, duration, now) && earlier <= now
    ensures CacheValid(cache, duration, earlier)
  {
  }

  /** A successful download leaves a cache that a second call at the same
      moment reads back, without downloading again (for a non-negative
      duration and no forced update). */
  lemma RetrieveThenCached(cache: Option<CacheEntry>, duration: real, force: bool, now: real,
                           fetched: Fetch, again: Fetch)
    requires duration >= 0.0
    requires Retrieve(cache, duration, force, now, fetched).0.Loaded?
    ensures var (r, c) := Retrieve(cache, duration, force, now, fetched);
            Retrieve(c, duration, false, now, again) == (r, c)
  {
  }

  class DataSourceHandler {
    const url: string
    const cacheFile: string
    const cacheDuration: real
    const forceUpdate: bool
    /** The contents of `cacheFile`; None when the file does not exist. */
    var cache: Option<CacheEntry>

    constructor (url: string, cacheFile: string, cacheDuration: real, forceUpdate: bool,
                 disk: Option<CacheEntry>)
      ensures this.url == url && this.cacheFile == cacheFile
      ensures this.cacheDuration == cacheDuration && this.forceUpdate == forceUpdate
      ensures cache == disk
    {
      this.url := url;
      this.cacheFile := cacheFile;
      this.cacheDuration := cacheDuration;
      this.forceUpdate := forceUpdate;
      cache := disk;
    }

    /** The handler with the default cache file and duration, as `main`
        creates it with `DataSourceHandler(URL, force_update=...)`. */
    constructor WithDefaults(url: string, forceUpdate: bool, disk: Option<CacheEntry>)
      ensures this.url == url && cacheFile == CacheFile
      ensures cacheDuration == CacheDurationSeconds && this.forceUpdate == forceUpdate
      ensures cache == disk
    {
      this.url := url;
      cacheFile := CacheFile;
      cacheDuration := CacheDurationSeconds;
      this.forceUpdate := forceUpdate;
      cache := disk;
    }

    predicate IsCacheValid(now: real)
      reads this
    {
      CacheValid(cache, cacheDuration, now)
    }

    /** `get_data` at time `now`, with `fetched` standing for what the
        download would return. */
    method GetData(now: real, fetched: Fetch) returns (r: DataResult)
      modifies this
      ensures (r, cache) == Retrieve(old(cache), cacheDuration, forceUpdate, now, fetched)
    {
      if forceUpdate || !IsCacheValid(now) {
        if fetched.RequestFailed? {
          return Exit(1);
        }
        var table := fetched.table;
        if IsEmpty(table) {
          return Exit(1);
        }
        cache := Some(CacheEntry(table, now));
        return Loaded(table);
      }
      return Loaded(cache.value.table);
    }
  }

  /** The start of `main`: a handler for `URL` with the defaults, and its
      `get_data`. */
  method LoadForMain(forceUpdate: bool, disk: Option<CacheEntry>, now: real, fetched: Fetch)
    returns (r: DataResult, h: DataSourceHandler)
    ensures fresh(h) && h.url == Url && h.cacheFile == CacheFile
    ensures (r, h.cache) == Retrieve(disk, CacheDurationSeconds, forceUpdate, now, fetched)
  {
    h := new DataSourceHandler.WithDefaults(Url, forceUpdate, disk);
    r := h.GetData(now, fetched);
  }
}
