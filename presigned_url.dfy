/**
 * The presigned-URL endpoint: a module-level cache from `bucket/key` to a
 * URL and its expiry, consulted before a new URL is generated. The clock
 * and the URL generator are parameters.
 */
module PresignedUrl {
  import opened Wrappers
  import opened Strings

  /** `10 * 60 * 1000`: ten minutes in milliseconds, the margin of the hit test. */
  const TenMinutesMs: int := 10 * 60 * 1000
  /** `60 * 60`: the lifetime asked of a new URL, in seconds. */
  const AnHourInSeconds: int := 60 * 60

  datatype CachedUrl = CachedUrl(url: string, expires: int)

  /** The handler's answer: a 400 error, or a JSON body holding a URL. */
  datatype Response =
    | BadRequest(status: nat, message: string)
    | UrlBody(url: string)

  /** `` `${bucket}/${key}` `` */
  function CacheKey(bucket: string, key: string): string {
    bucket + "/" + key
  }

  /** Bucket names hold no '/', so distinct bucket and key pairs get distinct cache keys. */
  lemma {:induction false} CacheKeyInjective(b1: string, k1: string, b2: string, k2: string)
    requires '/' !in b1 && '/' !in b2
    requires CacheKey(b1, k1) == CacheKey(b2, k2)
    ensures b1 == b2 && k1 == k2
  {
    SplitPrefix(b1, k1, '/');
    SplitPrefix(b2, k2, '/');
    assert CacheKey(b1, k1) == b1 + ['/'] + k1;
    assert CacheKey(b2, k2) == b2 + ['/'] + k2;
    assert First(CacheKey(b1, k1), '/') == b1;
    assert First(CacheKey(b2, k2), '/') == b2;
    assert k1 == CacheKey(b1, k1)[|b1| + 1..];
    assert k2 == CacheKey(b2, k2)[|b2| + 1..];
  }

  /** The hit test: an entry is served while it expires more than ten minutes after `now` (milliseconds). */
  predicate Serves(c: CachedUrl, now: int) {
    c.expires > now + TenMinutesMs
  }

  /** The URL a cache serves for a key at time `now`, if any. */
  function Lookup(cache: map<string, CachedUrl>, k: string, now: int): (r: Option<string>)
    ensures r.Some? <==> k in cache && Serves(cache[k], now)
    ensures r.Some? ==> r.value == cache[k].url
  {
    if k in cache && Serves(cache[k], now) then Some(cache[k].url) else None
  }

  /** What a miss stores: the URL and `Date.now() + anHourInSeconds`, seconds added to milliseconds. */
  function StoredEntry(url: string, now: int): (r: CachedUrl)
    ensures r.url == url
    ensures r.expires - now == AnHourInSeconds
  {
    CachedUrl(url, now + AnHourInSeconds)
  }

  /** An entry stored at time t is never served at t or later: its expiry is less than ten minutes ahead. */
  lemma {:induction false} StoredNeverServed(cache: map<string, CachedUrl>, k: string, url: string, t: int, later: int)
    requires t <= later
    ensures Lookup(cache[k := StoredEntry(url, t)], k, later) == None
  {
  }

  /** The entry the code evidently means to store: an hour ahead, in milliseconds like the clock. */
  function IntendedEntry(url: string, now: int): (r: CachedUrl)
    ensures r.url == url
    ensures r.expires - now == AnHourInSeconds * 1000
  {
    CachedUrl(url, now + AnHourInSeconds * 1000)
  }

  /** The intended entry is served for fifty minutes after it is stored, and not after. */
  lemma {:induction false} IntendedServedFiftyMinutes(cache: map<string, CachedUrl>, k: string, url: string, t: int, later: int)
    requires t <= later
    ensures Lookup(cache[k := IntendedEntry(url, t)], k, later) == Some(url) <==> later < t + 50 * 60 * 1000
  {
  }

  /** The module-level `cachedUrls` record. */
  class UrlCache {
    var cachedUrls: map<string, CachedUrl>

    constructor ()
      ensures cachedUrls == map[]
    {
      cachedUrls := map[];
    }

    /**
     * The `GET` handler. `now` and `nowStore` are the two readings of
     * `Date.now()` (before and after the URL is generated) and `presign` is
     * `generatePresignedUrl(bucket, key, seconds)`. A miss stores the
     * corrected expiry, an hour ahead in milliseconds (see `IntendedEntry`).
     */
    method Get(bucket: Option<string>, key: Option<string>, now: int, nowStore: int,
               presign: (string, string, int) -> string) returns (r: Response)
      modifies this
      ensures bucket.None? || key.None? ==>
        r == BadRequest(400, "Please provide a bucket and key") && cachedUrls == old(cachedUrls)
      ensures bucket.Some? && key.Some? ==> (
        var k := CacheKey(bucket.value, key.value);
        match Lookup(old(cachedUrls), k, now)
        case Some(url) => r == UrlBody(url) && cachedUrls == old(cachedUrls)
        case None =>
          var generated := presign(bucket.value, key.value, AnHourInSeconds);
          r == UrlBody(generated) && cachedUrls == old(cachedUrls)[k := IntendedEntry(generated, nowStore)])
    {
      if bucket.None? || key.None? {
        return BadRequest(400, "Please provide a bucket and key");
      }
      var cacheKey := CacheKey(bucket.value, key.value);
      var tenMinsInFuture := now + TenMinutesMs;
      if cacheKey in cachedUrls && cachedUrls[cacheKey].expires > tenMinsInFuture {
        return UrlBody(cachedUrls[cacheKey].url);
      }
      var presignedUrl := presign(bucket.value, key.value, AnHourInSeconds);
      cachedUrls := cachedUrls[cacheKey := CachedUrl(presignedUrl, nowStore + AnHourInSeconds * 1000)];
      return UrlBody(presignedUrl);
    }
  }
}
