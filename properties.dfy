/** Properties that relate several handler calls: the invariants every handler
    keeps, idempotent creation, the stats view over a run of redirects, and what
    a cache eviction does to the counter. */
module Properties {
  import opened Stores
  import opened Codes
  import opened ShortUrls
  import opened Server
  import opened Routes

  /** Each record is stored under a valid code and carries the short URL derived
      from that code and the configured base URL. */
  ghost predicate WellFormed(s: State, baseUrl: string)
  {
    && Valid(s)
    && forall k :: k in s.durable ==> ValidCode(k) && s.durable[k].shortUrl == ShortUrl(baseUrl, k)
  }

  /** The cache holds a counter for every durable record, never behind the
      durable copy. Eviction breaks this (see EvictionLosesClicks). */
  ghost predicate CacheCovers(s: State)
  {
    forall k :: k in s.durable ==> k in s.cacheClicks && s.durable[k].clicks <= s.cacheClicks[k]
  }

  /** The cache losing both keys of a code (eviction or restart); not an action
      of the service itself. */
  function Evict(s: State, code: string): (t: State)
    ensures t.durable == s.durable
    ensures code !in t.cacheUrl && code !in t.cacheClicks
    ensures forall k :: k != code && k in s.cacheUrl ==> k in t.cacheUrl && t.cacheUrl[k] == s.cacheUrl[k]
    ensures forall k :: k != code && k in s.cacheClicks ==> k in t.cacheClicks && t.cacheClicks[k] == s.cacheClicks[k]
  {
    State(s.durable, s.cacheUrl - {code}, s.cacheClicks - {code})
  }

  lemma ShortenPreservesWellFormed(s: State, body: Option<string>, isWebUri: string -> bool, baseUrl: string, code: string)
    requires WellFormed(s, baseUrl) && ValidCode(code)
    ensures WellFormed(Shorten(s, body, isWebUri, baseUrl, code).0, baseUrl)
  {
    var r := Shorten(s, body, isWebUri, baseUrl, code);
    if r.1.Created? {
      var t := r.0;
      forall k1, k2 | k1 in t.durable && k2 in t.durable && t.durable[k1].longUrl == t.durable[k2].longUrl
        ensures k1 == k2
      {
        if k1 != code && k2 != code {
          assert s.durable[k1].longUrl == s.durable[k2].longUrl;
        }
      }
    }
  }

  lemma RedirectPreservesWellFormed(s: State, baseUrl: string, code: string)
    requires WellFormed(s, baseUrl)
    ensures WellFormed(Redirect(s, code).0, baseUrl)
  {
    var t := Redirect(s, code).0;
    forall k1, k2 | k1 in t.durable && k2 in t.durable && t.durable[k1].longUrl == t.durable[k2].longUrl
      ensures k1 == k2
    {
      assert s.durable[k1].longUrl == s.durable[k2].longUrl;
    }
  }

  lemma ShortenPreservesCacheCovers(s: State, body: Option<string>, isWebUri: string -> bool, baseUrl: string, code: string)
    requires UniqueLongUrls(s.durable) && ValidCode(code) && CacheCovers(s)
    ensures CacheCovers(Shorten(s, body, isWebUri, baseUrl, code).0)
  {
  }

  /** The write-back keeps the cache counter at or above the durable one. */
  lemma RedirectPreservesCacheCovers(s: State, code: string)
    requires CacheCovers(s)
    ensures CacheCovers(Redirect(s, code).0)
  {
    var r := Redirect(s, code);
    forall k | k in r.0.durable ensures k in r.0.cacheClicks && r.0.durable[k].clicks <= r.0.cacheClicks[k] {
      if r.1.Redirected? && k == code {
        assert Counter(s.cacheClicks, code) == s.cacheClicks[code];
      }
    }
  }

  /** Creation is idempotent: shortening the same URL again returns the record
      made the first time and changes nothing, whatever code is drawn. */
  lemma ShortenIdempotent(s: State, u: string, isWebUri: string -> bool, baseUrl: string, code1: string, code2: string)
    requires Valid(s) && ValidCode(code1) && ValidCode(code2)
    requires Shorten(s, Some(u), isWebUri, baseUrl, code1).1.Created? || Shorten(s, Some(u), isWebUri, baseUrl, code1).1.Existing?
    ensures var (t, first) := Shorten(s, Some(u), isWebUri, baseUrl, code1);
      && Valid(t)
      && Shorten(t, Some(u), isWebUri, baseUrl, code2) == (t, Existing(first.record))
  {
    var (t, first) := Shorten(s, Some(u), isWebUri, baseUrl, code1);
    assert Valid(t) by {
      if first.Created? {
        forall k1, k2 | k1 in t.durable && k2 in t.durable && t.durable[k1].longUrl == t.durable[k2].longUrl
          ensures k1 == k2
        {
          if k1 != code1 && k2 != code1 {
            assert s.durable[k1].longUrl == s.durable[k2].longUrl;
          }
        }
      }
    }
    var k: string;
    if first.Created? {
      k := code1;
    } else {
      k :| k in s.durable && s.durable[k] == first.record && first.record.longUrl == u;
    }
    assert k in t.durable && t.durable[k] == first.record && first.record.longUrl == u;
    var (t2, second) := Shorten(t, Some(u), isWebUri, baseUrl, code2);
    var k2 :| k2 in t.durable && t.durable[k2] == second.record && second.record.longUrl == u;
    assert k2 == k;
  }

  /** Under CacheCovers the count that stats reports never goes down across a
      redirect, and goes up by one for the code redirected to. */
  lemma StatsMonotonic(s: State, code: string, other: string)
    requires CacheCovers(s)
    requires other in s.durable
    ensures Stats(s, other).Found? && Stats(Redirect(s, code).0, other).Found?
    ensures Stats(s, other).record.clicks <= Stats(Redirect(s, code).0, other).record.clicks
    ensures other == code ==> Stats(Redirect(s, code).0, other).record.clicks == Stats(s, other).record.clicks + 1
  {
    var r := Redirect(s, code);
    if other == code {
      assert Counter(s.cacheClicks, code) == s.cacheClicks[code];
    }
  }

  /** After an eviction the next redirect still reaches the record's URL and
      refills the URL cache, but the counter restarts at 1 instead of resuming
      from the durable clicks. */
  lemma EvictThenRedirect(s: State, code: string)
    requires code in s.durable
    ensures var r := Redirect(Evict(s, code), code);
      && r.1 == Redirected(s.durable[code].longUrl)
      && r.0.cacheUrl[code] == s.durable[code].longUrl
      && r.0.cacheClicks[code] == 1
  {
  }

  /** A concrete run: a record whose counter stood at 10 in both stores is
      evicted from the cache and redirected to once; stats then reports 1. */
  lemma EvictionLosesClicks()
    ensures var rec := Record("AbC1234", "https://example.com/a", "http://localhost:8080/AbC1234", 10);
      var s := State(map["AbC1234" := rec], map["AbC1234" := rec.longUrl], map["AbC1234" := 10]);
      && CacheCovers(s)
      && Stats(s, "AbC1234") == Found(rec)
      && Stats(Redirect(Evict(s, "AbC1234"), "AbC1234").0, "AbC1234") == Found(rec.(clicks := 1))
  {
    var rec := Record("AbC1234", "https://example.com/a", "http://localhost:8080/AbC1234", 10);
    var s := State(map["AbC1234" := rec], map["AbC1234" := rec.longUrl], map["AbC1234" := 10]);
    EvictThenRedirect(s, "AbC1234");
  }

  /** After a record is created, a run of `n` redirects to it: the counter and
      stats count every click, and the durable clicks move only in steps of
      10. */
  lemma CreatedThenRedirects(s: State, body: Option<string>, isWebUri: string -> bool, baseUrl: string, code: string, n: nat)
    requires UniqueLongUrls(s.durable) && ValidCode(code)
    requires Shorten(s, body, isWebUri, baseUrl, code).1.Created?
    ensures var (s', reply) := Shorten(s, body, isWebUri, baseUrl, code);
      var t := RedirectMany(s', code, n);
      && code in t.durable
      && Counter(t.cacheClicks, code) == n
      && t.durable[code] == reply.record.(clicks := 10 * (n / 10))
      && Stats(t, code) == Found(reply.record.(clicks := n))
  {
    var (s', reply) := Shorten(s, body, isWebUri, baseUrl, code);
    assert code in s'.durable && s'.durable[code] == reply.record && Counter(s'.cacheClicks, code) == 0;
    RedirectManyCadence(s', code, n);
    assert FlushedClicks(0, 0, n) == 10 * (n / 10);
  }

  lemma ExampleCodeIsValid()
    ensures ValidCode("AbC1234")
  {
    AlphabetIsAlphanumeric();
  }

  /** The worked example: shorten "https://example.com/a" drawing "AbC1234",
      then redirect to it `n` times. The cache and stats count every click,
      while the durable clicks stay at 0 for the first nine and become 10 at
      the tenth. */
  lemma ShortenThenRedirects(isWebUri: string -> bool, baseUrl: string, n: nat)
    requires isWebUri("https://example.com/a")
    ensures ValidCode("AbC1234")
    ensures var (s, reply) := Shorten(Empty, Some("https://example.com/a"), isWebUri, baseUrl, "AbC1234");
      var t := RedirectMany(s, "AbC1234", n);
      && reply == Created(Record("AbC1234", "https://example.com/a", ShortUrl(baseUrl, "AbC1234"), 0))
      && "AbC1234" in t.durable
      && Counter(t.cacheClicks, "AbC1234") == n
      && Stats(t, "AbC1234") == Found(reply.record.(clicks := n))
      && t.durable["AbC1234"].clicks == 10 * (n / 10)
  {
    ExampleCodeIsValid();
    CreatedThenRedirects(Empty, Some("https://example.com/a"), isWebUri, baseUrl, "AbC1234", n);
  }
}
