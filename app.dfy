/** The running service: the two stores as mutable state, and the three
    handlers as methods that work on them step by step, each proved to produce
    the state and reply of its specification function. */
module App {
  import opened Stores
  import opened Codes
  import Server
  import Routes
  import Properties
  import ShortUrls

  class Shortener {
    var durable: map<string, Record>
    var cacheUrl: map<string, string>
    var cacheClicks: map<string, nat>
    const baseUrl: string

    function Current(): State
      reads this
    {
      State(durable, cacheUrl, cacheClicks)
    }

    ghost predicate Valid()
      reads this
    {
      Properties.WellFormed(Current(), baseUrl)
    }

    constructor (baseUrl: string)
      ensures Valid()
      ensures Current() == Empty && this.baseUrl == baseUrl
    {
      this.baseUrl := baseUrl;
      durable, cacheUrl, cacheClicks := map[], map[], map[];
    }

    /** `GET /:code`. */
    method Redirect(code: string) returns (outcome: Server.RedirectOutcome)
      modifies this
      ensures (Current(), outcome) == Server.Redirect(old(Current()), code)
      ensures old(Valid()) ==> Valid()
      ensures old(Properties.CacheCovers(Current())) ==> Properties.CacheCovers(Current())
    {
      ghost var before := Current();
      var longUrl := Get(cacheUrl, code);
      var target: string;
      if longUrl.None? || longUrl.value == "" {
        var url := FindByCode(durable, code);
        if url.None? {
          return Server.NotFound;
        }
        target := url.value.longUrl;
        cacheUrl := cacheUrl[code := target];
      } else {
        target := longUrl.value;
      }
      var (counters, clicks) := Incr(cacheClicks, code);
      cacheClicks := counters;
      if clicks % 10 == 0 {
        durable := SetClicks(durable, code, clicks);
      }
      outcome := Server.Redirected(target);
      if Properties.WellFormed(before, baseUrl) {
        Properties.RedirectPreservesWellFormed(before, baseUrl, code);
      }
      if Properties.CacheCovers(before) {
        Properties.RedirectPreservesCacheCovers(before, code);
      }
    }

    /** `POST /api/shorten`; `code` is the generator's draw for this request. */
    method Shorten(body: Option<string>, isWebUri: string -> bool, code: string) returns (reply: Routes.ShortenReply)
      requires Valid() && ValidCode(code)
      modifies this
      ensures Valid()
      ensures (Current(), reply) == Routes.Shorten(old(Current()), body, isWebUri, baseUrl, code)
      ensures old(Properties.CacheCovers(Current())) ==> Properties.CacheCovers(Current())
    {
      ghost var before := Current();
      Properties.ShortenPreservesWellFormed(before, body, isWebUri, baseUrl, code);
      if Properties.CacheCovers(before) {
        Properties.ShortenPreservesCacheCovers(before, body, isWebUri, baseUrl, code);
      }
      if body.None? || body.value == "" || !isWebUri(body.value) {
        return Routes.InvalidInput;
      }
      var longUrl := body.value;
      var existing := FindByLongUrl(durable, longUrl);
      if existing.Some? {
        return Routes.Existing(existing.value);
      }
      if code in durable {
        return Routes.DuplicateKey;
      }
      var created := Record(code, longUrl, ShortUrls.ShortUrl(baseUrl, code), 0);
      durable := durable[code := created];
      cacheUrl := cacheUrl[code := longUrl];
      cacheClicks := cacheClicks[code := 0];
      reply := Routes.Created(created);
    }

    /** `GET /api/stats/:code`; it has no modifies clause, so neither store changes. */
    method Stats(code: string) returns (reply: Routes.StatsReply)
      ensures reply == Routes.Stats(Current(), code)
    {
      var url := FindByCode(durable, code);
      if url.None? {
        return Routes.CodeNotFound;
      }
      var record := url.value;
      var cachedClicks := Get(cacheClicks, code);
      if cachedClicks.Some? {
        record := record.(clicks := cachedClicks.value);
      }
      reply := Routes.Found(record);
    }
  }
}
