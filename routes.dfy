/** The API routes: `POST /api/shorten` (validate, deduplicate, mint a code,
    create the record, seed the cache) and `GET /api/stats/:code` (the durable
    record with the cached counter laid over it). */
module Routes {
  import opened Stores
  import opened Codes
  import opened ShortUrls

  datatype ShortenReply =
    | InvalidInput           // 400: missing or invalid longUrl
    | Existing(record: Record) // 200: the record already made for this longUrl
    | Created(record: Record)  // 201: the newly created record
    | DuplicateKey           // the durable store refused a second record with this code

  datatype StatsReply = CodeNotFound | Found(record: Record)

  /** `!longUrl || !validUrl.isWebUri(longUrl)`: an absent or empty field, or
      one the validator rejects. */
  predicate Rejected(body: Option<string>, isWebUri: string -> bool)
  {
    body.None? || body.value == "" || !isWebUri(body.value)
  }

  predicate HasLongUrl(durable: map<string, Record>, longUrl: string)
  {
    exists k :: k in durable && durable[k].longUrl == longUrl
  }

  /** One call of the shorten handler. `code` is what the generator drew;
      `isWebUri` stands for the URL validator. */
  function Shorten(s: State, body: Option<string>, isWebUri: string -> bool, baseUrl: string, code: string)
    : (r: (State, ShortenReply))
    requires UniqueLongUrls(s.durable)
    requires ValidCode(code)
    // invalid input: 400 and no change
    ensures r.1.InvalidInput? <==> Rejected(body, isWebUri)
    // a URL seen before: its record back, and no change
    ensures r.1.Existing? <==> !Rejected(body, isWebUri) && HasLongUrl(s.durable, body.value)
    ensures r.1.Existing? ==>
              exists k :: k in s.durable && s.durable[k] == r.1.record && r.1.record.longUrl == body.value
    // a new URL whose code is already taken: refused, no change
    ensures r.1.DuplicateKey? <==>
              !Rejected(body, isWebUri) && !HasLongUrl(s.durable, body.value) && code in s.durable
    ensures !r.1.Created? ==> r.0 == s
    // a valid new URL under a free code is always created
    ensures r.1.Created? <==>
              !Rejected(body, isWebUri) && !HasLongUrl(s.durable, body.value) && code !in s.durable
    // a new URL: a record with zero clicks under the fresh code, and both cache keys seeded
    ensures r.1.Created? ==>
              && r.1.record == Record(code, body.value, ShortUrl(baseUrl, code), 0)
              && r.0.durable == s.durable[code := r.1.record]
              && r.0.cacheUrl == s.cacheUrl[code := body.value]
              && r.0.cacheClicks == s.cacheClicks[code := 0]
  {
    if Rejected(body, isWebUri) then
      (s, InvalidInput)
    else
      var longUrl := body.value;
      var existing := FindByLongUrl(s.durable, longUrl);
      if existing.Some? then
        (s, Existing(existing.value))
      else if code in s.durable then
        (s, DuplicateKey)
      else
        var created := Record(code, longUrl, ShortUrl(baseUrl, code), 0);
        (State(s.durable[code := created], s.cacheUrl[code := longUrl], s.cacheClicks[code := 0]),
         Created(created))
  }

  /** One call of the stats handler: the durable record, with the cached counter
      in place of its clicks when the cache has one. */
  function Stats(s: State, code: string): (r: StatsReply)
    ensures r.CodeNotFound? <==> code !in s.durable
    ensures r.Found? ==>
              && r.record.code == s.durable[code].code
              && r.record.longUrl == s.durable[code].longUrl
              && r.record.shortUrl == s.durable[code].shortUrl
    ensures r.Found? && code in s.cacheClicks ==> r.record.clicks == s.cacheClicks[code]
    ensures r.Found? && code !in s.cacheClicks ==> r.record == s.durable[code]
  {
    match FindByCode(s.durable, code)
    case None => CodeNotFound
    case Some(url) =>
      match Get(s.cacheClicks, code)
      case Some(cached) => Found(url.(clicks := cached))
      case None => Found(url)
  }

  /** A record created by shorten carries a valid code, starts at zero clicks,
      and its short URL ends in that code. */
  lemma CreatedRecordIsWellFormed(s: State, body: Option<string>, isWebUri: string -> bool, baseUrl: string, code: string)
    requires UniqueLongUrls(s.durable) && ValidCode(code)
    requires Shorten(s, body, isWebUri, baseUrl, code).1.Created?
    ensures var rec := Shorten(s, body, isWebUri, baseUrl, code).1.record;
      && ValidCode(rec.code) && |rec.code| == 7 && rec.clicks == 0
      && LastSegment(rec.shortUrl) == rec.code
      && Stats(Shorten(s, body, isWebUri, baseUrl, code).0, code) == Found(rec)
  {
    ValidCodeHasNoSlash(code);
    ShortUrlRecoversCode(baseUrl, code);
  }
}
