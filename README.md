# URL shortener: the dual-store model

This project models the core of a small URL-shortening service. It has two
stores:

- a durable `Url` collection of records `{ code, longUrl, shortUrl, clicks }`,
  keyed by `code`;
- a fast cache with two key families per code: `code:<c>` holds the long URL
  and `clicks:<c>` holds a click counter.

Three handlers act on these stores:

- **Redirect** (`GET /:code`). Look the long URL up in the cache. On a miss,
  read the durable record and write its URL back into the cache. Increment
  the cached counter. When the new count is a multiple of 10, write it back to
  the durable record.
- **Shorten** (`POST /api/shorten`). Reject a missing or invalid URL. Return
  the existing record for a URL seen before. Otherwise mint a 7-symbol code,
  derive the short URL, create the record with zero clicks, and seed both
  cache keys.
- **Stats** (`GET /api/stats/:code`). Return the durable record, with the
  cached counter in place of its clicks when the cache has one.

Layout:

- `stores.dfy` (module `Stores`): the record and state datatypes, plus the
  store primitives (`findOne`, `updateOne`, `GET`, `INCR`).
- `codes.dfy` (module `Codes`): the generator's 62-symbol alphabet and 7-symbol
  length.
- `short_urls.dfy` (module `ShortUrls`): the short-URL derivation.
- `server.dfy` (module `Server`): the redirect handler as a function from
  state to state and reply, with its lemmas.
- `routes.dfy` (module `Routes`): the shorten and stats handlers as functions.
- `properties.dfy` (module `Properties`): invariants and lemmas that span
  several calls.
- `app.dfy` (module `App`): class `Shortener`. Its fields are the three store
  maps. Its methods perform the handlers step by step, and each is proved to
  reach the state and reply of its function.

Inputs the model takes as parameters:

- The generated code is a parameter that must be a `ValidCode`.
  `Codes.Generate` shows how a draw of alphabet positions becomes such a code.
- The URL validator `isWebUri` is a function parameter.
- The base URL is a parameter of `Shorten` and a constant field of the class.

`Properties.Evict` stands for the cache dropping a code's keys (eviction or
restart). That is something the environment does, not the service, and it is
used only to state what the service does afterwards.

Behaviours of the code that the model keeps:

- A repeated URL is answered with status 200 (`res.json`), not 201. It has its
  own reply, `Existing`, distinct from `Created`.
- The handler itself rejects a missing or empty `longUrl` or one the validator
  refuses (`InvalidInput`).
- The short URL is the base URL with at most ONE trailing `/` removed, then
  `/`, then the code. The result is not always `baseUrl + "/" + code`.
- A cached long URL that is the empty string counts as a miss (`!longUrl`).
- The refill on a miss writes only `code:<c>`. The counter is not seeded from
  the durable clicks. After an eviction it restarts at 1, so stats can report
  fewer clicks than before (`EvictThenRedirect`, `EvictionLosesClicks`).
- The cached counter stays at or above the durable clicks only while nothing
  is evicted. This is `CacheCovers`, which shorten and redirect preserve.
- The handler never checks for a code collision. The durable map is keyed by
  code, so a second record under a code already in use is refused with
  `DuplicateKey` and nothing changes. The `Url` schema (models/Url) is not part
  of this model.

## Model

| member | source | states |
|---|---|---|
| Stores.Get | src/server.js:39 | Redis `GET` finds a value exactly when the key is present, and returns the value stored under it |
| Stores.FindByCode | src/server.js:41 | `findOne({ code })` finds a record exactly when one is stored under the code, and returns that record |
| Stores.FindByLongUrl | src/routes/index.js:24 | `findOne({ longUrl })` returns nothing exactly when no record has that URL; otherwise it returns a stored record with that URL |
| Stores.Incr | src/server.js:48 | `INCR clicks:<c>` returns the old counter plus one, an absent counter counting as 0; it stores that value and leaves every other counter alone |
| Stores.SetClicks | src/server.js:51 | `updateOne` sets only the clicks of the record with that code; without such a record nothing changes (no upsert); the codes and all other records stay the same |
| Codes.AlphabetAt | src/routes/index.js:9 | the alphabet `0-9a-zA-Z` has 62 symbols, and position `i` holds the `i`-th digit, then lower-case, then upper-case letter |
| Codes.AlphabetIsAlphanumeric | src/routes/index.js:9 | the alphabet has 62 distinct symbols, and a character is in it exactly when it is an ASCII digit or letter |
| Codes.ValidCodeHasNoSlash | src/routes/index.js:9 | a 7-symbol code over the alphabet contains no `/` |
| Codes.Generate | src/routes/index.js:9 | a draw of positions below 62 gives a code of the same length whose every symbol is the one at the drawn position |
| Codes.GenerateIsValid | src/routes/index.js:9 | each generated symbol is the alphabet's symbol at the drawn position, so a draw of 7 positions gives a valid code |
| Codes.PositionsOfGenerate | src/routes/index.js:9 | decoding a generated code gives back the draw, so distinct draws give distinct codes |
| Codes.GenerateOfPositions | src/routes/index.js:9 | every alphanumeric string can be generated, so all 62^7 codes can be drawn |
| ShortUrls.StripTrailingSlash | src/routes/index.js:30 | the result is the base URL itself, or the base URL less one final `/`; the `/` is removed exactly when the base URL ends in one |
| ShortUrls.ShortUrl | src/routes/index.js:30 | a base URL ending in `/` is joined to the code directly; any other base URL gets one `/` before the code |
| ShortUrls.TrailingSlashIrrelevant | src/routes/index.js:30 | a base URL with or without its trailing `/` gives the same short URL |
| ShortUrls.OnlyOneSlashRemoved | src/routes/index.js:30 | only one `/` is removed: base `http://h//` and code `abc` give `http://h//abc` |
| ShortUrls.ShortUrlRecoversCode | src/routes/index.js:30 | the last path segment of the short URL is the code, for any code without `/` |
| ShortUrls.ShortUrlInjective | src/routes/index.js:30 | for one base URL, distinct codes have distinct short URLs |
| Server.Redirect | src/server.js:33-58 | NotFound exactly on a cache miss (absent or empty) with no record, and then nothing changes; a hit answers the cached URL and leaves the URL cache alone; a miss with a record answers its URL and writes it to `code:<c>`; each redirect raises the counter by exactly one from 0-if-absent; the durable clicks become the new count if and only if it is a multiple of 10; only that code's `clicks` can change in the durable store |
| Server.RedirectHitIgnoresDurable | src/server.js:39-40 | on a cache hit, the reply and both cache maps afterwards do not depend on the durable store |
| Server.RedirectKeepsCadence | src/server.js:48-52 | one redirect of a code with a record raises its counter by one and moves the durable clicks one step along the flush-at-multiples-of-10 cadence, leaving the rest of the record alone |
| Server.RedirectManyKeepsCadence | src/server.js:48-52 | a run of `n` redirects moves the code `n` steps along that cadence |
| Server.RedirectManyFrame | src/server.js:50-52 | a run of redirects of one code neither adds nor removes a durable record and leaves every other code's record as it was |
| Server.FlushedStep | src/server.js:50-52 | one more click moves the durable clicks to the new count at a multiple of 10 and leaves them otherwise |
| Server.RedirectManyCadence | src/server.js:48-52 | after n redirects of a code with a record, the record is still there, the counter is up by n, the durable clicks hold the last multiple of 10 passed (or their old value if none was passed), and the rest of the record is unchanged |
| Server.FreshCodeCadence | src/server.js:48-52 | starting from zero clicks, after N redirects the cache counter is N and the durable clicks are 10 * (N / 10) |
| Routes.Shorten | src/routes/index.js:16-39 | InvalidInput exactly for a missing, empty or invalid URL; Existing exactly for a valid URL already stored, answered with its stored record; DuplicateKey exactly for a new URL whose code is taken; Created exactly for a valid new URL under a free code; every reply but Created leaves both stores unchanged; Created is `{ code, longUrl, shortUrl(baseUrl, code), clicks: 0 }` stored under the code, with `code:<c> = longUrl` and `clicks:<c> = 0` |
| Routes.Stats | src/routes/index.js:45-63 | CodeNotFound exactly when no record has the code; otherwise the record's code, longUrl and shortUrl, with clicks from the cache when it has a counter and the durable clicks when it does not |
| Routes.CreatedRecordIsWellFormed | src/routes/index.js:29-35 | a created record has a valid 7-symbol code and zero clicks, its short URL ends in the code, and stats on it returns exactly that record |
| Properties.ShortenPreservesWellFormed | src/routes/index.js:24-32 | shorten keeps each record under its own valid code, with the derived short URL, and at most one record per long URL |
| Properties.RedirectPreservesWellFormed | src/server.js:50-52 | redirect keeps that invariant as well |
| Properties.ShortenPreservesCacheCovers | src/routes/index.js:32-34 | shorten keeps every record's cache counter present and at least its durable clicks |
| Properties.RedirectPreservesCacheCovers | src/server.js:48-52 | so does the increment-then-flush of a redirect |
| Properties.ShortenIdempotent | src/routes/index.js:24-27 | after a URL is shortened once, shortening it again with any drawn code returns the same record and changes nothing |
| Properties.StatsMonotonic | src/routes/index.js:51-57 | while counters cover the records, stats never reports fewer clicks after a redirect, and exactly one more for the code redirected |
| Properties.EvictThenRedirect | src/server.js:40-48 | after an eviction, redirect still answers the record's URL and refills `code:<c>`, but the counter restarts at 1 |
| Properties.EvictionLosesClicks | src/server.js:48 | a record at 10 clicks in both stores, evicted and redirected once, is reported by stats with 1 click |
| Properties.CreatedThenRedirects | src/routes/index.js:32-34 | after a record is created, `n` redirects to it leave the counter at `n`, stats reporting `n` clicks and the durable clicks at `10 * (n / 10)`, with the rest of the record as created |
| Properties.ShortenThenRedirects | src/server.js:48-52 | shortening `https://example.com/a` as `AbC1234` creates it with 0 clicks; after `n` redirects the counter and stats show `n` and the durable clicks are `10 * (n / 10)`: 0 for the first nine, 10 from the tenth |
| App.Shortener.Redirect | src/server.js:33-58 | the method's new stores and reply are those of `Server.Redirect`; it keeps the class invariant and CacheCovers |
| App.Shortener.Shorten | src/routes/index.js:16-39 | the method's new stores and reply are those of `Routes.Shorten`; it keeps the class invariant and CacheCovers |
| App.Shortener.Stats | src/routes/index.js:45-63 | the reply is `Routes.Stats` of the current stores; without a modifies clause, neither store changes |

## Left out

- Express setup, middleware, `app.listen`, the `/health` route and the 500
  error handler (src/server.js:13-30, 60-74): HTTP plumbing, not store logic.
- Database and cache connections (`mongoose.connect`, `new Redis`) and every
  store failure surfacing as a 500: the stores are in-memory maps that always
  answer.
- src/config.js: it only reads environment variables, so the base URL is a
  parameter.
- Concurrency: the atomicity of `INCR` under parallel requests, and the
  un-awaited cache writes of shorten. The model is sequential, and those cache
  writes complete before the next request.
- The randomness inside `nanoid` and the URL grammar of `valid-url`. These are
  foreign libraries. The drawn code and `isWebUri` are inputs.
- A request body whose `longUrl` is not a string: the body is modelled as an
  optional string.
- The counter's decimal-string encoding in the cache (`parseInt`), Redis's
  64-bit limit on `INCR`, and its error on a non-integer value: the counter is
  an unbounded `nat`.
- The `createdAt`/`updatedAt` timestamps set by the Url schema, and the
  Mongo `_id`.
- Durable records with the same long URL. Shorten is specified on states with
  at most one record per URL (`UniqueLongUrls`). Every handler preserves this.
  Only the concurrent race left out above could break it.
