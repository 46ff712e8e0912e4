/** The redirect handler `GET /:code`: cache-first lookup of the long URL, a
    fallback to the durable record that refills the cache, an increment of the
    cached counter, and a write-back of that counter every tenth click. */
module Server {
  import opened Stores

  datatype RedirectOutcome = NotFound | Redirected(target: string)

  /** `!longUrl` after `GET code:<code>`: a missing key and an empty string are
      both a miss. */
  predicate IsCacheHit(s: State, code: string)
  {
    code in s.cacheUrl && s.cacheUrl[code] != ""
  }

  /** The write-back cadence: the counter is flushed when it is a multiple of 10. */
  predicate IsFlushPoint(clicks: nat)
  {
    clicks % 10 == 0
  }

  /** One redirect, from the stores before it to the stores after it and the reply. */
  function Redirect(s: State, code: string): (r: (State, RedirectOutcome))
    // the only failure: a miss in the cache and no durable record, with no change
    ensures r.1.NotFound? <==> !IsCacheHit(s, code) && code !in s.durable
    ensures r.1.NotFound? ==> r.0 == s
    // a hit answers from the cache and leaves the URL cache as it was
    ensures IsCacheHit(s, code) ==> r.1 == Redirected(s.cacheUrl[code]) && r.0.cacheUrl == s.cacheUrl
    // a miss with a record answers with the record's URL and refills the cache with it
    ensures !IsCacheHit(s, code) && code in s.durable ==>
              && r.1 == Redirected(s.durable[code].longUrl)
              && r.0.cacheUrl == s.cacheUrl[code := s.durable[code].longUrl]
    // every redirect raises this code's counter (absent meaning 0) by exactly one
    ensures r.1.Redirected? ==>
              r.0.cacheClicks == s.cacheClicks[code := Counter(s.cacheClicks, code) + 1]
    // the durable store keeps its codes, and only this code's clicks can change
    ensures r.0.durable.Keys == s.durable.Keys
    ensures forall k :: k in s.durable && k != code ==> r.0.durable[k] == s.durable[k]
    ensures code in s.durable ==> r.0.durable[code] == s.durable[code].(clicks := r.0.durable[code].clicks)
    // it changes to the new counter exactly at the flush points
    ensures r.1.Redirected? && code in s.durable ==>
              var n := Counter(s.cacheClicks, code) + 1;
              r.0.durable[code].clicks == if IsFlushPoint(n) then n else s.durable[code].clicks
  {
    var cached := Get(s.cacheUrl, code);
    var hit := cached.Some? && cached.value != "";
    var found := FindByCode(s.durable, code);
    if !hit && found.None? then
      (s, NotFound)
    else
      var longUrl := if hit then cached.value else found.value.longUrl;
      var cacheUrl := if hit then s.cacheUrl else s.cacheUrl[code := longUrl];
      var (cacheClicks, clicks) := Incr(s.cacheClicks, code);
      var durable := if IsFlushPoint(clicks) then SetClicks(s.durable, code, clicks) else s.durable;
      (State(durable, cacheUrl, cacheClicks), Redirected(longUrl))
  }

  /** On a cache hit the durable store is not consulted: whatever it holds, the
      reply and the cache afterwards are the same. */
  lemma RedirectHitIgnoresDurable(s: State, other: map<string, Record>, code: string)
    requires IsCacheHit(s, code)
    ensures var t := s.(durable := other);
      && Redirect(t, code).1 == Redirect(s, code).1
      && Redirect(t, code).0.cacheUrl == Redirect(s, code).0.cacheUrl
      && Redirect(t, code).0.cacheClicks == Redirect(s, code).0.cacheClicks
  {
  }

  /** `n` redirects of the same code in a row. */
  function RedirectMany(s: State, code: string, n: nat): (t: State)
    decreases n
  {
    if n == 0 then s else RedirectMany(Redirect(s, code).0, code, n - 1)
  }

  /** The durable clicks after the counter went from `c` up to `c + n`, starting
      from durable clicks `d`: the last multiple of 10 passed, if any. */
  function FlushedClicks(c: nat, d: nat, n: nat): nat
  {
    if (c + n) / 10 > c / 10 then 10 * ((c + n) / 10) else d
  }

  lemma FlushedStep(c: nat, d: nat, n: nat)
    ensures FlushedClicks(c, d, n + 1) ==
            if IsFlushPoint(c + n + 1) then c + n + 1 else FlushedClicks(c, d, n)
  {
    if IsFlushPoint(c + n + 1) {
      assert (c + n + 1) / 10 * 10 == c + n + 1;
    } else {
      assert (c + n + 1) / 10 == (c + n) / 10;
    }
  }

  /** Where a run of redirects has got to for a code: the record is still
      there, the counter is `m` clicks above `c`, and the durable clicks are
      where the cadence puts them. */
  ghost predicate OnCadence(s: State, code: string, rec: Record, c: nat, m: nat)
  {
    && code in s.durable
    && Counter(s.cacheClicks, code) == c + m
    && s.durable[code] == rec.(clicks := FlushedClicks(c, rec.clicks, m))
  }

  /** One redirect moves a code one click further along its cadence. */
  lemma RedirectKeepsCadence(s: State, code: string, rec: Record, c: nat, m: nat)
    requires OnCadence(s, code, rec, c, m)
    ensures OnCadence(Redirect(s, code).0, code, rec, c, m + 1)
  {
    FlushedStep(c, rec.clicks, m);
  }

  /** A run of `n` redirects moves it `n` clicks further. */
  lemma {:induction false} RedirectManyKeepsCadence(s: State, code: string, rec: Record, c: nat, m: nat, n: nat)
    requires OnCadence(s, code, rec, c, m)
    ensures OnCadence(RedirectMany(s, code, n), code, rec, c, m + n)
    decreases n
  {
    if n > 0 {
      var s1 := Redirect(s, code).0;
      RedirectKeepsCadence(s, code, rec, c, m);
      RedirectManyKeepsCadence(s1, code, rec, c, m + 1, n - 1);
    }
  }

  /** The modulo-10 write-back over a run of redirects for a code with a durable
      record: the counter rises by the length of the run, the durable clicks
      hold the last multiple of 10 the counter reached, and the rest of the
      record is untouched. */
  lemma RedirectManyCadence(s: State, code: string, n: nat)
    requires code in s.durable
    ensures code in RedirectMany(s, code, n).durable
    ensures Counter(RedirectMany(s, code, n).cacheClicks, code) == Counter(s.cacheClicks, code) + n
    ensures RedirectMany(s, code, n).durable[code]
            == s.durable[code].(clicks := FlushedClicks(Counter(s.cacheClicks, code), s.durable[code].clicks, n))
  {
    RedirectManyKeepsCadence(s, code, s.durable[code], Counter(s.cacheClicks, code), 0, n);
  }

  /** A run of redirects of one code adds and removes no durable record and
      leaves every other durable record as it was. */
  lemma {:induction false} RedirectManyFrame(s: State, code: string, n: nat)
    ensures RedirectMany(s, code, n).durable.Keys == s.durable.Keys
    ensures forall other :: other in s.durable && other != code ==>
              RedirectMany(s, code, n).durable[other] == s.durable[other]
    decreases n
  {
    if n > 0 {
      RedirectManyFrame(Redirect(s, code).0, code, n - 1);
    }
  }

  /** From a zero counter, after N redirects the cache counter is N and the
      durable clicks are 10 * (N / 10). */
  lemma FreshCodeCadence(s: State, code: string, n: nat)
    requires code in s.durable && s.durable[code].clicks == 0
    requires Counter(s.cacheClicks, code) == 0
    ensures code in RedirectMany(s, code, n).durable
    ensures Counter(RedirectMany(s, code, n).cacheClicks, code) == n
    ensures RedirectMany(s, code, n).durable[code].clicks == 10 * (n / 10)
  {
    RedirectManyCadence(s, code, n);
  }
}
