/** The two stores behind the service and the primitive operations the handlers
    use on them: the durable `Url` collection (Mongo) and the fast cache (Redis). */
module Stores {

  datatype Option<T> = None | Some(value: T)

  /** One document of the durable `Url` collection (timestamps are not modelled). */
  datatype Record = Record(code: string, longUrl: string, shortUrl: string, clicks: nat)

  /** The whole observable state: the durable collection keyed by `code`, and the
      two cache key families `code:<c>` (long URL) and `clicks:<c>` (counter). */
  datatype State = State(
    durable: map<string, Record>,
    cacheUrl: map<string, string>,
    cacheClicks: map<string, nat>)

  const Empty := State(map[], map[], map[])

  /** Every durable record is stored under its own code. */
  ghost predicate KeyedByCode(durable: map<string, Record>)
  {
    forall k :: k in durable ==> durable[k].code == k
  }

  /** At most one durable record per long URL. */
  ghost predicate UniqueLongUrls(durable: map<string, Record>)
  {
    forall k1, k2 :: k1 in durable && k2 in durable && durable[k1].longUrl == durable[k2].longUrl ==> k1 == k2
  }

  ghost predicate Valid(s: State)
  {
    KeyedByCode(s.durable) && UniqueLongUrls(s.durable)
  }

  /** Redis GET: the stored value, or nothing when the key is absent. */
  function Get<V>(m: map<string, V>, key: string): (r: Option<V>)
    ensures r.Some? <==> key in m
    ensures r.Some? ==> r.value == m[key]
  {
    if key in m then Some(m[key]) else None
  }

  /** The current value of the counter `clicks:<code>`; an absent key reads as 0. */
  function Counter(counters: map<string, nat>, code: string): nat
  {
    if code in counters then counters[code] else 0
  }

  /** Redis INCR: the counter goes up by one, starting from 0 when absent, and the
      new value is returned; no other key changes. */
  function Incr(counters: map<string, nat>, code: string): (r: (map<string, nat>, nat))
    ensures r.1 == Counter(counters, code) + 1
    ensures r.0.Keys == counters.Keys + {code}
    ensures r.0[code] == r.1
    ensures forall k :: k in counters && k != code ==> r.0[k] == counters[k]
  {
    var n := Counter(counters, code) + 1;
    (counters[code := n], n)
  }

  /** `Url.findOne({ code })`: the record stored under that code (under
      KeyedByCode, the record whose `code` field is `code`). */
  function FindByCode(durable: map<string, Record>, code: string): (r: Option<Record>)
    ensures r.Some? <==> code in durable
    ensures r.Some? ==> r.value == durable[code]
    ensures KeyedByCode(durable) && r.Some? ==> r.value.code == code
  {
    Get(durable, code)
  }

  /** `Url.findOne({ longUrl })`: the one record with that long URL, if any. */
  function FindByLongUrl(durable: map<string, Record>, longUrl: string): (r: Option<Record>)
    requires UniqueLongUrls(durable)
    ensures r.None? <==> forall k :: k in durable ==> durable[k].longUrl != longUrl
    ensures r.Some? ==> exists k :: k in durable && durable[k] == r.value && r.value.longUrl == longUrl
  {
    if exists k :: k in durable && durable[k].longUrl == longUrl then
      var k :| k in durable && durable[k].longUrl == longUrl;
      Some(durable[k])
    else
      None
  }

  /** `Url.updateOne({ code }, { $set: { clicks } })`: sets the counter of the
      record with that code, if there is one (no upsert); nothing else changes. */
  function SetClicks(durable: map<string, Record>, code: string, clicks: nat): (r: map<string, Record>)
    ensures r.Keys == durable.Keys
    ensures code in durable ==> r[code] == durable[code].(clicks := clicks)
    ensures forall k :: k in durable && k != code ==> r[k] == durable[k]
  {
    if code in durable then durable[code := durable[code].(clicks := clicks)] else durable
  }
}
