/** NIP-11 values: snapshots that share one immutable payload, and the pure part of a fetch. */
module RelayInformation {
  import opened Wrappers

  /** A canonical relay URL. */
  datatype Relay = Relay(url: string)

  const MAX_U64: nat := 0xFFFF_FFFF_FFFF_FFFF
  const DEFAULT_FRESH_FOR: nat := 60 * 60

  datatype CachePolicy = UseCache | Refresh

  datatype Freshness = Fresh | Stale

  datatype Error =
    | ServiceClosed
    | CredentialedRelayUrl
    | Http(reason: string)
    | ResponseTooLarge(limitBytes: nat)
    | InvalidDocument(reason: string)

  /** The exact body received. The parsed document and the revision are functions of `rawJson`. */
  datatype Payload = Payload(relay: Relay, rawJson: string)

  datatype Snapshot = Snapshot(
    payload: Payload,
    fetchedAt: nat,
    freshUntil: nat,
    freshness: Freshness,
    etag: Option<string>,
    lastModified: Option<string>,
    cacheControl: Option<string>,
    expires: Option<string>,
    lastError: Option<Error>)
  {
    /** Another version over the same payload. */
    function WithReadState(freshness: Freshness, lastError: Option<Error>): Snapshot {
      this.(freshness := freshness, lastError := lastError)
    }
  }

  datatype Cached = Cached(snapshot: Snapshot, freshUntil: nat)

  /** A response body and what the document parser says about it. */
  datatype Body = Body(rawJson: string, refusal: Option<Error>)

  /** One HTTP answer: a 200 carries a body, a 304 carries none. */
  datatype Fetched = Fetched(
    body: Option<Body>,
    etag: Option<string>,
    lastModified: Option<string>,
    cacheControl: Option<string>,
    expires: Option<string>,
    freshFor: Option<nat>)

  function SaturatingAdd(a: nat, b: nat): nat {
    if a + b <= MAX_U64 then a + b else MAX_U64
  }

  function OrElse<T>(first: Option<T>, second: Option<T>): Option<T> {
    if first.Some? then first else second
  }

  function FreshnessAt(freshUntil: nat, now: nat): Freshness {
    if now < freshUntil then Fresh else Stale
  }

  /** `inherited` is what the header parser makes of the headers a 304 left standing. */
  function FinishFetch(relay: Relay, cached: Option<Cached>, fetched: Fetched, inherited: Option<nat>, now: nat)
    : (r: Result<Snapshot, Error>)
    ensures r.Ok? && fetched.body.Some? ==> r.value.payload == Payload(relay, fetched.body.value.rawJson)
    ensures r.Ok? && fetched.body.None? ==> cached.Some? && r.value.payload == cached.value.snapshot.payload
    ensures r.Ok? ==> r.value.lastError.None? && r.value.fetchedAt == now
    ensures r.Ok? <==> if fetched.body.Some? then fetched.body.value.refusal.None? else cached.Some?
    ensures fetched.body.Some? && r.Err? ==> r == Err(fetched.body.value.refusal.value)
    ensures fetched.body.None? && r.Err? ==> r.error.Http?
  {
    if fetched.body.Some? then
      if fetched.body.value.refusal.Some? then Err(fetched.body.value.refusal.value)
      else
        var freshFor := if fetched.freshFor.Some? then fetched.freshFor.value else DEFAULT_FRESH_FOR;
        var freshUntil := SaturatingAdd(now, freshFor);
        Ok(Snapshot(Payload(relay, fetched.body.value.rawJson), now, freshUntil, FreshnessAt(freshUntil, now),
                    fetched.etag, fetched.lastModified, fetched.cacheControl, fetched.expires, None))
    else if cached.None? then Err(Http("relay returned 304 without a cached document"))
    else
      var held := cached.value.snapshot;
      var known := OrElse(fetched.freshFor, inherited);
      var freshFor := if known.Some? then known.value else DEFAULT_FRESH_FOR;
      var freshUntil := SaturatingAdd(now, freshFor);
      Ok(held.(fetchedAt := now,
               freshUntil := freshUntil,
               freshness := FreshnessAt(freshUntil, now),
               etag := OrElse(fetched.etag, held.etag),
               lastModified := OrElse(fetched.lastModified, held.lastModified),
               cacheControl := OrElse(fetched.cacheControl, held.cacheControl),
               expires := OrElse(fetched.expires, held.expires),
               lastError := None))
  }

  /** `header` is the answer's own, or else the one that stood before. */
  predicate Inherits(header: Option<string>, own: Option<string>, before: Option<string>) {
    (own.Some? ==> header == own) && (own.None? ==> header == before)
  }

  /** `now` and the lifetime, unless that passes the 64-bit clock. */
  predicate Expires(until: nat, now: nat, lifetime: nat) {
    until <= 0xFFFF_FFFF_FFFF_FFFF && until <= now + lifetime
    && (until < now + lifetime ==> until == 0xFFFF_FFFF_FFFF_FFFF)
  }

  /** What a success holds: a 200 brings its own headers and lifetime, a 304 replaces only the headers it carries
      and falls back on the inherited lifetime; an hour stands in where no lifetime is known. */
  lemma FetchedDocument(relay: Relay, cached: Option<Cached>, fetched: Fetched, inherited: Option<nat>, now: nat)
    requires FinishFetch(relay, cached, fetched, inherited, now).Ok?
    ensures
      var s := FinishFetch(relay, cached, fetched, inherited, now).value;
      var before := if fetched.body.Some? then fetched else
        var held := cached.value.snapshot;
        Fetched(None, held.etag, held.lastModified, held.cacheControl, held.expires, inherited);
      && Inherits(s.etag, fetched.etag, before.etag)
      && Inherits(s.lastModified, fetched.lastModified, before.lastModified)
      && Inherits(s.cacheControl, fetched.cacheControl, before.cacheControl)
      && Inherits(s.expires, fetched.expires, before.expires)
      && (fetched.freshFor.Some? ==> Expires(s.freshUntil, now, fetched.freshFor.value))
      && (fetched.freshFor.None? && before.freshFor.Some? ==> Expires(s.freshUntil, now, before.freshFor.value))
      && (fetched.freshFor.None? && before.freshFor.None? ==> Expires(s.freshUntil, now, 3600))
      && (s.freshness == Fresh <==> now < s.freshUntil)
  {
  }

  /** The conditional headers a worker sends for the document it found in the cache: both validators, the missing one
      empty, and nothing at all only where there is neither. */
  function Validators(cached: Option<Cached>): (v: Option<(string, string)>)
    ensures v.None? <==> cached.None? || (cached.value.snapshot.etag in {None, Some("")}
                                          && cached.value.snapshot.lastModified in {None, Some("")})
    ensures v.Some? ==>
      && (v.value.0 == "" <==> cached.value.snapshot.etag in {None, Some("")})
      && (v.value.0 != "" ==> cached.value.snapshot.etag == Some(v.value.0))
      && (v.value.1 == "" <==> cached.value.snapshot.lastModified in {None, Some("")})
      && (v.value.1 != "" ==> cached.value.snapshot.lastModified == Some(v.value.1))
  {
    var etag := if cached.Some? && cached.value.snapshot.etag.Some? then cached.value.snapshot.etag.value else "";
    var lastModified :=
      if cached.Some? && cached.value.snapshot.lastModified.Some? then cached.value.snapshot.lastModified.value else "";
    if etag != "" || lastModified != "" then Some((etag, lastModified)) else None
  }
}
