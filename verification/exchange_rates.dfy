/** The exchange-rate provider of `services/exchangeRates.ts`: a cache of
    the last fetched table with a one-hour window, a fixed fallback table
    when a fetch fails, and conversion into euros. The cache's two
    variables are an explicit state value; the clock and the outcome of the
    request are parameters. */
module ExchangeRates {
  import opened Wrappers
  import opened Types

  /** Rates keyed by currency code, relative to EUR. */
  type RateTable = map<string, real>

  /** `cachedRates` and `lastFetchTime`. */
  datatype RateCache = RateCache(cachedRates: Option<RateTable>, lastFetchTime: int)

  const InitialCache: RateCache := RateCache(None, 0)

  /** One hour, in milliseconds. */
  const CacheDuration: int := 1000 * 60 * 60

  /** The table returned whenever a request fails. */
  const FallbackRates: RateTable := map["USD" := 1.08, "EUR" := 1.0, "TRY" := 0.033]

  /** What one request can end in. A body without a `rates` field yields
      `undefined`, which is stored and returned as it is. */
  datatype FetchOutcome =
    | NetworkError
    | NotOk(status: int)
    | MalformedJson
    | Body(rates: Option<RateTable>)

  /** The returned table (`undefined` is `None`), the new cache, and
      whether a request was made. */
  datatype FetchResult = FetchResult(rates: Option<RateTable>, cache: RateCache, requested: bool)

  /** The cache answers while it holds a table younger than the window. */
  predicate IsFresh(cache: RateCache, now: int) {
    cache.cachedRates.Some? && now - cache.lastFetchTime < CacheDuration
  }

  /** `fetchExchangeRates`, at time `now`, with `outcome` standing for the
      request it would make. */
  function FetchExchangeRates(cache: RateCache, now: int, outcome: FetchOutcome): (r: FetchResult)
    ensures IsFresh(cache, now) ==> r == FetchResult(cache.cachedRates, cache, false)
    ensures !IsFresh(cache, now) && outcome.Body? ==>
              r == FetchResult(outcome.rates, RateCache(outcome.rates, now), true)
    ensures !IsFresh(cache, now) && !outcome.Body? ==>
              r == FetchResult(Some(FallbackRates), cache, true)
  {
    if IsFresh(cache, now) then FetchResult(cache.cachedRates, cache, false)
    else
      match outcome
      case Body(rates) => FetchResult(rates, RateCache(rates, now), true)
      case _ => FetchResult(Some(FallbackRates), cache, true)
  }

  /** `convertToEUR`: EUR amounts are kept, a missing or zero rate leaves
      the amount unconverted, and any other rate divides it. */
  function ConvertToEUR(amount: real, from: Currency, rates: RateTable): (r: real)
    ensures from == EUR ==> r == amount
    ensures from != EUR && (CurrencyCode(from) !in rates || rates[CurrencyCode(from)] == 0.0) ==> r == amount
    ensures from != EUR && CurrencyCode(from) in rates && rates[CurrencyCode(from)] != 0.0 ==>
              r * rates[CurrencyCode(from)] == amount
  {
    if from == EUR then amount
    else
      var code := CurrencyCode(from);
      if code !in rates || rates[code] == 0.0 then amount
      else amount / rates[code]
  }

  // ---------------------------------------------------------------------
  // Properties

  /** After a successful request, every call inside the window returns the
      same table without another request, whatever that request would
      have given. */
  lemma CachedWithinWindow(cache: RateCache, now: int, t: RateTable, later: int, outcome: FetchOutcome)
    requires !IsFresh(cache, now)
    requires later - now < CacheDuration
    ensures var first := FetchExchangeRates(cache, now, Body(Some(t)));
            FetchExchangeRates(first.cache, later, outcome) == FetchResult(Some(t), first.cache, false)
  {
  }

  /** Once the window has passed, the next call makes a request. */
  lemma RequestAfterExpiry(cache: RateCache, now: int, outcome: FetchOutcome)
    requires now - cache.lastFetchTime >= CacheDuration
    ensures FetchExchangeRates(cache, now, outcome).requested
  {
  }

  /** A response with a non-ok status is handled like a network error or a
      body that is not JSON. */
  lemma FailuresAlike(cache: RateCache, now: int, status: int)
    ensures FetchExchangeRates(cache, now, NotOk(status)) == FetchExchangeRates(cache, now, NetworkError)
    ensures FetchExchangeRates(cache, now, MalformedJson) == FetchExchangeRates(cache, now, NetworkError)
  {
  }

  /** A failed request returns the fallback table even when an expired
      table is cached, and leaves that cache as it was. */
  lemma StaleCacheNotUsedOnFailure(t: RateTable, fetchedAt: int, now: int)
    requires now - fetchedAt >= CacheDuration
    ensures var cache := RateCache(Some(t), fetchedAt);
            FetchExchangeRates(cache, now, NetworkError) == FetchResult(Some(FallbackRates), cache, true)
  {
  }

  /** A body without rates stores nothing usable: the next call requests
      again, even inside the window. */
  lemma MissingRatesNotCached(cache: RateCache, now: int, later: int, outcome: FetchOutcome)
    requires !IsFresh(cache, now)
    ensures var first := FetchExchangeRates(cache, now, Body(None));
            first.rates == None && FetchExchangeRates(first.cache, later, outcome).requested
  {
  }

  /** The fallback table converts every supported currency by division. */
  lemma FallbackConversion(amount: real)
    ensures ConvertToEUR(amount, USD, FallbackRates) == amount / 1.08
    ensures ConvertToEUR(amount, TRY, FallbackRates) == amount / 0.033
    ensures ConvertToEUR(amount, EUR, FallbackRates) == amount
  {
  }
}
