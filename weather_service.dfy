/**
 * The weather forecast service: a dated lookup that answers from the
 * forecast store when it can and otherwise asks the external provider,
 * counting requests, hits and misses; and an undated lookup that always
 * asks the provider and falls back to a fixed default forecast.
 *
 * The provider is a function from a location to its reply; today's date
 * and the wall clock arrive as a `Clock` value. Dates are epoch-day
 * numbers, timestamps are seconds (milliseconds for the wall clock).
 */
module Weather {
  import opened Wrappers
  import opened Entities
  import opened Persistence

  const SECONDS_PER_DAY := 86400
  const MILLIS_PER_SECOND := 1000
  /** Dated requests further ahead than this many days get the default forecast. */
  const MAX_DAYS_AHEAD := 5
  const DEFAULT_LOCATION := "Aveiro,PT"
  /** A placeholder location the undated lookup replaces by the default one. */
  const PLACEHOLDER_LOCATION := "Test Location"
  /** The epoch-day range of a calendar date; a day outside it cannot be built. */
  const MIN_EPOCH_DAY := -365243219162
  const MAX_EPOCH_DAY := 365241780471

  /** One sample of the provider's forecast list. */
  datatype WeatherData = WeatherData(
    timestamp: int,
    temperature: real,
    humidity: real,
    descriptions: seq<string>,
    windSpeed: real)

  /** What the provider call gives back: an exception, no body, or a body whose list may be absent. */
  datatype ProviderReply = Threw | NullResponse | Response(weatherData: Option<seq<WeatherData>>)

  /** The current date (epoch day) and wall-clock time (milliseconds since the epoch). */
  datatype Clock = Clock(today: int, epochMillis: int)

  /** The exceptions the dated lookup lets escape. */
  datatype FetchError =
    | ProviderFailed     // the provider call itself threw
    | MissingBody        // no response body, or no forecast list in it
    | IndexOutOfBounds   // the chosen sample has no weather description
    | DateOutOfRange     // a sample's day is not a representable date

  /** A provider answer to a cache miss: a forecast to save, or the default to return unsaved. */
  datatype Fetched = Saved(forecast: WeatherForecast) | Fallback(forecast: WeatherForecast)

  datatype CacheStats = CacheStats(totalRequests: int, cacheHits: int, cacheMisses: int, hitRate: real)

  /** Integer division rounding toward zero, as Java's `/` on `long`. */
  function TruncatingDiv(a: int, d: int): (q: int)
    requires d > 0
    ensures a >= 0 ==> q * d <= a < q * d + d
    ensures a < 0 ==> q * d - d < a <= q * d
  {
    if a >= 0 then a / d else -((-a) / d)
  }

  /** The calendar day (epoch day) a provider timestamp in seconds falls on. */
  function EpochDayOf(timestamp: int): (day: int)
    ensures timestamp >= 0 ==> day * SECONDS_PER_DAY <= timestamp < day * SECONDS_PER_DAY + SECONDS_PER_DAY
    ensures timestamp < 0 ==> day * SECONDS_PER_DAY - SECONDS_PER_DAY < timestamp <= day * SECONDS_PER_DAY
  {
    TruncatingDiv(timestamp, SECONDS_PER_DAY)
  }

  predicate IsDate(day: int) {
    MIN_EPOCH_DAY <= day <= MAX_EPOCH_DAY
  }

  /** Every sample before index k falls on a representable day other than `date`. */
  ghost predicate ScansPast(samples: seq<WeatherData>, date: int, k: int)
    requires 0 <= k <= |samples|
  {
    forall j :: 0 <= j < k ==>
      IsDate(EpochDayOf(samples[j].timestamp)) && EpochDayOf(samples[j].timestamp) != date
  }

  /** Index i holds the first sample on `date`, and the scan reaches it without an invalid day. */
  ghost predicate IsFirstOnDate(samples: seq<WeatherData>, date: int, i: int) {
    && 0 <= i < |samples|
    && EpochDayOf(samples[i].timestamp) == date && IsDate(date)
    && ScansPast(samples, date, i)
  }

  /**
   * The stream filter-and-findFirst over the samples: the index of the first
   * sample on `date`; a sample before it whose day is not a date aborts the
   * scan.
   */
  function FirstOnDate(samples: seq<WeatherData>, date: int): (r: Result<Option<nat>, FetchError>)
    ensures r.Ok? && r.value.Some? ==> IsFirstOnDate(samples, date, r.value.value)
    ensures r == Ok(None) <==> ScansPast(samples, date, |samples|)
    ensures r.Err? ==> r.error == DateOutOfRange
  {
    if |samples| == 0 then Ok(None)
    else
      var day := EpochDayOf(samples[0].timestamp);
      if !IsDate(day) then Err(DateOutOfRange)
      else if day == date then Ok(Some(0))
      else
        assert forall j :: 0 < j < |samples| ==> samples[1..][j - 1] == samples[j];
        match FirstOnDate(samples[1..], date)
        case Ok(Some(i)) => Ok(Some(i + 1))
        case other => other
  }

  /** A sample on the date that the scan reaches is the one found. */
  lemma {:induction false} FirstOnDateFindsFirst(samples: seq<WeatherData>, date: int, i: int)
    requires IsFirstOnDate(samples, date, i)
    ensures FirstOnDate(samples, date) == Ok(Some(i))
    decreases i
  {
    if i > 0 {
      var rest := samples[1..];
      assert forall j :: 0 <= j < |rest| ==> rest[j] == samples[j + 1];
      assert IsFirstOnDate(rest, date, i - 1);
      FirstOnDateFindsFirst(rest, date, i - 1);
    }
  }

  /** A day that cannot be built, reached before any sample on the date, aborts the scan. */
  lemma {:induction false} FirstOnDateAborts(samples: seq<WeatherData>, date: int, k: int)
    requires 0 <= k < |samples| && !IsDate(EpochDayOf(samples[k].timestamp)) && ScansPast(samples, date, k)
    ensures FirstOnDate(samples, date) == Err(DateOutOfRange)
    decreases k
  {
    if k > 0 {
      var rest := samples[1..];
      assert forall j :: 0 <= j < |rest| ==> rest[j] == samples[j + 1];
      assert ScansPast(rest, date, k - 1);
      FirstOnDateAborts(rest, date, k - 1);
    }
  }

  /** The forecast built from one sample, tagged with `location`. */
  function ForecastFromData(data: WeatherData, location: string): (r: Result<WeatherForecast, FetchError>)
    ensures !IsDate(EpochDayOf(data.timestamp)) ==> r == Err(DateOutOfRange)
    ensures IsDate(EpochDayOf(data.timestamp)) && |data.descriptions| == 0 ==> r == Err(IndexOutOfBounds)
    ensures r.Ok? <==> IsDate(EpochDayOf(data.timestamp)) && |data.descriptions| > 0
    ensures r.Ok? ==>
      && r.value.date == EpochDayOf(data.timestamp) && r.value.location == location
      && r.value.temperature == data.temperature && r.value.humidity == data.humidity
      && r.value.description == data.descriptions[0] && r.value.windSpeed == data.windSpeed
      && r.value.timestamp == data.timestamp
  {
    var day := EpochDayOf(data.timestamp);
    if !IsDate(day) then Err(DateOutOfRange)
    else if |data.descriptions| == 0 then Err(IndexOutOfBounds)
    else Ok(WeatherForecast(day, location, data.temperature, data.descriptions[0],
                            data.humidity, data.windSpeed, data.timestamp))
  }

  /** The default forecast: fixed values, today's date, the default location, stamped with the current second. */
  function DefaultForecast(clock: Clock): (f: WeatherForecast)
    ensures f.date == clock.today && f.location == DEFAULT_LOCATION
    ensures f.temperature == 20.0 && f.description == "Partly cloudy"
    ensures f.humidity == 65.0 && f.windSpeed == 5.0
    ensures clock.epochMillis >= 0 ==>
      f.timestamp * MILLIS_PER_SECOND <= clock.epochMillis < f.timestamp * MILLIS_PER_SECOND + MILLIS_PER_SECOND
  {
    WeatherForecast(clock.today, DEFAULT_LOCATION, 20.0, "Partly cloudy", 65.0, 5.0,
                    TruncatingDiv(clock.epochMillis, MILLIS_PER_SECOND))
  }

  /** The default forecast restamped with a requested date and location. */
  function DefaultFor(date: int, location: string, clock: Clock): (f: WeatherForecast)
    ensures f.date == date && f.location == location
    ensures f.temperature == 20.0 && f.description == "Partly cloudy"
    ensures f.humidity == 65.0 && f.windSpeed == 5.0 && f.timestamp == DefaultForecast(clock).timestamp
  {
    DefaultForecast(clock).(date := date, location := location)
  }

  /** The location the undated lookup asks for: a missing, empty or placeholder one becomes the default. */
  function NormaliseLocation(location: Option<string>): (l: string)
    ensures l != [] && l != PLACEHOLDER_LOCATION
    ensures location.Some? && location.value != [] && location.value != PLACEHOLDER_LOCATION ==> l == location.value
    ensures location.None? || location.value == [] || location.value == PLACEHOLDER_LOCATION ==> l == DEFAULT_LOCATION
  {
    if location.None? || location.value == [] || location.value == PLACEHOLDER_LOCATION then DEFAULT_LOCATION
    else location.value
  }

  /**
   * How a cache miss for (date, location) resolves once the provider has
   * replied: the first sample on that date becomes the forecast to save,
   * no such sample gives the default unsaved, and a failure is an error.
   */
  function Fetch(reply: ProviderReply, date: int, location: string, clock: Clock): (r: Result<Fetched, FetchError>)
    ensures reply.Threw? ==> r == Err(ProviderFailed)
    ensures reply.NullResponse? || reply == Response(None) ==> r == Err(MissingBody)
    ensures reply.Response? && reply.weatherData.Some? ==>
      var samples := reply.weatherData.value;
      var first := FirstOnDate(samples, date);
      && (first == Ok(None) ==> r == Ok(Fallback(DefaultFor(date, location, clock))))
      && (first.Err? ==> r == Err(DateOutOfRange))
      && (first.Ok? && first.value.Some? ==>
            var converted := ForecastFromData(samples[first.value.value], location);
            && (converted.Ok? ==> r == Ok(Saved(converted.value)))
            && (converted.Err? ==> r == Err(converted.error)))
    ensures r.Ok? && r.value.Saved? ==> r.value.forecast.date == date && r.value.forecast.location == location
  {
    match reply
    case Threw => Err(ProviderFailed)
    case NullResponse => Err(MissingBody)
    case Response(None) => Err(MissingBody)
    case Response(Some(samples)) =>
      match FirstOnDate(samples, date)
      case Err(e) => Err(e)
      case Ok(None) => Ok(Fallback(DefaultFor(date, location, clock)))
      case Ok(Some(i)) =>
        match ForecastFromData(samples[i], location)
        case Err(e) => Err(e)
        case Ok(f) => Ok(Saved(f))
  }

  /**
   * A miss whose reply holds a convertible first sample on the date saves
   * that sample's forecast, tagged with the requested date and location.
   */
  lemma FetchSavesFirstMatch(samples: seq<WeatherData>, date: int, location: string, clock: Clock, i: int)
    requires IsFirstOnDate(samples, date, i) && ForecastFromData(samples[i], location).Ok?
    ensures Fetch(Response(Some(samples)), date, location, clock) == Ok(Saved(ForecastFromData(samples[i], location).value))
    ensures ForecastFromData(samples[i], location).value.date == date
  {
    FirstOnDateFindsFirst(samples, date, i);
  }

  /** A miss whose reply has no sample on the date, and no invalid day, gives the default unsaved. */
  lemma FetchFallsBack(samples: seq<WeatherData>, date: int, location: string, clock: Clock)
    requires ScansPast(samples, date, |samples|)
    ensures Fetch(Response(Some(samples)), date, location, clock) == Ok(Fallback(DefaultFor(date, location, clock)))
  {
  }

  class WeatherService {
    const db: Store
    const provider: string -> ProviderReply
    var totalRequests: int
    var cacheHits: int
    var cacheMisses: int
    /** Dated requests answered with the default because they lay too far ahead. */
    ghost var farFutureRequests: int
    /** How many times the provider has been called by the dated lookup. */
    ghost var providerCalls: int

    /** Every dated request is exactly one of a hit, a miss or a far-future request. */
    ghost predicate Valid()
      reads this
    {
      && 0 <= cacheHits && 0 <= cacheMisses && 0 <= farFutureRequests
      && totalRequests == cacheHits + cacheMisses + farFutureRequests
    }

    constructor (db: Store, provider: string -> ProviderReply)
      ensures this.db == db && this.provider == provider
      ensures totalRequests == 0 && cacheHits == 0 && cacheMisses == 0
      ensures farFutureRequests == 0 && providerCalls == 0
      ensures Valid()
    {
      this.db := db;
      this.provider := provider;
      totalRequests, cacheHits, cacheMisses := 0, 0, 0;
      farFutureRequests, providerCalls := 0, 0;
    }

    /**
     * The dated lookup. A date more than five days after today gets the
     * default forecast for that date and location; otherwise a stored
     * forecast for exactly (date, location) is a hit, and anything else is a
     * miss that asks the provider and stores what it finds.
     */
    method GetWeatherForecast(date: int, location: string, clock: Clock) returns (result: Result<WeatherForecast, FetchError>)
      requires db.Valid()
      modifies this, db
      ensures db.Valid()
      ensures old(Valid()) ==> Valid()
      ensures totalRequests == old(totalRequests) + 1
      ensures date > clock.today + MAX_DAYS_AHEAD ==>
        && result == Ok(DefaultFor(date, location, clock))
        && cacheHits == old(cacheHits) && cacheMisses == old(cacheMisses)
        && farFutureRequests == old(farFutureRequests) + 1 && providerCalls == old(providerCalls)
        && unchanged(db)
      ensures date <= clock.today + MAX_DAYS_AHEAD && (date, location) in old(db.forecasts) ==>
        && result == Ok(old(db.forecasts[(date, location)]))
        && cacheHits == old(cacheHits) + 1 && cacheMisses == old(cacheMisses)
        && farFutureRequests == old(farFutureRequests) && providerCalls == old(providerCalls)
        && unchanged(db)
      ensures date <= clock.today + MAX_DAYS_AHEAD && (date, location) !in old(db.forecasts) ==>
        && cacheHits == old(cacheHits) && cacheMisses == old(cacheMisses) + 1
        && farFutureRequests == old(farFutureRequests) && providerCalls == old(providerCalls) + 1
        && db.restaurants == old(db.restaurants) && db.meals == old(db.meals)
        && db.reservations == old(db.reservations)
        && var fetched := Fetch(provider(location), date, location, clock);
           && (fetched.Err? ==> result == Err(fetched.error) && db.forecasts == old(db.forecasts))
           && (fetched.Ok? ==> result == Ok(fetched.value.forecast))
           && (fetched.Ok? && fetched.value.Saved? ==>
                 db.forecasts == old(db.forecasts)[(date, location) := fetched.value.forecast])
           && (fetched.Ok? && fetched.value.Fallback? ==> db.forecasts == old(db.forecasts))
    {
      totalRequests := totalRequests + 1;
      if date > clock.today + MAX_DAYS_AHEAD {
        farFutureRequests := farFutureRequests + 1;
        return Ok(DefaultFor(date, location, clock));
      }
      if (date, location) in db.forecasts {
        cacheHits := cacheHits + 1;
        return Ok(db.forecasts[(date, location)]);
      }
      cacheMisses := cacheMisses + 1;
      providerCalls := providerCalls + 1;
      var fetched := Fetch(provider(location), date, location, clock);
      if fetched.Err? {
        return Err(fetched.error);
      }
      if fetched.value.Saved? {
        db.SaveForecast(fetched.value.forecast);
      }
      result := Ok(fetched.value.forecast);
    }

    /**
     * The undated lookup: asks the provider for the normalised location and
     * converts its first sample; no usable first sample, or any failure,
     * gives the default forecast.
     */
    function GetForecast(location: Option<string>, clock: Clock): (f: WeatherForecast)
      ensures f.location == NormaliseLocation(location) || f == DefaultForecast(clock)
      ensures f != DefaultForecast(clock) ==>
        var reply := provider(NormaliseLocation(location));
        && reply.Response? && reply.weatherData.Some? && |reply.weatherData.value| > 0
        && ForecastFromData(reply.weatherData.value[0], NormaliseLocation(location)) == Ok(f)
      ensures
        var reply := provider(NormaliseLocation(location));
        reply.Response? && reply.weatherData.Some? && |reply.weatherData.value| > 0 ==>
          var converted := ForecastFromData(reply.weatherData.value[0], NormaliseLocation(location));
          && (converted.Ok? ==> f == converted.value)
          && (converted.Err? ==> f == DefaultForecast(clock))
      ensures provider(NormaliseLocation(location)).Threw? || provider(NormaliseLocation(location)).NullResponse? ==>
        f == DefaultForecast(clock)
      ensures provider(NormaliseLocation(location)) == Response(None) ||
              provider(NormaliseLocation(location)) == Response(Some([])) ==>
        f == DefaultForecast(clock)
    {
      var loc := NormaliseLocation(location);
      match provider(loc)
      case Threw => DefaultForecast(clock)
      case NullResponse => DefaultForecast(clock)
      case Response(None) => DefaultForecast(clock)
      case Response(Some(samples)) =>
        if |samples| == 0 then DefaultForecast(clock)
        else
          match ForecastFromData(samples[0], loc)
          case Ok(f) => f
          case Err(_) => DefaultForecast(clock)
    }

    /** The counters, and the share of dated requests the store answered. */
    function GetCacheStats(): (stats: CacheStats)
      reads this
      ensures stats.totalRequests == totalRequests && stats.cacheHits == cacheHits
      ensures stats.cacheMisses == cacheMisses
      ensures totalRequests > 0 ==> stats.hitRate * totalRequests as real == cacheHits as real
      ensures totalRequests <= 0 ==> stats.hitRate == 0.0
      ensures Valid() ==> 0.0 <= stats.hitRate <= 1.0
    {
      var rate := if totalRequests > 0 then cacheHits as real / totalRequests as real else 0.0;
      CacheStats(totalRequests, cacheHits, cacheMisses, rate)
    }
  }

  /**
   * A fresh service: a miss that finds and saves a forecast, then the same
   * request again, which the store now answers. Two requests, one hit, one
   * miss, hit rate one half.
   */
  method MissThenHit(svc: WeatherService, date: int, location: string, clock: Clock)
    returns (first: Result<WeatherForecast, FetchError>, second: Result<WeatherForecast, FetchError>)
    requires svc.db.Valid() && svc.Valid()
    requires svc.totalRequests == 0
    requires date <= clock.today + MAX_DAYS_AHEAD && (date, location) !in svc.db.forecasts
    requires var fetched := Fetch(svc.provider(location), date, location, clock); fetched.Ok? && fetched.value.Saved?
    modifies svc, svc.db
    ensures first.Ok? && second == first
    ensures svc.providerCalls == old(svc.providerCalls) + 1
    ensures svc.GetCacheStats() == CacheStats(2, 1, 1, 0.5)
  {
    first := svc.GetWeatherForecast(date, location, clock);
    second := svc.GetWeatherForecast(date, location, clock);
  }
}
