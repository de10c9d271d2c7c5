/** The cached composite regime (market-regime/composite-regime.service.ts): refresh with failure
    tracking and a once-per-outage notification, the stale-data fallback, and the per-coin cache. */
module CompositeRegime {
  import opened Common
  import V = Volatility

  const SMA_PERIOD: nat := 200
  const STALE_FALLBACK_MS: int := 4 * 60 * 60 * 1000
  const MAX_CONSECUTIVE_FAILURES: nat := 3
  const MAX_SAFE_INTEGER: int := 0x1F_FFFF_FFFF_FFFF

  datatype CompositeRegimeType = Bull | Neutral | Bear | Extreme

  datatype CachedComposite = CachedComposite(
    regime: CompositeRegimeType, volatilityRegime: V.MarketRegimeType, trendAboveSma: bool,
    btcPrice: real, sma200Value: real, updatedAt: int)

  /** classifyCompositeRegime. */
  function Classify(volatility: V.MarketRegimeType, trendAboveSma: bool): CompositeRegimeType {
    if !trendAboveSma then (if volatility == V.Extreme then Extreme else Bear)
    else if volatility == V.HighVolatility || volatility == V.Extreme then Neutral
    else Bull
  }

  // ---------------------------------------------------------------- one refresh

  /** What a refresh reads: no BTC coin, the chronological closes with the current volatility row of
      BTC, a value that is not finite, or an exception. */
  datatype RefreshInput =
    | CoinMissing
    | Closes(closes: seq<real>, btcRegime: Option<V.MarketRegimeType>)
    | NotFinite
    | Thrown

  predicate Failed(input: RefreshInput) {
    !input.Closes? || |input.closes| < SMA_PERIOD
  }

  /** The last value of the 200-period simple moving average. */
  function Sma200(closes: seq<real>): real
    requires |closes| >= SMA_PERIOD
  {
    V.Mean(closes[|closes| - SMA_PERIOD..])
  }

  function Computed(input: RefreshInput, now: int): CachedComposite
    requires !Failed(input)
  {
    var sma200 := Sma200(input.closes);
    var btcPrice := input.closes[|input.closes| - 1];
    var volatility := if input.btcRegime.Some? then input.btcRegime.value else V.Normal;
    CachedComposite(Classify(volatility, btcPrice > sma200), volatility, btcPrice > sma200, btcPrice, sma200, now)
  }

  /** Below the average the market is EXTREME or BEAR, above it NEUTRAL or BULL, by the volatility. */
  lemma ClassifyMeaning(volatility: V.MarketRegimeType, trendAboveSma: bool)
    ensures var c := Classify(volatility, trendAboveSma);
            && (c == Bull <==> trendAboveSma && (volatility == V.LowVolatility || volatility == V.Normal))
            && (c == Neutral <==> trendAboveSma && (volatility == V.HighVolatility || volatility == V.Extreme))
            && (c == Bear <==> !trendAboveSma && volatility != V.Extreme)
            && (c == Extreme <==> !trendAboveSma && volatility == V.Extreme)
  {
  }

  /** The average counts the last 200 closes, each once. */
  lemma SmaOfLast200(older: seq<real>, last: seq<real>)
    requires |last| == 200
    ensures V.Times(200.0, Sma200(older + last)) == V.Sum(last)
  {
    assert (older + last)[|older + last| - 200..] == last;
    V.MeanTimesCount(last);
  }

  lemma SumTail(s: seq<real>, x: real)
    requires s != []
    ensures V.Sum(s[1..] + [x]) == V.Sum(s) - s[0] + x
  {
    assert s == [s[0]] + s[1..];
    V.SumConcat([s[0]], s[1..]);
    V.SumConcat(s[1..], [x]);
    V.SumSingle(s[0]);
    V.SumSingle(x);
  }

  /** One more close enters the average and the one 200 closes before it leaves. */
  lemma SmaRolls(closes: seq<real>, x: real)
    requires |closes| >= 200
    ensures V.Times(200.0, Sma200(closes + [x])) == V.Times(200.0, Sma200(closes)) + x - closes[|closes| - 200]
  {
    var window := closes[|closes| - 200..];
    assert closes == closes[..|closes| - 200] + window;
    assert closes + [x] == closes[..|closes| - 199] + (window[1..] + [x]);
    SmaOfLast200(closes[..|closes| - 200], window);
    SmaOfLast200(closes[..|closes| - 199], window[1..] + [x]);
    SumTail(window, x);
  }

  /** What a successful refresh stores: the trend compares the last close with the mean of the last 200. */
  lemma RefreshStores(older: seq<real>, last: seq<real>, row: Option<V.MarketRegimeType>, now: int)
    requires |last| == 200
    ensures !Failed(Closes(older + last, row))
    ensures var c := Computed(Closes(older + last, row), now);
            && c.btcPrice == last[199] && c.updatedAt == now
            && c.volatilityRegime == (if row == None then V.Normal else row.value)
            && (c.trendAboveSma <==> 200.0 * last[199] > V.Sum(last))
            && c.regime == Classify(c.volatilityRegime, c.trendAboveSma)
  {
    SmaOfLast200(older, last);
    TwoHundredfold(last[199], Sma200(older + last));
  }

  /** A refresh fails exactly without 200 closes to average. */
  lemma FailsIff(input: RefreshInput)
    ensures Failed(input) <==> !exists closes, row :: input == Closes(closes, row) && |closes| >= 200
  {
  }

  lemma TwoHundredfold(x: real, y: real)
    ensures x > y <==> 200.0 * x > V.Times(200.0, y)
  {
  }

  /** The part of the service that refreshes change; `notifications` lists the failure count carried
      by each emitted stale notification. */
  datatype Health = Health(cached: Option<CachedComposite>, consecutiveFailures: nat,
                           staleNotificationEmitted: bool, notifications: seq<nat>)

  const INITIAL: Health := Health(None, 0, false, [])

  function AfterFailure(s: Health): Health {
    var failures := s.consecutiveFailures + 1;
    if failures >= MAX_CONSECUTIVE_FAILURES && !s.staleNotificationEmitted then
      Health(s.cached, failures, true, s.notifications + [failures])
    else s.(consecutiveFailures := failures)
  }

  function AfterRefresh(s: Health, input: RefreshInput, now: int): Health {
    if Failed(input) then AfterFailure(s)
    else Health(Some(Computed(input, now)), 0, false, s.notifications)
  }

  /** getCompositeRegime: NEUTRAL without data or when the data is older than four hours. */
  function CompositeAt(cached: Option<CachedComposite>, now: int): CompositeRegimeType {
    if IsStale(cached, now) then Neutral else cached.value.regime
  }

  /** getTrendAboveSma: true without data. */
  function TrendAboveSma(cached: Option<CachedComposite>): bool {
    if cached.Some? then cached.value.trendAboveSma else true
  }

  predicate IsStale(cached: Option<CachedComposite>, now: int) {
    cached.None? || now - cached.value.updatedAt > STALE_FALLBACK_MS
  }

  function AgeOf(cached: Option<CachedComposite>, now: int): int {
    if cached.Some? then now - cached.value.updatedAt else MAX_SAFE_INTEGER
  }

  // ---------------------------------------------------------------- the service

  datatype CoinLookup = Row(volatility: V.MarketRegimeType) | NoRow | LookupThrew

  class CompositeRegimeService {
    var cached: Option<CachedComposite>
    var overrideActive: bool
    var consecutiveFailures: nat
    var staleNotificationEmitted: bool
    var staleLogEmitted: bool
    var notifications: seq<nat>
    var perCoinCache: map<string, CachedComposite>
    var perCoinCacheMisses: map<string, int>

    constructor ()
      ensures State() == INITIAL && Coins() == CoinCaches(map[], map[]) && !overrideActive
    {
      cached, overrideActive, consecutiveFailures := None, false, 0;
      staleNotificationEmitted, staleLogEmitted, notifications := false, false, [];
      perCoinCache, perCoinCacheMisses := map[], map[];
    }

    ghost function State(): Health
      reads this
    {
      Health(cached, consecutiveFailures, staleNotificationEmitted, notifications)
    }

    method TrackFailure()
      modifies this`consecutiveFailures, this`staleNotificationEmitted, this`notifications
      ensures State() == AfterFailure(old(State()))
    {
      consecutiveFailures := consecutiveFailures + 1;
      if consecutiveFailures >= MAX_CONSECUTIVE_FAILURES && !staleNotificationEmitted {
        staleNotificationEmitted := true;
        notifications := notifications + [consecutiveFailures];
      }
    }

    /** refresh; `now` is the clock when the new composite is stored or the old one is reported.
        None: the exception is rethrown. */
    method Refresh(input: RefreshInput, now: int) returns (r: Option<CompositeRegimeType>)
      modifies this
      ensures State() == AfterRefresh(old(State()), input, now)
      ensures perCoinCache == old(perCoinCache) && perCoinCacheMisses == old(perCoinCacheMisses)
      ensures overrideActive == old(overrideActive)
      ensures r.None? <==> input.Thrown?
      ensures r.Some? ==> r.value == if Failed(input) then CompositeAt(old(cached), now) else cached.value.regime
    {
      if input.Thrown? {
        TrackFailure();
        return None;
      }
      if !input.Closes? || |input.closes| < SMA_PERIOD {
        TrackFailure();
        var regime := GetCompositeRegime(now);
        return Some(regime);
      }
      var sma200 := Sma200(input.closes);
      var btcPrice := input.closes[|input.closes| - 1];
      var trendAboveSma := btcPrice > sma200;
      var volatilityRegime := if input.btcRegime.Some? then input.btcRegime.value else V.Normal;
      var composite := Classify(volatilityRegime, trendAboveSma);
      cached := Some(CachedComposite(composite, volatilityRegime, trendAboveSma, btcPrice, sma200, now));
      consecutiveFailures := 0;
      staleNotificationEmitted := false;
      staleLogEmitted := false;
      return Some(composite);
    }

    method GetCompositeRegime(now: int) returns (r: CompositeRegimeType)
      modifies this`staleLogEmitted
      ensures r == CompositeAt(cached, now)
      ensures staleLogEmitted <==> old(staleLogEmitted)
                                   || (cached.Some? && now - cached.value.updatedAt > STALE_FALLBACK_MS)
    {
      if cached.None? { return Neutral; }
      var age := now - cached.value.updatedAt;
      if age > STALE_FALLBACK_MS {
        if !staleLogEmitted { staleLogEmitted := true; }
        return Neutral;
      }
      return cached.value.regime;
    }

    method GetCacheStatus(now: int) returns (stale: bool, ageMs: int)
      ensures stale == IsStale(cached, now) && ageMs == AgeOf(cached, now)
      ensures !stale <==> cached.Some? && ageMs <= STALE_FALLBACK_MS
      ensures stale ==> CompositeAt(cached, now) == Neutral
    {
      if cached.None? { return true, MAX_SAFE_INTEGER; }
      ageMs := now - cached.value.updatedAt;
      stale := ageMs > STALE_FALLBACK_MS;
    }

    ghost function Coins(): CoinCaches
      reads this
    {
      CoinCaches(perCoinCache, perCoinCacheMisses)
    }

    /** getCompositeRegimeForCoin for an uppercase symbol. */
    method GetCompositeRegimeForCoin(symbol: string, lookup: CoinLookup, now: int, storedAt: int)
      returns (r: CompositeRegimeType)
      modifies this`staleLogEmitted, this`perCoinCache, this`perCoinCacheMisses
      ensures (Coins(), r) == ForCoin(cached, old(Coins()), CoinCall(symbol, lookup, now, storedAt))
    {
      if symbol == "BTC" {
        r := GetCompositeRegime(now);
        return;
      }
      if symbol in perCoinCache && now - perCoinCache[symbol].updatedAt < STALE_FALLBACK_MS {
        return perCoinCache[symbol].regime;
      }
      if symbol in perCoinCacheMisses && perCoinCacheMisses[symbol] != 0 {
        if now - perCoinCacheMisses[symbol] < STALE_FALLBACK_MS {
          r := GetCompositeRegime(now);
          return;
        }
        perCoinCacheMisses := perCoinCacheMisses - {symbol};
      }
      match lookup
      case LookupThrew =>
        r := GetCompositeRegime(storedAt);
      case NoRow =>
        perCoinCacheMisses := perCoinCacheMisses[symbol := storedAt];
        r := GetCompositeRegime(storedAt);
      case Row(volatility) =>
        var trendAboveSma := TrendAboveSma(cached);
        r := Classify(volatility, trendAboveSma);
        perCoinCache := perCoinCache[symbol := CachedComposite(r, volatility, trendAboveSma,
          if cached.Some? then cached.value.btcPrice else 0.0,
          if cached.Some? then cached.value.sma200Value else 0.0, storedAt)];
        perCoinCacheMisses := perCoinCacheMisses - {symbol};
    }

    /** getVolatilityRegimeForCoin: the cached value, whatever its age. */
    method GetVolatilityRegimeForCoin(symbol: string) returns (r: Option<V.MarketRegimeType>)
      ensures r == VolatilityFor(cached, Coins(), symbol)
    {
      if symbol == "BTC" {
        return if cached.Some? then Some(cached.value.volatilityRegime) else None;
      }
      return if symbol in perCoinCache then Some(perCoinCache[symbol].volatilityRegime) else None;
    }
  }

  // ---------------------------------------------------------------- per-coin answers

  datatype CoinCaches = CoinCaches(entries: map<string, CachedComposite>, misses: map<string, int>)

  /** A call: the lookup result it would get, the clock when it checks the caches and when it stores. */
  datatype CoinCall = CoinCall(symbol: string, lookup: CoinLookup, now: int, storedAt: int)

  function CoinEntry(cached: Option<CachedComposite>, volatility: V.MarketRegimeType, at: int): CachedComposite {
    var trend := TrendAboveSma(cached);
    CachedComposite(Classify(volatility, trend), volatility, trend,
                    if cached.Some? then cached.value.btcPrice else 0.0,
                    if cached.Some? then cached.value.sma200Value else 0.0, at)
  }

  predicate FreshEntry(c: CoinCaches, symbol: string, now: int) {
    symbol in c.entries && now - c.entries[symbol].updatedAt < STALE_FALLBACK_MS
  }

  predicate FreshMiss(c: CoinCaches, symbol: string, now: int) {
    symbol in c.misses && c.misses[symbol] != 0 && now - c.misses[symbol] < STALE_FALLBACK_MS
  }

  function ForCoin(cached: Option<CachedComposite>, c: CoinCaches, call: CoinCall): (CoinCaches, CompositeRegimeType) {
    var symbol := call.symbol;
    if symbol == "BTC" then (c, CompositeAt(cached, call.now))
    else if FreshEntry(c, symbol, call.now) then (c, c.entries[symbol].regime)
    else if FreshMiss(c, symbol, call.now) then (c, CompositeAt(cached, call.now))
    else
      var expired := if symbol in c.misses && c.misses[symbol] != 0 then c.misses - {symbol} else c.misses;
      match call.lookup
      case LookupThrew => (CoinCaches(c.entries, expired), CompositeAt(cached, call.storedAt))
      case NoRow => (CoinCaches(c.entries, expired[symbol := call.storedAt]), CompositeAt(cached, call.storedAt))
      case Row(volatility) =>
        var entry := CoinEntry(cached, volatility, call.storedAt);
        (CoinCaches(c.entries[symbol := entry], expired - {symbol}), entry.regime)
  }

  /** A run of per-coin calls; `cached[i]` is the BTC composite in force during call i, which refreshes
      in between may change at will. */
  datatype CoinRun = CoinRun(calls: seq<CoinCall>, cached: seq<Option<CachedComposite>>)

  function CachesAfter(run: CoinRun, n: nat): CoinCaches
    requires |run.calls| == |run.cached| && n <= |run.calls|
  {
    if n == 0 then CoinCaches(map[], map[])
    else ForCoin(run.cached[n - 1], CachesAfter(run, n - 1), run.calls[n - 1]).0
  }

  /** Over any run of per-coin calls an answer is the BTC composite of that moment, or the classification
      of a volatility row of the same coin that some call up to this one found less than four hours
      before, combined with the BTC trend known then. */
  lemma CoinAnswerOrigin(run: CoinRun, n: nat) returns (k: nat)
    requires |run.calls| == |run.cached| && n < |run.calls| && run.calls[n].now <= run.calls[n].storedAt
    ensures var call := run.calls[n];
            var r := ForCoin(run.cached[n], CachesAfter(run, n), call).1;
            || r == CompositeAt(run.cached[n], call.now) || r == CompositeAt(run.cached[n], call.storedAt)
            || (k <= n && run.calls[k].symbol == call.symbol && run.calls[k].lookup.Row?
                && call.now - run.calls[k].storedAt < STALE_FALLBACK_MS
                && r == Classify(run.calls[k].lookup.volatility, TrendAboveSma(run.cached[k])))
  {
    var call, before := run.calls[n], CachesAfter(run, n);
    if call.symbol != "BTC" && FreshEntry(before, call.symbol, call.now) {
      HoldsLastStoredAlways(run, n, call.symbol);
      k :| LastStore(run, k, n, call.symbol) && before.entries[call.symbol]
             == CoinEntry(run.cached[k], run.calls[k].lookup.volatility, run.calls[k].storedAt);
    } else {
      k := n;
    }
  }

  // ---------------------------------------------------------------- consulting the stored regimes

  /** Does call n look the coin's row up? */
  predicate Consults(run: CoinRun, n: nat)
    requires |run.calls| == |run.cached| && n < |run.calls|
  {
    var c, call := CachesAfter(run, n), run.calls[n];
    call.symbol != "BTC" && !FreshEntry(c, call.symbol, call.now) && !FreshMiss(c, call.symbol, call.now)
  }

  ghost predicate ClockedRun(run: CoinRun) {
    && |run.calls| == |run.cached|
    && (forall i :: 0 <= i < |run.calls| ==> 0 < run.calls[i].now <= run.calls[i].storedAt)
    && (forall i, j :: 0 <= i < j < |run.calls| ==> run.calls[i].storedAt <= run.calls[j].now)
  }

  /** The caches hold an entry or a miss of the coin from time t or later. */
  predicate RecordedSince(c: CoinCaches, symbol: string, t: int) {
    || (symbol in c.entries && c.entries[symbol].updatedAt >= t)
    || (symbol in c.misses && c.misses[symbol] != 0 && c.misses[symbol] >= t)
  }

  lemma {:induction false} RecordStays(run: CoinRun, i: nat, n: nat)
    requires ClockedRun(run) && i < n <= |run.calls| && Consults(run, i) && !run.calls[i].lookup.LookupThrew?
    ensures var t := run.calls[i].storedAt;
            RecordedSince(CachesAfter(run, n), run.calls[i].symbol, t)
            || run.calls[n - 1].now - t >= STALE_FALLBACK_MS
  {
    if i < n - 1 {
      RecordStays(run, i, n - 1);
      var t := run.calls[i].storedAt;
      assert t <= run.calls[n - 1].now && run.calls[n - 2].now <= run.calls[n - 2].storedAt <= run.calls[n - 1].now;
      if RecordedSince(CachesAfter(run, n - 1), run.calls[i].symbol, t) {
        RecordStep(run.cached[n - 1], CachesAfter(run, n - 1), run.calls[n - 1], run.calls[i].symbol, t);
      }
    }
  }

  lemma RecordStep(cached: Option<CachedComposite>, c: CoinCaches, call: CoinCall, symbol: string, t: int)
    requires RecordedSince(c, symbol, t) && 0 < t <= call.now <= call.storedAt
    ensures RecordedSince(ForCoin(cached, c, call).0, symbol, t) || call.now - t >= STALE_FALLBACK_MS
  {
  }

  /** The stored regimes are consulted at most once in four hours per coin: after a call that consults
      them without an exception, the next call for the coin that does so comes at least four hours later. */
  lemma ConsultationsAreSpaced(run: CoinRun, i: nat, j: nat)
    requires ClockedRun(run) && i < j < |run.calls| && run.calls[i].symbol == run.calls[j].symbol
    requires Consults(run, i) && !run.calls[i].lookup.LookupThrew? && Consults(run, j)
    ensures run.calls[j].now - run.calls[i].storedAt >= 4 * 60 * 60000
  {
    RecordStays(run, i, j);
    assert run.calls[j - 1].now <= run.calls[j - 1].storedAt <= run.calls[j].now;
  }

  lemma {:induction false} MissHasOrigin(run: CoinRun, n: nat, symbol: string) returns (k: nat)
    requires |run.calls| == |run.cached| && n <= |run.calls| && symbol in CachesAfter(run, n).misses
    ensures k < n && run.calls[k].symbol == symbol && Consults(run, k) && run.calls[k].lookup.NoRow?
    ensures CachesAfter(run, n).misses[symbol] == run.calls[k].storedAt
  {
    var before := CachesAfter(run, n - 1);
    if symbol in before.misses && CachesAfter(run, n).misses[symbol] == before.misses[symbol] {
      k := MissHasOrigin(run, n - 1, symbol);
    } else {
      k := n - 1;
    }
  }

  /** Call k looked the coin up without an exception less than four hours before call n. */
  ghost predicate ConsultedLately(run: CoinRun, k: nat, n: nat)
    requires |run.calls| == |run.cached| && k < n < |run.calls|
  {
    && run.calls[k].symbol == run.calls[n].symbol && Consults(run, k) && !run.calls[k].lookup.LookupThrew?
    && run.calls[n].now - run.calls[k].storedAt < 4 * 60 * 60000
  }

  /** Exactly when the stored regimes are consulted: for every coin but BTC, unless a call less than four
      hours before consulted them for the coin without an exception. */
  lemma ConsultsIff(run: CoinRun, n: nat)
    requires ClockedRun(run) && n < |run.calls|
    ensures Consults(run, n)
            <==> run.calls[n].symbol != "BTC" && forall k: nat :: k < n ==> !ConsultedLately(run, k, n)
  {
    var c, call := CachesAfter(run, n), run.calls[n];
    if Consults(run, n) {
      forall k: nat | k < n ensures !ConsultedLately(run, k, n) {
        if ConsultedLately(run, k, n) { ConsultationsAreSpaced(run, k, n); }
      }
    } else if call.symbol != "BTC" {
      if FreshEntry(c, call.symbol, call.now) {
        HoldsLastStoredAlways(run, n, call.symbol);
        var k: nat :| LastStore(run, k, n, call.symbol) && c.entries[call.symbol]
                        == CoinEntry(run.cached[k], run.calls[k].lookup.volatility, run.calls[k].storedAt);
        assert ConsultedLately(run, k, n);
      } else {
        var k := MissHasOrigin(run, n, call.symbol);
        assert ConsultedLately(run, k, n);
      }
    }
  }

  /** getVolatilityRegimeForCoin. */
  function VolatilityFor(cached: Option<CachedComposite>, c: CoinCaches, symbol: string): Option<V.MarketRegimeType> {
    if symbol == "BTC" then if cached.Some? then Some(cached.value.volatilityRegime) else None
    else if symbol in c.entries then Some(c.entries[symbol].volatilityRegime) else None
  }

  /** Call n finds a row of the coin and stores it. */
  predicate Stores(run: CoinRun, n: nat, symbol: string)
    requires |run.calls| == |run.cached| && n < |run.calls|
  {
    run.calls[n].symbol == symbol && Consults(run, n) && run.calls[n].lookup.Row?
  }

  ghost predicate NoStoreWithin(run: CoinRun, lo: nat, hi: nat, symbol: string)
    requires |run.calls| == |run.cached| && hi <= |run.calls|
  {
    forall k: nat :: lo <= k < hi ==> !Stores(run, k, symbol)
  }

  /** Call k is the last of the first n calls that stores a row of the coin. */
  ghost predicate LastStore(run: CoinRun, k: nat, n: nat, symbol: string)
    requires |run.calls| == |run.cached| && n <= |run.calls|
  {
    k < n && Stores(run, k, symbol) && NoStoreWithin(run, k + 1, n, symbol)
  }

  /** The entries of a coin in `c` are what the first n calls stored last. */
  ghost predicate HoldsLastStored(run: CoinRun, c: CoinCaches, n: nat, symbol: string)
    requires |run.calls| == |run.cached| && n <= |run.calls|
  {
    if symbol in c.entries then
      exists k: nat :: LastStore(run, k, n, symbol)
        && c.entries[symbol] == CoinEntry(run.cached[k], run.calls[k].lookup.volatility, run.calls[k].storedAt)
    else NoStoreWithin(run, 0, n, symbol)
  }

  lemma StoredNow(run: CoinRun, n: nat, symbol: string)
    requires |run.calls| == |run.cached| && n < |run.calls| && Stores(run, n, symbol)
    ensures HoldsLastStored(run, CachesAfter(run, n + 1), n + 1, symbol)
  {
    assert LastStore(run, n, n + 1, symbol);
  }

  lemma StoredBefore(run: CoinRun, c: CoinCaches, n: nat, symbol: string)
    requires |run.calls| == |run.cached| && n < |run.calls| && !Stores(run, n, symbol)
    requires HoldsLastStored(run, c, n, symbol)
    ensures HoldsLastStored(run, c, n + 1, symbol)
  {
    if symbol in c.entries {
      var k: nat :| LastStore(run, k, n, symbol)
        && c.entries[symbol] == CoinEntry(run.cached[k], run.calls[k].lookup.volatility, run.calls[k].storedAt);
      assert LastStore(run, k, n + 1, symbol);
    }
  }

  lemma SameEntry(run: CoinRun, c: CoinCaches, d: CoinCaches, n: nat, symbol: string)
    requires |run.calls| == |run.cached| && n <= |run.calls| && HoldsLastStored(run, c, n, symbol)
    requires symbol in d.entries <==> symbol in c.entries
    requires symbol in c.entries ==> d.entries[symbol] == c.entries[symbol]
    ensures HoldsLastStored(run, d, n, symbol)
  {
  }

  lemma {:induction false} HoldsLastStoredAlways(run: CoinRun, n: nat, symbol: string)
    requires |run.calls| == |run.cached| && n <= |run.calls|
    ensures HoldsLastStored(run, CachesAfter(run, n), n, symbol)
  {
    if n > 0 {
      HoldsLastStoredAlways(run, n - 1, symbol);
      if Stores(run, n - 1, symbol) {
        StoredNow(run, n - 1, symbol);
      } else {
        StoredBefore(run, CachesAfter(run, n - 1), n - 1, symbol);
        KeepsEntry(run, n - 1, symbol);
        SameEntry(run, CachesAfter(run, n - 1), CachesAfter(run, n), n, symbol);
      }
    }
  }

  /** A coin's volatility regime has no age limit: whatever time has passed and whatever other calls were
      made or failed, it is the one that the last storing call found, and unknown only before the first. */
  lemma VolatilityIsLastStored(run: CoinRun, cached: Option<CachedComposite>, n: nat, symbol: string)
    requires |run.calls| == |run.cached| && n <= |run.calls| && symbol != "BTC"
    ensures match VolatilityFor(cached, CachesAfter(run, n), symbol)
            case None => NoStoreWithin(run, 0, n, symbol)
            case Some(volatility) =>
              exists k: nat :: LastStore(run, k, n, symbol) && volatility == run.calls[k].lookup.volatility
  {
    HoldsLastStoredAlways(run, n, symbol);
  }

  lemma LastStoreUnique(run: CoinRun, j: nat, k: nat, n: nat, symbol: string)
    requires |run.calls| == |run.cached| && n <= |run.calls|
    requires LastStore(run, j, n, symbol) && LastStore(run, k, n, symbol)
    ensures j == k
  {
  }

  /** Call k, less than four hours before call n, is the last one to store the coin of call n. */
  ghost predicate LastStoreLately(run: CoinRun, k: nat, n: nat)
    requires |run.calls| == |run.cached| && n < |run.calls|
  {
    LastStore(run, k, n, run.calls[n].symbol) && run.calls[n].now - run.calls[k].storedAt < 4 * 60 * 60000
  }

  /** A fresh entry is what the last storing call left less than four hours ago. */
  lemma FreshIffStoredLately(run: CoinRun, n: nat)
    requires |run.calls| == |run.cached| && n < |run.calls|
    ensures var c, call := CachesAfter(run, n), run.calls[n];
            && (FreshEntry(c, call.symbol, call.now) <==> exists k: nat :: LastStoreLately(run, k, n))
            && forall k: nat :: LastStoreLately(run, k, n) ==>
                 call.symbol in c.entries && c.entries[call.symbol]
                   == CoinEntry(run.cached[k], run.calls[k].lookup.volatility, run.calls[k].storedAt)
  {
    var call, c := run.calls[n], CachesAfter(run, n);
    HoldsLastStoredAlways(run, n, call.symbol);
    if call.symbol in c.entries {
      var k: nat :| LastStore(run, k, n, call.symbol) && c.entries[call.symbol]
                      == CoinEntry(run.cached[k], run.calls[k].lookup.volatility, run.calls[k].storedAt);
      assert FreshEntry(c, call.symbol, call.now) ==> LastStoreLately(run, k, n);
      forall j: nat | LastStoreLately(run, j, n) ensures j == k {
        LastStoreUnique(run, j, k, n, call.symbol);
      }
    }
  }

  /** Exactly what getCompositeRegimeForCoin answers, over any run: for BTC the BTC composite; else the class
      that the last storing call found, if that was less than four hours ago; else the class of the row
      found now; and the BTC composite if none is found or the stored regimes are not consulted. */
  lemma CoinAnswerIs(run: CoinRun, n: nat)
    requires |run.calls| == |run.cached| && n < |run.calls|
    ensures var call := run.calls[n];
            var r := ForCoin(run.cached[n], CachesAfter(run, n), call).1;
            && (call.symbol == "BTC" ==> r == CompositeAt(run.cached[n], call.now))
            && (forall k: nat :: call.symbol != "BTC" && LastStoreLately(run, k, n) ==>
                  r == Classify(run.calls[k].lookup.volatility, TrendAboveSma(run.cached[k])))
            && (call.symbol != "BTC" && (forall k: nat :: !LastStoreLately(run, k, n)) ==>
                  r == if !Consults(run, n) then CompositeAt(run.cached[n], call.now)
                       else if call.lookup.Row? then Classify(call.lookup.volatility, TrendAboveSma(run.cached[n]))
                       else CompositeAt(run.cached[n], call.storedAt))
  {
    FreshIffStoredLately(run, n);
  }

  lemma KeepsEntry(run: CoinRun, n: nat, symbol: string)
    requires |run.calls| == |run.cached| && n < |run.calls| && !Stores(run, n, symbol)
    ensures symbol in CachesAfter(run, n + 1).entries <==> symbol in CachesAfter(run, n).entries
    ensures symbol in CachesAfter(run, n).entries ==>
              CachesAfter(run, n + 1).entries[symbol] == CachesAfter(run, n).entries[symbol]
  {
  }

  /** So an entry of any age is returned: after one stored row and a lookup that fails `age` later, the
      composite answer is the fallback once the entry is four hours old, but the volatility regime is
      still that row's. */
  lemma OldVolatilityIsReturned(symbol: string, volatility: V.MarketRegimeType, t: int, age: int)
    requires symbol != "BTC" && age >= STALE_FALLBACK_MS
    ensures var run := CoinRun([CoinCall(symbol, Row(volatility), t, t),
                                CoinCall(symbol, LookupThrew, t + age, t + age)], [None, None]);
            && ForCoin(None, CachesAfter(run, 1), run.calls[1]).1 == Neutral
            && VolatilityFor(None, CachesAfter(run, 2), symbol) == Some(volatility)
  {
    var run := CoinRun([CoinCall(symbol, Row(volatility), t, t),
                        CoinCall(symbol, LookupThrew, t + age, t + age)], [None, None]);
    assert CachesAfter(run, 0) == CoinCaches(map[], map[]);
    assert CachesAfter(run, 1) == ForCoin(None, CachesAfter(run, 0), run.calls[0]).0;
    assert CachesAfter(run, 2) == ForCoin(None, CachesAfter(run, 1), run.calls[1]).0;
  }

  // ---------------------------------------------------------------- runs of refreshes

  datatype Attempt = Attempt(input: RefreshInput, at: int)

  function AfterAll(attempts: seq<Attempt>, n: nat): Health
    requires n <= |attempts|
  {
    if n == 0 then INITIAL
    else AfterRefresh(AfterAll(attempts, n - 1), attempts[n - 1].input, attempts[n - 1].at)
  }

  predicate FailedAt(attempts: seq<Attempt>, i: int) {
    0 <= i < |attempts| && Failed(attempts[i].input)
  }

  /** A maximal run of failures starts at i and lasts for at least three attempts below n. */
  predicate LongOutageStartsAt(attempts: seq<Attempt>, i: int, n: nat) {
    && 0 <= i && i + 3 <= n
    && !FailedAt(attempts, i - 1)
    && FailedAt(attempts, i) && FailedAt(attempts, i + 1) && FailedAt(attempts, i + 2)
  }

  ghost function LongOutages(attempts: seq<Attempt>, n: nat): set<int> {
    set i | 0 <= i < n && LongOutageStartsAt(attempts, i, n)
  }

  /** `f` is the number of failures right before position n. */
  ghost predicate TrailingFailures(attempts: seq<Attempt>, n: nat, f: nat)
    requires n <= |attempts|
  {
    f <= n && !FailedAt(attempts, n - f - 1) && forall i :: n - f <= i < n ==> FailedAt(attempts, i)
  }

  lemma LongOutagesStep(attempts: seq<Attempt>, n: nat)
    requires n < |attempts|
    ensures LongOutages(attempts, n + 1)
         == LongOutages(attempts, n) + if LongOutageStartsAt(attempts, n - 2, n + 1) then {n - 2} else {}
  {
  }

  ghost predicate Tracks(s: Health, attempts: seq<Attempt>, n: nat)
    requires n <= |attempts|
  {
    && TrailingFailures(attempts, n, s.consecutiveFailures)
    && (s.staleNotificationEmitted <==> s.consecutiveFailures >= 3)
    && |s.notifications| == |LongOutages(attempts, n)|
    && forall k :: 0 <= k < |s.notifications| ==> s.notifications[k] == 3
  }

  /** A failure completes a long outage exactly when two failures precede it. */
  lemma ThirdFailure(attempts: seq<Attempt>, n: nat, f: nat)
    requires n < |attempts| && TrailingFailures(attempts, n, f) && FailedAt(attempts, n)
    ensures LongOutageStartsAt(attempts, n - 2, n + 1) <==> f == 2
    ensures TrailingFailures(attempts, n + 1, f + 1)
  {
    if f >= 3 { assert FailedAt(attempts, n - 3); }
  }

  lemma FailureTracked(s: Health, attempts: seq<Attempt>, n: nat)
    requires n < |attempts| && Tracks(s, attempts, n) && FailedAt(attempts, n)
    ensures Tracks(AfterFailure(s), attempts, n + 1)
  {
    LongOutagesStep(attempts, n);
    ThirdFailure(attempts, n, s.consecutiveFailures);
  }

  lemma SuccessTracked(s: Health, attempts: seq<Attempt>, n: nat)
    requires n < |attempts| && Tracks(s, attempts, n) && !FailedAt(attempts, n)
    ensures Tracks(AfterRefresh(s, attempts[n].input, attempts[n].at), attempts, n + 1)
  {
    LongOutagesStep(attempts, n);
  }

  lemma {:induction false} HealthTracksFailures(attempts: seq<Attempt>, n: nat)
    requires n <= |attempts|
    ensures Tracks(AfterAll(attempts, n), attempts, n)
  {
    if n == 0 {
      assert LongOutages(attempts, 0) == {};
    } else {
      HealthTracksFailures(attempts, n - 1);
      if FailedAt(attempts, n - 1) {
        FailureTracked(AfterAll(attempts, n - 1), attempts, n - 1);
      } else {
        SuccessTracked(AfterAll(attempts, n - 1), attempts, n - 1);
      }
    }
  }

  /** One notification per outage: over any run of refreshes the stale notifications are as many as
      the maximal runs of failures of length three or more, and each is sent at the third failure. */
  lemma OneNotificationPerOutage(attempts: seq<Attempt>)
    ensures var s := AfterAll(attempts, |attempts|);
            && |s.notifications| == |LongOutages(attempts, |attempts|)|
            && forall k :: 0 <= k < |s.notifications| ==> s.notifications[k] == 3
  {
    HealthTracksFailures(attempts, |attempts|);
  }

  /** Attempt i is the last successful one. */
  ghost predicate LastSuccess(attempts: seq<Attempt>, i: nat) {
    i < |attempts| && !Failed(attempts[i].input)
    && forall j :: i < j < |attempts| ==> Failed(attempts[j].input)
  }

  lemma {:induction false} CacheIsLastSuccess(attempts: seq<Attempt>, n: nat)
    requires n <= |attempts|
    ensures match AfterAll(attempts, n).cached
            case None => forall j :: 0 <= j < n ==> Failed(attempts[j].input)
            case Some(c) => exists i :: 0 <= i < n && LastSuccess(attempts[..n], i)
                                        && c == Computed(attempts[i].input, attempts[i].at)
  {
    if n > 0 {
      CacheIsLastSuccess(attempts, n - 1);
      if Failed(attempts[n - 1].input) {
        if AfterAll(attempts, n - 1).cached.Some? {
          var i :| 0 <= i < n - 1 && LastSuccess(attempts[..n - 1], i)
                   && AfterAll(attempts, n - 1).cached.value == Computed(attempts[i].input, attempts[i].at);
          assert LastSuccess(attempts[..n], i);
        }
      } else {
        assert LastSuccess(attempts[..n], n - 1);
      }
    }
  }

  /** After any run of refreshes and at any time, a composite other than NEUTRAL is the classification
      that the last successful refresh computed, and that refresh is at most four hours old. */
  lemma NonNeutralIsFresh(attempts: seq<Attempt>, now: int) returns (i: nat)
    requires CompositeAt(AfterAll(attempts, |attempts|).cached, now) != Neutral
    ensures LastSuccess(attempts, i) && now - attempts[i].at <= STALE_FALLBACK_MS
    ensures var input := attempts[i].input;
            CompositeAt(AfterAll(attempts, |attempts|).cached, now)
            == Classify(if input.btcRegime.Some? then input.btcRegime.value else V.Normal,
                        input.closes[|input.closes| - 1] > Sma200(input.closes))
  {
    CacheIsLastSuccess(attempts, |attempts|);
    assert attempts[..|attempts|] == attempts;
    i :| 0 <= i < |attempts| && LastSuccess(attempts, i)
         && AfterAll(attempts, |attempts|).cached.value == Computed(attempts[i].input, attempts[i].at);
  }

  lemma LastSuccessUnique(attempts: seq<Attempt>, i: nat, j: nat)
    requires LastSuccess(attempts, i) && LastSuccess(attempts, j)
    ensures i == j
  {
  }

  /** Exactly what getCompositeRegime answers after any run of refreshes: the classification of the last
      successful one for four hours, and NEUTRAL before the first and after that. */
  lemma CompositeIs(attempts: seq<Attempt>, now: int)
    ensures var r := CompositeAt(AfterAll(attempts, |attempts|).cached, now);
            && ((forall j :: 0 <= j < |attempts| ==> Failed(attempts[j].input)) ==> r == Neutral)
            && forall i: nat :: LastSuccess(attempts, i) ==>
                 r == if now - attempts[i].at <= 4 * 60 * 60000 then Computed(attempts[i].input, attempts[i].at).regime
                      else Neutral
  {
    CacheIsLastSuccess(attempts, |attempts|);
    assert attempts[..|attempts|] == attempts;
    var cached := AfterAll(attempts, |attempts|).cached;
    if cached.Some? {
      var k :| 0 <= k < |attempts| && LastSuccess(attempts, k)
               && cached.value == Computed(attempts[k].input, attempts[k].at);
      forall i: nat | LastSuccess(attempts, i) ensures i == k { LastSuccessUnique(attempts, i, k); }
    }
  }
}
