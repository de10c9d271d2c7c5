/** The pipeline-level regime gate (market-regime/regime-fitness.service.ts): per-coin snapshot,
    plurality vote over the universe, and the allow/block decision. */
module RegimeFitness {
  import opened Common
  import V = Volatility
  import opened CompositeRegime

  datatype PerCoinRegime = PerCoinRegime(composite: CompositeRegimeType, volatility: Option<V.MarketRegimeType>)

  datatype RegimeSnapshot = RegimeSnapshot(universeRegime: CompositeRegimeType, perCoin: map<string, PerCoinRegime>,
                                           btcTrendAboveSma: bool, stale: bool, ageMs: int)

  datatype TradingStyle = TrendFollowing | MeanReverting | VolatilityExpansion | MultiSignal

  datatype FitnessDecision = Allow | AllowOverride | AllowStale | AllowUnknownStyle | AllowError | Block

  // ---------------------------------------------------------------- plurality

  ghost function Voters(perCoin: map<string, PerCoinRegime>, c: CompositeRegimeType): set<string> {
    set k | k in perCoin && perCoin[k].composite == c
  }

  /** `c` has strictly more coins than any other regime. */
  ghost predicate UniquePlurality(perCoin: map<string, PerCoinRegime>, c: CompositeRegimeType) {
    forall d :: d != c ==> |Voters(perCoin, d)| < |Voters(perCoin, c)|
  }

  type Counts = map<CompositeRegimeType, nat>

  ghost predicate CountsVoters(perCoin: map<string, PerCoinRegime>, counts: Counts) {
    forall c :: |Voters(perCoin, c)| == if c in counts then counts[c] else 0
  }

  lemma OneMoreVoter(perCoin: map<string, PerCoinRegime>, key: string, coin: PerCoinRegime, c: CompositeRegimeType)
    requires key !in perCoin
    ensures |Voters(perCoin[key := coin], c)| == |Voters(perCoin, c)| + if coin.composite == c then 1 else 0
  {
    assert Voters(perCoin[key := coin], c) == Voters(perCoin, c) + if coin.composite == c then {key} else {};
  }

  method CountVotes(perCoin: map<string, PerCoinRegime>) returns (counts: Counts)
    ensures CountsVoters(perCoin, counts)
    ensures forall c :: c in counts ==> counts[c] > 0
  {
    counts := map[];
    ghost var seen: map<string, PerCoinRegime> := map[];
    var remaining := perCoin.Keys;
    assert forall c :: Voters(seen, c) == {};
    while remaining != {}
      invariant remaining <= perCoin.Keys
      invariant seen == map k | k in perCoin && k !in remaining :: perCoin[k]
      invariant CountsVoters(seen, counts)
      invariant forall c :: c in counts ==> counts[c] > 0
      decreases |remaining|
    {
      var key :| key in remaining;
      var composite := perCoin[key].composite;
      forall c ensures |Voters(seen[key := perCoin[key]], c)| == |Voters(seen, c)| + if composite == c then 1 else 0 {
        OneMoreVoter(seen, key, perCoin[key], c);
      }
      remaining := remaining - {key};
      seen := seen[key := perCoin[key]];
      counts := counts[composite := (if composite in counts then counts[composite] else 0) + 1];
    }
    assert seen == perCoin;
  }

  datatype Tally = Tally(regime: CompositeRegimeType, count: nat)

  ghost predicate Descending(s: seq<Tally>) {
    forall i, j :: 0 <= i < j < |s| ==> s[i].count >= s[j].count
  }

  ghost predicate DistinctRegimes(s: seq<Tally>) {
    forall i, j :: 0 <= i < j < |s| ==> s[i].regime != s[j].regime
  }

  function InsertTally(s: seq<Tally>, t: Tally): seq<Tally> {
    if s == [] || s[0].count < t.count then [t] + s else [s[0]] + InsertTally(s[1..], t)
  }

  lemma {:induction false} InsertTallyMembers(s: seq<Tally>, t: Tally)
    ensures forall x :: x in InsertTally(s, t) <==> x in s || x == t
  {
    if s != [] && s[0].count >= t.count {
      InsertTallyMembers(s[1..], t);
      assert s == [s[0]] + s[1..];
    }
  }

  lemma HeadIsLargest(s: seq<Tally>, x: Tally)
    requires Descending(s) && DistinctRegimes(s) && s != [] && x in s[1..]
    ensures x.count <= s[0].count && x.regime != s[0].regime
  {
    var i :| 1 <= i < |s| && s[i] == x;
  }

  lemma {:induction false} InsertTallyFacts(s: seq<Tally>, t: Tally)
    requires Descending(s) && DistinctRegimes(s) && forall x :: x in s ==> x.regime != t.regime
    ensures Descending(InsertTally(s, t)) && DistinctRegimes(InsertTally(s, t))
  {
    if s != [] && s[0].count >= t.count {
      InsertTallyFacts(s[1..], t);
      InsertTallyMembers(s[1..], t);
      forall x | x in InsertTally(s[1..], t) ensures x.count <= s[0].count && x.regime != s[0].regime {
        if x != t { HeadIsLargest(s, x); }
      }
      PrependFacts(s[0], InsertTally(s[1..], t));
    } else if s != [] {
      assert forall x :: x in s ==> x.count <= s[0].count;
      PrependFacts(t, s);
    }
  }

  lemma PrependFacts(t: Tally, s: seq<Tally>)
    requires Descending(s) && DistinctRegimes(s)
    requires forall x :: x in s ==> x.count <= t.count && x.regime != t.regime
    ensures Descending([t] + s) && DistinctRegimes([t] + s)
  {
  }

  /** `sorted` lists each of the regimes in `done` once, with its count, larger counts first. */
  ghost predicate Lists(sorted: seq<Tally>, counts: Counts, done: set<CompositeRegimeType>) {
    && Descending(sorted) && DistinctRegimes(sorted)
    && forall t :: t in sorted <==> t.regime in done && t.regime in counts && counts[t.regime] == t.count
  }

  lemma ListsInsert(sorted: seq<Tally>, counts: Counts, done: set<CompositeRegimeType>, c: CompositeRegimeType)
    requires Lists(sorted, counts, done) && c in counts && c !in done
    ensures Lists(InsertTally(sorted, Tally(c, counts[c])), counts, done + {c})
  {
    InsertTallyFacts(sorted, Tally(c, counts[c]));
    InsertTallyMembers(sorted, Tally(c, counts[c]));
  }

  /** `[...counts.entries()].sort((a, b) => b[1] - a[1])`. */
  method SortTallies(counts: Counts) returns (sorted: seq<Tally>)
    ensures Lists(sorted, counts, counts.Keys)
  {
    sorted := [];
    var remaining := counts.Keys;
    ghost var done: set<CompositeRegimeType> := {};
    while remaining != {}
      invariant done + remaining == counts.Keys && done !! remaining
      invariant Lists(sorted, counts, done)
      decreases |remaining|
    {
      var c :| c in remaining;
      ListsInsert(sorted, counts, done, c);
      sorted := InsertTally(sorted, Tally(c, counts[c]));
      remaining := remaining - {c};
      done := done + {c};
    }
    assert done == counts.Keys;
  }

  /** majorityVote: the regime with strictly most coins, else the BTC-global composite. */
  method MajorityVote(perCoin: map<string, PerCoinRegime>, global: CompositeRegimeType) returns (r: CompositeRegimeType)
    ensures r == Universe(perCoin, global)
  {
    if |perCoin| == 0 {
      EmptyHasNoPlurality(perCoin);
      return global;
    }
    var counts := CountVotes(perCoin);
    var sorted := SortTallies(counts);
    TopTally(perCoin, counts, sorted);
    if |sorted| == 1 || sorted[0].count > sorted[1].count {
      PluralityIsUnique(perCoin);
      return sorted[0].regime;
    }
    return global;
  }

  lemma EmptyHasNoPlurality(perCoin: map<string, PerCoinRegime>)
    requires |perCoin| == 0
    ensures forall c :: !UniquePlurality(perCoin, c)
  {
    forall c ensures !UniquePlurality(perCoin, c) {
      var d := if c == Bull then Bear else Bull;
      assert Voters(perCoin, c) == {} && Voters(perCoin, d) == {};
    }
  }

  lemma TopTally(perCoin: map<string, PerCoinRegime>, counts: Counts, sorted: seq<Tally>)
    requires |perCoin| != 0 && CountsVoters(perCoin, counts)
    requires forall c :: c in counts ==> counts[c] > 0
    requires Lists(sorted, counts, counts.Keys)
    ensures |sorted| > 0
    ensures |sorted| == 1 || sorted[0].count > sorted[1].count ==> UniquePlurality(perCoin, sorted[0].regime)
    ensures |sorted| > 1 && sorted[0].count == sorted[1].count ==> forall c :: !UniquePlurality(perCoin, c)
    ensures |sorted| > 1 ==> sorted[0].count >= sorted[1].count
  {
    var key :| key in perCoin;
    var vote := perCoin[key].composite;
    assert key in Voters(perCoin, vote);
    assert vote in counts && Tally(vote, counts[vote]) in sorted;
    assert sorted[0] in sorted && (|sorted| > 1 ==> sorted[1] in sorted);
    if |sorted| == 1 || sorted[0].count > sorted[1].count {
      forall d | d != sorted[0].regime ensures |Voters(perCoin, d)| < |Voters(perCoin, sorted[0].regime)| {
        if d in counts {
          assert Tally(d, counts[d]) in sorted;
          var i :| 0 <= i < |sorted| && sorted[i] == Tally(d, counts[d]);
          assert i >= 1 && sorted[i].count <= sorted[1].count;
        }
      }
    } else {
      forall c ensures !UniquePlurality(perCoin, c) {
        var d := if c == sorted[0].regime then sorted[1].regime else sorted[0].regime;
        if c in counts {
          assert Tally(c, counts[c]) in sorted;
          var i :| 0 <= i < |sorted| && sorted[i] == Tally(c, counts[c]);
          assert sorted[i].count <= sorted[0].count;
        }
        assert |Voters(perCoin, c)| <= |Voters(perCoin, d)| && d != c;
      }
    }
  }

  lemma PluralityIsUnique(perCoin: map<string, PerCoinRegime>)
    ensures forall c, d :: UniquePlurality(perCoin, c) && UniquePlurality(perCoin, d) ==> c == d
  {
    forall c, d | UniquePlurality(perCoin, c) && UniquePlurality(perCoin, d) ensures c == d {
      assert c == d || |Voters(perCoin, c)| < |Voters(perCoin, d)|;
      assert c == d || |Voters(perCoin, d)| < |Voters(perCoin, c)|;
    }
  }

  /** The plurality regime if there is one, else the global one. */
  ghost function Universe(perCoin: map<string, PerCoinRegime>, global: CompositeRegimeType): (r: CompositeRegimeType)
    ensures UniquePlurality(perCoin, r) || (r == global && forall c :: !UniquePlurality(perCoin, c))
    ensures forall c :: UniquePlurality(perCoin, c) ==> r == c
  {
    PluralityIsUnique(perCoin);
    if c: CompositeRegimeType :| UniquePlurality(perCoin, c) then c else global
  }

  // ---------------------------------------------------------------- the snapshot

  /** snapshotRegime with the per-symbol lookups fixed. `upper` is toUpperCase; the BTC composite is read
      for the vote, then for the trend and the status. */
  method SnapshotRegime(symbols: seq<string>, upper: string -> string, lookup: string -> PerCoinRegime,
                        service: CompositeRegimeService, votedAt: int, checkedAt: int)
    returns (snapshot: RegimeSnapshot)
    ensures snapshot == Snapshot(symbols, upper, lookup, service.cached, votedAt, checkedAt)
    ensures forall s :: s in symbols ==>
              upper(s) in snapshot.perCoin && snapshot.perCoin[upper(s)] == lookup(upper(s))
    ensures forall k :: k in snapshot.perCoin ==> exists s :: s in symbols && upper(s) == k
    ensures snapshot.btcTrendAboveSma <==> service.cached == None || service.cached.value.trendAboveSma
  {
    var perCoin: map<string, PerCoinRegime> := map[];
    for i := 0 to |symbols|
      invariant perCoin == PerCoin(symbols[..i], upper, lookup)
    {
      assert symbols[..i + 1] == symbols[..i] + [symbols[i]];
      OneMoreSymbol(symbols[..i], symbols[i], upper, lookup);
      perCoin := perCoin[upper(symbols[i]) := lookup(upper(symbols[i]))];
    }
    assert symbols[..|symbols|] == symbols;
    var universe := MajorityVote(perCoin, CompositeAt(service.cached, votedAt));
    var stale, ageMs := service.GetCacheStatus(checkedAt);
    return RegimeSnapshot(universe, perCoin, TrendAboveSma(service.cached), stale, ageMs);
  }

  ghost function UpperSet(symbols: seq<string>, upper: string -> string): set<string> {
    set s | s in symbols :: upper(s)
  }

  ghost function PerCoin(symbols: seq<string>, upper: string -> string, lookup: string -> PerCoinRegime)
    : map<string, PerCoinRegime>
  {
    map k | k in UpperSet(symbols, upper) :: lookup(k)
  }

  lemma OneMoreSymbol(symbols: seq<string>, s: string, upper: string -> string, lookup: string -> PerCoinRegime)
    ensures PerCoin(symbols + [s], upper, lookup) == PerCoin(symbols, upper, lookup)[upper(s) := lookup(upper(s))]
  {
    assert UpperSet(symbols + [s], upper) == UpperSet(symbols, upper) + {upper(s)};
  }

  ghost function Snapshot(symbols: seq<string>, upper: string -> string, lookup: string -> PerCoinRegime,
                          cached: Option<CachedComposite>, votedAt: int, checkedAt: int): RegimeSnapshot
  {
    var perCoin := PerCoin(symbols, upper, lookup);
    RegimeSnapshot(Universe(perCoin, CompositeAt(cached, votedAt)), perCoin, TrendAboveSma(cached),
                   IsStale(cached, checkedAt), AgeOf(cached, checkedAt))
  }

  /** The snapshot depends only on which uppercase symbols occur: not on their order, case or
      repetition. */
  lemma SnapshotIgnoresOrderAndRepetition(a: seq<string>, b: seq<string>, upper: string -> string,
                                          lookup: string -> PerCoinRegime, cached: Option<CachedComposite>,
                                          votedAt: int, checkedAt: int)
    requires UpperSet(a, upper) == UpperSet(b, upper)
    ensures Snapshot(a, upper, lookup, cached, votedAt, checkedAt)
         == Snapshot(b, upper, lookup, cached, votedAt, checkedAt)
  {
    assert PerCoin(a, upper, lookup) == PerCoin(b, upper, lookup);
  }

  /** The universe regime of a snapshot that is not stale is the unique plurality of the coins, or the
      classification of the last refresh, at most four hours old: never the NEUTRAL of missing data. */
  lemma FreshSnapshotUsesData(symbols: seq<string>, upper: string -> string, lookup: string -> PerCoinRegime,
                              cached: Option<CachedComposite>, votedAt: int, checkedAt: int)
    requires votedAt <= checkedAt
    ensures var s := Snapshot(symbols, upper, lookup, cached, votedAt, checkedAt);
            !s.stale ==>
              && cached.Some? && s.ageMs == checkedAt - cached.value.updatedAt <= STALE_FALLBACK_MS
              && (UniquePlurality(s.perCoin, s.universeRegime)
                  || (s.universeRegime == cached.value.regime && forall c :: !UniquePlurality(s.perCoin, c)))
  {
    var s := Snapshot(symbols, upper, lookup, cached, votedAt, checkedAt);
    assert s.universeRegime == Universe(s.perCoin, CompositeAt(cached, votedAt));
  }

  // ---------------------------------------------------------------- the decision

  ghost predicate HasLowVolatility(snapshot: RegimeSnapshot) {
    exists k :: k in snapshot.perCoin && snapshot.perCoin[k].volatility == Some(V.LowVolatility)
  }

  method UniverseHasLowVolatility(snapshot: RegimeSnapshot) returns (b: bool)
    ensures b <==> HasLowVolatility(snapshot)
  {
    var remaining := snapshot.perCoin.Keys;
    while remaining != {}
      invariant remaining <= snapshot.perCoin.Keys
      invariant forall k :: k in snapshot.perCoin && k !in remaining ==>
                  snapshot.perCoin[k].volatility != Some(V.LowVolatility)
      decreases |remaining|
    {
      var k :| k in remaining;
      if snapshot.perCoin[k].volatility == Some(V.LowVolatility) { return true; }
      remaining := remaining - {k};
    }
    return false;
  }

  /** evaluate. `style` is None for an unregistered strategy; `registryThrew` models a lookup error. */
  method Evaluate(overrideActive: bool, registryThrew: bool, style: Option<TradingStyle>, snapshot: RegimeSnapshot)
    returns (d: FitnessDecision)
    ensures d == Block <==>
              && !overrideActive && !snapshot.stale && !registryThrew && style.Some? && HasLowVolatility(snapshot)
              && (style.value == VolatilityExpansion
                  || (style.value == TrendFollowing && snapshot.universeRegime == Neutral))
    ensures d == AllowOverride <==> overrideActive
    ensures d == AllowStale <==> !overrideActive && snapshot.stale
    ensures d == AllowError <==> !overrideActive && !snapshot.stale && registryThrew
    ensures d == AllowUnknownStyle <==> !overrideActive && !snapshot.stale && !registryThrew && style.None?
  {
    if overrideActive { return AllowOverride; }
    if snapshot.stale { return AllowStale; }
    if registryThrew { return AllowError; }
    if style.None? { return AllowUnknownStyle; }
    var low := UniverseHasLowVolatility(snapshot);
    if style.value == TrendFollowing && snapshot.universeRegime == Neutral && low { return Block; }
    if style.value == VolatilityExpansion && low { return Block; }
    return Allow;
  }
}
