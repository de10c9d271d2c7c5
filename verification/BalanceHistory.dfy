/** Account value history (balance/balance-history.service.ts): bucketing of balance rows by time and
    exchange, the derived totals, and down-sampling. Amounts are reals. */
module BalanceHistory {
  import opened Common
  import opened UtcCalendar
  import V = Volatility

  datatype Balance = Balance(exchangeId: string, totalUsdValue: real, timestamp: int)

  /** formatDateByInterval for an interval. */
  function Bucketing(interval: Interval): int -> int {
    t => BucketStart(t, interval)
  }

  /** One entry of the grouping record: a bucket and, per exchange in insertion order, a balance. */
  datatype Group = Group(bucket: int, latest: seq<Balance>)

  datatype Point = Point(datetime: int, value: real)

  // ---------------------------------------------------------------- grouping

  /** Keep the later of two balances of an exchange; on equal timestamps the one seen first. */
  function Keep(latest: seq<Balance>, b: Balance): (r: seq<Balance>)
    ensures r != []
  {
    if latest == [] then [b]
    else if latest[0].exchangeId != b.exchangeId then [latest[0]] + Keep(latest[1..], b)
    else if latest[0].timestamp < b.timestamp then [b] + latest[1..]
    else latest
  }

  function AddRow(groups: seq<Group>, bucket: int, b: Balance): seq<Group> {
    if groups == [] then [Group(bucket, [b])]
    else if groups[0].bucket == bucket then [Group(bucket, Keep(groups[0].latest, b))] + groups[1..]
    else [groups[0]] + AddRow(groups[1..], bucket, b)
  }

  function Grouped(rows: seq<Balance>, bucketOf: int -> int): seq<Group> {
    if rows == [] then []
    else
      var last := rows[|rows| - 1];
      AddRow(Grouped(rows[..|rows| - 1], bucketOf), bucketOf(last.timestamp), last)
  }

  method GroupBalances(rows: seq<Balance>, bucketOf: int -> int) returns (groups: seq<Group>)
    ensures groups == Grouped(rows, bucketOf)
  {
    groups := [];
    for i := 0 to |rows|
      invariant groups == Grouped(rows[..i], bucketOf)
    {
      assert rows[..i + 1][..i] == rows[..i];
      groups := AddRow(groups, bucketOf(rows[i].timestamp), rows[i]);
    }
    assert rows[..|rows|] == rows;
  }

  function Lookup(groups: seq<Group>, bucket: int): seq<Balance> {
    if groups == [] then [] else if groups[0].bucket == bucket then groups[0].latest else Lookup(groups[1..], bucket)
  }

  function Find(latest: seq<Balance>, exchangeId: string): Option<Balance> {
    if latest == [] then None
    else if latest[0].exchangeId == exchangeId then Some(latest[0])
    else Find(latest[1..], exchangeId)
  }

  predicate InBucket(b: Balance, bucketOf: int -> int, bucket: int, exchangeId: string) {
    bucketOf(b.timestamp) == bucket && b.exchangeId == exchangeId
  }

  /** `f` is a latest row of the exchange in the bucket, or says that there is none. */
  ghost predicate IsLatest(rows: seq<Balance>, bucketOf: int -> int, bucket: int, exchangeId: string,
                           f: Option<Balance>) {
    match f
    case None => forall r :: r in rows ==> !InBucket(r, bucketOf, bucket, exchangeId)
    case Some(b) =>
      b in rows && InBucket(b, bucketOf, bucket, exchangeId)
      && forall r :: r in rows && InBucket(r, bucketOf, bucket, exchangeId) ==> r.timestamp <= b.timestamp
  }

  lemma {:induction false} FindKeep(latest: seq<Balance>, b: Balance, exchangeId: string)
    ensures Find(Keep(latest, b), exchangeId)
         == (var before := Find(latest, exchangeId);
             if exchangeId == b.exchangeId && (before.None? || before.value.timestamp < b.timestamp)
             then Some(b) else before)
  {
    if latest != [] && latest[0].exchangeId != b.exchangeId {
      FindKeep(latest[1..], b, exchangeId);
      assert Keep(latest, b)[1..] == Keep(latest[1..], b);
    }
  }

  lemma {:induction false} LookupAddRow(groups: seq<Group>, bucket: int, b: Balance, c: int)
    ensures Lookup(AddRow(groups, bucket, b), c)
         == if c == bucket then Keep(Lookup(groups, c), b) else Lookup(groups, c)
  {
    if groups != [] && groups[0].bucket != bucket {
      LookupAddRow(groups[1..], bucket, b, c);
      assert AddRow(groups, bucket, b)[1..] == AddRow(groups[1..], bucket, b);
    }
  }

  /** Whatever the order of the rows: for every bucket and exchange the grouping holds that bucket's
      latest balance of the exchange, and nothing where there is no row. */
  lemma {:induction false} GroupingKeepsLatest(rows: seq<Balance>, bucketOf: int -> int, bucket: int,
                                               exchangeId: string)
    ensures IsLatest(rows, bucketOf, bucket, exchangeId, Find(Lookup(Grouped(rows, bucketOf), bucket), exchangeId))
  {
    if rows != [] {
      var front, last := rows[..|rows| - 1], rows[|rows| - 1];
      assert rows == front + [last];
      GroupingKeepsLatest(front, bucketOf, bucket, exchangeId);
      var groups := Grouped(front, bucketOf);
      LookupAddRow(groups, bucketOf(last.timestamp), last, bucket);
      FindKeep(Lookup(groups, bucket), last, exchangeId);
    }
  }

  ghost predicate DistinctExchanges(latest: seq<Balance>) {
    forall i, j :: 0 <= i < j < |latest| ==> latest[i].exchangeId != latest[j].exchangeId
  }

  lemma {:induction false} KeepDistinct(latest: seq<Balance>, b: Balance)
    requires DistinctExchanges(latest)
    ensures DistinctExchanges(Keep(latest, b))
    ensures forall x :: x in Keep(latest, b) ==> x == b || x in latest
  {
    if latest != [] && latest[0].exchangeId != b.exchangeId {
      KeepDistinct(latest[1..], b);
      var rest := Keep(latest[1..], b);
      forall j | 0 <= j < |rest| ensures rest[j].exchangeId != latest[0].exchangeId {
        assert rest[j] in rest;
        if rest[j] != b { var i :| 1 <= i < |latest| && latest[i] == rest[j]; }
      }
    }
  }

  // ---------------------------------------------------------------- rows in time order

  ghost predicate InTimeOrder(rows: seq<Balance>) {
    forall i, j :: 0 <= i < j < |rows| ==> rows[i].timestamp <= rows[j].timestamp
  }

  ghost predicate BucketsAscend(rows: seq<Balance>, bucketOf: int -> int) {
    forall i, j :: 0 <= i < j < |rows| ==> bucketOf(rows[i].timestamp) <= bucketOf(rows[j].timestamp)
  }

  /** No row but perhaps the last dates from the years 0 to 99. */
  ghost predicate PlainYears(rows: seq<Balance>) {
    forall i :: 0 <= i < |rows| - 1 ==> PlainYear(rows[i].timestamp)
  }

  /** Strictly ascending buckets up to `top`, each with at least one balance and distinct exchanges. */
  ghost predicate Chronological(groups: seq<Group>, top: int) {
    && (forall i, j :: 0 <= i < j < |groups| ==> groups[i].bucket < groups[j].bucket)
    && (forall i :: 0 <= i < |groups| ==> groups[i].bucket <= top && DistinctExchanges(groups[i].latest))
  }

  lemma SecondBucket(groups: seq<Group>, top: int)
    requires Chronological(groups, top) && |groups| > 1
    ensures groups[0].bucket < groups[1].bucket <= top
  {
  }

  lemma PrependGroup(g: Group, rest: seq<Group>, top: int)
    requires Chronological(rest, top) && g.bucket <= top && DistinctExchanges(g.latest)
    requires forall x :: x in rest ==> g.bucket < x.bucket
    ensures Chronological([g] + rest, top)
  {
  }

  lemma {:induction false} AddRowMembers(groups: seq<Group>, bucket: int, b: Balance)
    ensures forall g :: g in AddRow(groups, bucket, b) ==> g.bucket == bucket || g in groups
  {
    if groups != [] && groups[0].bucket != bucket { AddRowMembers(groups[1..], bucket, b); }
  }

  lemma {:induction false} AddRowChronological(groups: seq<Group>, top: int, bucket: int, b: Balance)
    requires Chronological(groups, top) && top <= bucket
    ensures Chronological(AddRow(groups, bucket, b), bucket)
    ensures var r := AddRow(groups, bucket, b);
            r != [] && r[|r| - 1].bucket == bucket && (groups != [] ==> r[0].bucket == groups[0].bucket)
  {
    if groups != [] {
      if groups[0].bucket == bucket {
        KeepDistinct(groups[0].latest, b);
        if |groups| > 1 {
          SecondBucket(groups, top);
          assert false;
        }
      } else {
        AddRowChronological(groups[1..], top, bucket, b);
        AddRowMembers(groups[1..], bucket, b);
        var rest := AddRow(groups[1..], bucket, b);
        forall g | g in rest ensures groups[0].bucket < g.bucket {
          if g.bucket != bucket { var i :| 1 <= i < |groups| && groups[i] == g; }
        }
        PrependGroup(groups[0], rest, bucket);
      }
    }
  }

  lemma {:induction false} GroupedChronological(rows: seq<Balance>, bucketOf: int -> int)
    requires rows != [] && BucketsAscend(rows, bucketOf)
    ensures var groups := Grouped(rows, bucketOf);
            && Chronological(groups, bucketOf(rows[|rows| - 1].timestamp))
            && groups != []
            && groups[0].bucket == bucketOf(rows[0].timestamp)
            && groups[|groups| - 1].bucket == bucketOf(rows[|rows| - 1].timestamp)
  {
    var n := |rows| - 1;
    var bucket := bucketOf(rows[n].timestamp);
    if n == 0 {
      AddRowChronological([], bucket, bucket, rows[0]);
      assert rows[..0] == [];
    } else {
      GroupedChronological(rows[..n], bucketOf);
      AddRowChronological(Grouped(rows[..n], bucketOf), bucketOf(rows[n - 1].timestamp), bucket, rows[n]);
    }
  }

  /** The first group is always that of the first row. */
  lemma {:induction false} FirstGroup(rows: seq<Balance>, bucketOf: int -> int)
    requires rows != []
    ensures Grouped(rows, bucketOf) != [] && Grouped(rows, bucketOf)[0].bucket == bucketOf(rows[0].timestamp)
  {
    if |rows| > 1 {
      FirstGroup(rows[..|rows| - 1], bucketOf);
    } else {
      assert Grouped(rows[..0], bucketOf) == [];
    }
  }

  // ---------------------------------------------------------------- values

  predicate IsWhole(x: real) {
    x == x.Floor as real
  }

  /** `Math.round(x * 100) / 100`: the whole number of cents within half a cent, ties upwards. */
  function Round2(x: real): (r: real)
    ensures IsWhole(r * 100.0) && x - 0.005 < r <= x + 0.005
  {
    var cents := (x * 100.0 + 0.5).Floor;
    CentsAreWhole(cents);
    cents as real / 100.0
  }

  lemma CentsAreWhole(cents: int)
    ensures IsWhole(cents as real / 100.0 * 100.0)
  {
    assert cents as real / 100.0 * 100.0 == cents as real;
  }

  function Amounts(balances: seq<Balance>): seq<real> {
    seq(|balances|, i requires 0 <= i < |balances| => balances[i].totalUsdValue)
  }

  function Total(balances: seq<Balance>): real {
    V.Sum(Amounts(balances))
  }

  function HistoryOf(groups: seq<Group>): (h: seq<Point>)
    ensures |h| == |groups|
    ensures forall i :: 0 <= i < |h| ==> h[i] == Point(groups[i].bucket, Round2(Total(groups[i].latest)))
  {
    seq(|groups|, i requires 0 <= i < |groups| => Point(groups[i].bucket, Round2(Total(groups[i].latest))))
  }

  ghost predicate StrictlyChronological(h: seq<Point>) {
    forall i, j :: 0 <= i < j < |h| ==> h[i].datetime < h[j].datetime
  }

  function InsertPoint(sorted: seq<Point>, p: Point): seq<Point> {
    if sorted == [] then [p]
    else if sorted[|sorted| - 1].datetime <= p.datetime then sorted + [p]
    else InsertPoint(sorted[..|sorted| - 1], p) + [sorted[|sorted| - 1]]
  }

  /** `history.sort((a, b) => a.datetime.localeCompare(b.datetime))`: a stable sort by datetime. */
  function SortByDatetime(h: seq<Point>): seq<Point> {
    if h == [] then [] else InsertPoint(SortByDatetime(h[..|h| - 1]), h[|h| - 1])
  }

  ghost predicate Ascending(h: seq<Point>) {
    forall i, j :: 0 <= i < j < |h| ==> h[i].datetime <= h[j].datetime
  }

  lemma {:induction false} InsertPointElements(sorted: seq<Point>, p: Point)
    ensures multiset(InsertPoint(sorted, p)) == multiset(sorted) + multiset{p}
    ensures forall x :: x in InsertPoint(sorted, p) ==> x == p || x in sorted
  {
    if sorted != [] && sorted[|sorted| - 1].datetime > p.datetime {
      InsertPointElements(sorted[..|sorted| - 1], p);
      MultisetDropLast(sorted);
    }
  }

  lemma AppendLargest(h: seq<Point>, last: Point)
    requires Ascending(h) && forall x :: x in h ==> x.datetime <= last.datetime
    ensures Ascending(h + [last])
  {
    assert forall i :: 0 <= i < |h| ==> h[i] in h;
  }

  lemma {:induction false} InsertPointSorts(sorted: seq<Point>, p: Point)
    requires Ascending(sorted)
    ensures Ascending(InsertPoint(sorted, p))
  {
    if sorted == [] {
    } else if sorted[|sorted| - 1].datetime <= p.datetime {
      AppendLargest(sorted, p);
    } else {
      var front, last := sorted[..|sorted| - 1], sorted[|sorted| - 1];
      InsertPointSorts(front, p);
      InsertPointElements(front, p);
      AppendLargest(InsertPoint(front, p), last);
    }
  }

  lemma {:induction false} SortSorts(h: seq<Point>)
    ensures Ascending(SortByDatetime(h)) && multiset(SortByDatetime(h)) == multiset(h)
  {
    if h != [] {
      SortSorts(h[..|h| - 1]);
      InsertPointSorts(SortByDatetime(h[..|h| - 1]), h[|h| - 1]);
      InsertPointElements(SortByDatetime(h[..|h| - 1]), h[|h| - 1]);
      MultisetDropLast(h);
    }
  }

  lemma {:induction false} SortIsIdle(h: seq<Point>)
    requires StrictlyChronological(h)
    ensures SortByDatetime(h) == h
  {
    if h != [] {
      SortIsIdle(h[..|h| - 1]);
      assert h == h[..|h| - 1] + [h[|h| - 1]];
    }
  }

  function IntervalForDays(days: int): Interval {
    if days <= 2 then Hourly else if days <= 14 then Daily else if days <= 90 then Weekly else Monthly
  }

  /** Two rows share a point by the hour for up to 2 days, by the day for up to 14, by the week for up to 90
      and by the month beyond. */
  lemma PointsShareByDays(days: int, t: int, u: int)
    requires PlainYear(t) && PlainYear(u)
    ensures Bucketing(IntervalForDays(days))(t) == Bucketing(IntervalForDays(days))(u)
            <==> SamePeriod(t, u, if days <= 2 then Hourly else if days <= 14 then Daily
                                  else if days <= 90 then Weekly else Monthly)
  {
    SameBucketIffSamePeriod(t, u, IntervalForDays(days));
  }

  lemma BucketingAscends(rows: seq<Balance>, interval: Interval)
    requires InTimeOrder(rows) && PlainYears(rows)
    ensures BucketsAscend(rows, Bucketing(interval))
  {
    var bucketOf := Bucketing(interval);
    forall i, j | 0 <= i < j < |rows| ensures bucketOf(rows[i].timestamp) <= bucketOf(rows[j].timestamp) {
      BucketStartMonotone(rows[i].timestamp, rows[j].timestamp, interval);
    }
  }

  /** Since rows arrive in time order and buckets are monotone, the grouped history is strictly
      chronological before the sort, which therefore changes nothing. Its first point is the bucket of
      the oldest row, its last point that of the newest, and each value is the rounded sum over the
      exchanges of that bucket, each counted once with its latest balance. */
  lemma HistoryIsChronological(rows: seq<Balance>, bucketOf: int -> int)
    requires rows != [] && BucketsAscend(rows, bucketOf)
    ensures var h := HistoryOf(Grouped(rows, bucketOf));
            && StrictlyChronological(h) && SortByDatetime(h) == h && h != []
            && h[0].datetime == bucketOf(rows[0].timestamp)
            && h[|h| - 1].datetime == bucketOf(rows[|rows| - 1].timestamp)
    ensures forall g :: g in Grouped(rows, bucketOf) ==> HoldsLatest(rows, bucketOf, g)
  {
    GroupedChronological(rows, bucketOf);
    var groups := Grouped(rows, bucketOf);
    SortIsIdle(HistoryOf(groups));
    forall g | g in groups ensures HoldsLatest(rows, bucketOf, g) {
      GroupHoldsLatest(rows, bucketOf, g);
    }
  }

  lemma GroupHoldsLatest(rows: seq<Balance>, bucketOf: int -> int, g: Group)
    requires rows != [] && BucketsAscend(rows, bucketOf) && g in Grouped(rows, bucketOf)
    ensures HoldsLatest(rows, bucketOf, g)
  {
    GroupedChronological(rows, bucketOf);
    LookupMember(Grouped(rows, bucketOf), g);
    forall e ensures IsLatest(rows, bucketOf, g.bucket, e, Find(g.latest, e)) {
      GroupingKeepsLatest(rows, bucketOf, g.bucket, e);
    }
  }

  /** The group counts every exchange of its bucket once, with a latest balance. */
  ghost predicate HoldsLatest(rows: seq<Balance>, bucketOf: int -> int, g: Group) {
    && DistinctExchanges(g.latest)
    && forall e :: IsLatest(rows, bucketOf, g.bucket, e, Find(g.latest, e))
  }

  lemma {:induction false} LookupMember(groups: seq<Group>, g: Group)
    requires g in groups && DistinctBuckets(groups)
    ensures Lookup(groups, g.bucket) == g.latest
  {
    if groups[0] != g {
      assert g in groups[1..];
      LookupMember(groups[1..], g);
    }
  }

  // ---------------------------------------------------------------- what a point adds up

  lemma TotalOfOne(b: Balance)
    ensures Total([b]) == b.totalUsdValue
  {
    assert Amounts([b]) == [b.totalUsdValue];
    V.SumSingle(b.totalUsdValue);
  }

  lemma TotalConcat(a: seq<Balance>, b: seq<Balance>)
    ensures Total(a + b) == Total(a) + Total(b)
  {
    assert Amounts(a + b) == Amounts(a) + Amounts(b);
    V.SumConcat(Amounts(a), Amounts(b));
  }

  lemma {:induction false} AmountsPermuted(a: seq<Balance>, b: seq<Balance>)
    requires multiset(a) == multiset(b)
    ensures multiset(Amounts(a)) == multiset(Amounts(b))
    decreases |a|
  {
    if a == [] {
      assert |multiset(b)| == |multiset(a)|;
    } else {
      var i := TakeLastOut(a, b);
      AmountsPermuted(a[..|a| - 1], b[..i] + b[i + 1..]);
      AmountsOfLast(a);
      AmountsWithout(b, i);
    }
  }

  lemma AmountsOfLast(a: seq<Balance>)
    requires a != []
    ensures multiset(Amounts(a)) == multiset(Amounts(a[..|a| - 1])) + multiset{a[|a| - 1].totalUsdValue}
  {
    assert Amounts(a)[..|a| - 1] == Amounts(a[..|a| - 1]);
    MultisetDropLast(Amounts(a));
  }

  lemma AmountsWithout(a: seq<Balance>, i: nat)
    requires i < |a|
    ensures multiset(Amounts(a)) == multiset(Amounts(a[..i] + a[i + 1..])) + multiset{a[i].totalUsdValue}
  {
    MultisetRemoveAt(Amounts(a), i);
    assert Amounts(a)[..i] + Amounts(a)[i + 1..] == Amounts(a[..i] + a[i + 1..]);
  }

  /** The order of the exchanges does not matter to a total. */
  lemma TotalPermuted(a: seq<Balance>, b: seq<Balance>)
    requires multiset(a) == multiset(b)
    ensures Total(a) == Total(b)
  {
    AmountsPermuted(a, b);
    V.SumPermuted(Amounts(a), Amounts(b));
  }

  lemma TotalCons(b: Balance, rest: seq<Balance>)
    ensures Total([b] + rest) == b.totalUsdValue + Total(rest)
  {
    TotalConcat([b], rest);
    TotalOfOne(b);
  }

  function ChangeBy(before: Option<Balance>, b: Balance): real {
    match before
    case None => b.totalUsdValue
    case Some(earlier) => if earlier.timestamp < b.timestamp then b.totalUsdValue - earlier.totalUsdValue else 0.0
  }

  /** Keeping one more balance adds the amount of a new exchange, replaces that of an earlier one. */
  lemma {:induction false} TotalKeep(latest: seq<Balance>, b: Balance)
    ensures Total(Keep(latest, b)) - Total(latest) == ChangeBy(Find(latest, b.exchangeId), b)
  {
    if latest == [] {
      TotalOfOne(b);
      assert Amounts([]) == [];
    } else {
      var first, rest := latest[0], latest[1..];
      assert latest == [first] + rest;
      TotalCons(first, rest);
      if first.exchangeId != b.exchangeId {
        TotalKeep(rest, b);
        TotalCons(first, Keep(rest, b));
      } else {
        TotalCons(b, rest);
      }
    }
  }

  /** The value of a bucket before rounding: the total of the balances that the rows leave in it. */
  function BucketTotal(rows: seq<Balance>, bucketOf: int -> int, bucket: int): real {
    Total(Lookup(Grouped(rows, bucketOf), bucket))
  }

  /** No row, no value. */
  lemma EmptyBucketTotal(bucketOf: int -> int, bucket: int)
    ensures BucketTotal([], bucketOf, bucket) == 0.0
  {
    assert Amounts([]) == [];
  }

  ghost predicate NewExchange(rows: seq<Balance>, bucketOf: int -> int, b: Balance) {
    forall r :: r in rows ==> !InBucket(r, bucketOf, bucketOf(b.timestamp), b.exchangeId)
  }

  /** `earlier` is the latest row so far of b's exchange in b's bucket. */
  ghost predicate LatestBefore(rows: seq<Balance>, bucketOf: int -> int, b: Balance, earlier: Balance) {
    IsLatest(rows, bucketOf, bucketOf(b.timestamp), b.exchangeId, Some(earlier))
  }

  /** A row b changes the value of its bucket by this much; `earlier` is the balance it may replace. */
  ghost predicate RaisesBy(rows: seq<Balance>, bucketOf: int -> int, b: Balance, earlier: Option<Balance>,
                           change: real) {
    match earlier
    case None => NewExchange(rows, bucketOf, b) && change == b.totalUsdValue
    case Some(o) =>
      && LatestBefore(rows, bucketOf, b, o)
      && (o.timestamp < b.timestamp ==> change == b.totalUsdValue - o.totalUsdValue)
      && (o.timestamp >= b.timestamp ==> change == 0.0)
  }

  /** What one more row does to the value of a bucket, before rounding. A row of another bucket does
      nothing; a row of an exchange new to the bucket adds exactly its amount; a later row of a known
      exchange replaces the amount of the latest one so far; a row that is not later does nothing. These
      laws determine every value from the rows. */
  lemma OneMoreRow(rows: seq<Balance>, b: Balance, bucketOf: int -> int, bucket: int) returns (earlier: Option<Balance>)
    ensures bucketOf(b.timestamp) != bucket ==>
              BucketTotal(rows + [b], bucketOf, bucket) == BucketTotal(rows, bucketOf, bucket)
    ensures bucketOf(b.timestamp) == bucket ==> RaisesBy(rows, bucketOf, b, earlier,
              BucketTotal(rows + [b], bucketOf, bucket) - BucketTotal(rows, bucketOf, bucket))
  {
    assert (rows + [b])[..|rows|] == rows;
    var groups, target := Grouped(rows, bucketOf), bucketOf(b.timestamp);
    LookupAddRow(groups, target, b, bucket);
    earlier := Find(Lookup(groups, target), b.exchangeId);
    GroupingKeepsLatest(rows, bucketOf, target, b.exchangeId);
    TotalKeep(Lookup(groups, target), b);
  }

  ghost predicate DistinctBuckets(groups: seq<Group>) {
    forall i, j :: 0 <= i < j < |groups| ==> groups[i].bucket != groups[j].bucket
  }

  lemma {:induction false} AddRowDistinct(groups: seq<Group>, bucket: int, b: Balance)
    requires DistinctBuckets(groups)
    ensures DistinctBuckets(AddRow(groups, bucket, b))
  {
    if groups != [] && groups[0].bucket != bucket {
      AddRowDistinct(groups[1..], bucket, b);
      AddRowMembers(groups[1..], bucket, b);
      var rest := AddRow(groups[1..], bucket, b);
      forall j | 0 <= j < |rest| ensures rest[j].bucket != groups[0].bucket {
        assert rest[j] in rest;
        if rest[j].bucket != bucket { var i :| 1 <= i < |groups| && groups[i] == rest[j]; }
      }
    }
  }

  lemma {:induction false} GroupedDistinct(rows: seq<Balance>, bucketOf: int -> int)
    ensures DistinctBuckets(Grouped(rows, bucketOf))
  {
    if rows != [] {
      GroupedDistinct(rows[..|rows| - 1], bucketOf);
      var last := rows[|rows| - 1];
      AddRowDistinct(Grouped(rows[..|rows| - 1], bucketOf), bucketOf(last.timestamp), last);
    }
  }

  /** Every point of the history is its bucket's value, rounded to cents. */
  lemma PointIsBucketTotal(rows: seq<Balance>, bucketOf: int -> int, i: nat)
    requires i < |Grouped(rows, bucketOf)|
    ensures var p := HistoryOf(Grouped(rows, bucketOf))[i];
            p.value == Round2(BucketTotal(rows, bucketOf, p.datetime))
  {
    GroupedDistinct(rows, bucketOf);
    LookupMember(Grouped(rows, bucketOf), Grouped(rows, bucketOf)[i]);
  }

  // ---------------------------------------------------------------- down-sampling

  function TargetPoints(days: int): nat {
    if days <= 30 then 60 else if days <= 90 then 90 else if days <= 365 then 52 else 48
  }

  function CeilDiv(x: nat, y: nat): nat
    requires y > 0
  {
    (x + y - 1) / y
  }

  /** i, i + step, i + 2 * step, ... below the limit. */
  function StepsFrom(i: nat, step: nat, limit: int): seq<nat>
    requires step > 0
    decreases limit - i
  {
    if i < limit then [i] + StepsFrom(i + step, step, limit) else []
  }

  /** The positions that sampling a history of n points keeps. */
  function SampledPositions(n: nat, step: nat): seq<nat>
    requires n > 0 && step > 0
  {
    [0] + StepsFrom(step, step, n - step) + [n - 1]
  }

  function StepFor(n: nat, days: int): (step: nat)
    requires n > 0
    ensures step > 0
  {
    CeilDivFacts(n, TargetPoints(days) - 2);
    CeilDiv(n, TargetPoints(days) - 2)
  }

  lemma CeilDivFacts(x: nat, y: nat)
    requires x > 0 && y > 0
    ensures CeilDiv(x, y) > 0 && x <= CeilDiv(x, y) * y
  {
    QuotientPositive(x + y - 1, y);
    assert x + y - 1 == (x + y - 1) / y * y + (x + y - 1) % y;
  }

  lemma QuotientPositive(x: nat, y: nat)
    requires 0 < y <= x
    ensures x / y > 0
  {
  }

  function Pick(h: seq<Point>, positions: seq<nat>): seq<Point>
    requires forall k :: 0 <= k < |positions| ==> positions[k] < |h|
  {
    seq(|positions|, k requires 0 <= k < |positions| => h[positions[k]])
  }

  ghost predicate Sampling(positions: seq<nat>, n: nat, step: nat) {
    && |positions| >= 2 && positions[0] == 0 && positions[|positions| - 1] == n - 1
    && (forall k :: 0 <= k < |positions| ==> positions[k] < n)
    && forall k :: 0 <= k < |positions| - 1 ==> positions[k] < positions[k + 1] <= positions[k] + 2 * step - 1
  }

  /** `s` runs from i in steps to the last position below the limit. */
  ghost predicate Steps(s: seq<nat>, i: nat, step: nat, limit: int) {
    && (forall k :: 0 <= k < |s| ==> i <= s[k] < limit)
    && (forall k :: 0 <= k < |s| - 1 ==> s[k + 1] == s[k] + step)
    && (s != [] ==> s[0] == i && s[|s| - 1] + step >= limit)
    && (s == [] ==> i >= limit)
  }

  lemma {:induction false} StepsShape(i: nat, step: nat, limit: int)
    requires step > 0
    ensures Steps(StepsFrom(i, step, limit), i, step, limit)
    decreases limit - i
  {
    if i < limit { StepsShape(i + step, step, limit); }
  }

  lemma {:induction false} StepsCount(i: nat, step: nat, limit: int)
    requires step > 0
    ensures |StepsFrom(i, step, limit)| > 0 ==> i + (|StepsFrom(i, step, limit)| - 1) * step < limit
    decreases limit - i
  {
    if i < limit {
      StepsCount(i + step, step, limit);
      var m := |StepsFrom(i + step, step, limit)|;
      assert (m - 1) * step + step == m * step;
    }
  }

  /** The k-th and the next of the positions 0, s[0], s[1], ..., n - 1. */
  lemma NextSample(s: seq<nat>, n: nat, step: nat, k: nat)
    requires n > 1 && step > 0 && Steps(s, step, step, n - step) && k <= |s|
    ensures var here, next := if k == 0 then 0 else s[k - 1], if k == |s| then n - 1 else s[k];
            here < next <= here + 2 * step - 1 && next < n
  {
    if 0 < k < |s| { assert s[k - 1 + 1] == s[k - 1] + step; }
  }

  lemma SampledPositionsShape(n: nat, step: nat)
    requires n > 1 && step > 0
    ensures Sampling(SampledPositions(n, step), n, step)
  {
    StepsShape(step, step, n - step);
    var s, p := StepsFrom(step, step, n - step), SampledPositions(n, step);
    forall k | 0 <= k < |p| - 1 ensures p[k] < p[k + 1] <= p[k] + 2 * step - 1 {
      NextSample(s, n, step, k);
    }
    forall k | 0 <= k < |p| ensures p[k] < n {
      if k > 0 { NextSample(s, n, step, k - 1); }
    }
  }

  lemma ProductAscends(a: nat, b: nat, c: nat)
    requires a <= b
    ensures c * a <= b * c
  {
  }

  lemma ProductBound(m: nat, p: nat, step: nat, n: nat)
    requires n <= step * p && (m + 1) * step < n
    ensures m + 1 < p
  {
    if m + 1 >= p {
      ProductAscends(p, m + 1, step);
      assert false;
    }
  }

  lemma SampledPositionsCount(n: nat, step: nat, p: nat)
    requires n > 0 && step > 0 && p >= 2 && n <= step * p
    ensures |SampledPositions(n, step)| <= p
  {
    StepsCount(step, step, n - step);
    var m := |StepsFrom(step, step, n - step)|;
    if m > 0 {
      assert (m + 1) * step == step + (m - 1) * step + step;
      ProductBound(m, p, step, n);
    }
  }

  /** What targetPoints - 2 is: 58, 88, 50 or 46 by the number of days. */
  function MostPoints(days: int): nat {
    if days <= 30 then 58 else if days <= 90 then 88 else if days <= 365 then 50 else 46
  }

  function Multiple(k: nat, step: nat): nat {
    k * step
  }

  ghost predicate Multiples(positions: seq<nat>, step: nat) {
    forall k :: 0 <= k < |positions| - 1 ==> positions[k] == Multiple(k, step)
  }

  lemma StepsAreMultiples(i: nat, step: nat, limit: int, k: nat)
    requires step > 0 && k < |StepsFrom(i, step, limit)|
    ensures StepsFrom(i, step, limit)[k] == i + k * step
    decreases k
  {
    if k > 0 { StepsAreMultiples(i + step, step, limit, k - 1); }
  }

  lemma SampledAreMultiples(n: nat, step: nat)
    requires n > 0 && step > 0
    ensures Multiples(SampledPositions(n, step), step)
  {
    var p := SampledPositions(n, step);
    forall k | 0 <= k < |p| - 1 ensures p[k] == Multiple(k, step) {
      if k > 0 {
        StepsAreMultiples(step, step, n - step, k - 1);
        assert step + (k - 1) * step == k * step;
      }
    }
  }

  /** The step is the least one with which that many steps reach over the whole history. */
  lemma StepIsLeast(n: nat, days: int)
    requires n > 0
    ensures n <= StepFor(n, days) * MostPoints(days)
    ensures (StepFor(n, days) - 1) * MostPoints(days) < n
  {
    var y := MostPoints(days);
    assert TargetPoints(days) - 2 == y;
    CeilDivFacts(n, y);
    CeilDivLeast(n, y);
  }

  lemma CeilDivLeast(x: nat, y: nat)
    requires x > 0 && y > 0
    ensures (CeilDiv(x, y) - 1) * y < x
  {
    var q := (x + y - 1) / y;
    assert x + y - 1 == q * y + (x + y - 1) % y;
    assert (q - 1) * y == q * y - y;
  }

  /** When a history is sampled, at most targetPoints - 2 points remain: every interval-th one and the last.
      The positions strictly increase and never advance by more than 2 * interval - 1. */
  lemma SamplingBounds(n: nat, days: int)
    requires n > TargetPoints(days)
    ensures var step := StepFor(n, days);
            && Sampling(SampledPositions(n, step), n, step) && Multiples(SampledPositions(n, step), step)
            && |SampledPositions(n, step)| <= MostPoints(days)
  {
    var step := StepFor(n, days);
    SampledAreMultiples(n, step);
    CeilDivFacts(n, TargetPoints(days) - 2);
    SampledPositionsShape(n, step);
    SampledPositionsCount(n, step, TargetPoints(days) - 2);
  }

  predicate IsSampled(n: nat, days: int) {
    n > 1 && days > 7 && n > TargetPoints(days)
  }

  function Sampled(h: seq<Point>, days: int): seq<Point> {
    if !IsSampled(|h|, days) then h
    else
      SamplingBounds(|h|, days);
      Pick(h, SampledPositions(|h|, StepFor(|h|, days)))
  }

  lemma OneMoreSample(h: seq<Point>, done: seq<nat>, i: nat, step: nat, n: nat)
    requires step > 0 && i < n - step && n == |h| && forall k :: 0 <= k < |done| ==> done[k] < n
    ensures done + StepsFrom(i, step, n - step) + [n - 1]
         == (done + [i]) + StepsFrom(i + step, step, n - step) + [n - 1]
    ensures Pick(h, done + [i]) == Pick(h, done) + [h[i]]
  {
    var rest := StepsFrom(i + step, step, n - step);
    assert done + ([i] + rest) + [n - 1] == (done + [i]) + rest + [n - 1];
  }

  /** Exactly when a history is sampled, and which of its points are kept: every step-th one and the last. */
  lemma SampledKeeps(h: seq<Point>, days: int)
    ensures var r := Sampled(h, days);
            if days <= 7 || |h| <= MostPoints(days) + 2 then r == h
            else
              && 2 <= |r| <= MostPoints(days) && r[|r| - 1] == h[|h| - 1]
              && KeepsMultiples(h, r, StepFor(|h|, days))
  {
    assert TargetPoints(days) == MostPoints(days) + 2;
    if IsSampled(|h|, days) {
      SamplingBounds(|h|, days);
      PickedMultiples(h, SampledPositions(|h|, StepFor(|h|, days)), StepFor(|h|, days));
    }
  }

  ghost predicate KeepsMultiples(h: seq<Point>, r: seq<Point>, step: nat) {
    forall k :: 0 <= k < |r| - 1 ==> Multiple(k, step) < |h| && r[k] == h[Multiple(k, step)]
  }

  lemma PickedMultiples(h: seq<Point>, positions: seq<nat>, step: nat)
    requires Sampling(positions, |h|, step) && Multiples(positions, step)
    ensures KeepsMultiples(h, Pick(h, positions), step)
    ensures var r := Pick(h, positions);
            |r| == |positions| && r[|r| - 1] == h[|h| - 1]
  {
  }

  /** sampleHistoryPoints. */
  method SampleHistoryPoints(h: seq<Point>, days: int) returns (result: seq<Point>)
    ensures result == Sampled(h, days)
    ensures |result| <= |h| && (IsSampled(|h|, days) ==> |result| <= TargetPoints(days) - 2)
  {
    if |h| <= 1 || days <= 7 { return h; }
    var targetPoints := TargetPoints(days);
    if |h| <= targetPoints { return h; }
    SamplingBounds(|h|, days);
    var n := |h|;
    var interval := StepFor(n, days);
    result := [h[0]];
    var i := interval;
    ghost var done: seq<nat> := [0];
    while i < n - interval
      invariant 0 < i
      invariant done + StepsFrom(i, interval, n - interval) + [n - 1] == SampledPositions(n, interval)
      invariant forall k :: 0 <= k < |done| ==> done[k] < n
      invariant result == Pick(h, done)
      decreases n - i
    {
      OneMoreSample(h, done, i, interval, n);
      result := result + [h[i]];
      done := done + [i];
      i := i + interval;
    }
    result := result + [h[n - 1]];
    assert done + [] + [n - 1] == done + [n - 1];
    assert Pick(h, done + [n - 1]) == Pick(h, done) + [h[n - 1]];
  }

  // ---------------------------------------------------------------- the whole report

  datatype AccountValueHistory = AccountValueHistory(history: seq<Point>, currentValue: real,
                                                     changePercentage: real, changeAmount: real)

  function ChangePercentage(current: real, oldest: real): real {
    if oldest > 0.0 then Round2((current - oldest) / oldest * 100.0) else 0.0
  }

  /** The percentage leads back from the oldest value to the current one, up to half a hundredth of a percent
      of the oldest; without a positive oldest value it is zero. */
  lemma ChangeLeadsBack(current: real, oldest: real)
    ensures oldest <= 0.0 ==> ChangePercentage(current, oldest) == 0.0
    ensures oldest > 0.0 ==>
              && V.Times(oldest, 100.0 + ChangePercentage(current, oldest)) <= 100.0 * current + 0.005 * oldest
              && V.Times(oldest, 100.0 + ChangePercentage(current, oldest)) > 100.0 * current - 0.005 * oldest
  {
    if oldest > 0.0 {
      var q := (current - oldest) / oldest;
      assert q * oldest == current - oldest;
      ScaledError(oldest, ChangePercentage(current, oldest), q * 100.0);
    }
  }

  lemma ScaledError(oldest: real, pct: real, exact: real)
    requires oldest > 0.0 && exact - 0.005 < pct <= exact + 0.005
    ensures V.Times(oldest, exact - 0.005) < V.Times(oldest, pct) <= V.Times(oldest, exact + 0.005)
    ensures V.Times(oldest, exact - 0.005) == exact * oldest - 0.005 * oldest
    ensures V.Times(oldest, exact + 0.005) == exact * oldest + 0.005 * oldest
    ensures V.Times(oldest, 100.0 + pct) == 100.0 * oldest + V.Times(oldest, pct)
  {
    V.ScaledLess(exact - 0.005, pct, oldest);
    V.ScaledLess(pct, exact + 0.005, oldest);
  }

  /** The report on some rows: current value, change since the first bucket, sorted and sampled points. */
  ghost predicate IsReport(r: AccountValueHistory, rows: seq<Balance>, bucketOf: int -> int, days: int,
                           currentTotals: seq<real>)
    requires rows != []
  {
    var h := HistoryOf(Grouped(rows, bucketOf));
    && h != [] && h[0].datetime == bucketOf(rows[0].timestamp)
    && r.history == Sampled(SortByDatetime(h), days)
    && IsChange(h, currentTotals, r.currentValue, r.changePercentage, r.changeAmount)
  }

  /** The current value is the total passed in or the last point's; the change is from the first point. */
  ghost predicate IsChange(h: seq<Point>, currentTotals: seq<real>,
                           currentValue: real, changePercentage: real, changeAmount: real)
    requires h != []
  {
    var current := if currentTotals != [] then V.Sum(currentTotals) else h[|h| - 1].value;
    && currentValue == Round2(current)
    && changeAmount == Round2(current - h[0].value)
    && changePercentage == ChangePercentage(current, h[0].value)
  }

  lemma WholeCentsStay(x: real)
    requires IsWhole(x * 100.0)
    ensures Round2(x) == x
  {
    var y := x * 100.0;
    HalfMoreFloors(y);
    assert y / 100.0 == x;
  }

  lemma HalfMoreFloors(y: real)
    requires IsWhole(y)
    ensures (y + 0.5).Floor as real == y
  {
    var n := y.Floor;
    assert (n as real + 0.5).Floor == n;
  }

  /** The report adds up: the current value is the total passed in, up to half a cent, or else that of the
      last point, and the amount leads from the first point to it up to a cent. */
  lemma ReportedChange(h: seq<Point>, currentTotals: seq<real>,
                       currentValue: real, changePercentage: real, changeAmount: real)
    requires h != [] && IsChange(h, currentTotals, currentValue, changePercentage, changeAmount)
    ensures currentTotals != [] ==> -0.005 <= currentValue - V.Sum(currentTotals) <= 0.005
    ensures currentTotals == [] && IsWhole(h[|h| - 1].value * 100.0) ==> currentValue == h[|h| - 1].value
    ensures -0.01 < h[0].value + changeAmount - currentValue < 0.01
  {
    if IsWhole(h[|h| - 1].value * 100.0) { WholeCentsStay(h[|h| - 1].value); }
  }

  /** The points are in order without the sort, from the bucket of the first row to that of the last. */
  ghost predicate InOrder(rows: seq<Balance>, bucketOf: int -> int)
    requires rows != []
  {
    var h := HistoryOf(Grouped(rows, bucketOf));
    && StrictlyChronological(h) && SortByDatetime(h) == h && h != []
    && h[|h| - 1].datetime == bucketOf(rows[|rows| - 1].timestamp)
  }

  method ComputeChange(history: seq<Point>, currentTotals: seq<real>)
    returns (currentValue: real, changePercentage: real, changeAmount: real)
    requires history != []
    ensures IsChange(history, currentTotals, currentValue, changePercentage, changeAmount)
  {
    var current := history[|history| - 1].value;
    if |currentTotals| > 0 { current := V.Sum(currentTotals); }
    var oldestValue := history[0].value;
    currentValue := Round2(current);
    changeAmount := Round2(current - oldestValue);
    changePercentage := ChangePercentage(current, oldestValue);
  }

  /** The report with the bucketing given. */
  method ReportOn(rows: seq<Balance>, bucketOf: int -> int, days: int, currentTotals: seq<real>)
    returns (r: AccountValueHistory)
    requires rows != []
    ensures IsReport(r, rows, bucketOf, days, currentTotals)
  {
    var groups := GroupBalances(rows, bucketOf);
    var history := HistoryOf(groups);
    FirstGroup(rows, bucketOf);
    var currentValue, changePercentage, changeAmount := ComputeChange(history, currentTotals);
    var sampled := SampleHistoryPoints(SortByDatetime(history), days);
    return AccountValueHistory(sampled, currentValue, changePercentage, changeAmount);
  }

  /** getAccountValueHistory over the fetched rows; `currentTotals` are the totals of the balances
      passed in, if any. For rows in time order the oldest and the latest value it uses are those of
      the first and the last bucket, and the points come out chronologically. */
  method GetAccountValueHistory(rows: seq<Balance>, days: int, currentTotals: seq<real>)
    returns (r: AccountValueHistory)
    ensures rows == [] ==> r == AccountValueHistory([], 0.0, 0.0, 0.0)
    ensures rows != [] ==> IsReport(r, rows, Bucketing(IntervalForDays(days)), days, currentTotals)
    ensures rows != [] && InTimeOrder(rows) && PlainYears(rows) ==> InOrder(rows, Bucketing(IntervalForDays(days)))
  {
    if |rows| == 0 { return AccountValueHistory([], 0.0, 0.0, 0.0); }
    r := ReportOn(rows, Bucketing(IntervalForDays(days)), days, currentTotals);
    if InTimeOrder(rows) && PlainYears(rows) {
      BucketingAscends(rows, IntervalForDays(days));
      AscendingIsInOrder(rows, Bucketing(IntervalForDays(days)));
    }
  }

  lemma AscendingIsInOrder(rows: seq<Balance>, bucketOf: int -> int)
    requires rows != [] && BucketsAscend(rows, bucketOf)
    ensures InOrder(rows, bucketOf)
  {
    HistoryIsChronological(rows, bucketOf);
  }
}
