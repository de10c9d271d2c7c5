/** The linked history of regime rows (market-regime/market-regime.service.ts): detectRegime closes
    the open row of an asset and inserts a successor that points back to it. */
module RegimeHistory {
  import opened Common
  import opened Volatility

  datatype RegimeRow = RegimeRow(
    id: nat, asset: string, regime: MarketRegimeType, volatility: real, percentile: Percentile,
    detectedAt: int, effectiveUntil: Option<int>, previousRegimeId: Option<nat>)

  predicate IsOpen(r: RegimeRow) {
    r.effectiveUntil.None?
  }

  /** The rows of one asset in insertion order. */
  function AssetRows(rows: seq<RegimeRow>, asset: string): seq<RegimeRow> {
    if rows == [] then []
    else
      var last := rows[|rows| - 1];
      AssetRows(rows[..|rows| - 1], asset) + if last.asset == asset then [last] else []
  }

  ghost predicate DistinctIds(rows: seq<RegimeRow>) {
    forall i, j :: 0 <= i < j < |rows| ==> rows[i].id != rows[j].id
  }

  /** One asset's history when saves may fail: only the last row can be open, and each row starts a chain
      or points to its predecessor, which has another regime. */
  ghost predicate Chained(s: seq<RegimeRow>) {
    && (forall i :: 0 <= i < |s| && IsOpen(s[i]) ==> i == |s| - 1)
    && (s != [] ==> s[0].previousRegimeId == None)
    && (forall i :: 0 < i < |s| ==> s[i].previousRegimeId == None || Follows(s[i - 1], s[i]))
  }

  predicate Follows(previous: RegimeRow, r: RegimeRow) {
    r.previousRegimeId == Some(previous.id) && r.regime != previous.regime
  }

  /** One asset's whole history: the last row is open and the links lead from it to the first row. */
  ghost predicate LinkedHistory(s: seq<RegimeRow>) {
    && (forall i :: 0 <= i < |s| ==> (IsOpen(s[i]) <==> i == |s| - 1))
    && (s != [] ==> s[0].previousRegimeId == None)
    && (forall i :: 0 < i < |s| ==> Follows(s[i - 1], s[i]))
  }

  ghost predicate ChainedRows(rows: seq<RegimeRow>) {
    DistinctIds(rows) && forall asset :: Chained(AssetRows(rows, asset))
  }

  ghost predicate HistoryInv(rows: seq<RegimeRow>) {
    DistinctIds(rows) && forall asset :: LinkedHistory(AssetRows(rows, asset))
  }

  lemma LinkedIsChained(rows: seq<RegimeRow>)
    requires HistoryInv(rows)
    ensures ChainedRows(rows)
  {
    forall asset ensures Chained(AssetRows(rows, asset)) {
      assert LinkedHistory(AssetRows(rows, asset));
    }
  }

  // ---------------------------------------------------------------- facts about one asset's rows

  lemma {:induction false} AssetRowsMembers(rows: seq<RegimeRow>, asset: string)
    ensures forall r :: r in AssetRows(rows, asset) <==> r in rows && r.asset == asset
  {
    if rows != [] {
      var front, last := rows[..|rows| - 1], rows[|rows| - 1];
      assert rows == front + [last];
      AssetRowsMembers(front, asset);
    }
  }

  lemma AssetRowsAppend(rows: seq<RegimeRow>, r: RegimeRow, asset: string)
    ensures AssetRows(rows + [r], asset) == AssetRows(rows, asset) + if r.asset == asset then [r] else []
  {
    assert (rows + [r])[..|rows|] == rows;
  }

  /** Position k holds the open row of its asset. */
  ghost predicate OpenAt(rows: seq<RegimeRow>, asset: string, k: nat) {
    k < |rows| && rows[k].asset == asset && IsOpen(rows[k])
  }

  lemma {:induction false} OpenRowIsLast(rows: seq<RegimeRow>, asset: string, k: nat)
    requires Chained(AssetRows(rows, asset)) && OpenAt(rows, asset, k)
    ensures AssetRows(rows, asset) != [] && AssetRows(rows, asset)[|AssetRows(rows, asset)| - 1] == rows[k]
    ensures forall j :: k < j < |rows| ==> rows[j].asset != asset
  {
    var n := |rows| - 1;
    var front := rows[..n];
    if rows[n].asset == asset {
      AssetRowsMembers(front, asset);
      var s := AssetRows(front, asset);
      assert forall i :: 0 <= i < |s| ==> s[i] == AssetRows(rows, asset)[i] && !IsOpen(s[i]);
      assert forall j :: 0 <= j < n ==> rows[j] in front;
    } else {
      assert k < n && rows[k] == front[k];
      assert AssetRows(rows, asset) == AssetRows(front, asset);
      OpenRowIsLast(front, asset, k);
    }
  }

  lemma {:induction false} CloseLast(rows: seq<RegimeRow>, k: nat, closed: RegimeRow, asset: string)
    requires k < |rows| && closed.asset == rows[k].asset
    requires forall j :: k < j < |rows| ==> rows[j].asset != rows[k].asset
    ensures asset != rows[k].asset ==> AssetRows(rows[k := closed], asset) == AssetRows(rows, asset)
    ensures asset == rows[k].asset ==>
              var s := AssetRows(rows, asset);
              s != [] && AssetRows(rows[k := closed], asset) == s[..|s| - 1] + [closed]
  {
    var n := |rows| - 1;
    if k == n {
      assert rows[k := closed][..n] == rows[..n];
    } else {
      CloseLast(rows[..n], k, closed, asset);
      assert rows[k := closed][..n] == rows[..n][k := closed];
    }
  }

  // ---------------------------------------------------------------- detection

  /** Where a detection fails with an exception, if it does: reading the current row, saving the closed
      row, inserting the new row, or after that (estimating the impact, reading the result). */
  datatype Fault = NoFault | Starting | Closing | Inserting | Afterwards

  datatype Detection = Detection(
    asset: string, reading: Reading, closedAt: int, createdAt: int, newId: nat, fault: Fault)

  /** Nothing fails before the detection has stored what it has to. */
  predicate PastInsert(d: Detection) {
    d.fault == NoFault || d.fault == Afterwards
  }

  function Inserted(d: Detection, previousRegimeId: Option<nat>): RegimeRow {
    RegimeRow(d.newId, d.asset, d.reading.regime, d.reading.volatility, d.reading.percentile,
              d.createdAt, None, previousRegimeId)
  }

  function Closed(r: RegimeRow, d: Detection): RegimeRow {
    r.(effectiveUntil := Some(d.closedAt))
  }

  /** The table after a detection. `current` is the position of the asset's open row, if there is one. */
  function Detected(rows: seq<RegimeRow>, current: Option<nat>, d: Detection): seq<RegimeRow>
    requires current.Some? ==> current.value < |rows|
  {
    if d.fault == Starting then rows
    else if current.None? then if d.fault == Inserting then rows else rows + [Inserted(d, None)]
    else
      var closing := rows[current.value];
      if closing.regime == d.reading.regime || d.fault == Closing then rows
      else
        var closed := rows[current.value := Closed(closing, d)];
        if d.fault == Inserting then closed else closed + [Inserted(d, Some(closing.id))]
  }

  predicate Throws(rows: seq<RegimeRow>, current: Option<nat>, d: Detection)
    requires current.Some? ==> current.value < |rows|
  {
    var changes := current.Some? && rows[current.value].regime != d.reading.regime;
    || d.fault == Starting || d.fault == Afterwards || (d.fault == Closing && changes)
    || (d.fault == Inserting && (changes || current.None?))
  }

  ghost predicate CurrentRow(rows: seq<RegimeRow>, asset: string, current: Option<nat>) {
    if current.Some? then OpenAt(rows, asset, current.value)
    else forall k: nat :: !OpenAt(rows, asset, k)
  }

  /** What a detection does to the history of its asset. */
  function NextHistory(s: seq<RegimeRow>, d: Detection): seq<RegimeRow> {
    if d.fault == Starting then s
    else if s == [] || !IsOpen(s[|s| - 1]) then if d.fault == Inserting then s else s + [Inserted(d, None)]
    else
      var last := s[|s| - 1];
      if last.regime == d.reading.regime || d.fault == Closing then s
      else if d.fault == Inserting then s[..|s| - 1] + [Closed(last, d)]
      else s[..|s| - 1] + [Closed(last, d)] + [Inserted(d, Some(last.id))]
  }

  /** The insert fails after the open row has been closed. */
  predicate Interrupts(s: seq<RegimeRow>, d: Detection) {
    && s != [] && IsOpen(s[|s| - 1]) && s[|s| - 1].regime != d.reading.regime
    && d.fault == Inserting
  }

  lemma NoOpenRow(rows: seq<RegimeRow>, asset: string)
    requires CurrentRow(rows, asset, None)
    ensures var s := AssetRows(rows, asset);
            s == [] || !IsOpen(s[|s| - 1])
  {
    var s := AssetRows(rows, asset);
    AssetRowsMembers(rows, asset);
    if s != [] {
      var r := s[|s| - 1];
      assert r in rows;
      var k :| 0 <= k < |rows| && rows[k] == r;
      assert !OpenAt(rows, asset, k);
    }
  }

  lemma DetectedAssetRows(rows: seq<RegimeRow>, current: Option<nat>, d: Detection)
    requires Chained(AssetRows(rows, d.asset)) && CurrentRow(rows, d.asset, current)
    ensures AssetRows(Detected(rows, current, d), d.asset) == NextHistory(AssetRows(rows, d.asset), d)
  {
    var s := AssetRows(rows, d.asset);
    if current.None? {
      NoOpenRow(rows, d.asset);
      AssetRowsAppend(rows, Inserted(d, None), d.asset);
    } else {
      var closing := rows[current.value];
      var closed := rows[current.value := Closed(closing, d)];
      OpenRowIsLast(rows, d.asset, current.value);
      CloseLast(rows, current.value, Closed(closing, d), d.asset);
      AssetRowsAppend(closed, Inserted(d, Some(closing.id)), d.asset);
    }
  }

  lemma DetectedOtherRows(rows: seq<RegimeRow>, current: Option<nat>, d: Detection, other: string)
    requires Chained(AssetRows(rows, d.asset)) && CurrentRow(rows, d.asset, current) && other != d.asset
    ensures AssetRows(Detected(rows, current, d), other) == AssetRows(rows, other)
  {
    if current.None? {
      AssetRowsAppend(rows, Inserted(d, None), other);
    } else {
      var closing := rows[current.value];
      var closed := rows[current.value := Closed(closing, d)];
      OpenRowIsLast(rows, d.asset, current.value);
      CloseLast(rows, current.value, Closed(closing, d), other);
      AssetRowsAppend(closed, Inserted(d, Some(closing.id)), other);
    }
  }

  lemma NextChained(s: seq<RegimeRow>, d: Detection)
    requires Chained(s)
    ensures Chained(NextHistory(s, d))
  {
  }

  /** What breaks a chained history: a closed last row, or a chain that starts after the first row. */
  ghost predicate Broken(s: seq<RegimeRow>) {
    s != [] && (!IsOpen(s[|s| - 1]) || exists i :: 0 < i < |s| && StartsChain(s[i]))
  }

  predicate StartsChain(r: RegimeRow) {
    r.previousRegimeId == None
  }

  lemma LinkedIffNotBroken(s: seq<RegimeRow>)
    requires Chained(s)
    ensures LinkedHistory(s) <==> !Broken(s)
  {
    if !Broken(s) {
      forall i | 0 < i < |s| ensures Follows(s[i - 1], s[i]) { assert !StartsChain(s[i]); }
    } else if IsOpen(s[|s| - 1]) {
      var i :| 0 < i < |s| && StartsChain(s[i]);
      assert !Follows(s[i - 1], s[i]);
    }
  }

  lemma NextKeepsLinks(s: seq<RegimeRow>, d: Detection)
    ensures |s| <= |NextHistory(s, d)|
    ensures forall i :: 0 <= i < |s| ==> StartsChain(NextHistory(s, d)[i]) == StartsChain(s[i])
    ensures |s| < |NextHistory(s, d)| && s != [] && !IsOpen(s[|s| - 1]) ==> StartsChain(NextHistory(s, d)[|s|])
  {
  }

  lemma BrokenStays(s: seq<RegimeRow>, d: Detection)
    requires Broken(s)
    ensures Broken(NextHistory(s, d))
  {
    var t := NextHistory(s, d);
    NextKeepsLinks(s, d);
    if IsOpen(s[|s| - 1]) {
      var i :| 0 < i < |s| && StartsChain(s[i]);
      assert StartsChain(t[i]);
    } else if |t| > |s| {
      assert StartsChain(t[|s|]);
    }
  }

  lemma InterruptionBreaks(s: seq<RegimeRow>, d: Detection)
    requires Interrupts(s, d)
    ensures Broken(NextHistory(s, d))
  {
  }

  lemma UninterruptedStaysLinked(s: seq<RegimeRow>, d: Detection)
    requires LinkedHistory(s) && !Interrupts(s, d)
    ensures LinkedHistory(NextHistory(s, d))
  {
  }

  /** Only an interrupted change breaks a linked history, and nothing repairs a broken one. */
  lemma NextLinkedIff(s: seq<RegimeRow>, d: Detection)
    requires Chained(s)
    ensures LinkedHistory(NextHistory(s, d)) <==> LinkedHistory(s) && !Interrupts(s, d)
  {
    NextChained(s, d);
    LinkedIffNotBroken(NextHistory(s, d));
    if Interrupts(s, d) {
      InterruptionBreaks(s, d);
    } else if LinkedHistory(s) {
      UninterruptedStaysLinked(s, d);
    } else {
      LinkedIffNotBroken(s);
      BrokenStays(s, d);
    }
  }

  lemma DetectedIds(rows: seq<RegimeRow>, current: Option<nat>, d: Detection)
    requires DistinctIds(rows) && CurrentRow(rows, d.asset, current) && forall r :: r in rows ==> r.id != d.newId
    ensures DistinctIds(Detected(rows, current, d))
  {
    var after := Detected(rows, current, d);
    forall i, j | 0 <= i < j < |after| ensures after[i].id != after[j].id {
      assert i < |rows| && after[i].id == rows[i].id && rows[i] in rows;
    }
  }

  ghost predicate SameOtherRows(rows: seq<RegimeRow>, after: seq<RegimeRow>, asset: string) {
    forall other :: other != asset ==> AssetRows(after, other) == AssetRows(rows, other)
  }

  lemma ChainedAfter(rows: seq<RegimeRow>, after: seq<RegimeRow>, d: Detection)
    requires ChainedRows(rows) && DistinctIds(after) && SameOtherRows(rows, after, d.asset)
    requires AssetRows(after, d.asset) == NextHistory(AssetRows(rows, d.asset), d)
    ensures ChainedRows(after)
  {
    forall asset ensures Chained(AssetRows(after, asset)) {
      assert Chained(AssetRows(rows, asset));
      if asset == d.asset { NextChained(AssetRows(rows, asset), d); }
    }
  }

  lemma LinkedAfterIff(rows: seq<RegimeRow>, after: seq<RegimeRow>, d: Detection)
    requires ChainedRows(rows) && DistinctIds(after) && SameOtherRows(rows, after, d.asset)
    requires AssetRows(after, d.asset) == NextHistory(AssetRows(rows, d.asset), d)
    ensures HistoryInv(after) <==> HistoryInv(rows) && !Interrupts(AssetRows(rows, d.asset), d)
  {
    assert Chained(AssetRows(rows, d.asset));
    NextLinkedIff(AssetRows(rows, d.asset), d);
    EverywhereIff(other => LinkedHistory(AssetRows(rows, other)), other => LinkedHistory(AssetRows(after, other)),
                  d.asset, !Interrupts(AssetRows(rows, d.asset), d));
  }

  /** Whatever fails, a detection keeps every history chained, adds at most one row, and never changes
      a closed row or a row of another asset. It keeps every history linked exactly when it does not
      stop between closing a row and inserting its successor. */
  lemma DetectedKeepsHistory(rows: seq<RegimeRow>, current: Option<nat>, d: Detection)
    requires ChainedRows(rows) && CurrentRow(rows, d.asset, current) && forall r :: r in rows ==> r.id != d.newId
    ensures var after := Detected(rows, current, d);
            && ChainedRows(after)
            && (HistoryInv(after) <==> HistoryInv(rows) && !Interrupts(AssetRows(rows, d.asset), d))
            && |rows| <= |after| <= |rows| + 1
            && (forall k :: 0 <= k < |rows| && (!IsOpen(rows[k]) || rows[k].asset != d.asset) ==> after[k] == rows[k])
  {
    var after := Detected(rows, current, d);
    DetectedIds(rows, current, d);
    assert Chained(AssetRows(rows, d.asset));
    DetectedAssetRows(rows, current, d);
    forall other | other != d.asset ensures AssetRows(after, other) == AssetRows(rows, other) {
      DetectedOtherRows(rows, current, d, other);
    }
    ChainedAfter(rows, after, d);
    LinkedAfterIff(rows, after, d);
    DetectedFrame(rows, current, d);
  }

  lemma DetectedFrame(rows: seq<RegimeRow>, current: Option<nat>, d: Detection)
    requires CurrentRow(rows, d.asset, current)
    ensures var after := Detected(rows, current, d);
            && |rows| <= |after| <= |rows| + 1
            && (forall k :: 0 <= k < |rows| && (!IsOpen(rows[k]) || rows[k].asset != d.asset) ==> after[k] == rows[k])
  {
  }

  lemma EverywhereIff(before: string -> bool, after: string -> bool, asset: string, kept: bool)
    requires forall other :: other != asset ==> after(other) == before(other)
    requires after(asset) <==> before(asset) && kept
    ensures (forall other :: after(other)) <==> (forall other :: before(other)) && kept
  {
    if forall other :: after(other) {
      forall other ensures before(other) { assert after(other); }
    }
  }

  /** A detection that gets past its insert leaves an open row of the detected regime. */
  lemma DetectedIsOpen(rows: seq<RegimeRow>, current: Option<nat>, d: Detection) returns (k: nat)
    requires CurrentRow(rows, d.asset, current) && (PastInsert(d) || !Throws(rows, current, d))
    ensures OpenAt(Detected(rows, current, d), d.asset, k) && Detected(rows, current, d)[k].regime == d.reading.regime
  {
    k := if |Detected(rows, current, d)| > |rows| then |rows| else current.value;
  }

  lemma SameOpenRow(rows: seq<RegimeRow>, asset: string, j: nat, k: nat)
    requires Chained(AssetRows(rows, asset)) && OpenAt(rows, asset, j) && OpenAt(rows, asset, k)
    ensures j == k
  {
    OpenRowIsLast(rows, asset, j);
    OpenRowIsLast(rows, asset, k);
  }

  class MarketRegimeService {
    var rows: seq<RegimeRow>

    constructor ()
      ensures rows == [] && HistoryInv(rows)
    {
      rows := [];
    }

    /** getCurrentRegime: the latest detected open row of the asset. */
    method GetCurrentRegime(asset: string) returns (current: Option<nat>)
      ensures CurrentRow(rows, asset, current)
      ensures current.Some? ==>
                forall j: nat :: OpenAt(rows, asset, j) ==> rows[j].detectedAt <= rows[current.value].detectedAt
    {
      current := None;
      for k := 0 to |rows|
        invariant if current.Some? then OpenAt(rows, asset, current.value)
                  else forall j: nat :: j < k ==> !OpenAt(rows, asset, j)
        invariant current.Some? ==> forall j: nat :: j < k && OpenAt(rows, asset, j) ==>
                    rows[j].detectedAt <= rows[current.value].detectedAt
      {
        if rows[k].asset == asset && IsOpen(rows[k])
           && (current.None? || rows[current.value].detectedAt < rows[k].detectedAt) {
          current := Some(k);
        }
      }
    }

    /** createRegime. Not ok: the save throws. */
    method CreateRegime(d: Detection, previousRegimeId: Option<nat>) returns (ok: bool)
      modifies this
      ensures ok == (d.fault != Inserting)
      ensures rows == if ok then old(rows) + [Inserted(d, previousRegimeId)] else old(rows)
    {
      if d.fault == Inserting { return false; }
      rows := rows + [RegimeRow(d.newId, d.asset, d.reading.regime, d.reading.volatility, d.reading.percentile,
                                d.createdAt, None, previousRegimeId)];
      return true;
    }

    /** handleRegimeChange: two saves and the impact estimate, each of which may throw. */
    method HandleRegimeChange(current: nat, d: Detection) returns (ok: bool)
      requires current < |rows| && d.fault != Starting && rows[current].regime != d.reading.regime
      modifies this
      ensures ok == (d.fault == NoFault)
      ensures rows == Detected(old(rows), Some(current), d)
    {
      if d.fault == Closing { return false; }
      rows := rows[current := rows[current].(effectiveUntil := Some(d.closedAt))];
      ok := CreateRegime(d, Some(rows[current].id));
      if !ok { return; }
      return d.fault != Afterwards;
    }

    /** The part of detectRegime after the calculations. */
    method ApplyReading(d: Detection, ghost current: Option<nat>) returns (r: Option<RegimeRow>)
      requires Chained(AssetRows(rows, d.asset)) && CurrentRow(rows, d.asset, current)
      requires Chained(AssetRows(Detected(rows, current, d), d.asset))
      modifies this
      ensures rows == Detected(old(rows), current, d)
      ensures r.None? <==> Throws(old(rows), current, d)
      ensures r.Some? ==> r.value in rows && r.value.asset == d.asset && IsOpen(r.value)
                          && r.value.regime == d.reading.regime
    {
      if d.fault == Starting { return None; }
      var found := GetCurrentRegime(d.asset);
      if current.Some? { SameOpenRow(rows, d.asset, current.value, found.value); }
      var ok := true;
      if found.Some? && rows[found.value].regime != d.reading.regime {
        ok := HandleRegimeChange(found.value, d);
      } else if found.None? {
        ok := CreateRegime(d, None);
      }
      if !ok || d.fault == Afterwards { return None; }
      var final := GetCurrentRegime(d.asset);
      ghost var k := DetectedIsOpen(old(rows), current, d);
      SameOpenRow(rows, d.asset, k, final.value);
      return Some(rows[final.value]);
    }

    /** detectRegime up to the given fault. None: an exception. */
    method DetectRegime(asset: string, root: Root, prices: seq<real>, config: Config,
                        closedAt: int, createdAt: int, newId: nat, fault: Fault)
      returns (r: Option<RegimeRow>)
      requires ChainedRows(rows) && forall row :: row in rows ==> row.id != newId
      modifies this
      ensures ChainedRows(rows)
      ensures var reading := ReadingOf(root, prices, config);
              if reading.None? then r == None && rows == old(rows)
              else
                var d := Detection(asset, reading.value, closedAt, createdAt, newId, fault);
                DetectionResult(old(rows), rows, d, r)
      ensures forall k :: 0 <= k < |old(rows)| && !IsOpen(old(rows)[k]) ==> k < |rows| && rows[k] == old(rows)[k]
    {
      var reading := ReadMarket(root, prices, config);
      if reading.None? { return None; }
      var d := Detection(asset, reading.value, closedAt, createdAt, newId, fault);
      ghost var current := FindCurrent(rows, asset);
      DetectedKeepsHistory(rows, current, d);
      assert Chained(AssetRows(rows, asset)) && Chained(AssetRows(Detected(rows, current, d), asset));
      r := ApplyReading(d, current);
    }
  }

  /** The result of a detection: the table is as Detected says and linked exactly if it was and the
      change was not interrupted; the answer is the open row with the detected regime, unless the
      detection throws. */
  ghost predicate DetectionResult(before: seq<RegimeRow>, after: seq<RegimeRow>, d: Detection, r: Option<RegimeRow>) {
    && (HistoryInv(after) <==> HistoryInv(before) && !Interrupts(AssetRows(before, d.asset), d))
    && (r.Some? ==> r.value in after && r.value.asset == d.asset && IsOpen(r.value)
                    && r.value.regime == d.reading.regime)
    && exists current :: CurrentRow(before, d.asset, current)
         && after == Detected(before, current, d)
         && (r.None? <==> Throws(before, current, d))
  }

  lemma FindCurrent(rows: seq<RegimeRow>, asset: string) returns (current: Option<nat>)
    ensures CurrentRow(rows, asset, current)
  {
    if k: nat :| OpenAt(rows, asset, k) { current := Some(k); } else { current := None; }
  }

  // ---------------------------------------------------------------- following the links

  function FindRow(rows: seq<RegimeRow>, id: nat): Option<RegimeRow> {
    if rows == [] then None
    else if rows[0].id == id then Some(rows[0])
    else FindRow(rows[1..], id)
  }

  /** The rows met when following previousRegimeId from `id` through the whole table. */
  function Walk(rows: seq<RegimeRow>, id: Option<nat>, steps: nat): seq<RegimeRow>
    decreases steps
  {
    if id.None? || steps == 0 then []
    else
      var row := FindRow(rows, id.value);
      if row.None? then [] else [row.value] + Walk(rows, row.value.previousRegimeId, steps - 1)
  }

  function Reversed(s: seq<RegimeRow>): seq<RegimeRow> {
    if s == [] then [] else [s[|s| - 1]] + Reversed(s[..|s| - 1])
  }

  lemma {:induction false} FindRowFinds(rows: seq<RegimeRow>, r: RegimeRow)
    requires DistinctIds(rows) && r in rows
    ensures FindRow(rows, r.id) == Some(r)
  {
    if rows[0] != r {
      assert r in rows[1..];
      FindRowFinds(rows[1..], r);
    }
  }

  lemma WalkOne(rows: seq<RegimeRow>, r: RegimeRow, steps: nat)
    requires DistinctIds(rows) && r in rows && 0 < steps
    ensures Walk(rows, Some(r.id), steps) == [r] + Walk(rows, r.previousRegimeId, steps - 1)
  {
    FindRowFinds(rows, r);
  }

  /** The position of the first row of the chain that the row at position n - 1 belongs to. */
  function ChainStart(s: seq<RegimeRow>, n: nat): (m: nat)
    requires 0 < n <= |s|
    ensures m < n
  {
    if n == 1 || s[n - 1].previousRegimeId == None then n - 1 else ChainStart(s, n - 1)
  }

  lemma ReversedSlice(s: seq<RegimeRow>, m: nat, n: nat)
    requires m < n <= |s|
    ensures Reversed(s[m..n]) == [s[n - 1]] + Reversed(s[m..n - 1])
  {
    assert s[m..n][..|s[m..n]| - 1] == s[m..n - 1];
  }

  lemma {:induction false} WalkFrom(rows: seq<RegimeRow>, s: seq<RegimeRow>, n: nat, steps: nat)
    requires DistinctIds(rows) && Chained(s) && forall r :: r in s ==> r in rows
    requires 0 < n <= |s| && n <= steps
    ensures Walk(rows, Some(s[n - 1].id), steps) == Reversed(s[ChainStart(s, n)..n])
  {
    WalkOne(rows, s[n - 1], steps);
    var m := ChainStart(s, n);
    ReversedSlice(s, m, n);
    if m < n - 1 {
      WalkFrom(rows, s, n - 1, steps - 1);
    } else {
      assert s[m..n - 1] == [];
    }
  }

  lemma {:induction false} LinkedIffOneChain(s: seq<RegimeRow>, n: nat)
    requires Chained(s) && 0 < n <= |s|
    ensures ChainStart(s, n) == 0 <==> forall i :: 0 < i < n ==> Follows(s[i - 1], s[i])
  {
    if n > 1 {
      assert s[n - 1].previousRegimeId == None <==> !Follows(s[n - 2], s[n - 1]);
      if s[n - 1].previousRegimeId != None { LinkedIffOneChain(s, n - 1); }
    }
  }

  lemma {:induction false} ReversedLength(s: seq<RegimeRow>)
    ensures |Reversed(s)| == |s|
  {
    if s != [] { ReversedLength(s[..|s| - 1]); }
  }

  lemma WholeIffLinked(s: seq<RegimeRow>)
    requires Chained(s) && s != [] && IsOpen(s[|s| - 1])
    ensures Reversed(s[ChainStart(s, |s|)..]) == Reversed(s) <==> LinkedHistory(s)
  {
    var m := ChainStart(s, |s|);
    LinkedIffOneChain(s, |s|);
    ReversedLength(s);
    ReversedLength(s[m..]);
    assert s[0..] == s;
  }

  lemma WalkFromOpenRow(rows: seq<RegimeRow>, s: seq<RegimeRow>, steps: nat)
    requires DistinctIds(rows) && Chained(s) && (forall r :: r in s ==> r in rows) && 0 < |s| <= steps
    ensures Walk(rows, Some(s[|s| - 1].id), steps) == Reversed(s[ChainStart(s, |s|)..])
  {
    WalkFrom(rows, s, |s|, steps);
    var m := ChainStart(s, |s|);
    assert s[m..|s|] == s[m..];
  }

  /** Whatever failed before, an asset has at most one open row, and following previousRegimeId from it
      visits the rows of its chain, newest first, each once, and then stops. These are all rows of the
      asset exactly when its history is linked. */
  lemma OpenRowReachesWholeHistory(rows: seq<RegimeRow>, asset: string, k: nat, steps: nat)
    requires ChainedRows(rows) && OpenAt(rows, asset, k) && |AssetRows(rows, asset)| <= steps
    ensures forall j: nat :: OpenAt(rows, asset, j) ==> j == k
    ensures var s := AssetRows(rows, asset);
            && s != [] && Walk(rows, Some(rows[k].id), steps) == Reversed(s[ChainStart(s, |s|)..])
            && (Walk(rows, Some(rows[k].id), steps) == Reversed(s) <==> LinkedHistory(s))
  {
    var s := AssetRows(rows, asset);
    assert Chained(s);
    OpenRowIsLast(rows, asset, k);
    forall j: nat | OpenAt(rows, asset, j) ensures j == k {
      SameOpenRow(rows, asset, j, k);
    }
    AssetRowsMembers(rows, asset);
    WalkFromOpenRow(rows, s, steps);
    WholeIffLinked(s);
  }

  // ---------------------------------------------------------------- runs of detections

  /** `tables[i]` is the table before detection `i` of a run from the empty table. */
  ghost predicate ValidRun(tables: seq<seq<RegimeRow>>, detections: seq<Detection>) {
    && |tables| == |detections| + 1 && tables[0] == []
    && forall i :: 0 <= i < |detections| ==> DetectionStep(tables[i], tables[i + 1], detections[i])
  }

  ghost predicate DetectionStep(before: seq<RegimeRow>, after: seq<RegimeRow>, d: Detection) {
    && (forall r :: r in before ==> r.id != d.newId)
    && exists current :: CurrentRow(before, d.asset, current) && after == Detected(before, current, d)
  }

  predicate InterruptedAt(tables: seq<seq<RegimeRow>>, detections: seq<Detection>, i: nat)
    requires i < |tables| && i < |detections|
  {
    Interrupts(AssetRows(tables[i], detections[i].asset), detections[i])
  }

  lemma StepKeeps(before: seq<RegimeRow>, after: seq<RegimeRow>, d: Detection)
    requires ChainedRows(before) && DetectionStep(before, after, d)
    ensures ChainedRows(after) && |before| <= |after|
    ensures HistoryInv(after) <==> HistoryInv(before) && !Interrupts(AssetRows(before, d.asset), d)
    ensures forall k :: 0 <= k < |before| && (!IsOpen(before[k]) || before[k].asset != d.asset) ==>
              after[k] == before[k]
    ensures PastInsert(d) ==> exists k: nat :: OpenAt(after, d.asset, k)
  {
    var current :| CurrentRow(before, d.asset, current) && after == Detected(before, current, d);
    DetectedKeepsHistory(before, current, d);
    if PastInsert(d) { var k := DetectedIsOpen(before, current, d); }
  }

  lemma {:induction false} ChainedAlways(tables: seq<seq<RegimeRow>>, detections: seq<Detection>, n: nat)
    requires ValidRun(tables, detections) && n < |tables|
    ensures ChainedRows(tables[n])
  {
    if n > 0 {
      ChainedAlways(tables, detections, n - 1);
      assert DetectionStep(tables[n - 1], tables[n], detections[n - 1]);
      StepKeeps(tables[n - 1], tables[n], detections[n - 1]);
    }
  }

  /** Over any run, failures included, all histories are linked if and only if no detection so far was
      stopped between closing a row and inserting its successor. */
  lemma {:induction false} LinkedIffNeverInterrupted(tables: seq<seq<RegimeRow>>, detections: seq<Detection>, n: nat)
    requires ValidRun(tables, detections) && n < |tables|
    ensures HistoryInv(tables[n]) <==> forall i: nat :: i < n ==> !InterruptedAt(tables, detections, i)
  {
    if n > 0 {
      LinkedIffNeverInterrupted(tables, detections, n - 1);
      ChainedAlways(tables, detections, n - 1);
      assert DetectionStep(tables[n - 1], tables[n], detections[n - 1]);
      StepKeeps(tables[n - 1], tables[n], detections[n - 1]);
      assert InterruptedAt(tables, detections, n - 1)
        <==> Interrupts(AssetRows(tables[n - 1], detections[n - 1].asset), detections[n - 1]);
    }
  }

  /** A row that is closed at some point of a run is the same row at every later point. */
  lemma {:induction false} ClosedRowsNeverChange(tables: seq<seq<RegimeRow>>, detections: seq<Detection>,
                                                 i: nat, j: nat, k: nat)
    requires ValidRun(tables, detections) && i <= j < |tables|
    requires k < |tables[i]| && !IsOpen(tables[i][k])
    ensures k < |tables[j]| && tables[j][k] == tables[i][k]
  {
    if i < j {
      ClosedRowsNeverChange(tables, detections, i, j - 1, k);
      ChainedAlways(tables, detections, j - 1);
      assert DetectionStep(tables[j - 1], tables[j], detections[j - 1]);
      StepKeeps(tables[j - 1], tables[j], detections[j - 1]);
    }
  }

  lemma OpenIffRows(rows: seq<RegimeRow>, asset: string)
    requires LinkedHistory(AssetRows(rows, asset)) && AssetRows(rows, asset) != []
    ensures exists k: nat :: OpenAt(rows, asset, k)
  {
    var s := AssetRows(rows, asset);
    AssetRowsMembers(rows, asset);
    var r := s[|s| - 1];
    assert r in s && r in rows && IsOpen(r);
    var k :| 0 <= k < |rows| && rows[k] == r;
    assert OpenAt(rows, asset, k);
  }

  lemma StepKeepsRows(before: seq<RegimeRow>, after: seq<RegimeRow>, d: Detection, asset: string)
    requires ChainedRows(before) && DetectionStep(before, after, d)
    ensures AssetRows(before, asset) != [] ==> AssetRows(after, asset) != []
    ensures PastInsert(d) ==> AssetRows(after, d.asset) != []
  {
    assert Chained(AssetRows(before, d.asset));
    var current :| CurrentRow(before, d.asset, current) && after == Detected(before, current, d);
    DetectedAssetRows(before, current, d);
    if asset != d.asset { DetectedOtherRows(before, current, d, asset); }
  }

  lemma {:induction false} RowsStay(tables: seq<seq<RegimeRow>>, detections: seq<Detection>, i: nat, j: nat)
    requires ValidRun(tables, detections) && i < j < |tables|
    requires PastInsert(detections[i])
    ensures AssetRows(tables[j], detections[i].asset) != []
  {
    ChainedAlways(tables, detections, j - 1);
    assert DetectionStep(tables[j - 1], tables[j], detections[j - 1]);
    StepKeepsRows(tables[j - 1], tables[j], detections[j - 1], detections[i].asset);
    if i < j - 1 { RowsStay(tables, detections, i, j - 1); }
  }

  /** At every point of a run after a detection of an asset got past its insert, and if no detection was
      stopped between closing and inserting, there is exactly one open row of that asset, and following
      previousRegimeId from it visits every row of the asset exactly once. */
  lemma OneOpenRowAfterDetection(tables: seq<seq<RegimeRow>>, detections: seq<Detection>, i: nat, j: nat, steps: nat)
    returns (k: nat)
    requires ValidRun(tables, detections) && i < j < |tables|
    requires PastInsert(detections[i])
    requires forall l: nat :: l < j ==> !InterruptedAt(tables, detections, l)
    requires |AssetRows(tables[j], detections[i].asset)| <= steps
    ensures OpenAt(tables[j], detections[i].asset, k)
    ensures forall l: nat :: OpenAt(tables[j], detections[i].asset, l) ==> l == k
    ensures Walk(tables[j], Some(tables[j][k].id), steps) == Reversed(AssetRows(tables[j], detections[i].asset))
  {
    LinkedIffNeverInterrupted(tables, detections, j);
    ChainedAlways(tables, detections, j);
    RowsStay(tables, detections, i, j);
    assert LinkedHistory(AssetRows(tables[j], detections[i].asset));
    OpenIffRows(tables[j], detections[i].asset);
    k :| OpenAt(tables[j], detections[i].asset, k);
    OpenRowReachesWholeHistory(tables[j], detections[i].asset, k, steps);
  }

  // ---------------------------------------------------------------- what the rows record

  /** The row holds what the detection found, under the id and at the time of its insert. */
  predicate RecordedBy(r: RegimeRow, d: Detection) {
    r.id == d.newId && r.asset == d.asset && r.regime == d.reading.regime
    && r.volatility == d.reading.volatility && r.percentile == d.reading.percentile && r.detectedAt == d.createdAt
  }

  /** The row was closed when the detection found another regime, at the time of its first save. */
  predicate ClosedBy(r: RegimeRow, d: Detection) {
    r.asset == d.asset && r.regime != d.reading.regime && r.effectiveUntil == Some(d.closedAt)
  }

  lemma StepRows(before: seq<RegimeRow>, after: seq<RegimeRow>, d: Detection, k: nat)
    requires DetectionStep(before, after, d) && k < |after|
    ensures k < |before| ==> after[k].(effectiveUntil := None) == before[k].(effectiveUntil := None)
    ensures k < |before| && after[k] != before[k] ==> ClosedBy(after[k], d)
    ensures k >= |before| ==> RecordedBy(after[k], d) && IsOpen(after[k])
  {
  }

  /** Every row of every table of a run records one of its detections. */
  lemma {:induction false} RowHasDetection(tables: seq<seq<RegimeRow>>, detections: seq<Detection>, n: nat, k: nat)
    returns (i: nat)
    requires ValidRun(tables, detections) && n < |tables| && k < |tables[n]|
    ensures i < n && RecordedBy(tables[n][k], detections[i])
  {
    assert DetectionStep(tables[n - 1], tables[n], detections[n - 1]);
    StepRows(tables[n - 1], tables[n], detections[n - 1], k);
    if k < |tables[n - 1]| { i := RowHasDetection(tables, detections, n - 1, k); } else { i := n - 1; }
  }

  /** Every closed row was closed by a detection of its asset that found another regime. */
  lemma {:induction false} ClosedRowHasDetection(tables: seq<seq<RegimeRow>>, detections: seq<Detection>,
                                                 n: nat, k: nat)
    returns (j: nat)
    requires ValidRun(tables, detections) && n < |tables| && k < |tables[n]| && !IsOpen(tables[n][k])
    ensures j < n && ClosedBy(tables[n][k], detections[j])
  {
    assert DetectionStep(tables[n - 1], tables[n], detections[n - 1]);
    StepRows(tables[n - 1], tables[n], detections[n - 1], k);
    if k < |tables[n - 1]| && tables[n - 1][k] == tables[n][k] {
      j := ClosedRowHasDetection(tables, detections, n - 1, k);
    } else {
      j := n - 1;
    }
  }

  /** Nothing lies after `now`, and each row ends no earlier than it starts and no later than the next one
      starts. */
  ghost predicate Tiled(s: seq<RegimeRow>, now: int) {
    && (forall i :: 0 <= i < |s| ==> s[i].detectedAt <= now)
    && (forall i :: 0 <= i < |s| && !IsOpen(s[i]) ==> s[i].detectedAt <= s[i].effectiveUntil.value <= now)
    && (forall i :: 0 <= i < |s| - 1 && !IsOpen(s[i]) ==> s[i].effectiveUntil.value <= s[i + 1].detectedAt)
  }

  lemma NextTiled(s: seq<RegimeRow>, d: Detection, now: int)
    requires Tiled(s, now) && now <= d.closedAt <= d.createdAt
    ensures Tiled(NextHistory(s, d), d.createdAt)
  {
  }

  lemma StepTiled(before: seq<RegimeRow>, after: seq<RegimeRow>, d: Detection, asset: string, now: int)
    requires ChainedRows(before) && DetectionStep(before, after, d) && now <= d.closedAt <= d.createdAt
    requires Tiled(AssetRows(before, asset), now)
    ensures Tiled(AssetRows(after, asset), d.createdAt)
  {
    assert Chained(AssetRows(before, d.asset));
    var current :| CurrentRow(before, d.asset, current) && after == Detected(before, current, d);
    if asset == d.asset {
      DetectedAssetRows(before, current, d);
      NextTiled(AssetRows(before, asset), d, now);
    } else {
      DetectedOtherRows(before, current, d, asset);
    }
  }

  ghost predicate InTimeOrder(detections: seq<Detection>) {
    && (forall i :: 0 <= i < |detections| ==> detections[i].closedAt <= detections[i].createdAt)
    && (forall i, j :: 0 <= i < j < |detections| ==> detections[i].createdAt <= detections[j].closedAt)
  }

  /** With a clock that does not go back, the regimes of an asset follow each other in time without overlap,
      whatever failed. */
  lemma {:induction false} RegimesTileTime(tables: seq<seq<RegimeRow>>, detections: seq<Detection>, n: nat,
                                           asset: string)
    requires ValidRun(tables, detections) && InTimeOrder(detections) && 0 < n < |tables|
    ensures Tiled(AssetRows(tables[n], asset), detections[n - 1].createdAt)
  {
    ChainedAlways(tables, detections, n - 1);
    assert DetectionStep(tables[n - 1], tables[n], detections[n - 1]);
    if n > 1 {
      RegimesTileTime(tables, detections, n - 1, asset);
      StepTiled(tables[n - 1], tables[n], detections[n - 1], asset, detections[n - 2].createdAt);
    } else {
      StepTiled(tables[0], tables[1], detections[0], asset, detections[0].closedAt);
    }
  }
}
