/** The audit log as it is written and read back (audit/audit.service.ts and
    audit/audit-chain.service.ts): the save-read-link-save protocol of createAuditLog over a table
    of rows, and the global verifier that reads the table in timestamp order. */
module AuditLogStore {
  import opened Common
  import opened AuditCrypto

  datatype CreateAuditLogDto = CreateAuditLogDto(
    eventType: string, entityType: string, entityId: string, userId: Option<string>,
    beforeState: Json, afterState: Json, metadata: Json)

  /** A row that `ORDER BY timestamp DESC LIMIT 1` may return. Ties leave a choice. */
  ghost predicate IsLatest(rows: seq<AuditLog>, p: AuditLog) {
    p in rows && forall r :: r in rows ==> r.timestamp <= p.timestamp
  }

  /** `row` was linked when `earlier` was the whole table. */
  ghost predicate LinkedToLatest(h: Sha, earlier: seq<AuditLog>, row: AuditLog) {
    if earlier == [] then row.chainHash == Some(GenerateChainHash(h, row, None))
    else exists p :: IsLatest(earlier, p) && row.chainHash == Some(GenerateChainHash(h, row, p.chainHash))
  }

  /** A table filled by non-overlapping creates, whatever the clock did. */
  ghost predicate Created(h: Sha, rows: seq<AuditLog>) {
    && DistinctIds(rows)
    && forall n :: 0 <= n < |rows| ==> IntegrityOk(h, rows[n]) && LinkedToLatest(h, rows[..n], rows[n])
  }

  ghost predicate StrictTimestamps(rows: seq<AuditLog>) {
    forall i, j :: 0 <= i < j < |rows| ==> rows[i].timestamp < rows[j].timestamp
  }

  ghost predicate InTimeOrder(rows: seq<AuditLog>) {
    forall i, j :: 0 <= i < j < |rows| ==> rows[i].timestamp <= rows[j].timestamp
  }

  /** What `ORDER BY timestamp ASC` may return for the whole table. */
  ghost predicate Reading(rows: seq<AuditLog>, entries: seq<AuditLog>) {
    InTimeOrder(entries) && multiset(entries) == multiset(rows)
  }

  // ---------------------------------------------------------------- the service

  class AuditService {
    const h: Sha
    var rows: seq<AuditLog>

    constructor (h: Sha)
      ensures this.h == h && rows == []
    {
      this.h := h;
      rows := [];
    }

    /** findOne({ where: { id: Not(id) }, order: { timestamp: 'DESC' } }) */
    method FindLatestExcept(id: string) returns (p: Option<AuditLog>)
      ensures p.None? <==> forall r :: r in rows ==> r.id == id
      ensures p.Some? ==> p.value in rows && p.value.id != id
                          && forall r :: r in rows && r.id != id ==> r.timestamp <= p.value.timestamp
    {
      p := None;
      for k := 0 to |rows|
        invariant p.None? <==> forall i :: 0 <= i < k ==> rows[i].id == id
        invariant p.Some? ==> p.value in rows && p.value.id != id
                              && forall i :: 0 <= i < k && rows[i].id != id ==> rows[i].timestamp <= p.value.timestamp
      {
        if rows[k].id != id && (p.None? || p.value.timestamp <= rows[k].timestamp) {
          p := Some(rows[k]);
        }
      }
    }

    /** createAuditLog: save the row, read its predecessor, set the chain hash, save again. The row id
        comes from the database and is new. */
    method CreateAuditLog(dto: CreateAuditLogDto, requestUser: Option<string>, now: int, newId: string)
      returns (saved: AuditLog)
      requires Created(h, rows)
      requires forall r :: r in rows ==> r.id != newId
      modifies this
      ensures rows == old(rows) + [saved] && Created(h, rows)
      ensures saved.id == newId && saved.timestamp == now
      ensures saved.eventType == dto.eventType && saved.entityType == dto.entityType && saved.entityId == dto.entityId
      ensures saved.userId == if dto.userId.Some? then dto.userId else requestUser
      ensures saved.beforeState == dto.beforeState && saved.afterState == dto.afterState
      ensures saved.metadata == dto.metadata
      ensures IntegrityOk(h, saved) && LinkedToLatest(h, old(rows), saved)
    {
      var userId := if dto.userId.Some? then dto.userId else requestUser;
      saved := AuditLog(newId, dto.eventType, dto.entityType, dto.entityId, userId, now,
                        dto.beforeState, dto.afterState, dto.metadata, "", None);
      saved := saved.(integrity := h(IntegrityDocument(saved)));
      ghost var before := rows;
      rows := rows + [saved];
      var previous := FindLatestExcept(saved.id);
      if previous.Some? {
        assert IsLatest(before, previous.value);
      } else {
        assert before == [] || before[0] in rows;
      }
      var chainHash := GenerateChainHash(h, saved, if previous.Some? then previous.value.chainHash else None);
      saved := saved.(chainHash := Some(chainHash));
      rows := rows[..|rows| - 1] + [saved];
      assert rows == before + [saved];
      CreatedGrows(h, before, saved);
    }

    /** verifyGlobalAuditChain(limit, offset) over the whole table in timestamp order. */
    method VerifyGlobalAuditChain(limit: nat, offset: nat) returns (r: FullReport)
      requires Created(h, rows) && HexDigest(h)
      ensures StrictTimestamps(rows) && PageHashable(h, rows, limit, offset) ==>
                if offset == 0 then FoundValid(r)
                else if offset < |rows| && 0 < limit then FoundBroken(r, rows[offset].id)
                else FoundValid(r) && r.links.totalEntries == 0
      ensures r.links.totalEntries == PageSize(|rows|, limit, offset)
    {
      var page := Page(SortByTime(rows), limit, offset);
      r := VerifyAuditChain(h, page);
      SortedPageSize(rows, limit, offset);
      if StrictTimestamps(rows) && PageHashable(h, rows, limit, offset) {
        GlobalVerdict(h, rows, limit, offset);
        PageIsSlice(rows, limit, offset);
        PageReport(h, page, offset, r);
      }
    }

    /** verifyMultipleEntries over the fetched logs. */
    method VerifyMultipleEntries(logs: seq<AuditLog>) returns (verified: nat, failed: seq<string>)
      ensures failed == IntegrityFailures(h, logs, |logs|) && verified + |failed| == |logs|
    {
      verified, failed := 0, [];
      for k := 0 to |logs|
        invariant failed == IntegrityFailures(h, logs, k) && verified + |failed| == k
      {
        if IntegrityOk(h, logs[k]) { verified := verified + 1; } else { failed := failed + [logs[k].id]; }
      }
    }

    /** The verifiers of a part of the log: verifyEntityAuditChain with OfEntity, and
        verifyAuditChainByDateRange and the scheduled check with InRange. */
    method VerifyPart(p: AuditLog -> bool) returns (r: FullReport)
      requires Created(h, rows) && HexDigest(h)
      ensures StrictTimestamps(rows)
              && NoCollision(h, LinkDocuments(rows) + LinkDocuments(Filtered(rows, p, |rows|))) ==>
                && (r.valid <==> DownwardClosed(rows, p))
                && (forall id :: id in r.tamperedEntries <==> ReportedInPart(rows, p, id))
                && r.integrityFailures == []
    {
      var sorted := SortByTime(rows);
      r := VerifyAuditChain(h, Filtered(sorted, p, |sorted|));
      if StrictTimestamps(rows) && NoCollision(h, LinkDocuments(rows) + LinkDocuments(Filtered(rows, p, |rows|))) {
        StoredPartVerdict(h, rows, p);
        PartIntegrity(h, rows, p);
        forall id: string ensures id in r.tamperedEntries <==> ReportedInPart(rows, p, id) {
          PartReports(h, rows, p, id);
        }
      }
    }
  }

  lemma NothingReported(h: Sha, entries: seq<AuditLog>, ids: seq<string>)
    requires AllOk(h, entries) && Reports(h, entries, ids)
    ensures ids == []
  {
    assert ids == [] || IsBadEntry(h, entries, ids[0]);
  }

  lemma OnlyReported(h: Sha, entries: seq<AuditLog>, k: nat, ids: seq<string>)
    requires Reports(h, entries, ids) && k < |entries|
    requires forall i: nat :: i < |entries| ==> (EntryOk(h, entries, i) <==> i != k)
    ensures ids == [entries[k].id]
  {
    assert IsBadEntry(h, entries, entries[k].id) && entries[k].id in ids;
    forall i | 0 <= i < |ids| ensures ids[i] == entries[k].id {
      assert ids[i] in ids && IsBadEntry(h, entries, ids[i]);
    }
    if |ids| > 1 {
      FirstTwoDiffer(ids);
      assert false;
    }
  }

  lemma FirstTwoDiffer(ids: seq<string>)
    requires |ids| > 1 && forall i, j :: 0 <= i < j < |ids| ==> ids[i] != ids[j]
    ensures ids[0] != ids[1]
  {
  }

  /** What the verifier says of a page: nothing from offset 0, else that the first entry is broken. */
  ghost predicate PageJudged(h: Sha, page: seq<AuditLog>, offset: nat) {
    && IntegrityFailures(h, page, |page|) == []
    && (offset == 0 ==> Flagged(h, page) == {} && AllOk(h, page))
    && (offset > 0 && page != [] ==>
          && Flagged(h, page) == {0} && !AllOk(h, page)
          && forall i: nat :: i < |page| ==> (EntryOk(h, page, i) <==> i != 0))
  }

  /** No two documents hashed for a later page collide. */
  ghost predicate PageHashable(h: Sha, rows: seq<AuditLog>, limit: nat, offset: nat) {
    offset == 0 || NoCollision(h, LinkDocuments(rows) + LinkDocuments(Page(rows, limit, offset)))
  }

  ghost predicate FoundValid(r: FullReport) {
    && r.valid && r.links.brokenChainAt == None && r.links.verifiedEntries == r.links.totalEntries
    && r.tamperedEntries == [] && r.integrityFailures == []
  }

  /** Only the first entry, which has this id, is reported. */
  ghost predicate FoundBroken(r: FullReport, id: string) {
    && !r.valid && r.links.brokenChainAt == Some(0) && r.links.verifiedEntries == r.links.totalEntries - 1
    && r.tamperedEntries == [id] && r.integrityFailures == []
  }

  lemma PageReport(h: Sha, page: seq<AuditLog>, offset: nat, r: FullReport)
    requires PageJudged(h, page, offset) && IsReport(h, page, r)
    ensures offset == 0 || page == [] ==> FoundValid(r)
    ensures offset > 0 && page != [] ==> FoundBroken(r, page[0].id)
  {
    if offset == 0 || page == [] {
      NothingFlagged(h, page);
      NothingReported(h, page, r.tamperedEntries);
    } else {
      OnlyReported(h, page, 0, r.tamperedEntries);
    }
  }

  function PageSize(total: nat, limit: nat, offset: nat): nat {
    if offset >= total then 0 else if limit < total - offset then limit else total - offset
  }

  lemma SortedPageSize(rows: seq<AuditLog>, limit: nat, offset: nat)
    ensures |Page(SortByTime(rows), limit, offset)| == PageSize(|rows|, limit, offset)
  {
    PageIsSlice(SortByTime(rows), limit, offset);
    ReadingLength(rows, SortByTime(rows));
  }

  /** A page holds the rows from `offset` on, `limit` of them if there are that many. */
  lemma PageIsSlice(rows: seq<AuditLog>, limit: nat, offset: nat)
    ensures var page := Page(rows, limit, offset);
            && |page| == PageSize(|rows|, limit, offset)
            && forall k :: 0 <= k < |page| ==> page[k] == rows[offset + k]
  {
  }

  lemma ReadingLength(rows: seq<AuditLog>, entries: seq<AuditLog>)
    requires Reading(rows, entries)
    ensures |entries| == |rows|
  {
    assert |multiset(entries)| == |multiset(rows)|;
  }

  lemma GlobalVerdict(h: Sha, rows: seq<AuditLog>, limit: nat, offset: nat)
    requires Created(h, rows) && HexDigest(h) && StrictTimestamps(rows) && PageHashable(h, rows, limit, offset)
    ensures SortByTime(rows) == rows && PageJudged(h, Page(rows, limit, offset), offset)
  {
    OnlyReading(rows, SortByTime(rows));
    CreatedLogVerifies(h, rows);
    PageVerdict(h, rows, limit, offset);
  }

  function Page(rows: seq<AuditLog>, limit: nat, offset: nat): seq<AuditLog> {
    var from := if offset < |rows| then rows[offset..] else [];
    if limit < |from| then from[..limit] else from
  }

  lemma CreatedGrows(h: Sha, rows: seq<AuditLog>, row: AuditLog)
    requires Created(h, rows) && forall r :: r in rows ==> r.id != row.id
    requires IntegrityOk(h, row) && LinkedToLatest(h, rows, row)
    ensures Created(h, rows + [row])
  {
    var grown := rows + [row];
    forall n | 0 <= n < |grown|
      ensures IntegrityOk(h, grown[n]) && LinkedToLatest(h, grown[..n], grown[n])
    {
      if n == |rows| { assert grown[..n] == rows; } else { assert grown[..n] == rows[..n]; }
    }
    NewIdIsDistinct(rows, row);
  }

  lemma NewIdIsDistinct(rows: seq<AuditLog>, row: AuditLog)
    requires DistinctIds(rows) && forall r :: r in rows ==> r.id != row.id
    ensures DistinctIds(rows + [row])
  {
    assert forall i :: 0 <= i < |rows| ==> rows[i] in rows;
  }

  // ---------------------------------------------------------------- increasing timestamps

  /** After any run of non-overlapping creates with increasing timestamps, the full log verifies:
      every link and every integrity hash. */
  lemma CreatedLogVerifies(h: Sha, rows: seq<AuditLog>)
    requires Created(h, rows) && StrictTimestamps(rows) && HexDigest(h)
    ensures Verified(h, rows) && FullyLinked(rows) && AllOk(h, rows)
    ensures forall e :: e in rows ==> IntegrityOk(h, e)
  {
    forall n | 0 <= n < |rows|
      ensures LinkOk(h, rows, n) && Truthy(rows[n].chainHash)
    {
      assert LinkedToLatest(h, rows[..n], rows[n]);
      if n > 0 {
        var p :| IsLatest(rows[..n], p) && rows[n].chainHash == Some(GenerateChainHash(h, rows[n], p.chainHash));
        assert rows[n - 1] in rows[..n];
        assert p == rows[n - 1];
      }
    }
    NothingFlagged(h, rows);
  }

  /** With distinct timestamps the table has one reading: creation order. */
  lemma {:induction false} OnlyReading(rows: seq<AuditLog>, entries: seq<AuditLog>)
    requires StrictTimestamps(rows) && Reading(rows, entries)
    ensures entries == rows
    decreases |rows|
  {
    assert |multiset(entries)| == |multiset(rows)|;
    if rows != [] {
      var n := |rows| - 1;
      LastOfReading(rows, entries);
      FrontReading(rows, entries);
      OnlyReading(rows[..n], entries[..n]);
      assert entries == entries[..n] + [rows[n]];
    }
  }

  lemma FrontReading(rows: seq<AuditLog>, entries: seq<AuditLog>)
    requires Reading(rows, entries) && rows != [] && |entries| == |rows| && entries[|rows| - 1] == rows[|rows| - 1]
    ensures Reading(rows[..|rows| - 1], entries[..|rows| - 1])
  {
    MultisetDropLast(rows);
    MultisetDropLast(entries);
    assert multiset(entries[..|rows| - 1]) == multiset(entries) - multiset{rows[|rows| - 1]};
  }

  lemma LastOfReading(rows: seq<AuditLog>, entries: seq<AuditLog>)
    requires StrictTimestamps(rows) && Reading(rows, entries) && rows != [] && |entries| == |rows|
    ensures entries[|rows| - 1] == rows[|rows| - 1]
  {
    SameElements(rows, entries);
    SameElements(entries, rows);
    assert rows[|rows| - 1] in entries && entries[|rows| - 1] in rows;
  }

  lemma PageIntegrity(h: Sha, rows: seq<AuditLog>, limit: nat, offset: nat)
    requires forall e :: e in rows ==> IntegrityOk(h, e)
    ensures var page := Page(rows, limit, offset);
            && IntegrityFailures(h, page, |page|) == []
            && forall i: nat :: i < |page| ==> IntegrityOk(h, page[i])
  {
    var page := Page(rows, limit, offset);
    forall i: nat | i < |page| ensures IntegrityOk(h, page[i]) { assert page[i] in rows; }
    NoIntegrityFailures(h, page, |page|);
  }

  lemma FirstPageFlags(h: Sha, rows: seq<AuditLog>, limit: nat)
    requires Verified(h, rows)
    ensures Flagged(h, Page(rows, limit, 0)) == {}
  {
    var page := Page(rows, limit, 0);
    assert page == rows[..|page|];
    PrefixVerified(h, rows, |page|);
  }

  lemma LaterPageFlags(h: Sha, rows: seq<AuditLog>, limit: nat, offset: nat)
    requires HexDigest(h) && Verified(h, rows) && FullyLinked(rows) && DistinctIds(rows)
    requires 0 < offset && Page(rows, limit, offset) != []
    requires NoCollision(h, LinkDocuments(rows) + LinkDocuments(Page(rows, limit, offset)))
    ensures Flagged(h, Page(rows, limit, offset)) == {0}
  {
    var page := Page(rows, limit, offset);
    assert page == rows[offset..offset + |page|];
    WindowFlags(h, rows, offset, offset + |page|);
  }

  lemma JudgedByFlags(h: Sha, page: seq<AuditLog>, offset: nat)
    requires IntegrityFailures(h, page, |page|) == [] && forall i: nat :: i < |page| ==> IntegrityOk(h, page[i])
    requires offset == 0 ==> Flagged(h, page) == {}
    requires offset > 0 && page != [] ==> Flagged(h, page) == {0}
    ensures PageJudged(h, page, offset)
  {
    AllOkMeaning(h, page);
    forall i: nat | i < |page| ensures EntryOk(h, page, i) <==> i !in Flagged(h, page) {
    }
  }

  /** A page of a valid log is valid when it starts at the genesis entry, and is otherwise reported
      broken at its first entry. */
  lemma PageVerdict(h: Sha, rows: seq<AuditLog>, limit: nat, offset: nat)
    requires HexDigest(h) && Verified(h, rows) && FullyLinked(rows) && DistinctIds(rows)
    requires forall e :: e in rows ==> IntegrityOk(h, e)
    requires PageHashable(h, rows, limit, offset)
    ensures PageJudged(h, Page(rows, limit, offset), offset)
  {
    PageIntegrity(h, rows, limit, offset);
    if offset == 0 {
      FirstPageFlags(h, rows, limit);
    } else if Page(rows, limit, offset) != [] {
      LaterPageFlags(h, rows, limit, offset);
    }
    JudgedByFlags(h, Page(rows, limit, offset), offset);
  }

  // ---------------------------------------------------------------- verifying a part of the log

  /** The entries of one entity. */
  function OfEntity(entityType: string, entityId: string): AuditLog -> bool {
    (e: AuditLog) => e.entityType == entityType && e.entityId == entityId
  }

  /** The entries of a date range, ends included. */
  function InRange(from: int, to: int): AuditLog -> bool {
    (e: AuditLog) => from <= e.timestamp <= to
  }

  function Filtered(rows: seq<AuditLog>, p: AuditLog -> bool, n: nat): seq<AuditLog>
    requires n <= |rows|
  {
    if n == 0 then [] else Filtered(rows, p, n - 1) + if p(rows[n - 1]) then [rows[n - 1]] else []
  }

  function Positions(rows: seq<AuditLog>, p: AuditLog -> bool, n: nat): seq<nat>
    requires n <= |rows|
  {
    if n == 0 then [] else Positions(rows, p, n - 1) + if p(rows[n - 1]) then [n - 1] else []
  }

  /** Every entry before a selected entry is selected as well. */
  ghost predicate DownwardClosed(rows: seq<AuditLog>, p: AuditLog -> bool) {
    forall i, j :: 0 <= i < j < |rows| && p(rows[j]) ==> p(rows[i])
  }

  lemma {:induction false} PositionsLength(rows: seq<AuditLog>, p: AuditLog -> bool, n: nat)
    requires n <= |rows|
    ensures |Positions(rows, p, n)| == |Filtered(rows, p, n)|
  {
    if n > 0 { PositionsLength(rows, p, n - 1); }
  }

  lemma {:induction false} PositionsSound(rows: seq<AuditLog>, p: AuditLog -> bool, n: nat, k: nat)
    requires n <= |rows| && k < |Positions(rows, p, n)|
    ensures Positions(rows, p, n)[k] < n && p(rows[Positions(rows, p, n)[k]])
    ensures k < |Filtered(rows, p, n)| && Filtered(rows, p, n)[k] == rows[Positions(rows, p, n)[k]]
  {
    PositionsLength(rows, p, n - 1);
    if k < |Positions(rows, p, n - 1)| { PositionsSound(rows, p, n - 1, k); }
  }

  lemma {:induction false} PositionsAscend(rows: seq<AuditLog>, p: AuditLog -> bool, n: nat, j: nat, k: nat)
    requires n <= |rows| && j < k < |Positions(rows, p, n)|
    ensures Positions(rows, p, n)[j] < Positions(rows, p, n)[k]
  {
    if k < |Positions(rows, p, n - 1)| {
      PositionsAscend(rows, p, n - 1, j, k);
    } else {
      PositionsSound(rows, p, n - 1, j);
    }
  }

  lemma PositionsSelect(rows: seq<AuditLog>, p: AuditLog -> bool)
    ensures Selects(rows, Positions(rows, p, |rows|), Filtered(rows, p, |rows|))
  {
    var n := |rows|;
    var idx := Positions(rows, p, n);
    PositionsLength(rows, p, n);
    forall k | 0 <= k < |idx| ensures idx[k] < n && Filtered(rows, p, n)[k] == rows[idx[k]] {
      PositionsSound(rows, p, n, k);
    }
    forall j, k | 0 <= j < k < |idx| ensures idx[j] < idx[k] {
      PositionsAscend(rows, p, n, j, k);
    }
  }

  lemma {:induction false} PositionsComplete(rows: seq<AuditLog>, p: AuditLog -> bool, n: nat, i: nat) returns (k: nat)
    requires i < n <= |rows| && p(rows[i])
    ensures k < |Positions(rows, p, n)| && Positions(rows, p, n)[k] == i
  {
    if i == n - 1 { k := |Positions(rows, p, n - 1)|; } else { k := PositionsComplete(rows, p, n - 1, i); }
  }

  ghost predicate AllAdjacent(idx: seq<nat>) {
    forall j: nat :: j < |idx| ==> Adjacent(idx, j)
  }

  lemma {:induction false} AdjacentPositions(idx: seq<nat>, k: nat)
    requires k < |idx| && forall j: nat :: j <= k ==> Adjacent(idx, j)
    ensures idx[k] == k
  {
    assert Adjacent(idx, k);
    if k > 0 { AdjacentPositions(idx, k - 1); }
  }

  lemma GapBreaksAdjacency(idx: seq<nat>, k: nat)
    requires k < |idx| && idx[k] != k
    ensures exists j: nat :: j <= k && !Adjacent(idx, j)
  {
    if forall j: nat :: j <= k ==> Adjacent(idx, j) {
      AdjacentPositions(idx, k);
      assert false;
    }
  }

  /** The chosen positions are 0, 1, 2, ... exactly when the choice is downward closed. */
  lemma PrefixIffDownwardClosed(rows: seq<AuditLog>, p: AuditLog -> bool)
    ensures var idx := Positions(rows, p, |rows|);
            (forall k :: 0 <= k < |idx| ==> idx[k] == k) <==> DownwardClosed(rows, p)
  {
    var idx := Positions(rows, p, |rows|);
    if forall k :: 0 <= k < |idx| ==> idx[k] == k {
      forall i, j | 0 <= i < j < |rows| && p(rows[j]) ensures p(rows[i]) {
        var k := PositionsComplete(rows, p, |rows|, j);
        assert idx[i] == i;
        PositionsSound(rows, p, |rows|, i);
      }
    } else {
      var k :| 0 <= k < |idx| && idx[k] != k;
      if DownwardClosed(rows, p) {
        DownwardClosedPosition(rows, p, k);
        assert false;
      }
    }
  }

  lemma {:induction false} DownwardClosedPosition(rows: seq<AuditLog>, p: AuditLog -> bool, k: nat)
    requires DownwardClosed(rows, p) && k < |Positions(rows, p, |rows|)|
    ensures Positions(rows, p, |rows|)[k] == k
  {
    var idx := Positions(rows, p, |rows|);
    PositionsSelect(rows, p);
    PositionsSound(rows, p, |rows|, k);
    if k > 0 { DownwardClosedPosition(rows, p, k - 1); }
    if idx[k] > k {
      var l := PositionsComplete(rows, p, |rows|, k);
      assert false;
    }
  }

  lemma AdjacentIffDownwardClosed(rows: seq<AuditLog>, p: AuditLog -> bool)
    ensures var idx := Positions(rows, p, |rows|);
            AllAdjacent(idx) <==> DownwardClosed(rows, p)
  {
    var idx := Positions(rows, p, |rows|);
    PrefixIffDownwardClosed(rows, p);
    if DownwardClosed(rows, p) {
      forall j: nat | j < |idx| ensures Adjacent(idx, j) {
        DownwardClosedPosition(rows, p, j);
        if j > 0 { DownwardClosedPosition(rows, p, j - 1); }
      }
    } else {
      var k :| 0 <= k < |idx| && idx[k] != k;
      GapBreaksAdjacency(idx, k);
    }
  }

  /** Verifying a part of a valid log finds nothing wrong if and only if the part holds, with every
      entry, all entries before it. So an entity's own entries, or a date range, verify exactly when
      they are the beginning of the whole log; any other part is reported as tampered. */
  lemma PartVerdict(h: Sha, rows: seq<AuditLog>, p: AuditLog -> bool)
    requires HexDigest(h) && Verified(h, rows) && FullyLinked(rows) && DistinctIds(rows)
    requires forall e :: e in rows ==> IntegrityOk(h, e)
    requires NoCollision(h, LinkDocuments(rows) + LinkDocuments(Filtered(rows, p, |rows|)))
    ensures AllOk(h, Filtered(rows, p, |rows|)) <==> DownwardClosed(rows, p)
  {
    PositionsSelect(rows, p);
    SelectionVerdict(h, rows, Positions(rows, p, |rows|), Filtered(rows, p, |rows|));
    AdjacentIffDownwardClosed(rows, p);
  }

  lemma SelectedEntry(h: Sha, rows: seq<AuditLog>, idx: seq<nat>, part: seq<AuditLog>, i: nat)
    requires HexDigest(h) && Verified(h, rows) && FullyLinked(rows) && DistinctIds(rows)
    requires forall e :: e in rows ==> IntegrityOk(h, e)
    requires Selects(rows, idx, part) && NoCollision(h, LinkDocuments(rows) + LinkDocuments(part))
    requires i < |part|
    ensures EntryOk(h, part, i) <==> Adjacent(idx, i)
  {
    assert part[i] == rows[idx[i]] && rows[idx[i]] in rows;
    SelectedLink(h, rows, idx, part, i);
  }

  lemma SelectionVerdict(h: Sha, rows: seq<AuditLog>, idx: seq<nat>, part: seq<AuditLog>)
    requires HexDigest(h) && Verified(h, rows) && FullyLinked(rows) && DistinctIds(rows)
    requires forall e :: e in rows ==> IntegrityOk(h, e)
    requires Selects(rows, idx, part) && NoCollision(h, LinkDocuments(rows) + LinkDocuments(part))
    ensures AllOk(h, part) <==> AllAdjacent(idx)
  {
    forall i: nat | i < |part|
      ensures EntryOk(h, part, i) <==> Adjacent(idx, i)
    {
      SelectedEntry(h, rows, idx, part, i);
    }
    if AllOk(h, part) {
      forall j: nat | j < |idx| ensures Adjacent(idx, j) {
        assert EntryOk(h, part, j);
      }
    }
  }

  /** The entry at position n is selected and its predecessor in the log is not. */
  predicate StartsGap(rows: seq<AuditLog>, p: AuditLog -> bool, n: nat) {
    0 < n < |rows| && p(rows[n]) && !p(rows[n - 1])
  }

  ghost predicate ReportedInPart(rows: seq<AuditLog>, p: AuditLog -> bool, id: string) {
    exists n: nat :: StartsGap(rows, p, n) && rows[n].id == id
  }

  lemma AdjacentIffPredecessorSelected(rows: seq<AuditLog>, p: AuditLog -> bool, k: nat)
    requires k < |Positions(rows, p, |rows|)|
    ensures Adjacent(Positions(rows, p, |rows|), k) <==> !StartsGap(rows, p, Positions(rows, p, |rows|)[k])
  {
    var idx := Positions(rows, p, |rows|);
    PositionsSelect(rows, p);
    PositionsSound(rows, p, |rows|, k);
    if k > 0 { PositionsSound(rows, p, |rows|, k - 1); }
    if 0 < idx[k] && p(rows[idx[k] - 1]) {
      var l := PositionsComplete(rows, p, |rows|, idx[k] - 1);
      assert l == k - 1;
    }
  }

  ghost predicate PartOfValidLog(h: Sha, rows: seq<AuditLog>, p: AuditLog -> bool) {
    && HexDigest(h) && Verified(h, rows) && FullyLinked(rows) && DistinctIds(rows)
    && (forall e :: e in rows ==> IntegrityOk(h, e))
    && NoCollision(h, LinkDocuments(rows) + LinkDocuments(Filtered(rows, p, |rows|)))
  }

  lemma PartEntry(h: Sha, rows: seq<AuditLog>, p: AuditLog -> bool, k: nat)
    requires PartOfValidLog(h, rows, p) && k < |Filtered(rows, p, |rows|)|
    ensures var idx, part := Positions(rows, p, |rows|), Filtered(rows, p, |rows|);
            && k < |idx| && idx[k] < |rows| && part[k] == rows[idx[k]]
            && (EntryOk(h, part, k) <==> !StartsGap(rows, p, idx[k]))
  {
    var idx, part := Positions(rows, p, |rows|), Filtered(rows, p, |rows|);
    PositionsSelect(rows, p);
    SelectedEntry(h, rows, idx, part, k);
    AdjacentIffPredecessorSelected(rows, p, k);
  }

  /** A part of a valid log reports exactly the selected entries whose predecessor is not selected. */
  lemma PartReports(h: Sha, rows: seq<AuditLog>, p: AuditLog -> bool, id: string)
    requires PartOfValidLog(h, rows, p)
    ensures IsBadEntry(h, Filtered(rows, p, |rows|), id) <==> ReportedInPart(rows, p, id)
  {
    var part := Filtered(rows, p, |rows|);
    if IsBadEntry(h, part, id) {
      var i :| 0 <= i < |part| && part[i].id == id && !EntryOk(h, part, i);
      PartEntry(h, rows, p, i);
    }
    if ReportedInPart(rows, p, id) {
      var n: nat :| StartsGap(rows, p, n) && rows[n].id == id;
      GapIsReported(h, rows, p, n);
    }
  }

  lemma GapIsReported(h: Sha, rows: seq<AuditLog>, p: AuditLog -> bool, n: nat)
    requires PartOfValidLog(h, rows, p) && StartsGap(rows, p, n)
    ensures IsBadEntry(h, Filtered(rows, p, |rows|), rows[n].id)
  {
    var k := PositionsComplete(rows, p, |rows|, n);
    PositionsSelect(rows, p);
    PartEntry(h, rows, p, k);
  }

  lemma {:induction false} FilteredMember(rows: seq<AuditLog>, p: AuditLog -> bool, n: nat, e: AuditLog)
    requires n <= |rows| && e in Filtered(rows, p, n)
    ensures e in rows
  {
    if n > 0 && e in Filtered(rows, p, n - 1) { FilteredMember(rows, p, n - 1, e); }
  }

  lemma StoredPartVerdict(h: Sha, rows: seq<AuditLog>, p: AuditLog -> bool)
    requires Created(h, rows) && HexDigest(h) && StrictTimestamps(rows)
    requires NoCollision(h, LinkDocuments(rows) + LinkDocuments(Filtered(rows, p, |rows|)))
    ensures SortByTime(rows) == rows && PartOfValidLog(h, rows, p)
    ensures AllOk(h, Filtered(rows, p, |rows|)) <==> DownwardClosed(rows, p)
  {
    OnlyReading(rows, SortByTime(rows));
    CreatedLogVerifies(h, rows);
    PartVerdict(h, rows, p);
  }

  lemma PartIntegrity(h: Sha, rows: seq<AuditLog>, p: AuditLog -> bool)
    requires PartOfValidLog(h, rows, p)
    ensures var part := Filtered(rows, p, |rows|);
            IntegrityFailures(h, part, |part|) == []
  {
    var part := Filtered(rows, p, |rows|);
    forall i | 0 <= i < |part| ensures IntegrityOk(h, part[i]) { FilteredMember(rows, p, |rows|, part[i]); }
    NoIntegrityFailures(h, part, |part|);
  }

  /** A date range of a log with increasing timestamps verifies if and only if it is empty or the log
      has no entry before it. */
  lemma RangeVerifiesIffNothingBefore(rows: seq<AuditLog>, from: int, to: int)
    requires StrictTimestamps(rows)
    ensures DownwardClosed(rows, InRange(from, to))
            <==> (forall e :: e in rows ==> !InRange(from, to)(e)) || (forall e :: e in rows ==> from <= e.timestamp)
  {
    var p := InRange(from, to);
    if DownwardClosed(rows, p) && exists e :: e in rows && p(e) {
      var e :| e in rows && p(e);
      var j :| 0 <= j < |rows| && rows[j] == e;
      forall x | x in rows ensures from <= x.timestamp {
        var i :| 0 <= i < |rows| && rows[i] == x;
        assert i < j ==> p(rows[i]);
      }
    }
  }

  predicate BelongsTo(e: AuditLog, entityType: string, entityId: string) {
    e.entityType == entityType && e.entityId == entityId
  }

  lemma {:induction false} SelectedPrefix(rows: seq<AuditLog>, p: AuditLog -> bool, k: nat) returns (n: nat)
    requires k <= |rows| && DownwardClosed(rows, p)
    ensures n <= k && forall i :: 0 <= i < k ==> (p(rows[i]) <==> i < n)
  {
    if k == 0 {
      n := 0;
    } else {
      n := SelectedPrefix(rows, p, k - 1);
      if p(rows[k - 1]) { n := k; }
    }
  }

  /** The entries of one entity verify if and only if they open the log: the first n entries are the
      entity's and no later one is. */
  lemma EntityVerifiesIffItOpensLog(rows: seq<AuditLog>, entityType: string, entityId: string)
    ensures DownwardClosed(rows, OfEntity(entityType, entityId))
            <==> exists n: nat :: n <= |rows| && OpensLog(rows, entityType, entityId, n)
  {
    var p := OfEntity(entityType, entityId);
    if DownwardClosed(rows, p) {
      var n := SelectedPrefix(rows, p, |rows|);
      assert OpensLog(rows, entityType, entityId, n);
    }
    if n: nat :| n <= |rows| && OpensLog(rows, entityType, entityId, n) {
      assert forall i :: 0 <= i < |rows| ==> p(rows[i]) == BelongsTo(rows[i], entityType, entityId);
    }
  }

  ghost predicate OpensLog(rows: seq<AuditLog>, entityType: string, entityId: string, n: nat) {
    forall i :: 0 <= i < |rows| ==> (BelongsTo(rows[i], entityType, entityId) <==> i < n)
  }

  // ---------------------------------------------------------------- any clock

  /** All documents that linking or verifying rows of the table in any order can hash. */
  ghost function AllLinkDocuments(rows: seq<AuditLog>): set<Document> {
    (set r, q | r in rows && q in rows :: ChainDocument(r, q.chainHash))
    + (set r | r in rows :: ChainDocument(r, None))
  }

  /** Where a row goes into a time-ordered table: before every row that is not older. */
  function InsertPosition(sorted: seq<AuditLog>, row: AuditLog): (k: nat)
    requires InTimeOrder(sorted)
    ensures k <= |sorted|
    ensures forall i :: 0 <= i < k ==> sorted[i].timestamp < row.timestamp
    ensures forall i :: k <= i < |sorted| ==> row.timestamp <= sorted[i].timestamp
  {
    if sorted == [] || row.timestamp <= sorted[0].timestamp then 0
    else 1 + InsertPosition(sorted[1..], row)
  }

  function InsertByTime(sorted: seq<AuditLog>, row: AuditLog): (r: seq<AuditLog>)
    requires InTimeOrder(sorted)
    ensures InTimeOrder(r) && multiset(r) == multiset(sorted) + multiset{row}
    ensures var k := InsertPosition(sorted, row);
            |r| == |sorted| + 1 && r[k] == row && (k > 0 ==> r[k - 1] == sorted[k - 1])
  {
    var k := InsertPosition(sorted, row);
    SpliceFacts(sorted, k, row);
    sorted[..k] + [row] + sorted[k..]
  }

  lemma SpliceFacts(sorted: seq<AuditLog>, k: nat, row: AuditLog)
    requires InTimeOrder(sorted) && k <= |sorted|
    requires forall i :: 0 <= i < k ==> sorted[i].timestamp < row.timestamp
    requires forall i :: k <= i < |sorted| ==> row.timestamp <= sorted[i].timestamp
    ensures InTimeOrder(sorted[..k] + [row] + sorted[k..])
    ensures multiset(sorted[..k] + [row] + sorted[k..]) == multiset(sorted) + multiset{row}
  {
    assert sorted == sorted[..k] + sorted[k..];
  }

  function SortByTime(rows: seq<AuditLog>): (r: seq<AuditLog>)
    ensures Reading(rows, r)
  {
    if rows == [] then []
    else
      var n := |rows| - 1;
      assert rows == rows[..n] + [rows[n]];
      InsertByTime(SortByTime(rows[..n]), rows[n])
  }

  ghost predicate IsLinkDocument(rows: seq<AuditLog>, d: Document) {
    d in AllLinkDocuments(rows)
  }

  /** Every stored chain hash is the digest of a link document of its own row. */
  lemma ChainHashOfRow(h: Sha, rows: seq<AuditLog>, r: AuditLog) returns (d: Document)
    requires Created(h, rows) && r in rows
    ensures IsLinkDocument(rows, d) && d.ChainDoc? && d.id == r.id && r.chainHash == Some(h(d))
  {
    var n :| 0 <= n < |rows| && rows[n] == r;
    assert LinkedToLatest(h, rows[..n], r);
    if n == 0 {
      d := ChainDocument(r, None);
    } else {
      var p :| IsLatest(rows[..n], p) && r.chainHash == Some(GenerateChainHash(h, r, p.chainHash));
      assert p in rows;
      d := ChainDocument(r, p.chainHash);
    }
  }

  lemma SameRow(rows: seq<AuditLog>, p: AuditLog, q: AuditLog)
    requires DistinctIds(rows) && p in rows && q in rows && p.id == q.id
    ensures p == q
  {
    var i :| 0 <= i < |rows| && rows[i] == p;
    var j :| 0 <= j < |rows| && rows[j] == q;
  }

  lemma SameDigest(h: Sha, rows: seq<AuditLog>, d: Document, e: Document)
    requires NoCollision(h, AllLinkDocuments(rows)) && IsLinkDocument(rows, d) && IsLinkDocument(rows, e)
    requires h(d) == h(e)
    ensures d == e
  {
  }

  /** Different rows carry different chain hashes, and none reads as the genesis marker. */
  lemma ChainHashesDiffer(h: Sha, rows: seq<AuditLog>, p: AuditLog, q: AuditLog)
    requires Created(h, rows) && HexDigest(h) && NoCollision(h, AllLinkDocuments(rows))
    requires p in rows && q in rows
    ensures HashOrGenesis(p.chainHash) == HashOrGenesis(q.chainHash) ==> p == q
    ensures HashOrGenesis(p.chainHash) != GENESIS
  {
    var d := ChainHashOfRow(h, rows, p);
    var e := ChainHashOfRow(h, rows, q);
    assert |h(d)| == 64 && |h(e)| == 64;
    if h(d) == h(e) {
      SameDigest(h, rows, d, e);
      SameRow(rows, p, q);
    }
  }

  /** Equal link hashes of one row have equal predecessors. */
  lemma SameLinkHash(h: Sha, rows: seq<AuditLog>, row: AuditLog, p: Option<string>, q: Option<string>)
    requires NoCollision(h, AllLinkDocuments(rows))
    requires IsLinkDocument(rows, ChainDocument(row, p)) && IsLinkDocument(rows, ChainDocument(row, q))
    requires GenerateChainHash(h, row, p) == GenerateChainHash(h, row, q)
    ensures HashOrGenesis(p) == HashOrGenesis(q)
  {
    SameDigest(h, rows, ChainDocument(row, p), ChainDocument(row, q));
  }

  lemma LinkDocumentListed(rows: seq<AuditLog>, row: AuditLog, q: Option<AuditLog>)
    requires row in rows && (q.Some? ==> q.value in rows)
    ensures IsLinkDocument(rows, ChainDocument(row, if q.Some? then q.value.chainHash else None))
  {
  }

  /** A linked row does not verify behind anything but the row it was linked to. */
  lemma WrongPredecessor(h: Sha, rows: seq<AuditLog>, row: AuditLog, p: AuditLog, q: Option<AuditLog>)
    requires Created(h, rows) && HexDigest(h) && NoCollision(h, AllLinkDocuments(rows))
    requires row in rows && p in rows && row.chainHash == Some(GenerateChainHash(h, row, p.chainHash))
    requires q.Some? ==> q.value in rows && q.value != p
    ensures !VerifyChainIntegrity(h, row, if q.Some? then q.value.chainHash else None)
  {
    var previous := if q.Some? then q.value.chainHash else None;
    LinkDocumentListed(rows, row, Some(p));
    LinkDocumentListed(rows, row, q);
    ChainHashesDiffer(h, rows, p, if q.Some? then q.value else p);
    assert |h(ChainDocument(row, p.chainHash))| == 64;
    if GenerateChainHash(h, row, previous) == GenerateChainHash(h, row, p.chainHash) {
      SameLinkHash(h, rows, row, previous, p.chainHash);
      assert false;
    }
  }

  lemma SortedOthers(rows: seq<AuditLog>, n: nat) returns (sorted: seq<AuditLog>)
    requires n < |rows|
    ensures InTimeOrder(sorted) && multiset(sorted) + multiset{rows[n]} == multiset(rows)
    ensures forall q :: q in sorted ==> q in rows
  {
    sorted := SortByTime(rows[..n] + rows[n + 1..]);
    MultisetRemoveAt(rows, n);
    SameElements(sorted, rows);
  }

  /** A row stamped no later than a row created before it can be read before the row it links to. */
  lemma LateStampBreaksReading(h: Sha, rows: seq<AuditLog>, m: nat, n: nat) returns (entries: seq<AuditLog>)
    requires Created(h, rows) && HexDigest(h) && NoCollision(h, AllLinkDocuments(rows))
    requires m < n < |rows| && rows[n].timestamp <= rows[m].timestamp
    ensures Reading(rows, entries) && !Verified(h, entries)
  {
    var p := LinkTarget(h, rows, m, n);
    var sorted := SortedOthers(rows, n);
    entries := InsertByTime(sorted, rows[n]);
    MisplacedRowFlagged(h, rows, entries, InsertPosition(sorted, rows[n]), p);
  }

  lemma MisplacedRowFlagged(h: Sha, rows: seq<AuditLog>, entries: seq<AuditLog>, k: nat, p: AuditLog)
    requires Created(h, rows) && HexDigest(h) && NoCollision(h, AllLinkDocuments(rows))
    requires k < |entries| && entries[k] in rows && p in rows
    requires entries[k].chainHash == Some(GenerateChainHash(h, entries[k], p.chainHash))
    requires k > 0 ==> entries[k - 1] in rows && entries[k - 1] != p
    ensures !Verified(h, entries)
  {
    WrongPredecessor(h, rows, entries[k], p, if k == 0 then None else Some(entries[k - 1]));
    assert !LinkOk(h, entries, k);
    assert k in Flagged(h, entries);
  }

  lemma LinkTarget(h: Sha, rows: seq<AuditLog>, m: nat, n: nat) returns (p: AuditLog)
    requires Created(h, rows) && m < n < |rows|
    ensures p in rows && rows[m].timestamp <= p.timestamp
    ensures rows[n].chainHash == Some(GenerateChainHash(h, rows[n], p.chainHash))
  {
    assert LinkedToLatest(h, rows[..n], rows[n]);
    p :| IsLatest(rows[..n], p) && rows[n].chainHash == Some(GenerateChainHash(h, rows[n], p.chainHash));
    assert rows[m] in rows[..n];
  }

  /** Exactly when the promise holds: for a table filled by non-overlapping creates under an arbitrary
      clock, every timestamp-ordered reading of the log verifies if and only if the timestamps
      strictly increase in creation order. Two creates in one millisecond already break it. */
  lemma EveryReadingVerifiesIffStrict(h: Sha, rows: seq<AuditLog>)
    requires Created(h, rows) && HexDigest(h) && NoCollision(h, AllLinkDocuments(rows))
    ensures (forall entries :: Reading(rows, entries) ==> Verified(h, entries)) <==> StrictTimestamps(rows)
  {
    if StrictTimestamps(rows) {
      CreatedLogVerifies(h, rows);
      forall entries | Reading(rows, entries) ensures Verified(h, entries) {
        OnlyReading(rows, entries);
      }
    } else {
      var m, n :| 0 <= m < n < |rows| && rows[n].timestamp <= rows[m].timestamp;
      var entries := LateStampBreaksReading(h, rows, m, n);
    }
  }
}
