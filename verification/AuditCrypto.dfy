/** The hashing and chain-checking half of the audit log (common/crypto.service.ts and
    audit/audit-chain.service.ts).

    SHA-256 is a parameter `h`: any function from hashed documents to 64-character digests. No
    theorem assumes that `h` is injective. Where collisions matter, the assumption is that `h`
    has none among the finitely many documents that the compared logs make the verifier hash. */
module AuditCrypto {
  import opened Common

  datatype Json =
    | JNull
    | JBool(b: bool)
    | JNum(n: real)
    | JStr(s: string)
    | JArr(items: seq<Json>)
    | JObj(fields: seq<(string, Json)>)

  /** The documents handed to SHA-256. The two kinds have different keys in their JSON text. */
  datatype Document =
    | IntegrityDoc(eventType: string, entityType: string, entityId: string, userId: Option<string>,
                   timestamp: int, beforeState: Json, afterState: Json, metadata: Json)
    | ChainDoc(id: string, eventType: string, entityType: string, entityId: string,
               timestamp: int, integrity: string, previousHash: string)

  type Sha = Document -> string

  datatype AuditLog = AuditLog(
    id: string, eventType: string, entityType: string, entityId: string, userId: Option<string>,
    timestamp: int, beforeState: Json, afterState: Json, metadata: Json,
    integrity: string, chainHash: Option<string>)

  const GENESIS := "GENESIS"

  /** A hex digest has 64 characters, so it is neither empty nor the genesis marker. */
  ghost predicate HexDigest(h: Sha) {
    forall d :: |h(d)| == 64
  }

  ghost predicate NoCollision(h: Sha, docs: set<Document>) {
    forall d, e :: d in docs && e in docs && h(d) == h(e) ==> d == e
  }

  // ---------------------------------------------------------------- hashes of one entry

  /** `value || null`: every falsy JSON value is hashed as null. */
  function OrNull(j: Json): Json {
    if j == JBool(false) || j == JNum(0.0) || j == JStr("") then JNull else j
  }

  function IntegrityDocument(e: AuditLog): Document {
    IntegrityDoc(e.eventType, e.entityType, e.entityId, if Truthy(e.userId) then e.userId else None,
                 e.timestamp, OrNull(e.beforeState), OrNull(e.afterState), OrNull(e.metadata))
  }

  predicate IntegrityOk(h: Sha, e: AuditLog) {
    h(IntegrityDocument(e)) == e.integrity
  }

  /** The JSON values that JavaScript counts as false. */
  predicate Falsy(j: Json) {
    j == JNull || j == JBool(false) || j == JNum(0.0) || j == JStr("")
  }

  predicate SameJson(a: Json, b: Json) {
    a == b || (Falsy(a) && Falsy(b))
  }

  predicate SameUser(a: Option<string>, b: Option<string>) {
    a == b || ((a == None || a == Some("")) && (b == None || b == Some("")))
  }

  /** Two entries record the same event, up to absent or falsy values. */
  predicate SameContents(a: AuditLog, b: AuditLog) {
    && a.eventType == b.eventType && a.entityType == b.entityType && a.entityId == b.entityId
    && SameUser(a.userId, b.userId) && a.timestamp == b.timestamp
    && SameJson(a.beforeState, b.beforeState) && SameJson(a.afterState, b.afterState)
    && SameJson(a.metadata, b.metadata)
  }

  /** The hashed document determines the contents, and the contents determine it. */
  lemma SameDocumentIffSameContents(a: AuditLog, b: AuditLog)
    ensures IntegrityDocument(a) == IntegrityDocument(b) <==> SameContents(a, b)
  {
  }

  /** An entry with a right integrity hash, rewritten with the hash kept, still verifies exactly when its
      contents are the same. */
  lemma RewrittenEntry(h: Sha, e: AuditLog, edited: AuditLog)
    requires IntegrityOk(h, e) && edited.integrity == e.integrity
    requires NoCollision(h, {IntegrityDocument(e), IntegrityDocument(edited)})
    ensures IntegrityOk(h, edited) <==> SameContents(edited, e)
  {
    SameDocumentIffSameContents(edited, e);
  }

  /** `previousHash || 'GENESIS'`. */
  function HashOrGenesis(previousHash: Option<string>): string {
    if Truthy(previousHash) then previousHash.value else GENESIS
  }

  function ChainDocument(e: AuditLog, previousHash: Option<string>): Document {
    ChainDoc(e.id, e.eventType, e.entityType, e.entityId, e.timestamp, e.integrity,
             HashOrGenesis(previousHash))
  }

  function GenerateChainHash(h: Sha, e: AuditLog, previousHash: Option<string>): string {
    h(ChainDocument(e, previousHash))
  }

  /** An entry without chain hash is legacy and accepted as it is. */
  predicate VerifyChainIntegrity(h: Sha, current: AuditLog, previousHash: Option<string>) {
    !Truthy(current.chainHash) || GenerateChainHash(h, current, previousHash) == current.chainHash.value
  }

  // ---------------------------------------------------------------- the chain verifier

  function PreviousHash(entries: seq<AuditLog>, i: nat): Option<string>
    requires i < |entries|
  {
    if i > 0 then entries[i - 1].chainHash else None
  }

  function LinkDocument(entries: seq<AuditLog>, i: nat): Document
    requires i < |entries|
  {
    ChainDocument(entries[i], PreviousHash(entries, i))
  }

  predicate LinkOk(h: Sha, entries: seq<AuditLog>, i: nat)
    requires i < |entries|
  {
    VerifyChainIntegrity(h, entries[i], PreviousHash(entries, i))
  }

  /** The positions whose link does not verify. */
  ghost function Flagged(h: Sha, entries: seq<AuditLog>): set<nat> {
    set i: nat | i < |entries| && !LinkOk(h, entries, i)
  }

  /** The ids at the flagged positions below `n`, in log order. */
  function FlaggedIds(h: Sha, entries: seq<AuditLog>, n: nat): seq<string>
    requires n <= |entries|
  {
    if n == 0 then []
    else FlaggedIds(h, entries, n - 1) + if LinkOk(h, entries, n - 1) then [] else [entries[n - 1].id]
  }

  ghost function FlaggedBelow(h: Sha, entries: seq<AuditLog>, n: nat): set<nat> {
    set i | i in Flagged(h, entries) && i < n
  }

  lemma FlaggedBelowStep(h: Sha, entries: seq<AuditLog>, n: nat)
    requires 0 < n <= |entries|
    ensures FlaggedBelow(h, entries, n)
         == FlaggedBelow(h, entries, n - 1) + if LinkOk(h, entries, n - 1) then {} else {n - 1}
  {
    assert n - 1 in Flagged(h, entries) <==> !LinkOk(h, entries, n - 1);
  }

  lemma {:induction false} FlaggedIdsCount(h: Sha, entries: seq<AuditLog>, n: nat)
    requires n <= |entries|
    ensures |FlaggedIds(h, entries, n)| == |FlaggedBelow(h, entries, n)|
  {
    if n == 0 {
      assert FlaggedBelow(h, entries, 0) == {};
    } else {
      FlaggedIdsCount(h, entries, n - 1);
      FlaggedBelowStep(h, entries, n);
    }
  }

  lemma {:induction false} FlaggedIdsMeaning(h: Sha, entries: seq<AuditLog>, n: nat, id: string)
    requires n <= |entries|
    ensures id in FlaggedIds(h, entries, n) <==>
              exists i :: 0 <= i < n && entries[i].id == id && !LinkOk(h, entries, i)
  {
    if n > 0 {
      FlaggedIdsMeaning(h, entries, n - 1, id);
    }
  }

  datatype ChainReport = ChainReport(
    valid: bool, totalEntries: nat, verifiedEntries: nat,
    brokenChainAt: Option<nat>, tamperedEntries: seq<string>)

  /** CryptoService.verifyAuditChain. */
  method VerifyLinks(h: Sha, entries: seq<AuditLog>) returns (r: ChainReport)
    ensures r.totalEntries == |entries|
    ensures r.tamperedEntries == FlaggedIds(h, entries, |entries|)
    ensures r.verifiedEntries + |Flagged(h, entries)| == |entries|
    ensures r.valid <==> Flagged(h, entries) == {}
    ensures r.brokenChainAt.None? <==> r.valid
    ensures r.brokenChainAt.Some? ==>
              r.brokenChainAt.value in Flagged(h, entries)
              && forall i :: i in Flagged(h, entries) ==> r.brokenChainAt.value <= i
  {
    var verifiedEntries: nat := 0;
    var brokenChainAt: Option<nat> := None;
    var tamperedEntries: seq<string> := [];
    if |entries| == 0 {
      return ChainReport(true, 0, 0, None, []);
    }
    for i := 0 to |entries|
      invariant tamperedEntries == FlaggedIds(h, entries, i)
      invariant verifiedEntries + |tamperedEntries| == i
      invariant tamperedEntries == [] <==> brokenChainAt.None?
      invariant brokenChainAt.None? ==> forall j :: 0 <= j < i ==> LinkOk(h, entries, j)
      invariant brokenChainAt.Some? ==>
                  brokenChainAt.value < i && !LinkOk(h, entries, brokenChainAt.value)
                  && forall j :: 0 <= j < brokenChainAt.value ==> LinkOk(h, entries, j)
    {
      if VerifyChainIntegrity(h, entries[i], PreviousHash(entries, i)) {
        verifiedEntries := verifiedEntries + 1;
      } else {
        if brokenChainAt == None {
          brokenChainAt := Some(i);
        }
        tamperedEntries := tamperedEntries + [entries[i].id];
      }
    }
    r := ChainReport(verifiedEntries == |entries|, |entries|, verifiedEntries, brokenChainAt, tamperedEntries);
    FlaggedIdsCount(h, entries, |entries|);
    assert Flagged(h, entries) == FlaggedBelow(h, entries, |entries|);
  }

  // ---------------------------------------------------------------- AuditChainService.verifyAuditChain

  datatype FullReport = FullReport(links: ChainReport, valid: bool, tamperedEntries: seq<string>,
                                   integrityFailures: seq<string>)

  function IntegrityFailures(h: Sha, entries: seq<AuditLog>, n: nat): seq<string>
    requires n <= |entries|
  {
    if n == 0 then []
    else IntegrityFailures(h, entries, n - 1) + if IntegrityOk(h, entries[n - 1]) then [] else [entries[n - 1].id]
  }

  lemma {:induction false} IntegrityFailuresMeaning(h: Sha, entries: seq<AuditLog>, n: nat, id: string)
    requires n <= |entries|
    ensures id in IntegrityFailures(h, entries, n) <==>
              exists i :: 0 <= i < n && entries[i].id == id && !IntegrityOk(h, entries[i])
  {
    if n > 0 { IntegrityFailuresMeaning(h, entries, n - 1, id); }
  }

  lemma {:induction false} NoIntegrityFailures(h: Sha, entries: seq<AuditLog>, n: nat)
    requires n <= |entries|
    ensures IntegrityFailures(h, entries, n) == [] <==> forall i :: 0 <= i < n ==> IntegrityOk(h, entries[i])
  {
    if n > 0 { NoIntegrityFailures(h, entries, n - 1); }
  }

  /** `[...new Set(ids)]`: every id once. */
  method Distinct(ids: seq<string>) returns (r: seq<string>)
    ensures forall id :: id in r <==> id in ids
    ensures forall i, j :: 0 <= i < j < |r| ==> r[i] != r[j]
  {
    r := [];
    for k := 0 to |ids|
      invariant forall id :: id in r <==> id in ids[..k]
      invariant forall i, j :: 0 <= i < j < |r| ==> r[i] != r[j]
    {
      if ids[k] !in r { r := r + [ids[k]]; }
      assert ids[..k + 1] == ids[..k] + [ids[k]];
    }
    assert ids[..|ids|] == ids;
  }

  predicate EntryOk(h: Sha, entries: seq<AuditLog>, i: nat)
    requires i < |entries|
  {
    LinkOk(h, entries, i) && IntegrityOk(h, entries[i])
  }

  ghost predicate AllOk(h: Sha, entries: seq<AuditLog>) {
    forall i: nat :: i < |entries| ==> EntryOk(h, entries, i)
  }

  lemma AllOkMeaning(h: Sha, entries: seq<AuditLog>)
    ensures AllOk(h, entries)
            <==> Flagged(h, entries) == {} && IntegrityFailures(h, entries, |entries|) == []
  {
    NothingFlagged(h, entries);
    NoIntegrityFailures(h, entries, |entries|);
    if AllOk(h, entries) {
      forall i | 0 <= i < |entries| ensures LinkOk(h, entries, i) && IntegrityOk(h, entries[i]) {
        assert EntryOk(h, entries, i);
      }
    }
  }

  /** Some entry with this id does not verify. */
  ghost predicate IsBadEntry(h: Sha, entries: seq<AuditLog>, id: string) {
    exists i :: 0 <= i < |entries| && entries[i].id == id && !EntryOk(h, entries, i)
  }

  /** `ids` lists exactly the ids of entries that do not verify, each once. */
  ghost predicate Reports(h: Sha, entries: seq<AuditLog>, ids: seq<string>) {
    && (forall id :: id in ids <==> IsBadEntry(h, entries, id))
    && (forall i, j :: 0 <= i < j < |ids| ==> ids[i] != ids[j])
  }

  /** What a report says of the entries it is about. */
  ghost predicate IsReport(h: Sha, entries: seq<AuditLog>, r: FullReport) {
    && (r.valid <==> AllOk(h, entries))
    && r.links.totalEntries == |entries| == r.links.verifiedEntries + |Flagged(h, entries)|
    && (r.links.brokenChainAt.None? <==> Flagged(h, entries) == {})
    && (r.links.brokenChainAt.Some? ==>
          && r.links.brokenChainAt.value in Flagged(h, entries)
          && forall i :: i in Flagged(h, entries) ==> r.links.brokenChainAt.value <= i)
    && r.integrityFailures == IntegrityFailures(h, entries, |entries|)
    && Reports(h, entries, r.tamperedEntries)
  }

  /** The full verifier: links plus per-entry integrity, with the flagged ids deduplicated. */
  method VerifyAuditChain(h: Sha, entries: seq<AuditLog>) returns (r: FullReport)
    ensures IsReport(h, entries, r)
  {
    var links := VerifyLinks(h, entries);
    var failures: seq<string> := [];
    for k := 0 to |entries|
      invariant failures == IntegrityFailures(h, entries, k)
    {
      if !IntegrityOk(h, entries[k]) { failures := failures + [entries[k].id]; }
    }
    var tampered := Distinct(links.tamperedEntries + failures);
    r := FullReport(links, links.valid && failures == [], tampered, failures);
    AllOkMeaning(h, entries);
    forall id: string ensures id in tampered <==> IsBadEntry(h, entries, id) {
      TamperedIffBad(h, entries, id);
    }
  }

  lemma TamperedIffBad(h: Sha, entries: seq<AuditLog>, id: string)
    ensures id in FlaggedIds(h, entries, |entries|) || id in IntegrityFailures(h, entries, |entries|)
            <==> IsBadEntry(h, entries, id)
  {
    FlaggedIdsMeaning(h, entries, |entries|, id);
    IntegrityFailuresMeaning(h, entries, |entries|, id);
    if i :| 0 <= i < |entries| && entries[i].id == id && !LinkOk(h, entries, i) {
      assert !EntryOk(h, entries, i);
    }
    if i :| 0 <= i < |entries| && entries[i].id == id && !IntegrityOk(h, entries[i]) {
      assert !EntryOk(h, entries, i);
    }
  }

  lemma NothingFlagged(h: Sha, entries: seq<AuditLog>)
    ensures Flagged(h, entries) == {} <==> forall i :: 0 <= i < |entries| ==> LinkOk(h, entries, i)
  {
    if Flagged(h, entries) == {} {
      forall i | 0 <= i < |entries| ensures LinkOk(h, entries, i) {
        assert LinkOk(h, entries, i) || i in Flagged(h, entries);
      }
    }
    if Flagged(h, entries) != {} {
      var i :| i in Flagged(h, entries);
      assert !LinkOk(h, entries, i);
    }
  }

  // ---------------------------------------------------------------- what a verified chain commits to

  ghost predicate Verified(h: Sha, entries: seq<AuditLog>) {
    Flagged(h, entries) == {}
  }

  /** No legacy entry: every entry carries a chain hash. */
  ghost predicate FullyLinked(entries: seq<AuditLog>) {
    forall i :: 0 <= i < |entries| ==> Truthy(entries[i].chainHash)
  }

  /** The documents that checking the links of `entries` hashes. */
  ghost function LinkDocuments(entries: seq<AuditLog>): set<Document> {
    set i | 0 <= i < |entries| :: LinkDocument(entries, i)
  }

  ghost predicate SameCommitment(a: AuditLog, b: AuditLog) {
    a.id == b.id && a.eventType == b.eventType && a.entityType == b.entityType && a.entityId == b.entityId
    && a.timestamp == b.timestamp && a.integrity == b.integrity && a.chainHash == b.chainHash
  }

  /** In a verified chain each chain hash is the digest of the entry's own document. */
  lemma HashIsDigest(h: Sha, entries: seq<AuditLog>, i: nat)
    requires i < |entries| && Verified(h, entries) && FullyLinked(entries)
    ensures entries[i].chainHash == Some(h(LinkDocument(entries, i)))
    ensures LinkDocument(entries, i) in LinkDocuments(entries)
  {
    NothingFlagged(h, entries);
    assert LinkOk(h, entries, i);
  }

  lemma PrefixVerified(h: Sha, entries: seq<AuditLog>, n: nat)
    requires n <= |entries| && Verified(h, entries)
    ensures Verified(h, entries[..n])
    ensures LinkDocuments(entries[..n]) <= LinkDocuments(entries)
  {
    NothingFlagged(h, entries);
    NothingFlagged(h, entries[..n]);
    forall i | 0 <= i < n
      ensures LinkOk(h, entries[..n], i)
      ensures LinkDocument(entries[..n], i) in LinkDocuments(entries)
    {
      assert LinkOk(h, entries, i) && LinkDocument(entries[..n], i) == LinkDocument(entries, i);
    }
  }

  /** The last chain hash commits to the whole history: two fully linked verified logs that end in
      the same chain hash have the same length and agree entry by entry. */
  lemma {:induction false} LastHashCommits(h: Sha, a: seq<AuditLog>, b: seq<AuditLog>)
    requires HexDigest(h) && NoCollision(h, LinkDocuments(a) + LinkDocuments(b))
    requires Verified(h, a) && FullyLinked(a) && Verified(h, b) && FullyLinked(b)
    requires a != [] && b != [] && a[|a| - 1].chainHash == b[|b| - 1].chainHash
    ensures |a| == |b|
    ensures forall i :: 0 <= i < |a| ==> SameCommitment(a[i], b[i])
    decreases |a|
  {
    var m, n := |a| - 1, |b| - 1;
    LastEntriesAgree(h, a, b);
    if m > 0 {
      PrefixVerified(h, a, m);
      PrefixVerified(h, b, n);
      LastHashCommits(h, a[..m], b[..n]);
      forall i | 0 <= i < m ensures SameCommitment(a[i], b[i]) {
        assert SameCommitment(a[..m][i], b[..n][i]);
      }
    }
  }

  lemma LastEntriesAgree(h: Sha, a: seq<AuditLog>, b: seq<AuditLog>)
    requires HexDigest(h) && NoCollision(h, LinkDocuments(a) + LinkDocuments(b))
    requires Verified(h, a) && FullyLinked(a) && Verified(h, b) && FullyLinked(b)
    requires a != [] && b != [] && a[|a| - 1].chainHash == b[|b| - 1].chainHash
    ensures SameCommitment(a[|a| - 1], b[|b| - 1])
    ensures |a| == 1 <==> |b| == 1
    ensures |a| > 1 ==> a[|a| - 2].chainHash == b[|b| - 2].chainHash
  {
    var m, n := |a| - 1, |b| - 1;
    HashIsDigest(h, a, m);
    HashIsDigest(h, b, n);
    assert LinkDocument(a, m) == LinkDocument(b, n);
    if m > 0 { HashIsDigest(h, a, m - 1); }
    if n > 0 { HashIsDigest(h, b, n - 1); }
  }

  ghost function IntegrityDocuments(entries: seq<AuditLog>): set<Document> {
    set e | e in entries :: IntegrityDocument(e)
  }

  /** With the integrity hashes checked as well, the commitment covers the recorded states, the
      metadata and the user: they agree up to the falsy values that are hashed as null. */
  lemma LastHashCommitsToContents(h: Sha, a: seq<AuditLog>, b: seq<AuditLog>)
    requires HexDigest(h)
    requires NoCollision(h, LinkDocuments(a) + LinkDocuments(b) + IntegrityDocuments(a) + IntegrityDocuments(b))
    requires Verified(h, a) && FullyLinked(a) && Verified(h, b) && FullyLinked(b)
    requires forall e :: e in a || e in b ==> IntegrityOk(h, e)
    requires a != [] && b != [] && a[|a| - 1].chainHash == b[|b| - 1].chainHash
    ensures |a| == |b|
    ensures forall i :: 0 <= i < |a| ==> SameCommitment(a[i], b[i]) && SameContents(a[i], b[i])
  {
    LastHashCommits(h, a, b);
    forall i | 0 <= i < |a|
      ensures SameCommitment(a[i], b[i]) && SameContents(a[i], b[i])
    {
      assert a[i] in a && b[i] in b && SameCommitment(a[i], b[i]);
      assert IntegrityDocument(a[i]) in IntegrityDocuments(a) && IntegrityDocument(b[i]) in IntegrityDocuments(b);
      SameDocumentIffSameContents(a[i], b[i]);
    }
  }

  // ---------------------------------------------------------------- rewriting an entry

  /** Rewriting an entry while keeping its integrity hash: the full verifier lists its id as an integrity
      failure, and reports it as tampered with, if and only if some content field differs. */
  lemma RewriteIsReported(h: Sha, entries: seq<AuditLog>, k: nat, edited: AuditLog, r: FullReport)
    requires k < |entries| && DistinctIds(entries) && IntegrityOk(h, entries[k])
    requires edited.id == entries[k].id && edited.integrity == entries[k].integrity
    requires NoCollision(h, {IntegrityDocument(entries[k]), IntegrityDocument(edited)})
    requires IsReport(h, entries[k := edited], r)
    ensures edited.id in r.integrityFailures <==> !SameContents(edited, entries[k])
    ensures !SameContents(edited, entries[k]) ==> edited.id in r.tamperedEntries && !r.valid
  {
    var after := entries[k := edited];
    RewrittenEntry(h, entries[k], edited);
    IntegrityFailuresMeaning(h, after, |after|, edited.id);
    forall i | 0 <= i < |after| && i != k ensures after[i].id != edited.id {
      assert entries[i].id != entries[k].id;
    }
    assert after[k] == edited;
    if !IntegrityOk(h, edited) {
      assert !EntryOk(h, after, k) && IsBadEntry(h, after, edited.id);
    }
  }

  /** Erasing the chain hash of one entry of a valid log goes unnoticed at the entry itself, which now
      counts as legacy, and flags exactly its successor. */
  lemma ErasedHashFlagsSuccessor(h: Sha, entries: seq<AuditLog>, k: nat, erased: Option<string>)
    requires HexDigest(h) && Verified(h, entries) && FullyLinked(entries) && k < |entries|
    requires erased == None || erased == Some("")
    requires var after := entries[k := entries[k].(chainHash := erased)];
             NoCollision(h, LinkDocuments(entries) + LinkDocuments(after))
    ensures Flagged(h, entries[k := entries[k].(chainHash := erased)])
         == if k + 1 < |entries| then {k + 1} else {}
  {
    var after := entries[k := entries[k].(chainHash := erased)];
    forall j: nat | j < |after| ensures LinkOk(h, after, j) <==> j != k + 1 {
      HashIsDigest(h, entries, j);
      if j > 0 { HashIsDigest(h, entries, j - 1); }
      assert LinkDocument(after, j) in LinkDocuments(after);
      if j == k + 1 { LinkAfterErased(h, entries, after, k); }
    }
  }

  lemma LinkAfterErased(h: Sha, entries: seq<AuditLog>, after: seq<AuditLog>, k: nat)
    requires HexDigest(h) && Verified(h, entries) && FullyLinked(entries) && k + 1 < |entries| == |after|
    requires after[k + 1] == entries[k + 1] && !Truthy(after[k].chainHash)
    requires NoCollision(h, LinkDocuments(entries) + LinkDocuments(after))
    ensures !LinkOk(h, after, k + 1)
  {
    HashIsDigest(h, entries, k);
    HashIsDigest(h, entries, k + 1);
    assert LinkDocument(after, k + 1) in LinkDocuments(after);
    assert LinkDocument(after, k + 1).previousHash == "GENESIS";
    assert |LinkDocument(entries, k + 1).previousHash| == 64;
  }

  // ---------------------------------------------------------------- verifying part of a log

  ghost predicate DistinctIds(entries: seq<AuditLog>) {
    forall i, j :: 0 <= i < j < |entries| ==> entries[i].id != entries[j].id
  }

  /** `part` consists of the entries of a log at the ascending positions `idx`. */
  ghost predicate Selects(entries: seq<AuditLog>, idx: seq<nat>, part: seq<AuditLog>) {
    && |part| == |idx|
    && (forall j :: 0 <= j < |idx| ==> idx[j] < |entries| && part[j] == entries[idx[j]])
    && (forall j, k :: 0 <= j < k < |idx| ==> idx[j] < idx[k])
  }

  /** The entry chosen at `j` still stands right behind its original predecessor. */
  ghost predicate Adjacent(idx: seq<nat>, j: nat)
    requires j < |idx|
  {
    if j == 0 then idx[0] == 0 else idx[j] == idx[j - 1] + 1
  }

  /** Two different positions of a verified log never carry the same chain hash, and none carries
      the genesis marker. */
  lemma HashesDiffer(h: Sha, entries: seq<AuditLog>, i: nat, j: nat)
    requires HexDigest(h) && Verified(h, entries) && FullyLinked(entries) && DistinctIds(entries)
    requires NoCollision(h, LinkDocuments(entries))
    requires i < |entries| && j < |entries|
    ensures entries[i].chainHash == entries[j].chainHash ==> i == j
    ensures entries[i].chainHash != Some(GENESIS)
  {
    HashIsDigest(h, entries, i);
    HashIsDigest(h, entries, j);
  }

  lemma SelectedLink(h: Sha, entries: seq<AuditLog>, idx: seq<nat>, part: seq<AuditLog>, j: nat)
    requires HexDigest(h) && Verified(h, entries) && FullyLinked(entries) && DistinctIds(entries)
    requires Selects(entries, idx, part) && j < |idx|
    requires NoCollision(h, LinkDocuments(entries) + LinkDocuments(part))
    ensures LinkOk(h, part, j) <==> Adjacent(idx, j)
  {
    var k := idx[j];
    HashIsDigest(h, entries, k);
    assert LinkDocument(part, j) in LinkDocuments(part);
    assert LinkOk(h, part, j) <==> LinkDocument(part, j) == LinkDocument(entries, k);
    SamePredecessor(h, entries, k, if j > 0 then idx[j - 1] + 1 else 0);
  }

  /** Position `k` of a verified log reads the same predecessor hash as position `p` only if they are
      the same position. */
  lemma SamePredecessor(h: Sha, entries: seq<AuditLog>, k: nat, p: nat)
    requires HexDigest(h) && Verified(h, entries) && FullyLinked(entries) && DistinctIds(entries)
    requires NoCollision(h, LinkDocuments(entries))
    requires k < |entries| && p < |entries|
    ensures HashOrGenesis(PreviousHash(entries, k)) == HashOrGenesis(PreviousHash(entries, p)) ==> k == p
  {
    if k > 0 { HashesDiffer(h, entries, k - 1, if p > 0 then p - 1 else k - 1); }
    if p > 0 { HashesDiffer(h, entries, p - 1, p - 1); }
  }

  /** Verifying any part of a valid log (an entity's entries, a page, a date range) flags exactly
      the entries whose original predecessor is not the entry right before them in that part. */
  lemma SelectionFlags(h: Sha, entries: seq<AuditLog>, idx: seq<nat>, part: seq<AuditLog>)
    requires HexDigest(h) && Verified(h, entries) && FullyLinked(entries) && DistinctIds(entries)
    requires Selects(entries, idx, part)
    requires NoCollision(h, LinkDocuments(entries) + LinkDocuments(part))
    ensures Flagged(h, part) == set j: nat | j < |idx| && !Adjacent(idx, j)
  {
    forall j: nat | j < |idx|
      ensures LinkOk(h, part, j) <==> Adjacent(idx, j)
    {
      SelectedLink(h, entries, idx, part, j);
    }
  }

  ghost function Without(entries: seq<AuditLog>, k: nat): seq<AuditLog>
    requires k < |entries|
  {
    entries[..k] + entries[k + 1..]
  }

  /** The positions of a log without position k. */
  ghost function PositionsWithout(n: nat, k: nat): seq<nat>
    requires k < n
  {
    seq(n - 1, j requires 0 <= j => if j < k then j else j + 1)
  }

  lemma WithoutSelects(entries: seq<AuditLog>, k: nat)
    requires k < |entries|
    ensures Selects(entries, PositionsWithout(|entries|, k), Without(entries, k))
    ensures forall j: nat :: j < |entries| - 1 ==> (Adjacent(PositionsWithout(|entries|, k), j) <==> j != k)
  {
  }

  /** Deleting one entry other than the last makes the verifier flag exactly one entry, the one now
      at that index. Deleting the last entry is not noticed. */
  lemma RemovalFlagsSuccessor(h: Sha, entries: seq<AuditLog>, k: nat)
    requires HexDigest(h) && Verified(h, entries) && FullyLinked(entries) && DistinctIds(entries)
    requires k < |entries|
    requires NoCollision(h, LinkDocuments(entries) + LinkDocuments(Without(entries, k)))
    ensures Flagged(h, Without(entries, k)) == if k < |entries| - 1 then {k} else {}
  {
    WithoutSelects(entries, k);
    SelectionFlags(h, entries, PositionsWithout(|entries|, k), Without(entries, k));
  }

  /** The positions lo, ..., hi - 1. */
  ghost function Interval(lo: nat, hi: nat): seq<nat>
    requires lo <= hi
  {
    seq(hi - lo, j requires 0 <= j => lo + j)
  }

  lemma WindowSelects(entries: seq<AuditLog>, lo: nat, hi: nat)
    requires lo <= hi <= |entries|
    ensures Selects(entries, Interval(lo, hi), entries[lo..hi])
    ensures forall j: nat :: j < hi - lo ==> (Adjacent(Interval(lo, hi), j) <==> j != 0 || lo == 0)
  {
  }

  /** A contiguous window of a valid log is flagged nowhere except at its index 0, and there exactly
      when it does not start at the genesis entry. */
  lemma WindowFlags(h: Sha, entries: seq<AuditLog>, lo: nat, hi: nat)
    requires HexDigest(h) && Verified(h, entries) && FullyLinked(entries) && DistinctIds(entries)
    requires lo <= hi <= |entries|
    requires NoCollision(h, LinkDocuments(entries) + LinkDocuments(entries[lo..hi]))
    ensures Flagged(h, entries[lo..hi]) == if 0 < lo < hi then {0} else {}
  {
    WindowSelects(entries, lo, hi);
    SelectionFlags(h, entries, Interval(lo, hi), entries[lo..hi]);
  }

  /** Rewriting a committed field of one entry while keeping its chain hash flags exactly that entry. */
  lemma EditFlagsEntry(h: Sha, entries: seq<AuditLog>, k: nat, edited: AuditLog)
    requires Verified(h, entries) && FullyLinked(entries) && k < |entries|
    requires edited.chainHash == entries[k].chainHash && !SameCommitment(edited, entries[k])
    requires NoCollision(h, LinkDocuments(entries) + LinkDocuments(entries[k := edited]))
    ensures Flagged(h, entries[k := edited]) == {k}
  {
    var after := entries[k := edited];
    forall j: nat | j < |after|
      ensures LinkOk(h, after, j) <==> j != k
    {
      HashIsDigest(h, entries, j);
      assert PreviousHash(after, j) == PreviousHash(entries, j);
      assert LinkDocument(after, j) in LinkDocuments(after);
    }
  }
}
