/**
 * The audit trail: audit records keyed by their id string, a secondary
 * index per operation type and per subject (ids in recording order), and the
 * `LastAuditId` counter.
 *
 * Counter values 1 to 9 name `audit-001` to `audit-009`; every later value
 * names `audit-010`, so from the eleventh record on each new record replaces
 * the one stored under `audit-010` while the indexes keep the old entries.
 */
module AuditTrail {
  import opened Prims

  /** Operation types are plain `u32` codes. */
  type OperationType = U32

  const OPERATION_ISSUANCE: OperationType := 0
  const OPERATION_UPDATE: OperationType := 1
  const OPERATION_VERIFICATION: OperationType := 2
  const OPERATION_REVOCATION: OperationType := 3
  const OPERATION_ACCESS: OperationType := 4

  datatype AuditRecord = AuditRecord(
    auditId: string,
    operationType: OperationType,
    timestamp: U64,
    subjectId: string,
    performedBy: Address,
    operationDetails: string,
    blockchainTxId: Hash32)

  datatype SearchParams = SearchParams(
    subjectId: Option<string>,
    operationType: Option<OperationType>,
    fromTimestamp: Option<U64>,
    toTimestamp: Option<U64>,
    performedBy: Option<Address>)

  /** The only failure: `performed_by` did not authorize the invocation. */
  datatype Error = Unauthorized(who: Address)

  datatype Result<T> = Ok(value: T) | Err(error: Error)

  /** The id named by counter value `n`. */
  function AuditIdFor(n: nat): (id: string)
    ensures |id| == 9 && id[..6] == "audit-"
  {
    if 1 <= n <= 9 then "audit-00" + Decimal(n) else "audit-010"
  }

  /** The first ten counter values name ten distinct ids; all later ones name the tenth. */
  lemma AuditIdsDistinct(a: nat, b: nat)
    requires 1 <= a < b
    ensures AuditIdFor(a) == AuditIdFor(b) <==> a >= 10
  {
    if b <= 9 {
      assert AuditIdFor(a)[8] == Decimal(a)[0];
      assert AuditIdFor(b)[8] == Decimal(b)[0];
    } else if a <= 9 {
      assert AuditIdFor(a)[7] != AuditIdFor(b)[7];
    }
  }

  /** The ids counter values 1 to `n` have named. */
  function IssuedIds(n: nat): (ids: set<string>)
    ensures forall j | 1 <= j <= n :: AuditIdFor(j) in ids
  {
    set j | 1 <= j <= n :: AuditIdFor(j)
  }

  /** Before the counter passes 9, the next id has never been named. */
  lemma NextIdIsFresh(n: nat)
    requires n < 10
    ensures AuditIdFor(n + 1) !in IssuedIds(n)
  {
    forall j | 1 <= j <= n
      ensures AuditIdFor(j) != AuditIdFor(n + 1)
    {
      AuditIdsDistinct(j, n + 1);
    }
  }

  /** A missing index reads as the empty list. */
  function Index<K>(index: map<K, seq<string>>, k: K): seq<string> {
    if k in index then index[k] else []
  }

  /** The persistent storage, as one value. */
  datatype Contents = Contents(
    records: map<string, AuditRecord>,
    byType: map<OperationType, seq<string>>,
    bySubject: map<string, seq<string>>,
    lastAuditId: Option<U64>)

  /** The counter, 0 when never written. */
  function Counter(c: Contents): U64 {
    match c.lastAuditId
    case None => 0
    case Some(n) => n
  }

  /**
   * Every record sits under its own id, every stored id was named by the
   * counter, and every indexed id has a record.
   */
  ghost predicate WellFormed(c: Contents) {
    && (forall id | id in c.records :: c.records[id].auditId == id)
    && c.records.Keys <= IssuedIds(Counter(c))
    && (forall t, id | t in c.byType && id in c.byType[t] :: id in c.records)
    && (forall sub, id | sub in c.bySubject && id in c.bySubject[sub] :: id in c.records)
  }

  /** Every indexed id's record still has the operation type or subject it is indexed under. */
  ghost predicate Consistent(c: Contents) {
    && (forall t, id | t in c.byType && id in c.byType[t] :: id in c.records && c.records[id].operationType == t)
    && (forall sub, id | sub in c.bySubject && id in c.bySubject[sub] :: id in c.records && c.records[id].subjectId == sub)
  }

  /** The storage after one `record_audit_event` stored `rec` under `rec.auditId`. */
  function Recorded(c: Contents, rec: AuditRecord): (c': Contents)
    requires Counter(c) + 1 < U64_LIMIT
    ensures rec.auditId in c'.records && c'.records[rec.auditId] == rec
    ensures Index(c'.byType, rec.operationType) == Index(c.byType, rec.operationType) + [rec.auditId]
    ensures Index(c'.bySubject, rec.subjectId) == Index(c.bySubject, rec.subjectId) + [rec.auditId]
    ensures forall t | t != rec.operationType :: Index(c'.byType, t) == Index(c.byType, t)
    ensures forall sub | sub != rec.subjectId :: Index(c'.bySubject, sub) == Index(c.bySubject, sub)
    ensures Counter(c') == Counter(c) + 1
  {
    Contents(
      c.records[rec.auditId := rec],
      c.byType[rec.operationType := Index(c.byType, rec.operationType) + [rec.auditId]],
      c.bySubject[rec.subjectId := Index(c.bySubject, rec.subjectId) + [rec.auditId]],
      Some(Counter(c) + 1))
  }

  /** Recording under the id the counter names keeps the storage well formed. */
  lemma RecordedKeepsWellFormed(c: Contents, rec: AuditRecord)
    requires WellFormed(c) && Counter(c) + 1 < U64_LIMIT && rec.auditId == AuditIdFor(Counter(c) + 1)
    ensures WellFormed(Recorded(c, rec))
  {
    var c' := Recorded(c, rec);
    assert IssuedIds(Counter(c)) <= IssuedIds(Counter(c'));
    forall t, id | t in c'.byType && id in c'.byType[t]
      ensures id in c'.records
    {
      if t != rec.operationType {
        assert Index(c'.byType, t) == Index(c.byType, t);
      }
    }
    forall sub, id | sub in c'.bySubject && id in c'.bySubject[sub]
      ensures id in c'.records
    {
      if sub != rec.subjectId {
        assert Index(c'.bySubject, sub) == Index(c.bySubject, sub);
      }
    }
  }

  /** A record stored under a fresh id keeps every index consistent. */
  lemma RecordedKeepsConsistent(c: Contents, rec: AuditRecord)
    requires Consistent(c) && Counter(c) + 1 < U64_LIMIT && rec.auditId !in c.records
    ensures Consistent(Recorded(c, rec))
  {
    var c' := Recorded(c, rec);
    forall t, id | t in c'.byType && id in c'.byType[t]
      ensures id in c'.records && c'.records[id].operationType == t
    {
      if t != rec.operationType {
        assert Index(c'.byType, t) == Index(c.byType, t);
      } else if id != rec.auditId {
        assert id in Index(c.byType, t);
      }
    }
    forall sub, id | sub in c'.bySubject && id in c'.bySubject[sub]
      ensures id in c'.records && c'.records[id].subjectId == sub
    {
      if sub != rec.subjectId {
        assert Index(c'.bySubject, sub) == Index(c.bySubject, sub);
      } else if id != rec.auditId {
        assert id in Index(c.bySubject, sub);
      }
    }
  }

  /**
   * Overwriting breaks the indexes: when the counter names an id already
   * stored with another operation type, that type's index keeps the id but
   * the record behind it now has the new type.
   */
  lemma OverwriteLeavesStaleIndex(c: Contents, rec: AuditRecord)
    requires Counter(c) + 1 < U64_LIMIT
    requires rec.auditId in c.records && c.records[rec.auditId].operationType != rec.operationType
    requires Consistent(c)
    requires rec.auditId in Index(c.byType, c.records[rec.auditId].operationType)
    ensures !Consistent(Recorded(c, rec))
  {
    var t := c.records[rec.auditId].operationType;
    var c' := Recorded(c, rec);
    assert Index(c'.byType, t) == Index(c.byType, t);
    assert t in c'.byType && rec.auditId in c'.byType[t];
  }

  /** The records an id list resolves to, in list order, skipping ids with no record. */
  function Collect(records: map<string, AuditRecord>, ids: seq<string>): (r: seq<AuditRecord>)
    ensures |r| <= |ids|
  {
    if ids == [] then []
    else
      var last := ids[|ids| - 1];
      Collect(records, ids[..|ids| - 1]) + (if last in records then [records[last]] else [])
  }

  /** A collected record is the record of some listed id. */
  lemma {:induction false} CollectMembers(records: map<string, AuditRecord>, ids: seq<string>, rec: AuditRecord)
    requires rec in Collect(records, ids)
    ensures exists id :: id in ids && id in records && records[id] == rec
    decreases |ids|
  {
    var last := ids[|ids| - 1];
    if rec in Collect(records, ids[..|ids| - 1]) {
      CollectMembers(records, ids[..|ids| - 1], rec);
      var id :| id in ids[..|ids| - 1] && id in records && records[id] == rec;
      assert id in ids;
    } else {
      assert last in ids && last in records && records[last] == rec;
    }
  }

  /** Every listed id that has a record contributes that record. */
  lemma {:induction false} CollectComplete(records: map<string, AuditRecord>, ids: seq<string>, id: string)
    requires id in ids && id in records
    ensures records[id] in Collect(records, ids)
    decreases |ids|
  {
    var init, last := ids[..|ids| - 1], ids[|ids| - 1];
    assert ids == init + [last];
    if id != last {
      CollectComplete(records, init, id);
    }
  }

  /** When every listed id has a record, the collected list is the id list resolved element by element. */
  lemma {:induction false} CollectElements(records: map<string, AuditRecord>, ids: seq<string>)
    requires forall id | id in ids :: id in records
    ensures |Collect(records, ids)| == |ids|
    ensures forall j | 0 <= j < |ids| :: Collect(records, ids)[j] == records[ids[j]]
    decreases |ids|
  {
    if ids != [] {
      var init, last := ids[..|ids| - 1], ids[|ids| - 1];
      assert forall id | id in init :: id in ids;
      CollectElements(records, init);
      assert last in ids;
    }
  }

  /** On well-formed storage every id of every index has a record. */
  lemma IndexesResolve(c: Contents)
    requires WellFormed(c)
    ensures forall t, id | id in Index(c.byType, t) :: id in c.records
    ensures forall sub, id | id in Index(c.bySubject, sub) :: id in c.records
  {
  }

  /** The search takes its ids from the subject index when both subject and type are given. */
  predicate Intersects(p: SearchParams) {
    p.subjectId.Some? && p.operationType.Some?
  }

  /** The time window (inclusive at both ends) and performer filters. */
  predicate Passes(p: SearchParams, rec: AuditRecord) {
    && (p.fromTimestamp.None? || p.fromTimestamp.value <= rec.timestamp)
    && (p.toTimestamp.None? || rec.timestamp <= p.toTimestamp.value)
    && (p.performedBy.None? || rec.performedBy == p.performedBy.value)
  }

  /** What the search keeps: the type check applies only on the intersection path. */
  predicate Keeps(p: SearchParams, rec: AuditRecord) {
    (Intersects(p) ==> Some(rec.operationType) == p.operationType) && Passes(p, rec)
  }

  /** The id list a search walks: subject index, type index, subject index, or nothing. */
  function SearchSource(c: Contents, p: SearchParams): seq<string> {
    if Intersects(p) then Index(c.bySubject, p.subjectId.value)
    else if p.operationType.Some? then Index(c.byType, p.operationType.value)
    else if p.subjectId.Some? then Index(c.bySubject, p.subjectId.value)
    else []
  }

  /** The records of `ids` the search keeps, in list order. */
  function Search(records: map<string, AuditRecord>, ids: seq<string>, p: SearchParams): seq<AuditRecord> {
    if ids == [] then []
    else
      var last := ids[|ids| - 1];
      Search(records, ids[..|ids| - 1], p)
        + (if last in records && Keeps(p, records[last]) then [records[last]] else [])
  }

  /** The kept records of a list, in list order. */
  function Filter(recs: seq<AuditRecord>, p: SearchParams): seq<AuditRecord> {
    if recs == [] then []
    else Filter(recs[..|recs| - 1], p) + (if Keeps(p, recs[|recs| - 1]) then [recs[|recs| - 1]] else [])
  }

  lemma {:induction false} FilterConcat(a: seq<AuditRecord>, b: seq<AuditRecord>, p: SearchParams)
    ensures Filter(a + b, p) == Filter(a, p) + Filter(b, p)
    decreases |b|
  {
    if b == [] {
      assert a + b == a;
    } else {
      var b' := b[..|b| - 1];
      assert (a + b)[..|a + b| - 1] == a + b';
      FilterConcat(a, b', p);
    }
  }

  /** Searching an id list is filtering its collected records: the order is the index order. */
  lemma {:induction false} SearchIsFilteredCollect(records: map<string, AuditRecord>, ids: seq<string>, p: SearchParams)
    ensures Search(records, ids, p) == Filter(Collect(records, ids), p)
    decreases |ids|
  {
    if ids != [] {
      var init, last := ids[..|ids| - 1], ids[|ids| - 1];
      SearchIsFilteredCollect(records, init, p);
      var tail := if last in records then [records[last]] else [];
      FilterConcat(Collect(records, init), tail, p);
      if last in records {
        assert Filter(tail, p) == Filter([], p) + (if Keeps(p, records[last]) then [records[last]] else []);
      }
    }
  }

  /** A record is in the filtered list exactly when it is in the list and is kept. */
  lemma {:induction false} FilterMembers(recs: seq<AuditRecord>, p: SearchParams, rec: AuditRecord)
    ensures rec in Filter(recs, p) <==> rec in recs && Keeps(p, rec)
    decreases |recs|
  {
    if recs != [] {
      var init := recs[..|recs| - 1];
      FilterMembers(init, p, rec);
      assert recs == init + [recs[|recs| - 1]];
    }
  }

  /**
   * Every search result passes the time and performer filters, and matches
   * the type on the intersection path. With consistent indexes it also has
   * the requested type and subject on every path.
   */
  lemma SearchSatisfiesFilters(c: Contents, p: SearchParams, rec: AuditRecord)
    requires rec in Search(c.records, SearchSource(c, p), p)
    ensures Passes(p, rec)
    ensures Intersects(p) ==> rec.operationType == p.operationType.value
    ensures Consistent(c) && p.operationType.Some? ==> rec.operationType == p.operationType.value
    ensures Consistent(c) && p.subjectId.Some? ==> rec.subjectId == p.subjectId.value
  {
    var ids := SearchSource(c, p);
    SearchIsFilteredCollect(c.records, ids, p);
    FilterMembers(Collect(c.records, ids), p, rec);
    CollectMembers(c.records, ids, rec);
    var id :| id in ids && id in c.records && c.records[id] == rec;
    if Consistent(c) && p.operationType.Some? && !Intersects(p) {
      assert p.operationType.value in c.byType;
    }
    if Consistent(c) && p.subjectId.Some? && (Intersects(p) || p.operationType.None?) {
      assert p.subjectId.value in c.bySubject;
    }
  }

  /** Every record of the searched index that passes the filters is found: the search misses nothing. */
  lemma SearchComplete(c: Contents, p: SearchParams, id: string)
    requires id in SearchSource(c, p) && id in c.records && Keeps(p, c.records[id])
    ensures c.records[id] in Search(c.records, SearchSource(c, p), p)
  {
    var ids := SearchSource(c, p);
    SearchIsFilteredCollect(c.records, ids, p);
    CollectComplete(c.records, ids, id);
    FilterMembers(Collect(c.records, ids), p, c.records[id]);
  }

  /** `get_audits_by_timeframe` gives neither type nor subject, so it searches an empty list. */
  lemma TimeframeSearchIsEmpty(c: Contents, from: U64, to: U64)
    ensures Search(c.records, SearchSource(c, SearchParams(None, None, Some(from), Some(to), None)),
                   SearchParams(None, None, Some(from), Some(to), None)) == []
  {
  }

  class AuditStore {
    var records: map<string, AuditRecord>
    var byType: map<OperationType, seq<string>>
    var bySubject: map<string, seq<string>>
    var lastAuditId: Option<U64>

    /** A freshly deployed contract: nothing recorded, counter unset. */
    constructor ()
      ensures records == map[] && byType == map[] && bySubject == map[] && lastAuditId == None
      ensures Valid() && Consistent(Snapshot())
    {
      records := map[];
      byType := map[];
      bySubject := map[];
      lastAuditId := None;
    }

    function Snapshot(): Contents
      reads this
    {
      Contents(records, byType, bySubject, lastAuditId)
    }

    ghost predicate Valid()
      reads this
    {
      WellFormed(Snapshot())
    }
  }

  /**
   * `record_audit_event`: `performed_by` authorizes; the counter is raised
   * by one and names the id; the record, stamped with the ledger time, is
   * stored under it and the id is pushed to the back of its type's and its
   * subject's index.
   */
  method RecordAuditEvent(s: AuditStore, auth: set<Address>, ledger: Ledger, operationType: OperationType,
                          subjectId: string, performedBy: Address, details: string, blockchainTxId: Hash32)
    returns (r: Result<string>)
    requires Counter(s.Snapshot()) + 1 < U64_LIMIT
    modifies s
    ensures performedBy !in auth ==> r == Err(Unauthorized(performedBy)) && s.Snapshot() == old(s.Snapshot())
    ensures performedBy in auth ==>
      var id := AuditIdFor(Counter(old(s.Snapshot())) + 1);
      && r == Ok(id)
      && s.Snapshot() == Recorded(old(s.Snapshot()),
           AuditRecord(id, operationType, ledger.timestamp, subjectId, performedBy, details, blockchainTxId))
    ensures old(s.Valid()) ==> s.Valid()
    ensures old(s.Valid()) && old(Consistent(s.Snapshot())) && Counter(old(s.Snapshot())) < 10 ==> Consistent(s.Snapshot())
  {
    if performedBy !in auth {
      return Err(Unauthorized(performedBy));
    }
    var timestamp := ledger.timestamp;
    var counter := Counter(s.Snapshot());
    var newCounter := counter + 1;
    s.lastAuditId := Some(newCounter);
    var auditId := AuditIdFor(newCounter);
    var rec := AuditRecord(auditId, operationType, timestamp, subjectId, performedBy, details, blockchainTxId);
    ghost var before := old(s.Snapshot());
    if old(s.Valid()) {
      RecordedKeepsWellFormed(before, rec);
      if Consistent(before) && counter < 10 {
        NextIdIsFresh(counter);
        RecordedKeepsConsistent(before, rec);
      }
    }
    s.records := s.records[auditId := rec];
    s.byType := s.byType[operationType := Index(s.byType, operationType) + [auditId]];
    s.bySubject := s.bySubject[subjectId := Index(s.bySubject, subjectId) + [auditId]];
    r := Ok(auditId);
  }

  /** The resolving loop of `get_audit_trail` and `get_audits_by_type`: found records pushed to the back. */
  method CollectRecords(records: map<string, AuditRecord>, ids: seq<string>) returns (list: seq<AuditRecord>)
    ensures list == Collect(records, ids)
  {
    list := [];
    var i := 0;
    while i < |ids|
      invariant 0 <= i <= |ids|
      invariant list == Collect(records, ids[..i])
    {
      assert ids[..i + 1][..i] == ids[..i];
      if ids[i] in records {
        list := list + [records[ids[i]]];
      }
      i := i + 1;
    }
    assert ids[..i] == ids;
  }

  /** `get_audit_trail`: the subject's records in recording order. */
  method GetAuditTrail(s: AuditStore, subjectId: string) returns (list: seq<AuditRecord>)
    ensures list == Collect(s.records, Index(s.bySubject, subjectId))
    ensures Consistent(s.Snapshot()) ==> forall rec | rec in list :: rec.subjectId == subjectId
    ensures forall id | id in Index(s.bySubject, subjectId) && id in s.records :: s.records[id] in list
    ensures s.Valid() ==> |list| == |Index(s.bySubject, subjectId)|
    ensures s.Valid() ==> forall j | 0 <= j < |list| :: list[j] == s.records[Index(s.bySubject, subjectId)[j]]
  {
    list := CollectRecords(s.records, Index(s.bySubject, subjectId));
    forall id | id in Index(s.bySubject, subjectId) && id in s.records
      ensures s.records[id] in list
    {
      CollectComplete(s.records, Index(s.bySubject, subjectId), id);
    }
    if s.Valid() {
      IndexesResolve(s.Snapshot());
      CollectElements(s.records, Index(s.bySubject, subjectId));
    }
    if Consistent(s.Snapshot()) {
      forall rec | rec in list
        ensures rec.subjectId == subjectId
      {
        CollectMembers(s.records, Index(s.bySubject, subjectId), rec);
      }
    }
  }

  /** `get_audits_by_type`: the type's records in recording order. */
  method GetAuditsByType(s: AuditStore, operationType: OperationType) returns (list: seq<AuditRecord>)
    ensures list == Collect(s.records, Index(s.byType, operationType))
    ensures Consistent(s.Snapshot()) ==> forall rec | rec in list :: rec.operationType == operationType
    ensures forall id | id in Index(s.byType, operationType) && id in s.records :: s.records[id] in list
    ensures s.Valid() ==> |list| == |Index(s.byType, operationType)|
    ensures s.Valid() ==> forall j | 0 <= j < |list| :: list[j] == s.records[Index(s.byType, operationType)[j]]
  {
    list := CollectRecords(s.records, Index(s.byType, operationType));
    forall id | id in Index(s.byType, operationType) && id in s.records
      ensures s.records[id] in list
    {
      CollectComplete(s.records, Index(s.byType, operationType), id);
    }
    if s.Valid() {
      IndexesResolve(s.Snapshot());
      CollectElements(s.records, Index(s.byType, operationType));
    }
    if Consistent(s.Snapshot()) {
      forall rec | rec in list
        ensures rec.operationType == operationType
      {
        CollectMembers(s.records, Index(s.byType, operationType), rec);
      }
    }
  }

  /** `search_audit_records`: the filter loop over the chosen index. */
  method SearchAuditRecords(s: AuditStore, p: SearchParams) returns (list: seq<AuditRecord>)
    ensures list == Search(s.records, SearchSource(s.Snapshot(), p), p)
    ensures list == Filter(Collect(s.records, SearchSource(s.Snapshot(), p)), p)
    ensures forall rec | rec in list :: Keeps(p, rec)
    ensures forall id | id in SearchSource(s.Snapshot(), p) && id in s.records && Keeps(p, s.records[id]) ::
      s.records[id] in list
  {
    var ids := SearchSource(s.Snapshot(), p);
    list := [];
    var i := 0;
    while i < |ids|
      invariant 0 <= i <= |ids|
      invariant list == Search(s.records, ids[..i], p)
    {
      var id := ids[i];
      assert ids[..i + 1][..i] == ids[..i];
      if id in s.records {
        var rec := s.records[id];
        if Intersects(p) && rec.operationType != p.operationType.value {
        } else if p.fromTimestamp.Some? && rec.timestamp < p.fromTimestamp.value {
        } else if p.toTimestamp.Some? && rec.timestamp > p.toTimestamp.value {
        } else if p.performedBy.Some? && rec.performedBy != p.performedBy.value {
        } else {
          list := list + [rec];
        }
      }
      i := i + 1;
    }
    assert ids[..i] == ids;
    SearchIsFilteredCollect(s.records, ids, p);
    forall rec | rec in list
      ensures Keeps(p, rec)
    {
      FilterMembers(Collect(s.records, ids), p, rec);
    }
    forall id | id in ids && id in s.records && Keeps(p, s.records[id])
      ensures s.records[id] in list
    {
      SearchComplete(s.Snapshot(), p, id);
    }
  }

  /** `get_audits_by_timeframe`: a search with only the time window set, which finds nothing. */
  method GetAuditsByTimeframe(s: AuditStore, startTime: U64, endTime: U64) returns (list: seq<AuditRecord>)
    ensures list == []
  {
    list := SearchAuditRecords(s, SearchParams(None, None, Some(startTime), Some(endTime), None));
  }

  /** `get_audit_record`: the record stored under the id, if any. */
  function GetAuditRecord(s: AuditStore, auditId: string): (r: Option<AuditRecord>)
    reads s
    ensures r.Some? <==> auditId in s.records
    ensures r.Some? ==> r.value == s.records[auditId]
    ensures s.Valid() && r.Some? ==> r.value.auditId == auditId
  {
    if auditId in s.records then Some(s.records[auditId]) else None
  }
}
