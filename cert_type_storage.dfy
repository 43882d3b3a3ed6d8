/**
 * The certification-type catalog's storage: records keyed by their id
 * string, the id list (newest first) and the `NextId` counter.
 *
 * The id generator names only three ids: counter 0 gives `CERT_TYPE_A`,
 * 1 gives `CERT_TYPE_B` and every later value `CERT_TYPE_C`, so the third and
 * every later registration overwrite the same record while the id list keeps
 * growing with repeats of `CERT_TYPE_C`.
 */
module CertTypeCatalog {
  import opened Prims
  import opened Sequences
  import opened CertType

  /** The id named by counter value `n`. */
  function IdFor(n: nat): (id: string)
    ensures n == 0 <==> id == "CERT_TYPE_A"
    ensures n == 1 <==> id == "CERT_TYPE_B"
    ensures n >= 2 <==> id == "CERT_TYPE_C"
  {
    if n == 0 then "CERT_TYPE_A" else if n == 1 then "CERT_TYPE_B" else "CERT_TYPE_C"
  }

  /** Two counter values share an id exactly when both are past 1. */
  lemma IdForCollides(a: nat, b: nat)
    requires a != b
    ensures IdFor(a) == IdFor(b) <==> a >= 2 && b >= 2
  {
    if a < 2 || b < 2 {
      assert IdFor(a)[10] != IdFor(b)[10];
    }
  }

  /** The contract's instance storage, as one value. */
  datatype Contents = Contents(
    types: map<string, CertificationType>,
    ids: seq<string>,
    nextId: Option<U64>)

  /** The counter, 0 when never written. */
  function Counter(c: Contents): U64 {
    match c.nextId
    case None => 0
    case Some(n) => n
  }

  /**
   * The stored records and the id list name the same ids, every record sits
   * under its own id, and no record lists an authority twice.
   */
  ghost predicate WellFormed(c: Contents) {
    && (forall id :: id in c.types <==> id in c.ids)
    && (forall id | id in c.types :: c.types[id].certTypeId == id)
    && (forall id | id in c.types :: NoDuplicates(c.types[id].authorities))
  }

  /** Deprecated records are never modified (registration aside, which may overwrite one). */
  predicate DeprecatedStay(before: map<string, CertificationType>, after: map<string, CertificationType>) {
    forall id | id in before && before[id].status == Deprecated :: id in after && after[id] == before[id]
  }

  /**
   * The listing `list_all_certification_types` builds: it walks the id list
   * front to back and pushes each stored record to the FRONT of the result,
   * skipping ids with no record.
   */
  function Listing(types: map<string, CertificationType>, ids: seq<string>): (r: seq<CertificationType>)
    ensures |r| <= |ids|
  {
    if ids == [] then []
    else
      var last := ids[|ids| - 1];
      (if last in types then [types[last]] else []) + Listing(types, ids[..|ids| - 1])
  }

  /**
   * Registering pushes the new id to the front of the id list, so its record
   * comes LAST in the listing: the listing is in registration order.
   */
  lemma {:induction false} ListingOfPrepended(types: map<string, CertificationType>, id: string, ids: seq<string>)
    ensures Listing(types, [id] + ids) == Listing(types, ids) + (if id in types then [types[id]] else [])
    decreases |ids|
  {
    if ids == [] {
      assert [id] + ids == [id];
      assert [id][..0] == [];
    } else {
      var all := [id] + ids;
      var last := ids[|ids| - 1];
      assert all[|all| - 1] == last;
      assert all[..|all| - 1] == [id] + ids[..|ids| - 1];
      ListingOfPrepended(types, id, ids[..|ids| - 1]);
    }
  }

  /** When every listed id is stored, the listing is the id list reversed, record by record. */
  lemma {:induction false} ListingReversesIds(types: map<string, CertificationType>, ids: seq<string>)
    requires forall id | id in ids :: id in types
    ensures |Listing(types, ids)| == |ids|
    ensures forall j | 0 <= j < |ids| :: Listing(types, ids)[j] == types[ids[|ids| - 1 - j]]
    decreases |ids|
  {
    if ids != [] {
      var init := ids[..|ids| - 1];
      assert forall id | id in init :: id in ids;
      ListingReversesIds(types, init);
      var r := Listing(types, ids);
      assert r == [types[ids[|ids| - 1]]] + Listing(types, init);
      forall j | 0 <= j < |ids|
        ensures r[j] == types[ids[|ids| - 1 - j]]
      {
        if j > 0 {
          assert r[j] == Listing(types, init)[j - 1];
          assert init[|init| - 1 - (j - 1)] == ids[|ids| - 1 - j];
        }
      }
    }
  }

  /**
   * The check shared by the three edits: the record must exist and must not
   * be deprecated.
   */
  function Editable(types: map<string, CertificationType>, id: string): (r: Result<CertificationType>)
    ensures r.Ok? <==> id in types && types[id].status == Active
    ensures id !in types ==> r == Err(NotFound)
    ensures id in types && types[id].status == Deprecated ==> r == Err(AlreadyDeprecated)
    ensures r.Ok? ==> r.value == types[id]
  {
    if id !in types then Err(NotFound)
    else if types[id].status.Active? then Ok(types[id])
    else Err(AlreadyDeprecated)
  }

  /** Writing back an edited record that keeps its id and its authorities duplicate-free. */
  lemma ReplacedKeepsWellFormed(c: Contents, id: string, t: CertificationType)
    requires WellFormed(c) && id in c.types
    requires t.certTypeId == id && NoDuplicates(t.authorities)
    ensures WellFormed(c.(types := c.types[id := t]))
  {
  }

  /** A registration keeps the catalog well formed. */
  lemma RegisteredKeepsWellFormed(c: Contents, t: CertificationType)
    requires WellFormed(c) && t.authorities == []
    ensures WellFormed(Contents(c.types[t.certTypeId := t], [t.certTypeId] + c.ids, Some(Counter(c))))
  {
    var c' := Contents(c.types[t.certTypeId := t], [t.certTypeId] + c.ids, Some(Counter(c)));
    forall id
      ensures id in c'.types <==> id in c'.ids
    {
      assert id in c'.ids <==> id == t.certTypeId || id in c.ids;
    }
  }

  class CatalogStore {
    var types: map<string, CertificationType>
    var ids: seq<string>
    var nextId: Option<U64>

    /** A freshly deployed contract: nothing registered, counter unset. */
    constructor ()
      ensures types == map[] && ids == [] && nextId == None
      ensures Valid()
    {
      types := map[];
      ids := [];
      nextId := None;
    }

    function Snapshot(): Contents
      reads this
    {
      Contents(types, ids, nextId)
    }

    ghost predicate Valid()
      reads this
    {
      WellFormed(Snapshot())
    }
  }

  /** `generate_cert_type_id`: reads the counter, writes it back raised by one, names the old value. */
  method GenerateCertTypeId(s: CatalogStore) returns (id: string)
    requires Counter(s.Snapshot()) + 1 < U64_LIMIT
    modifies s`nextId
    ensures id == IdFor(Counter(old(s.Snapshot())))
    ensures s.nextId == Some(Counter(old(s.Snapshot())) + 1)
  {
    var n := Counter(s.Snapshot());
    s.nextId := Some(n + 1);
    id := IdFor(n);
  }

  /**
   * `register_certification_type`: a fresh active record under the next id
   * (overwriting whatever was stored there), the id pushed to the front of
   * the id list. It never fails.
   */
  method RegisterCertificationType(s: CatalogStore, name: string, version: string, description: string,
                                   industryScope: seq<string>, validityPeriod: string)
    returns (r: Result<string>)
    requires Counter(s.Snapshot()) + 1 < U64_LIMIT
    modifies s
    ensures var id := IdFor(Counter(old(s.Snapshot())));
      && r == Ok(id)
      && s.types == old(s.types)[id := New(id, name, version, description, industryScope, validityPeriod)]
      && s.ids == [id] + old(s.ids)
      && s.nextId == Some(Counter(old(s.Snapshot())) + 1)
    ensures old(s.Valid()) ==> s.Valid()
    ensures Listing(s.types, s.ids) == Listing(s.types, old(s.ids)) + [s.types[r.value]]
  {
    var id := GenerateCertTypeId(s);
    var t := New(id, name, version, description, industryScope, validityPeriod);
    if old(s.Valid()) {
      var before := old(s.Snapshot());
      RegisteredKeepsWellFormed(before.(nextId := s.nextId), t);
    }
    s.types := s.types[id := t];
    ListingOfPrepended(s.types, id, s.ids);
    s.ids := [id] + s.ids;
    r := Ok(id);
  }

  /**
   * `update_certification_type`: only `description` and
   * `verification_requirements` may be set; any other field name is refused
   * after the existence and deprecation checks, and nothing is written.
   */
  method UpdateCertificationType(s: CatalogStore, id: string, field: string, value: string)
    returns (r: Result<()>)
    modifies s`types
    ensures Editable(old(s.types), id).Err? ==> r == Err(Editable(old(s.types), id).error) && s.types == old(s.types)
    ensures Editable(old(s.types), id).Ok? ==>
      var t := old(s.types)[id];
      && (field == "description" ==> r == Ok(()) && s.types == old(s.types)[id := t.(description := value)])
      && (field == "verification_requirements" ==>
            r == Ok(()) && s.types == old(s.types)[id := t.(verificationRequirements := value)])
      && (field != "description" && field != "verification_requirements" ==>
            r == Err(InvalidField) && s.types == old(s.types))
    ensures DeprecatedStay(old(s.types), s.types)
    ensures old(s.Valid()) ==> s.Valid()
  {
    var t;
    match Editable(s.types, id)
    case Err(e) => return Err(e);
    case Ok(found) => t := found;
    if field == "description" {
      t := t.(description := value);
    } else if field == "verification_requirements" {
      t := t.(verificationRequirements := value);
    } else {
      return Err(InvalidField);
    }
    if s.Valid() {
      ReplacedKeepsWellFormed(s.Snapshot(), id, t);
    }
    s.types := s.types[id := t];
    r := Ok(());
  }

  /** `deprecate_certification_type`: an active record becomes deprecated with the given reason. */
  method DeprecateCertificationType(s: CatalogStore, id: string, reason: string) returns (r: Result<()>)
    modifies s`types
    ensures Editable(old(s.types), id).Err? ==> r == Err(Editable(old(s.types), id).error) && s.types == old(s.types)
    ensures Editable(old(s.types), id).Ok? ==>
      && r == Ok(())
      && s.types == old(s.types)[id := old(s.types)[id].(status := Deprecated, deprecationReason := Some(reason))]
    ensures r.Ok? ==> Editable(s.types, id) == Err(AlreadyDeprecated)
    ensures DeprecatedStay(old(s.types), s.types)
    ensures old(s.Valid()) ==> s.Valid()
  {
    var t;
    match Editable(s.types, id)
    case Err(e) => return Err(e);
    case Ok(found) => t := found;
    t := t.(status := Deprecated, deprecationReason := Some(reason));
    if s.Valid() {
      ReplacedKeepsWellFormed(s.Snapshot(), id, t);
    }
    s.types := s.types[id := t];
    r := Ok(());
  }

  /** `list_all_certification_types`: the loop over the id list, pushing each found record to the front. */
  method ListAllCertificationTypes(s: CatalogStore) returns (list: seq<CertificationType>)
    ensures list == Listing(s.types, s.ids)
    ensures s.Valid() ==> |list| == |s.ids| && forall j | 0 <= j < |list| :: list[j] == s.types[s.ids[|s.ids| - 1 - j]]
  {
    list := [];
    var i := 0;
    while i < |s.ids|
      invariant 0 <= i <= |s.ids|
      invariant list == Listing(s.types, s.ids[..i])
    {
      var id := s.ids[i];
      assert s.ids[..i + 1][..i] == s.ids[..i];
      if id in s.types {
        list := [s.types[id]] + list;
      }
      i := i + 1;
    }
    assert s.ids[..i] == s.ids;
    if s.Valid() {
      ListingReversesIds(s.types, s.ids);
    }
  }

  /** `get_certification_type_details`: the stored record, `NotFound` otherwise. */
  function GetCertificationTypeDetails(s: CatalogStore, id: string): (r: Result<CertificationType>)
    reads s
    ensures r.Ok? <==> id in s.types
    ensures r.Ok? ==> r.value == s.types[id]
    ensures r.Err? ==> r.error == NotFound
    ensures s.Valid() && r.Ok? ==> r.value.certTypeId == id && id in s.ids
  {
    if id in s.types then Ok(s.types[id]) else Err(NotFound)
  }

  /** `set_required_evidence`: the evidence list of an active record is replaced wholesale. */
  method SetRequiredEvidence(s: CatalogStore, id: string, evidence: seq<string>) returns (r: Result<()>)
    modifies s`types
    ensures Editable(old(s.types), id).Err? ==> r == Err(Editable(old(s.types), id).error) && s.types == old(s.types)
    ensures Editable(old(s.types), id).Ok? ==>
      r == Ok(()) && s.types == old(s.types)[id := old(s.types)[id].(requiredEvidence := evidence)]
    ensures DeprecatedStay(old(s.types), s.types)
    ensures old(s.Valid()) ==> s.Valid()
  {
    var t;
    match Editable(s.types, id)
    case Err(e) => return Err(e);
    case Ok(found) => t := found;
    t := t.(requiredEvidence := evidence);
    if s.Valid() {
      ReplacedKeepsWellFormed(s.Snapshot(), id, t);
    }
    s.types := s.types[id := t];
    r := Ok(());
  }

  /**
   * `assign_authority_to_cert_type`: an authority already listed is refused;
   * otherwise it is pushed to the front of the record's authority list.
   */
  method AssignAuthorityToCertType(s: CatalogStore, id: string, authorityId: string) returns (r: Result<()>)
    modifies s`types
    ensures Editable(old(s.types), id).Err? ==> r == Err(Editable(old(s.types), id).error) && s.types == old(s.types)
    ensures Editable(old(s.types), id).Ok? ==>
      var t := old(s.types)[id];
      && (authorityId in t.authorities ==> r == Err(AlreadyExists) && s.types == old(s.types))
      && (authorityId !in t.authorities ==>
            r == Ok(()) && s.types == old(s.types)[id := t.(authorities := [authorityId] + t.authorities)])
    ensures DeprecatedStay(old(s.types), s.types)
    ensures old(s.Valid()) ==> s.Valid()
  {
    var t;
    match Editable(s.types, id)
    case Err(e) => return Err(e);
    case Ok(found) => t := found;
    var listed := LinearContains(t.authorities, authorityId);
    if listed {
      return Err(AlreadyExists);
    }
    if s.Valid() {
      NoDuplicatesCons(authorityId, t.authorities);
      ReplacedKeepsWellFormed(s.Snapshot(), id, t.(authorities := [authorityId] + t.authorities));
    }
    s.types := s.types[id := t.(authorities := [authorityId] + t.authorities)];
    r := Ok(());
  }

  /**
   * The third and later registrations share `CERT_TYPE_C`: a deprecated
   * `CERT_TYPE_C` record is replaced by a fresh active one.
   */
  lemma RegistrationRevivesDeprecated(c: Contents, t: CertificationType)
    requires Counter(c) >= 2 && "CERT_TYPE_C" in c.types && c.types["CERT_TYPE_C"].status == Deprecated
    requires t == New(IdFor(Counter(c)), t.name, t.version, t.description, t.industryScope, t.validityPeriod)
    ensures !DeprecatedStay(c.types, c.types[t.certTypeId := t])
  {
    assert t.certTypeId == "CERT_TYPE_C";
  }
}
