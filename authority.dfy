/**
 * The authority registry: certifying authorities keyed by their public key,
 * the list of registered keys, and a counter that names the first ten
 * authorities `AUTH_1` to `AUTH_10` and refuses any further registration.
 */
module AuthorityRegistry {
  import opened Prims
  import opened Sequences

  datatype AuthorityStatus = Active | Inactive

  datatype Authority = Authority(
    authorityId: string,
    name: string,
    publicKey: Address,
    registrationDate: U64,
    accreditationInfo: string,
    allowedCertTypes: seq<string>,
    status: AuthorityStatus)

  /** The panics of the contract, one constructor per message. */
  datatype Error =
    | Unauthorized(who: Address)   // a failed `require_auth` of `who`
    | NameEmpty                    // "Name cannot be empty"
    | AccreditationInfoEmpty       // "Accreditation info cannot be empty"
    | CertTypesNotUnique           // "Certification types must be unique"
    | AlreadyExists                // "Authority with this public key already exists"
    | ZeroAuthorityId              // "Invalid authority ID: 0 not allowed"
    | AuthorityIdTooLarge(n: U32)  // "Authority ID too large: {}"
    | NotFound                     // "Authority not found"
    | CannotUpdateInactive         // "Cannot update inactive authority"
    | InvalidField                 // "Invalid field"
    | AlreadyInactive              // "Authority already inactive"
    | CannotModifyInactive         // "Cannot modify inactive authority"
    | CertTypeExists               // "Certification type already exists"
    | CertTypeNotFound             // "Certification type not found"

  datatype Result<T> = Ok(value: T) | Err(error: Error)

  /** The id string for counter value `n`: `AUTH_1` to `AUTH_10`; 0 and values above 10 fail. */
  function AuthorityIdFor(n: U32): (r: Result<string>)
    ensures r.Ok? <==> 1 <= n <= 10
    ensures n == 0 ==> r == Err(ZeroAuthorityId)
    ensures n > 10 ==> r == Err(AuthorityIdTooLarge(n))
    ensures r.Ok? ==> 6 <= |r.value| <= 7 && r.value[..5] == "AUTH_"
  {
    if n == 0 then Err(ZeroAuthorityId)
    else if n <= 10 then Ok("AUTH_" + Decimal(n))
    else Err(AuthorityIdTooLarge(n))
  }

  /** Distinct counter values name distinct authorities. */
  lemma AuthorityIdsDistinct(a: U32, b: U32)
    requires 1 <= a <= 10 && 1 <= b <= 10 && a != b
    ensures AuthorityIdFor(a).value != AuthorityIdFor(b).value
  {
    assert AuthorityIdFor(a).value[5..] == Decimal(a);
  }

  /** The contract's instance storage, as one value. */
  datatype Contents = Contents(
    authorities: map<Address, Authority>,
    authorityIds: seq<Address>,
    nextAuthorityId: Option<U32>)

  /** The counter, 1 when never written. */
  function NextId(c: Contents): U32 {
    match c.nextAuthorityId
    case None => 1
    case Some(n) => n
  }

  /**
   * What registration keeps true: each record sits under its own public key
   * with duplicate-free types, the key list holds each stored key once, in
   * registration order, the i-th registered authority is named after counter
   * value i + 1 (so there are at most ten), and the counter is one past the
   * number registered.
   */
  ghost predicate WellFormed(c: Contents) {
    && (forall k | k in c.authorities :: c.authorities[k].publicKey == k && NoDuplicates(c.authorities[k].allowedCertTypes))
    && NoDuplicates(c.authorityIds)
    && (forall k :: k in c.authorities <==> k in c.authorityIds)
    && NextId(c) == |c.authorityIds| + 1
    && forall i | 0 <= i < |c.authorityIds| ::
         && i < 10
         && c.authorityIds[i] in c.authorities
         && c.authorities[c.authorityIds[i]].authorityId == AuthorityIdFor(i + 1).value
  }

  /** The registry never holds more than ten authorities, and the counter never passes 11. */
  lemma RegistryCapped(c: Contents)
    requires WellFormed(c)
    ensures |c.authorityIds| <= 10 && NextId(c) <= 11
  {
    if |c.authorityIds| > 0 {
      var last := |c.authorityIds| - 1;
      assert c.authorityIds[last] in c.authorities;
    }
  }

  /** The first check `register_authority` fails, in the source's order. */
  function RegisterCheck(c: Contents, auth: set<Address>, name: string, publicKey: Address,
                         accreditationInfo: string, allowedCertTypes: seq<string>): Option<Error>
  {
    if publicKey !in auth then Some(Unauthorized(publicKey))
    else if |name| == 0 then Some(NameEmpty)
    else if |accreditationInfo| == 0 then Some(AccreditationInfoEmpty)
    else if !NoDuplicates(allowedCertTypes) then Some(CertTypesNotUnique)
    else if publicKey in c.authorities then Some(AlreadyExists)
    else if AuthorityIdFor(NextId(c)).Err? then Some(AuthorityIdFor(NextId(c)).error)
    else None
  }

  /** A registration that passes its checks had every input valid and a free key and id. */
  lemma RegisterCheckPasses(c: Contents, auth: set<Address>, name: string, publicKey: Address,
                            accreditationInfo: string, allowedCertTypes: seq<string>)
    requires RegisterCheck(c, auth, name, publicKey, accreditationInfo, allowedCertTypes) == None
    ensures publicKey in auth && |name| > 0 && |accreditationInfo| > 0 && NoDuplicates(allowedCertTypes)
    ensures publicKey !in c.authorities && 1 <= NextId(c) <= 10
  {
  }

  /** The storage after a successful registration. */
  function Registered(c: Contents, name: string, publicKey: Address, accreditationInfo: string,
                      allowedCertTypes: seq<string>, ledger: Ledger): Contents
    requires 1 <= NextId(c) <= 10
  {
    var n := NextId(c);
    Contents(
      c.authorities[publicKey := Authority(AuthorityIdFor(n).value, name, publicKey, ledger.timestamp,
                                           accreditationInfo, allowedCertTypes, Active)],
      c.authorityIds + [publicKey],
      Some(n + 1))
  }

  /** Registration keeps the registry well formed. */
  lemma RegisteredKeepsWellFormed(c: Contents, auth: set<Address>, name: string, publicKey: Address,
                                  accreditationInfo: string, allowedCertTypes: seq<string>, ledger: Ledger)
    requires WellFormed(c)
    requires RegisterCheck(c, auth, name, publicKey, accreditationInfo, allowedCertTypes) == None
    ensures WellFormed(Registered(c, name, publicKey, accreditationInfo, allowedCertTypes, ledger))
  {
    var after := Registered(c, name, publicKey, accreditationInfo, allowedCertTypes, ledger);
    NoDuplicatesSnoc(c.authorityIds, publicKey);
    forall i | 0 <= i < |after.authorityIds|
      ensures after.authorityIds[i] in after.authorities
      ensures after.authorities[after.authorityIds[i]].authorityId == AuthorityIdFor(i + 1).value
    {
      if i < |c.authorityIds| {
        assert after.authorityIds[i] == c.authorityIds[i];
        assert c.authorityIds[i] != publicKey;
      }
    }
  }

  /** A record's status, type list or descriptive fields may change; its identity may not. */
  predicate SameIdentity(a: Authority, b: Authority) {
    a.authorityId == b.authorityId && a.publicKey == b.publicKey && a.registrationDate == b.registrationDate
  }

  /** Replacing a record by one with the same id keeps the i-th listed key named after counter value i + 1. */
  lemma ReplacedKeepsIds(c: Contents, key: Address, a: Authority)
    requires WellFormed(c) && key in c.authorities && c.authorities[key].authorityId == a.authorityId
    ensures forall i | 0 <= i < |c.authorityIds| ::
      c.authorityIds[i] in c.authorities[key := a] && c.authorities[key := a][c.authorityIds[i]].authorityId == AuthorityIdFor(i + 1).value
  {
    forall i | 0 <= i < |c.authorityIds|
      ensures c.authorities[key := a][c.authorityIds[i]].authorityId == c.authorities[c.authorityIds[i]].authorityId
    {
    }
  }

  /** Replacing one stored record by one of the same identity with duplicate-free types keeps the registry well formed. */
  lemma ReplacedKeepsWellFormed(c: Contents, key: Address, a: Authority)
    requires WellFormed(c) && key in c.authorities
    requires SameIdentity(c.authorities[key], a) && NoDuplicates(a.allowedCertTypes)
    ensures WellFormed(c.(authorities := c.authorities[key := a]))
  {
    var m := c.authorities[key := a];
    forall k | k in m
      ensures m[k].publicKey == k && NoDuplicates(m[k].allowedCertTypes)
    {
      if k != key {
        assert m[k] == c.authorities[k];
      }
    }
    forall k
      ensures k in m <==> k in c.authorityIds
    {
      assert k in m <==> k in c.authorities;
    }
    ReplacedKeepsIds(c, key, a);
  }

  class AuthorityStore {
    var authorities: map<Address, Authority>
    var authorityIds: seq<Address>
    var nextAuthorityId: Option<U32>

    /** A freshly deployed contract: nothing registered, counter unset. */
    constructor ()
      ensures authorities == map[] && authorityIds == [] && nextAuthorityId == None
      ensures Valid()
    {
      authorities := map[];
      authorityIds := [];
      nextAuthorityId := None;
    }

    function Snapshot(): Contents
      reads this
    {
      Contents(authorities, authorityIds, nextAuthorityId)
    }

    ghost predicate Valid()
      reads this
    {
      WellFormed(Snapshot())
    }
  }

  /** The dedupe loop of `register_authority`: each type is checked against the ones already seen. */
  method AllUnique(allowedCertTypes: seq<string>) returns (unique: bool)
    ensures unique == NoDuplicates(allowedCertTypes)
  {
    var seen: seq<string> := [];
    var i := 0;
    while i < |allowedCertTypes|
      invariant 0 <= i <= |allowedCertTypes|
      invariant seen == allowedCertTypes[..i]
      invariant NoDuplicates(seen)
    {
      var certType := allowedCertTypes[i];
      NoDuplicatesSnoc(seen, certType);
      var duplicate := LinearContains(seen, certType);
      if duplicate {
        assert allowedCertTypes[..i + 1] == seen + [certType];
        assert !NoDuplicates(allowedCertTypes[..i + 1]);
        assert forall p, q | 0 <= p < q < i + 1 :: allowedCertTypes[..i + 1][p] == allowedCertTypes[p] && allowedCertTypes[..i + 1][q] == allowedCertTypes[q];
        return false;
      }
      seen := seen + [certType];
      assert seen == allowedCertTypes[..i + 1];
      i := i + 1;
    }
    assert seen == allowedCertTypes;
    return true;
  }

  /**
   * `register_authority`: the key's authorization, then the input checks in
   * order, then the counter; the new record is `Active`, stamped with the
   * ledger time and appended to the key list.
   */
  method RegisterAuthority(r: AuthorityStore, auth: set<Address>, ledger: Ledger, name: string, publicKey: Address,
                           accreditationInfo: string, allowedCertTypes: seq<string>) returns (res: Result<string>)
    modifies r
    ensures var check := RegisterCheck(old(r.Snapshot()), auth, name, publicKey, accreditationInfo, allowedCertTypes);
      && (check.Some? ==> res == Err(check.value) && r.Snapshot() == old(r.Snapshot()))
      && (check.None? ==>
            && res == Ok(AuthorityIdFor(NextId(old(r.Snapshot()))).value)
            && r.Snapshot() == Registered(old(r.Snapshot()), name, publicKey, accreditationInfo, allowedCertTypes, ledger))
    ensures old(r.Valid()) ==> r.Valid()
  {
    if publicKey !in auth {
      return Err(Unauthorized(publicKey));
    }
    if |name| == 0 {
      return Err(NameEmpty);
    }
    if |accreditationInfo| == 0 {
      return Err(AccreditationInfoEmpty);
    }
    var unique := AllUnique(allowedCertTypes);
    if !unique {
      return Err(CertTypesNotUnique);
    }
    if publicKey in r.authorities {
      return Err(AlreadyExists);
    }
    var n := NextId(r.Snapshot());
    var id := AuthorityIdFor(n);
    if id.Err? {
      return Err(id.error);
    }
    if r.Valid() {
      RegisteredKeepsWellFormed(r.Snapshot(), auth, name, publicKey, accreditationInfo, allowedCertTypes, ledger);
    }
    r.nextAuthorityId := Some(n + 1);
    r.authorities := r.authorities[publicKey := Authority(id.value, name, publicKey, ledger.timestamp,
                                                          accreditationInfo, allowedCertTypes, Active)];
    r.authorityIds := r.authorityIds + [publicKey];
    res := Ok(id.value);
  }

  /**
   * `update_authority_info`: the authority authorizes; it must exist and be
   * active; only `name` and `accreditation_info` may be set.
   */
  method UpdateAuthorityInfo(r: AuthorityStore, auth: set<Address>, authorityId: Address, field: string, value: string)
    returns (res: Result<()>)
    modifies r`authorities
    ensures authorityId !in auth ==> res == Err(Unauthorized(authorityId)) && r.authorities == old(r.authorities)
    ensures authorityId in auth && authorityId !in old(r.authorities) ==> res == Err(NotFound) && r.authorities == old(r.authorities)
    ensures authorityId in auth && authorityId in old(r.authorities) ==>
      var a := old(r.authorities)[authorityId];
      && (a.status != Active ==> res == Err(CannotUpdateInactive) && r.authorities == old(r.authorities))
      && (a.status == Active && field == "name" ==> res == Ok(()) && r.authorities == old(r.authorities)[authorityId := a.(name := value)])
      && (a.status == Active && field == "accreditation_info" ==>
            res == Ok(()) && r.authorities == old(r.authorities)[authorityId := a.(accreditationInfo := value)])
      && (a.status == Active && field != "name" && field != "accreditation_info" ==>
            res == Err(InvalidField) && r.authorities == old(r.authorities))
    ensures old(r.Valid()) ==> r.Valid()
  {
    if authorityId !in auth {
      return Err(Unauthorized(authorityId));
    }
    if authorityId !in r.authorities {
      return Err(NotFound);
    }
    var authority := r.authorities[authorityId];
    if authority.status != Active {
      return Err(CannotUpdateInactive);
    }
    if field == "name" {
      authority := authority.(name := value);
    } else if field == "accreditation_info" {
      authority := authority.(accreditationInfo := value);
    } else {
      return Err(InvalidField);
    }
    if r.Valid() {
      ReplacedKeepsWellFormed(r.Snapshot(), authorityId, authority);
    }
    r.authorities := r.authorities[authorityId := authority];
    res := Ok(());
  }

  /** `verify_authority`: registered and active. */
  function VerifyAuthority(r: AuthorityStore, authorityId: Address): (b: bool)
    reads r
    ensures b ==> authorityId in r.authorities && GetAuthority(r, authorityId) == Ok(r.authorities[authorityId])
    ensures b <==> GetAuthority(r, authorityId).Ok? && GetAuthority(r, authorityId).value.status == Active
  {
    authorityId in r.authorities && r.authorities[authorityId].status == Active
  }

  /** `get_authority`: the stored record; an unknown key fails. */
  function GetAuthority(r: AuthorityStore, authorityId: Address): (res: Result<Authority>)
    reads r
    ensures res.Ok? <==> authorityId in r.authorities
    ensures res.Err? ==> res.error == NotFound
    ensures res.Ok? ==> res.value == r.authorities[authorityId]
    ensures r.Valid() && res.Ok? ==> res.value.publicKey == authorityId && NoDuplicates(res.value.allowedCertTypes)
  {
    if authorityId in r.authorities then Ok(r.authorities[authorityId]) else Err(NotFound)
  }

  /**
   * `deactivate_authority`: the authority authorizes; it must exist and be
   * active. The record stays stored, so its key can never register again.
   */
  method DeactivateAuthority(r: AuthorityStore, auth: set<Address>, authorityId: Address) returns (res: Result<()>)
    modifies r`authorities
    ensures authorityId !in auth ==> res == Err(Unauthorized(authorityId)) && r.authorities == old(r.authorities)
    ensures authorityId in auth && authorityId !in old(r.authorities) ==> res == Err(NotFound) && r.authorities == old(r.authorities)
    ensures authorityId in auth && authorityId in old(r.authorities) ==>
      var a := old(r.authorities)[authorityId];
      && (a.status == Inactive ==> res == Err(AlreadyInactive) && r.authorities == old(r.authorities))
      && (a.status == Active ==> res == Ok(()) && r.authorities == old(r.authorities)[authorityId := a.(status := Inactive)])
    ensures res.Ok? ==> !VerifyAuthority(r, authorityId) && authorityId in r.authorities
    ensures r.authorities.Keys == old(r.authorities.Keys)
    ensures old(r.Valid()) ==> r.Valid()
  {
    if authorityId !in auth {
      return Err(Unauthorized(authorityId));
    }
    if authorityId !in r.authorities {
      return Err(NotFound);
    }
    var authority := r.authorities[authorityId];
    if authority.status == Inactive {
      return Err(AlreadyInactive);
    }
    authority := authority.(status := Inactive);
    if r.Valid() {
      ReplacedKeepsWellFormed(r.Snapshot(), authorityId, authority);
    }
    r.authorities := r.authorities[authorityId := authority];
    res := Ok(());
  }

  /** A deactivated key is refused by every later registration. */
  lemma InactiveKeyCannotRegister(c: Contents, auth: set<Address>, name: string, publicKey: Address,
                                  accreditationInfo: string, allowedCertTypes: seq<string>)
    requires publicKey in c.authorities && c.authorities[publicKey].status == Inactive
    ensures RegisterCheck(c, auth, name, publicKey, accreditationInfo, allowedCertTypes).Some?
  {
  }

  /** `add_certification_type`: the authority authorizes; active only; a listed type is refused; otherwise appended. */
  method AddCertificationType(r: AuthorityStore, auth: set<Address>, authorityId: Address, certType: string)
    returns (res: Result<()>)
    modifies r`authorities
    ensures authorityId !in auth ==> res == Err(Unauthorized(authorityId)) && r.authorities == old(r.authorities)
    ensures authorityId in auth && authorityId !in old(r.authorities) ==> res == Err(NotFound) && r.authorities == old(r.authorities)
    ensures authorityId in auth && authorityId in old(r.authorities) ==>
      var a := old(r.authorities)[authorityId];
      && (a.status != Active ==> res == Err(CannotModifyInactive) && r.authorities == old(r.authorities))
      && (a.status == Active && certType in a.allowedCertTypes ==> res == Err(CertTypeExists) && r.authorities == old(r.authorities))
      && (a.status == Active && certType !in a.allowedCertTypes ==>
            res == Ok(()) && r.authorities == old(r.authorities)[authorityId := a.(allowedCertTypes := a.allowedCertTypes + [certType])])
    ensures old(r.Valid()) ==> r.Valid()
  {
    if authorityId !in auth {
      return Err(Unauthorized(authorityId));
    }
    if authorityId !in r.authorities {
      return Err(NotFound);
    }
    var authority := r.authorities[authorityId];
    if authority.status != Active {
      return Err(CannotModifyInactive);
    }
    var listed := LinearContains(authority.allowedCertTypes, certType);
    if listed {
      return Err(CertTypeExists);
    }
    NoDuplicatesSnoc(authority.allowedCertTypes, certType);
    authority := authority.(allowedCertTypes := authority.allowedCertTypes + [certType]);
    if r.Valid() {
      ReplacedKeepsWellFormed(r.Snapshot(), authorityId, authority);
    }
    r.authorities := r.authorities[authorityId := authority];
    res := Ok(());
  }

  /**
   * `remove_certification_type`: the authority authorizes; active only; the
   * type list is rebuilt without the type, and an absent type is refused.
   */
  method RemoveCertificationType(r: AuthorityStore, auth: set<Address>, authorityId: Address, certType: string)
    returns (res: Result<()>)
    modifies r`authorities
    ensures authorityId !in auth ==> res == Err(Unauthorized(authorityId)) && r.authorities == old(r.authorities)
    ensures authorityId in auth && authorityId !in old(r.authorities) ==> res == Err(NotFound) && r.authorities == old(r.authorities)
    ensures authorityId in auth && authorityId in old(r.authorities) ==>
      var a := old(r.authorities)[authorityId];
      && (a.status != Active ==> res == Err(CannotModifyInactive) && r.authorities == old(r.authorities))
      && (a.status == Active && certType !in a.allowedCertTypes ==> res == Err(CertTypeNotFound) && r.authorities == old(r.authorities))
      && (a.status == Active && certType in a.allowedCertTypes ==>
            res == Ok(()) && r.authorities == old(r.authorities)[authorityId := a.(allowedCertTypes := Without(a.allowedCertTypes, certType))])
    ensures res.Ok? ==> certType !in r.authorities[authorityId].allowedCertTypes
    ensures old(r.Valid()) ==> r.Valid()
  {
    if authorityId !in auth {
      return Err(Unauthorized(authorityId));
    }
    if authorityId !in r.authorities {
      return Err(NotFound);
    }
    var authority := r.authorities[authorityId];
    if authority.status != Active {
      return Err(CannotModifyInactive);
    }
    var newCertTypes, found := FilterOut(authority.allowedCertTypes, certType);
    if !found {
      return Err(CertTypeNotFound);
    }
    WithoutMembers(authority.allowedCertTypes, certType);
    if NoDuplicates(authority.allowedCertTypes) {
      WithoutKeepsNoDuplicates(authority.allowedCertTypes, certType);
    }
    authority := authority.(allowedCertTypes := newCertTypes);
    if r.Valid() {
      ReplacedKeepsWellFormed(r.Snapshot(), authorityId, authority);
    }
    r.authorities := r.authorities[authorityId := authority];
    res := Ok(());
  }
}
