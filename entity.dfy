/**
 * The entity registry: certifiable organisations keyed by their public key,
 * the list of registered keys, a counter that names the first ten entities
 * `ENT_1` to `ENT_10`, and each entity's list of associated certification
 * ids. The contract's admin lives in the same instance storage.
 */
module EntityRegistry {
  import opened Prims
  import opened Sequences

  datatype EntityStatus = Active | Inactive

  datatype Entity = Entity(
    entityId: string,
    name: string,
    publicKey: Address,
    registrationDate: U64,
    industrySector: string,
    location: string,
    contactInfo: string,
    status: EntityStatus,
    certifications: seq<string>)

  /** The panics of the contract, one constructor per message. */
  datatype Error =
    | Unauthorized(who: Address)      // a failed `require_auth` of `who`
    | NameEmpty                       // "Name cannot be empty"
    | IndustrySectorEmpty             // "Industry sector cannot be empty"
    | LocationEmpty                   // "Location cannot be empty"
    | ContactInfoEmpty                // "Contact info cannot be empty"
    | AlreadyExists                   // "Entity with this public key already exists"
    | ZeroEntityId                    // "Invalid entity ID: 0 not allowed"
    | EntityIdTooLarge(n: U32)        // "Entity ID too large: {}"
    | NotFound                        // "Entity not found"
    | CannotUpdateInactive            // "Cannot update inactive entity"
    | InvalidField                    // "Invalid field"
    | AlreadyInactive                 // "Entity already inactive"
    | CannotAddToInactive             // "Cannot add certification to inactive entity"
    | CertificationAlreadyAssociated  // "Certification already associated with this entity"
    | AlreadyInitialized              // "Contract already initialized"
    | AdminNotSet                     // "Admin not set"
    | NotAdmin                        // "Caller is not the admin"

  datatype Result<T> = Ok(value: T) | Err(error: Error)

  /** The id string for counter value `n`: `ENT_1` to `ENT_10`; 0 and values above 10 fail. */
  function EntityIdFor(n: U32): (r: Result<string>)
    ensures r.Ok? <==> 1 <= n <= 10
    ensures n == 0 ==> r == Err(ZeroEntityId)
    ensures n > 10 ==> r == Err(EntityIdTooLarge(n))
    ensures r.Ok? ==> 5 <= |r.value| <= 6 && r.value[..4] == "ENT_"
  {
    if n == 0 then Err(ZeroEntityId)
    else if n <= 10 then Ok("ENT_" + Decimal(n))
    else Err(EntityIdTooLarge(n))
  }

  /** Distinct counter values name distinct entities. */
  lemma EntityIdsDistinct(a: U32, b: U32)
    requires 1 <= a <= 10 && 1 <= b <= 10 && a != b
    ensures EntityIdFor(a).value != EntityIdFor(b).value
  {
    assert EntityIdFor(a).value[4..] == Decimal(a);
  }

  /** The registry part of the instance storage, as one value. */
  datatype Contents = Contents(
    entities: map<Address, Entity>,
    entityIds: seq<Address>,
    nextEntityId: Option<U32>)

  /** The counter, 1 when never written. */
  function NextId(c: Contents): U32 {
    match c.nextEntityId
    case None => 1
    case Some(n) => n
  }

  /**
   * What registration keeps true: each record sits under its own public key
   * with non-empty descriptive fields and duplicate-free certifications, the
   * key list holds each stored key once, in registration order, the i-th
   * registered entity is named after counter value i + 1 (so there are at
   * most ten), and the counter is one past the number registered.
   */
  ghost predicate WellFormed(c: Contents) {
    && (forall k | k in c.entities ::
          && c.entities[k].publicKey == k
          && |c.entities[k].name| > 0 && |c.entities[k].industrySector| > 0
          && |c.entities[k].location| > 0 && |c.entities[k].contactInfo| > 0
          && NoDuplicates(c.entities[k].certifications))
    && NoDuplicates(c.entityIds)
    && (forall k :: k in c.entities <==> k in c.entityIds)
    && NextId(c) == |c.entityIds| + 1
    && forall i | 0 <= i < |c.entityIds| ::
         && i < 10
         && c.entityIds[i] in c.entities
         && c.entities[c.entityIds[i]].entityId == EntityIdFor(i + 1).value
  }

  /** The first check `register_entity` fails, in the source's order. */
  function RegisterCheck(c: Contents, auth: set<Address>, name: string, industrySector: string,
                         location: string, contactInfo: string, publicKey: Address): Option<Error>
  {
    if publicKey !in auth then Some(Unauthorized(publicKey))
    else if |name| == 0 then Some(NameEmpty)
    else if |industrySector| == 0 then Some(IndustrySectorEmpty)
    else if |location| == 0 then Some(LocationEmpty)
    else if |contactInfo| == 0 then Some(ContactInfoEmpty)
    else if publicKey in c.entities then Some(AlreadyExists)
    else if EntityIdFor(NextId(c)).Err? then Some(EntityIdFor(NextId(c)).error)
    else None
  }

  /** The storage after a successful registration: an active entity with no certifications. */
  function Registered(c: Contents, name: string, industrySector: string, location: string, contactInfo: string,
                      publicKey: Address, ledger: Ledger): Contents
    requires 1 <= NextId(c) <= 10
  {
    var n := NextId(c);
    Contents(
      c.entities[publicKey := Entity(EntityIdFor(n).value, name, publicKey, ledger.timestamp,
                                     industrySector, location, contactInfo, Active, [])],
      c.entityIds + [publicKey],
      Some(n + 1))
  }

  /** Registration keeps the registry well formed. */
  lemma RegisteredKeepsWellFormed(c: Contents, auth: set<Address>, name: string, industrySector: string,
                                  location: string, contactInfo: string, publicKey: Address, ledger: Ledger)
    requires WellFormed(c)
    requires RegisterCheck(c, auth, name, industrySector, location, contactInfo, publicKey) == None
    ensures WellFormed(Registered(c, name, industrySector, location, contactInfo, publicKey, ledger))
  {
    var after := Registered(c, name, industrySector, location, contactInfo, publicKey, ledger);
    NoDuplicatesSnoc(c.entityIds, publicKey);
    forall i | 0 <= i < |after.entityIds|
      ensures after.entityIds[i] in after.entities
      ensures after.entities[after.entityIds[i]].entityId == EntityIdFor(i + 1).value
    {
      if i < |c.entityIds| {
        assert after.entityIds[i] == c.entityIds[i];
        assert c.entityIds[i] != publicKey;
      }
    }
  }

  predicate SameIdentity(a: Entity, b: Entity) {
    a.entityId == b.entityId && a.publicKey == b.publicKey && a.registrationDate == b.registrationDate
  }

  /** Replacing a record by one with the same id keeps the i-th listed key named after counter value i + 1. */
  lemma ReplacedKeepsIds(c: Contents, key: Address, e: Entity)
    requires WellFormed(c) && key in c.entities && c.entities[key].entityId == e.entityId
    ensures forall i | 0 <= i < |c.entityIds| ::
      c.entityIds[i] in c.entities[key := e] && c.entities[key := e][c.entityIds[i]].entityId == EntityIdFor(i + 1).value
  {
    forall i | 0 <= i < |c.entityIds|
      ensures c.entities[key := e][c.entityIds[i]].entityId == c.entities[c.entityIds[i]].entityId
    {
    }
  }

  /** Replacing a stored record by a valid one of the same identity keeps the registry well formed. */
  lemma ReplacedKeepsWellFormed(c: Contents, key: Address, e: Entity)
    requires WellFormed(c) && key in c.entities
    requires SameIdentity(c.entities[key], e)
    requires |e.name| > 0 && |e.industrySector| > 0 && |e.location| > 0 && |e.contactInfo| > 0
    requires NoDuplicates(e.certifications)
    ensures WellFormed(c.(entities := c.entities[key := e]))
  {
    var m := c.entities[key := e];
    forall k | k in m
      ensures m[k].publicKey == k && |m[k].name| > 0 && |m[k].industrySector| > 0 && |m[k].location| > 0 && |m[k].contactInfo| > 0 && NoDuplicates(m[k].certifications)
    {
      if k != key {
        assert m[k] == c.entities[k];
      }
    }
    forall k
      ensures k in m <==> k in c.entityIds
    {
      assert k in m <==> k in c.entities;
    }
    ReplacedKeepsIds(c, key, e);
  }

  class EntityStore {
    var admin: Option<Address>
    var entities: map<Address, Entity>
    var entityIds: seq<Address>
    var nextEntityId: Option<U32>

    /** A freshly deployed contract: nothing stored. */
    constructor ()
      ensures admin == None && entities == map[] && entityIds == [] && nextEntityId == None
      ensures Valid()
    {
      admin := None;
      entities := map[];
      entityIds := [];
      nextEntityId := None;
    }

    function Snapshot(): Contents
      reads this
    {
      Contents(entities, entityIds, nextEntityId)
    }

    ghost predicate Valid()
      reads this
    {
      WellFormed(Snapshot())
    }
  }

  /**
   * `register_entity`: the key's authorization, then the four emptiness
   * checks in order, the free key and the counter; the new record is
   * `Active` with no certifications and is appended to the key list.
   */
  method RegisterEntity(s: EntityStore, auth: set<Address>, ledger: Ledger, name: string, industrySector: string,
                        location: string, contactInfo: string, publicKey: Address) returns (res: Result<string>)
    modifies s`entities, s`entityIds, s`nextEntityId
    ensures var check := RegisterCheck(old(s.Snapshot()), auth, name, industrySector, location, contactInfo, publicKey);
      && (check.Some? ==> res == Err(check.value) && s.Snapshot() == old(s.Snapshot()))
      && (check.None? ==>
            && res == Ok(EntityIdFor(NextId(old(s.Snapshot()))).value)
            && s.Snapshot() == Registered(old(s.Snapshot()), name, industrySector, location, contactInfo, publicKey, ledger))
    ensures old(s.Valid()) ==> s.Valid()
  {
    if publicKey !in auth {
      return Err(Unauthorized(publicKey));
    }
    if |name| == 0 {
      return Err(NameEmpty);
    }
    if |industrySector| == 0 {
      return Err(IndustrySectorEmpty);
    }
    if |location| == 0 {
      return Err(LocationEmpty);
    }
    if |contactInfo| == 0 {
      return Err(ContactInfoEmpty);
    }
    if publicKey in s.entities {
      return Err(AlreadyExists);
    }
    var n := NextId(s.Snapshot());
    var id := EntityIdFor(n);
    if id.Err? {
      return Err(id.error);
    }
    if s.Valid() {
      RegisteredKeepsWellFormed(s.Snapshot(), auth, name, industrySector, location, contactInfo, publicKey, ledger);
    }
    s.nextEntityId := Some(n + 1);
    s.entities := s.entities[publicKey := Entity(id.value, name, publicKey, ledger.timestamp,
                                                 industrySector, location, contactInfo, Active, [])];
    s.entityIds := s.entityIds + [publicKey];
    res := Ok(id.value);
  }

  /** The record with `field` set to `value`, when `field` is one of the four updatable names. */
  function WithField(e: Entity, field: string, value: string): Option<Entity> {
    if field == "name" then Some(e.(name := value))
    else if field == "industry_sector" then Some(e.(industrySector := value))
    else if field == "location" then Some(e.(location := value))
    else if field == "contact_info" then Some(e.(contactInfo := value))
    else None
  }

  /** The empty-value error for each updatable field. */
  function EmptyFieldError(field: string): Error {
    if field == "name" then NameEmpty
    else if field == "industry_sector" then IndustrySectorEmpty
    else if field == "location" then LocationEmpty
    else ContactInfoEmpty
  }

  /** An update changes exactly the named field and nothing else. */
  lemma WithFieldChangesOneField(e: Entity, field: string, value: string)
    requires WithField(e, field, value).Some?
    ensures var u := WithField(e, field, value).value;
      && SameIdentity(e, u) && u.status == e.status && u.certifications == e.certifications
      && (u.name == (if field == "name" then value else e.name))
      && (u.industrySector == (if field == "industry_sector" then value else e.industrySector))
      && (u.location == (if field == "location" then value else e.location))
      && (u.contactInfo == (if field == "contact_info" then value else e.contactInfo))
  {
  }

  /** Setting an updatable field to a non-empty value keeps the registry well formed. */
  lemma UpdatedKeepsWellFormed(c: Contents, key: Address, field: string, value: string)
    requires WellFormed(c) && key in c.entities
    requires WithField(c.entities[key], field, value).Some? && |value| > 0
    ensures WellFormed(c.(entities := c.entities[key := WithField(c.entities[key], field, value).value]))
  {
    WithFieldChangesOneField(c.entities[key], field, value);
    ReplacedKeepsWellFormed(c, key, WithField(c.entities[key], field, value).value);
  }

  /**
   * `update_entity_info`: the entity authorizes; it must exist and be
   * active; only the four named fields may be set, each to a non-empty value.
   */
  method UpdateEntityInfo(s: EntityStore, auth: set<Address>, entityId: Address, field: string, value: string)
    returns (res: Result<()>)
    modifies s`entities
    ensures entityId !in auth ==> res == Err(Unauthorized(entityId)) && s.entities == old(s.entities)
    ensures entityId in auth && entityId !in old(s.entities) ==> res == Err(NotFound) && s.entities == old(s.entities)
    ensures entityId in auth && entityId in old(s.entities) ==>
      var e := old(s.entities)[entityId];
      && (e.status != Active ==> res == Err(CannotUpdateInactive) && s.entities == old(s.entities))
      && (e.status == Active && WithField(e, field, value).None? ==> res == Err(InvalidField) && s.entities == old(s.entities))
      && (e.status == Active && WithField(e, field, value).Some? && |value| == 0 ==>
            res == Err(EmptyFieldError(field)) && s.entities == old(s.entities))
      && (e.status == Active && WithField(e, field, value).Some? && |value| > 0 ==>
            res == Ok(()) && s.entities == old(s.entities)[entityId := WithField(e, field, value).value])
    ensures old(s.Valid()) ==> s.Valid()
  {
    if entityId !in auth {
      return Err(Unauthorized(entityId));
    }
    if entityId !in s.entities {
      return Err(NotFound);
    }
    var entity := s.entities[entityId];
    if entity.status != Active {
      return Err(CannotUpdateInactive);
    }
    if field == "name" {
      if |value| == 0 {
        return Err(NameEmpty);
      }
      entity := entity.(name := value);
    } else if field == "industry_sector" {
      if |value| == 0 {
        return Err(IndustrySectorEmpty);
      }
      entity := entity.(industrySector := value);
    } else if field == "location" {
      if |value| == 0 {
        return Err(LocationEmpty);
      }
      entity := entity.(location := value);
    } else if field == "contact_info" {
      if |value| == 0 {
        return Err(ContactInfoEmpty);
      }
      entity := entity.(contactInfo := value);
    } else {
      return Err(InvalidField);
    }
    assert entity == WithField(s.entities[entityId], field, value).value;
    if s.Valid() {
      UpdatedKeepsWellFormed(s.Snapshot(), entityId, field, value);
    }
    s.entities := s.entities[entityId := entity];
    res := Ok(());
  }

  /** `get_entity`: the stored record; an unknown key fails. */
  function GetEntity(s: EntityStore, entityId: Address): (res: Result<Entity>)
    reads s
    ensures res.Ok? <==> entityId in s.entities
    ensures res.Err? ==> res.error == NotFound
    ensures res.Ok? ==> res.value == s.entities[entityId]
  {
    if entityId in s.entities then Ok(s.entities[entityId]) else Err(NotFound)
  }

  /** `verify_entity`: registered and active. */
  function VerifyEntity(s: EntityStore, entityId: Address): (b: bool)
    reads s
    ensures b <==> GetEntity(s, entityId).Ok? && GetEntity(s, entityId).value.status == Active
  {
    entityId in s.entities && s.entities[entityId].status == Active
  }

  /** `list_entity_certifications`: the stored list; an unknown key fails. */
  function ListEntityCertifications(s: EntityStore, entityId: Address): (res: Result<seq<string>>)
    reads s
    ensures res.Ok? <==> GetEntity(s, entityId).Ok?
    ensures res.Err? ==> res.error == NotFound
    ensures res.Ok? ==> res.value == GetEntity(s, entityId).value.certifications
    ensures s.Valid() && res.Ok? ==> NoDuplicates(res.value)
  {
    if entityId in s.entities then Ok(s.entities[entityId].certifications) else Err(NotFound)
  }

  /** `deactivate_entity`: the entity authorizes; it must exist and be active. The reason is not stored. */
  method DeactivateEntity(s: EntityStore, auth: set<Address>, entityId: Address, reason: string) returns (res: Result<()>)
    modifies s`entities
    ensures entityId !in auth ==> res == Err(Unauthorized(entityId)) && s.entities == old(s.entities)
    ensures entityId in auth && entityId !in old(s.entities) ==> res == Err(NotFound) && s.entities == old(s.entities)
    ensures entityId in auth && entityId in old(s.entities) ==>
      var e := old(s.entities)[entityId];
      && (e.status == Inactive ==> res == Err(AlreadyInactive) && s.entities == old(s.entities))
      && (e.status == Active ==> res == Ok(()) && s.entities == old(s.entities)[entityId := e.(status := Inactive)])
    ensures res.Ok? ==> !VerifyEntity(s, entityId)
    ensures s.entities.Keys == old(s.entities.Keys)
    ensures old(s.Valid()) ==> s.Valid()
  {
    if entityId !in auth {
      return Err(Unauthorized(entityId));
    }
    if entityId !in s.entities {
      return Err(NotFound);
    }
    var entity := s.entities[entityId];
    if entity.status == Inactive {
      return Err(AlreadyInactive);
    }
    entity := entity.(status := Inactive);
    if s.Valid() {
      ReplacedKeepsWellFormed(s.Snapshot(), entityId, entity);
    }
    s.entities := s.entities[entityId := entity];
    res := Ok(());
  }

  /**
   * `add_certification`: no authorization is asked for; the entity must
   * exist and be active, and an id already associated is refused.
   */
  method AddCertification(s: EntityStore, entityId: Address, certificationId: string) returns (res: Result<()>)
    modifies s`entities
    ensures entityId !in old(s.entities) ==> res == Err(NotFound) && s.entities == old(s.entities)
    ensures entityId in old(s.entities) ==>
      var e := old(s.entities)[entityId];
      && (e.status != Active ==> res == Err(CannotAddToInactive) && s.entities == old(s.entities))
      && (e.status == Active && certificationId in e.certifications ==>
            res == Err(CertificationAlreadyAssociated) && s.entities == old(s.entities))
      && (e.status == Active && certificationId !in e.certifications ==>
            res == Ok(()) && s.entities == old(s.entities)[entityId := e.(certifications := e.certifications + [certificationId])])
    ensures old(s.Valid()) ==> s.Valid()
  {
    if entityId !in s.entities {
      return Err(NotFound);
    }
    var entity := s.entities[entityId];
    if entity.status != Active {
      return Err(CannotAddToInactive);
    }
    var associated := LinearContains(entity.certifications, certificationId);
    if associated {
      return Err(CertificationAlreadyAssociated);
    }
    NoDuplicatesSnoc(entity.certifications, certificationId);
    entity := entity.(certifications := entity.certifications + [certificationId]);
    if s.Valid() {
      ReplacedKeepsWellFormed(s.Snapshot(), entityId, entity);
    }
    s.entities := s.entities[entityId := entity];
    res := Ok(());
  }
}
