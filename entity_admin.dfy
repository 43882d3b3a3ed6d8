/**
 * Administration of the entity contract: initialization (the entry point's
 * "already initialized" guard followed by the admin module's setup), the
 * admin lookup, the admin check and the admin transfer.
 */
module EntityAdmin {
  import opened Prims
  import opened EntityRegistry

  /**
   * `initialize`: refused once an admin is stored; otherwise the admin
   * authorizes and the key list, the counter and the admin are written. The
   * key list and counter are reset even if entities were registered before.
   */
  method Initialize(s: EntityStore, auth: set<Address>, admin: Address) returns (res: Result<()>)
    modifies s`admin, s`entityIds, s`nextEntityId
    ensures old(s.admin).Some? ==> res == Err(AlreadyInitialized) && s.Snapshot() == old(s.Snapshot()) && s.admin == old(s.admin)
    ensures old(s.admin).None? && admin !in auth ==> res == Err(Unauthorized(admin)) && s.Snapshot() == old(s.Snapshot()) && s.admin == old(s.admin)
    ensures old(s.admin).None? && admin in auth ==>
      && res == Ok(())
      && s.admin == Some(admin) && s.entityIds == [] && s.nextEntityId == Some(1)
      && s.entities == old(s.entities)
    ensures old(s.entities) == map[] ==> (old(s.Valid()) ==> s.Valid())
  {
    if s.admin.Some? {
      return Err(AlreadyInitialized);
    }
    if admin !in auth {
      return Err(Unauthorized(admin));
    }
    s.entityIds := [];
    s.nextEntityId := Some(1);
    s.admin := Some(admin);
    res := Ok(());
  }

  /**
   * Initializing after a registration breaks the registry: the key list is
   * emptied while the record stays, so the stored keys and the listed keys
   * no longer agree and the counter names the next entity `ENT_1` again.
   */
  lemma InitializeAfterRegistrationResets(c: Contents, key: Address)
    requires WellFormed(c) && key in c.entities
    ensures !WellFormed(c.(entityIds := [], nextEntityId := Some(1)))
    ensures EntityIdFor(NextId(c.(entityIds := [], nextEntityId := Some(1)))) == Ok("ENT_1")
  {
    var reset := c.(entityIds := [], nextEntityId := Some(1));
    assert key in reset.entities && key !in reset.entityIds;
    assert NextId(reset) == 1;
    assert Decimal(1) == "1";
    assert "ENT_" + "1" == "ENT_1";
  }

  /** `get_admin`: the stored admin; fails before initialization. */
  function GetAdmin(s: EntityStore): (res: Result<Address>)
    reads s
    ensures res.Ok? <==> s.admin.Some?
    ensures res.Ok? ==> s.admin == Some(res.value)
    ensures res.Err? ==> res.error == AdminNotSet
  {
    match s.admin
    case None => Err(AdminNotSet)
    case Some(a) => Ok(a)
  }

  /** `is_admin`: the address is the stored admin; fails before initialization. */
  function IsAdmin(s: EntityStore, address: Address): (res: Result<bool>)
    reads s
    ensures res.Err? <==> s.admin.None?
    ensures res.Err? ==> res.error == AdminNotSet
    ensures res.Ok? ==> (res.value <==> s.admin == Some(address))
  {
    match GetAdmin(s)
    case Err(e) => Err(e)
    case Ok(a) => Ok(a == address)
  }

  /** `require_admin`: the address authorizes first, then it must be the admin. */
  function RequireAdmin(s: EntityStore, auth: set<Address>, address: Address): (res: Result<()>)
    reads s
    ensures res.Ok? <==> address in auth && s.admin == Some(address)
    ensures address !in auth ==> res == Err(Unauthorized(address))
    ensures address in auth && s.admin.None? ==> res == Err(AdminNotSet)
    ensures address in auth && s.admin.Some? && s.admin.value != address ==> res == Err(NotAdmin)
  {
    if address !in auth then Err(Unauthorized(address))
    else
      match IsAdmin(s, address)
      case Err(e) => Err(e)
      case Ok(isAdmin) => if !isAdmin then Err(NotAdmin) else Ok(())
  }

  /** `transfer_admin`: `current_admin` must pass `require_admin`; then the admin is overwritten. */
  method TransferAdmin(s: EntityStore, auth: set<Address>, currentAdmin: Address, newAdmin: Address) returns (res: Result<()>)
    modifies s`admin
    ensures old(RequireAdmin(s, auth, currentAdmin)).Err? ==>
      res == old(RequireAdmin(s, auth, currentAdmin)) && s.admin == old(s.admin)
    ensures old(s.admin) == Some(currentAdmin) && currentAdmin in auth ==> res == Ok(()) && s.admin == Some(newAdmin)
    ensures res.Ok? ==> old(s.admin) == Some(currentAdmin) && s.admin == Some(newAdmin)
  {
    var check := RequireAdmin(s, auth, currentAdmin);
    if check.Err? {
      return check;
    }
    s.admin := Some(newAdmin);
    res := Ok(());
  }
}
