/**
 * Access control of the certification-issuance contract: one admin, a list
 * of issuers, and the admin-only revocation of a certificate.
 *
 * `require_auth` is a check against `auth`, the set of addresses that
 * authorised the current invocation. A failed check aborts the invocation;
 * the model returns `Err` and writes nothing.
 */
module AccessControl {
  import opened Prims
  import opened Sequences
  import opened CertStore

  /** The issuer relation: the admin is always an issuer, as is every listed address. */
  predicate IsIssuerIn(admin: Option<Address>, issuers: seq<Address>, a: Address) {
    admin == Some(a) || a in issuers
  }

  /** Revoked records stay revoked: every revoked slot still holds a revoked record. */
  predicate RevokedStay(before: map<Byte, Certificate>, after: map<Byte, Certificate>) {
    forall k | k in before && before[k].revoked :: k in after && after[k].revoked
  }

  /** `initialize`: refused once an admin is stored; no authorization is asked for. */
  method Initialize(s: CertificationStorage, admin: Address) returns (r: Result<()>)
    modifies s`admin, s`issuers
    ensures old(s.admin).Some? ==> r == Err(AlreadyInitialized) && s.admin == old(s.admin) && s.issuers == old(s.issuers)
    ensures old(s.admin).None? ==> r == Ok(()) && s.admin == Some(admin) && s.issuers == []
  {
    if s.admin.Some? {
      return Err(AlreadyInitialized);
    }
    s.admin := Some(admin);
    s.issuers := [];
    r := Ok(());
  }

  /** `get_admin`: fails exactly when no admin is stored. */
  function GetAdmin(s: CertificationStorage): (r: Result<Address>)
    reads s
    ensures r.Ok? <==> s.admin.Some?
    ensures r.Ok? ==> s.admin == Some(r.value)
    ensures r.Err? ==> r.error == NotInitialized
  {
    match s.admin
    case None => Err(NotInitialized)
    case Some(a) => Ok(a)
  }

  /**
   * `require_issuer`: demands the ADMIN's authorization and returns the
   * admin. A listed issuer is never returned, and the issuer list is not read.
   */
  function RequireIssuer(s: CertificationStorage, auth: set<Address>): (r: Result<Address>)
    reads s
    ensures r.Ok? <==> s.admin.Some? && s.admin.value in auth
    ensures r.Ok? ==> s.admin == Some(r.value)
    ensures s.admin.None? ==> r == Err(NotInitialized)
    ensures s.admin.Some? && s.admin.value !in auth ==> r == Err(Unauthorized(s.admin.value))
  {
    match GetAdmin(s)
    case Err(e) => Err(e)
    case Ok(a) => if a in auth then Ok(a) else Err(Unauthorized(a))
  }

  /** `is_issuer`: the admin check first, then a scan of the issuer list. */
  method IsIssuer(s: CertificationStorage, a: Address) returns (b: bool)
    ensures b == IsIssuerIn(s.admin, s.issuers, a)
    ensures b <==> s.admin == Some(a) || exists i :: 0 <= i < |s.issuers| && s.issuers[i] == a
  {
    if s.admin == Some(a) {
      return true;
    }
    b := LinearContains(s.issuers, a);
  }

  /**
   * `transfer_admin`: the current admin authorizes, the new admin replaces
   * it. The issuer list is untouched, so the old admin keeps issuer rights
   * only when it is listed there (or is the new admin).
   */
  method TransferAdmin(s: CertificationStorage, auth: set<Address>, newAdmin: Address) returns (r: Result<bool>)
    modifies s`admin
    ensures old(s.admin).None? ==> r == Err(NotInitialized) && s.admin == old(s.admin)
    ensures old(s.admin).Some? && old(s.admin).value !in auth ==> r == Err(Unauthorized(old(s.admin).value)) && s.admin == old(s.admin)
    ensures old(s.admin).Some? && old(s.admin).value in auth ==> r == Ok(true) && s.admin == Some(newAdmin)
    ensures r.Ok? ==> (IsIssuerIn(s.admin, s.issuers, old(s.admin).value) <==> old(s.admin).value == newAdmin || old(s.admin).value in s.issuers)
  {
    match GetAdmin(s)
    case Err(e) => return Err(e);
    case Ok(admin) =>
      if admin !in auth {
        return Err(Unauthorized(admin));
      }
      s.admin := Some(newAdmin);
      r := Ok(true);
  }

  /**
   * `add_issuer`: admin-only; an address already listed gives `false` and no
   * write, any other is appended at the back.
   */
  method AddIssuer(s: CertificationStorage, auth: set<Address>, issuer: Address) returns (r: Result<bool>)
    modifies s`issuers
    ensures RequireIssuer(s, auth).Err? ==> r == Err(RequireIssuer(s, auth).error) && s.issuers == old(s.issuers)
    ensures RequireIssuer(s, auth).Ok? && issuer in old(s.issuers) ==> r == Ok(false) && s.issuers == old(s.issuers)
    ensures RequireIssuer(s, auth).Ok? && issuer !in old(s.issuers) ==> r == Ok(true) && s.issuers == old(s.issuers) + [issuer]
    ensures NoDuplicates(old(s.issuers)) ==> NoDuplicates(s.issuers)
  {
    match RequireIssuer(s, auth)
    case Err(e) => return Err(e);
    case Ok(_) =>
      var listed := LinearContains(s.issuers, issuer);
      if listed {
        return Ok(false);
      }
      NoDuplicatesSnoc(s.issuers, issuer);
      s.issuers := s.issuers + [issuer];
      r := Ok(true);
  }

  /**
   * `remove_issuer`: admin-only; the list is rebuilt without every entry
   * equal to `issuer`, the others in their order. An absent address gives
   * `false` and no write.
   */
  method RemoveIssuer(s: CertificationStorage, auth: set<Address>, issuer: Address) returns (r: Result<bool>)
    modifies s`issuers
    ensures RequireIssuer(s, auth).Err? ==> r == Err(RequireIssuer(s, auth).error) && s.issuers == old(s.issuers)
    ensures RequireIssuer(s, auth).Ok? && issuer !in old(s.issuers) ==> r == Ok(false) && s.issuers == old(s.issuers)
    ensures RequireIssuer(s, auth).Ok? && issuer in old(s.issuers) ==> r == Ok(true) && s.issuers == Without(old(s.issuers), issuer)
    ensures r == Ok(true) ==> issuer !in s.issuers && forall a :: a != issuer ==> (a in s.issuers <==> a in old(s.issuers))
  {
    WithoutMembers(s.issuers, issuer);
    match RequireIssuer(s, auth)
    case Err(e) => return Err(e);
    case Ok(_) =>
      var kept, found := FilterOut(s.issuers, issuer);
      if !found {
        return Ok(false);
      }
      s.issuers := kept;
      r := Ok(true);
  }

  /**
   * `revoke_certificate`: admin-only; the record in the id's slot has its
   * `revoked` flag set. An empty slot fails, an already revoked record gives
   * `false` and no write. Nothing but the flag changes, and no revoked slot
   * is un-revoked.
   */
  method RevokeCertificate(s: CertificationStorage, auth: set<Address>, id: CertificateId) returns (r: Result<bool>)
    modifies s`certificates
    ensures var k := CertificateKey(s.host, id);
      && (RequireIssuer(s, auth).Err? ==> r == Err(RequireIssuer(s, auth).error) && s.certificates == old(s.certificates))
      && (RequireIssuer(s, auth).Ok? && k !in old(s.certificates) ==> r == Err(CertificateNotFound) && s.certificates == old(s.certificates))
      && (RequireIssuer(s, auth).Ok? && k in old(s.certificates) && old(s.certificates)[k].revoked ==>
            r == Ok(false) && s.certificates == old(s.certificates))
      && (RequireIssuer(s, auth).Ok? && k in old(s.certificates) && !old(s.certificates)[k].revoked ==>
            r == Ok(true) && s.certificates == old(s.certificates)[k := old(s.certificates)[k].(revoked := true)])
    ensures RevokedStay(old(s.certificates), s.certificates)
    ensures s.certificates.Keys == old(s.certificates.Keys)
  {
    match RequireIssuer(s, auth)
    case Err(e) => return Err(e);
    case Ok(_) =>
      var k := CertificateKey(s.host, id);
      if k !in s.certificates {
        return Err(CertificateNotFound);
      }
      var certificate := s.certificates[k];
      if certificate.revoked {
        return Ok(false);
      }
      s.certificates := s.certificates[k := certificate.(revoked := true)];
      r := Ok(true);
  }
}
