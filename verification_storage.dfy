/**
 * Instance storage of the verification contract (the admin and the ids of
 * the certification and authority contracts) and its wrappers around the
 * calls into those contracts.
 */
module VerificationStorage {
  import opened Prims
  import opened VerificationTypes

  class VerificationStore {
    var admin: Option<Address>
    var authorityContractId: Option<Address>
    var certificationContractId: Option<Address>

    constructor ()
      ensures admin == None && authorityContractId == None && certificationContractId == None
    {
      admin := None;
      authorityContractId := None;
      certificationContractId := None;
    }

    /** `is_initialized`: an admin is stored. */
    predicate IsInitialized()
      reads this
    {
      admin.Some?
    }
  }

  /** `get_admin`: fails with `NotInitialized` exactly when no admin is stored. */
  function GetAdmin(s: VerificationStore): (r: Result<Address>)
    reads s
    ensures r.Ok? <==> s.IsInitialized()
    ensures r.Ok? ==> s.admin == Some(r.value)
    ensures r.Err? ==> r.error == NotInitialized
  {
    if !s.IsInitialized() then Err(NotInitialized) else Ok(s.admin.value)
  }

  /** `set_admin`: only while no admin is stored. */
  method SetAdmin(s: VerificationStore, admin: Address) returns (r: Result<()>)
    modifies s`admin
    ensures old(s.admin).Some? ==> r == Err(AlreadyInitialized) && s.admin == old(s.admin)
    ensures old(s.admin).None? ==> r == Ok(()) && s.admin == Some(admin)
  {
    if s.IsInitialized() {
      return Err(AlreadyInitialized);
    }
    s.admin := Some(admin);
    r := Ok(());
  }

  /** `get_authority_contract_id`: an unset reference fails with `ContractReferenceNotSet`. */
  function GetAuthorityContractId(s: VerificationStore): (r: Result<Address>)
    reads s
    ensures r.Ok? <==> s.authorityContractId.Some?
    ensures r.Ok? ==> s.authorityContractId == Some(r.value)
    ensures r.Err? ==> r.error == ContractReferenceNotSet
  {
    match s.authorityContractId
    case None => Err(ContractReferenceNotSet)
    case Some(id) => Ok(id)
  }

  /** `set_authority_contract_id`: unconditional overwrite. */
  method SetAuthorityContractId(s: VerificationStore, contractId: Address) returns (r: Result<()>)
    modifies s`authorityContractId
    ensures r == Ok(()) && s.authorityContractId == Some(contractId)
  {
    s.authorityContractId := Some(contractId);
    r := Ok(());
  }

  /** `get_certification_contract_id`: an unset reference fails with `ContractReferenceNotSet`. */
  function GetCertificationContractId(s: VerificationStore): (r: Result<Address>)
    reads s
    ensures r.Ok? <==> s.certificationContractId.Some?
    ensures r.Ok? ==> s.certificationContractId == Some(r.value)
    ensures r.Err? ==> r.error == ContractReferenceNotSet
  {
    match s.certificationContractId
    case None => Err(ContractReferenceNotSet)
    case Some(id) => Ok(id)
  }

  /** `set_certification_contract_id`: unconditional overwrite. */
  method SetCertificationContractId(s: VerificationStore, contractId: Address) returns (r: Result<()>)
    modifies s`certificationContractId
    ensures r == Ok(()) && s.certificationContractId == Some(contractId)
  {
    s.certificationContractId := Some(contractId);
    r := Ok(());
  }

  /** `get_certification`: a failed call becomes `CertificationNotFound`. */
  function GetCertification(s: VerificationStore, ext: External, certId: string): (r: Result<Certification>)
    reads s
    ensures s.certificationContractId.None? ==> r == Err(ContractReferenceNotSet)
    ensures s.certificationContractId.Some? ==>
      match ext.getCertification(s.certificationContractId.value, certId)
      case None => r == Err(CertificationNotFound)
      case Some(c) => r == Ok(c)
  {
    match GetCertificationContractId(s)
    case Err(e) => Err(e)
    case Ok(contract) =>
      match ext.getCertification(contract, certId)
      case None => Err(CertificationNotFound)
      case Some(c) => Ok(c)
  }

  /** `certification_exists`: a failed call becomes `ExternalContractError`. */
  function CertificationExists(s: VerificationStore, ext: External, certId: string): (r: Result<bool>)
    reads s
    ensures s.certificationContractId.None? ==> r == Err(ContractReferenceNotSet)
    ensures s.certificationContractId.Some? ==>
      match ext.certificationExists(s.certificationContractId.value, certId)
      case None => r == Err(ExternalContractError)
      case Some(b) => r == Ok(b)
  {
    match GetCertificationContractId(s)
    case Err(e) => Err(e)
    case Ok(contract) =>
      match ext.certificationExists(contract, certId)
      case None => Err(ExternalContractError)
      case Some(b) => Ok(b)
  }

  /** `get_authority_public_key`: one attempt; a failure becomes `InvalidAuthority`. */
  function GetAuthorityPublicKey(s: VerificationStore, ext: External, authorityId: Address): (r: Result<Hash32>)
    reads s
    ensures s.authorityContractId.None? ==> r == Err(ContractReferenceNotSet)
    ensures s.authorityContractId.Some? ==>
      match ext.authorityPublicKey(s.authorityContractId.value, authorityId)
      case None => r == Err(InvalidAuthority)
      case Some(k) => r == Ok(k)
  {
    match GetAuthorityContractId(s)
    case Err(e) => Err(e)
    case Ok(contract) =>
      match ext.authorityPublicKey(contract, authorityId)
      case None => Err(InvalidAuthority)
      case Some(k) => Ok(k)
  }

  /**
   * `validate_authority_for_cert_type`: the allowed-type query first; when it
   * fails, `verify_authority`, and for a verified authority the membership
   * of the type in its allowed types. The `get_authority` call of that last
   * step is not guarded, so its failure aborts the invocation.
   */
  function ValidateAuthorityForCertType(s: VerificationStore, ext: External, authorityId: Address, certType: string): (r: Result<bool>)
    reads s
    ensures s.authorityContractId.None? ==> r == Err(ContractReferenceNotSet)
    ensures s.authorityContractId.Some? ==>
      var c := s.authorityContractId.value;
      && (ext.isAuthorityAllowedCertType(c, authorityId, certType).Some? ==>
            r == Ok(ext.isAuthorityAllowedCertType(c, authorityId, certType).value))
      && (ext.isAuthorityAllowedCertType(c, authorityId, certType).None? ==>
            && (ext.verifyAuthority(c, authorityId) == None ==> r == Err(ExternalContractError))
            && (ext.verifyAuthority(c, authorityId) == Some(false) ==> r == Ok(false))
            && (ext.verifyAuthority(c, authorityId) == Some(true) ==>
                  r == (match ext.authorityCertTypes(c, authorityId)
                        case None => Err(HostTrap)
                        case Some(types) => Ok(certType in types))))
    ensures r == Ok(true) ==>
      var c := s.authorityContractId.value;
      || ext.isAuthorityAllowedCertType(c, authorityId, certType) == Some(true)
      || (ext.verifyAuthority(c, authorityId) == Some(true) && certType in ext.authorityCertTypes(c, authorityId).value)
  {
    match GetAuthorityContractId(s)
    case Err(e) => Err(e)
    case Ok(contract) =>
      match ext.isAuthorityAllowedCertType(contract, authorityId, certType)
      case Some(isValid) => Ok(isValid)
      case None =>
        match ext.verifyAuthority(contract, authorityId)
        case None => Err(ExternalContractError)
        case Some(isValid) =>
          if !isValid then Ok(false)
          else
            match ext.authorityCertTypes(contract, authorityId)
            case None => Err(HostTrap)
            case Some(types) => Ok(certType in types)
  }

  /** A verified authority is never reported valid by the fallback unless the type is listed. */
  lemma FallbackNeedsListedType(s: VerificationStore, ext: External, authorityId: Address, certType: string)
    requires s.authorityContractId.Some?
    requires ext.isAuthorityAllowedCertType(s.authorityContractId.value, authorityId, certType).None?
    ensures ValidateAuthorityForCertType(s, ext, authorityId, certType) == Ok(true) <==>
      && ext.verifyAuthority(s.authorityContractId.value, authorityId) == Some(true)
      && ext.authorityCertTypes(s.authorityContractId.value, authorityId).Some?
      && certType in ext.authorityCertTypes(s.authorityContractId.value, authorityId).value
  {
  }
}
