/**
 * Entry points of the verification contract: initialization, lookup by id,
 * the three checks (signature, expiry, authority) and the verification
 * report that combines them.
 */
module VerificationLib {
  import opened Prims
  import opened VerificationTypes
  import opened VerificationStorage
  import opened VerificationUtils

  /** `initialize`: refused once an admin is stored; then the admin and both references are written. */
  method Initialize(s: VerificationStore, admin: Address, certificationContractId: Address, authorityContractId: Address)
    returns (r: Result<()>)
    modifies s
    ensures old(s.admin).Some? ==>
      && r == Err(AlreadyInitialized)
      && s.admin == old(s.admin) && s.certificationContractId == old(s.certificationContractId)
      && s.authorityContractId == old(s.authorityContractId)
    ensures old(s.admin).None? ==>
      && r == Ok(())
      && s.admin == Some(admin) && s.certificationContractId == Some(certificationContractId)
      && s.authorityContractId == Some(authorityContractId)
  {
    if s.IsInitialized() {
      return Err(AlreadyInitialized);
    }
    var _ := SetAdmin(s, admin);
    var _ := SetCertificationContractId(s, certificationContractId);
    var _ := SetAuthorityContractId(s, authorityContractId);
    r := Ok(());
  }

  /** `verify_by_id`: the certification when it is `Active`, otherwise the error of its status. */
  function VerifyById(s: VerificationStore, ext: External, certId: string): (r: Result<Certification>)
    reads s
    ensures GetCertification(s, ext, certId).Err? ==> r == GetCertification(s, ext, certId)
    ensures r.Ok? <==> GetCertification(s, ext, certId).Ok? && GetCertification(s, ext, certId).value.status == CertificationStatus.Active
    ensures r.Ok? ==> r == GetCertification(s, ext, certId)
    ensures GetCertification(s, ext, certId).Ok? ==>
      var status := GetCertification(s, ext, certId).value.status;
      && (status == CertificationStatus.Revoked ==> r == Err(CertificationRevoked))
      && (status == CertificationStatus.Suspended ==> r == Err(CertificationSuspended))
      && (status == CertificationStatus.Expired ==> r == Err(CertificationExpired))
  {
    match GetCertification(s, ext, certId)
    case Err(e) => Err(e)
    case Ok(c) =>
      match c.status
      case Active => Ok(c)
      case Revoked => Err(CertificationRevoked)
      case Suspended => Err(CertificationSuspended)
      case Expired => Err(CertificationExpired)
  }

  /**
   * `check_authentic_signature`: the authority's public key, then the
   * host's Ed25519 check of the certification's signature over SHA-256 of
   * the canonical message.
   */
  function CheckAuthenticSignature(s: VerificationStore, ext: External, certId: string): (r: Result<bool>)
    reads s
    ensures GetCertification(s, ext, certId).Err? ==> r == Err(GetCertification(s, ext, certId).error)
    ensures r.Ok? ==> GetCertification(s, ext, certId).Ok?
    ensures r == Ok(true) <==>
      && GetCertification(s, ext, certId).Ok?
      && var c := GetCertification(s, ext, certId).value;
         && GetAuthorityPublicKey(s, ext, c.authorityId).Ok?
         && ext.ed25519Verify(GetAuthorityPublicKey(s, ext, c.authorityId).value, ext.sha256(CertificationMessage(ext, c)), c.digitalSignature)
    ensures r != Err(HostTrap)
  {
    match GetCertification(s, ext, certId)
    case Err(e) => Err(e)
    case Ok(c) =>
      match GetAuthorityPublicKey(s, ext, c.authorityId)
      case Err(e) => Err(e)
      case Ok(publicKey) =>
        var message := CertificationMessage(ext, c);
        Ok(ext.ed25519Verify(publicKey, ext.sha256(message), c.digitalSignature))
  }

  /** `validate_expiry_date`: the ledger time has not passed the expiry date (equal still passes). */
  function ValidateExpiryDate(s: VerificationStore, ext: External, certId: string, now: U64): (r: Result<bool>)
    reads s
    ensures r.Ok? <==> GetCertification(s, ext, certId).Ok?
    ensures r.Err? ==> r.error == GetCertification(s, ext, certId).error
    ensures r.Ok? ==> (r.value <==> now <= GetCertification(s, ext, certId).value.expiryDate)
  {
    match GetCertification(s, ext, certId)
    case Err(e) => Err(e)
    case Ok(c) => Ok(now <= c.expiryDate)
  }

  /** `validate_authority`: the fallback chain for the certification's authority and type. */
  function ValidateAuthority(s: VerificationStore, ext: External, certId: string): (r: Result<bool>)
    reads s
    ensures GetCertification(s, ext, certId).Err? ==> r == Err(GetCertification(s, ext, certId).error)
    ensures GetCertification(s, ext, certId).Ok? ==>
      var c := GetCertification(s, ext, certId).value;
      r == ValidateAuthorityForCertType(s, ext, c.authorityId, c.certType)
  {
    match GetCertification(s, ext, certId)
    case Err(e) => Err(e)
    case Ok(c) => ValidateAuthorityForCertType(s, ext, c.authorityId, c.certType)
  }

  /**
   * The status match of the report: a stored `Revoked`, `Suspended` or
   * `Expired` wins over the checks; an `Active` certification is `Valid`
   * when all three checks pass, `Expired` when the expiry check fails and
   * `Invalid` otherwise.
   */
  function ReportStatus(status: CertificationStatus, signatureValid: bool, expiryValid: bool, authorityValid: bool): (v: VerificationStatus)
    ensures status == CertificationStatus.Revoked ==> v == VerificationStatus.Revoked
    ensures status == CertificationStatus.Suspended ==> v == VerificationStatus.Suspended
    ensures status == CertificationStatus.Expired ==> v == VerificationStatus.Expired
    ensures v == Valid <==> status == CertificationStatus.Active && signatureValid && expiryValid && authorityValid
    ensures status == CertificationStatus.Active && !expiryValid ==> v == VerificationStatus.Expired
    ensures status == CertificationStatus.Active && expiryValid && !(signatureValid && authorityValid) ==> v == Invalid
    ensures v == Invalid ==> status == CertificationStatus.Active
  {
    match status
    case Active =>
      if signatureValid && expiryValid && authorityValid then Valid
      else if !expiryValid then VerificationStatus.Expired
      else Invalid
    case Revoked => VerificationStatus.Revoked
    case Suspended => VerificationStatus.Suspended
    case Expired => VerificationStatus.Expired
  }

  /**
   * `generate_verification_report`: only a failed certification fetch (or a
   * trap) aborts; each check that errs reads as false. The report copies the
   * certification's identifying fields and is stamped with the ledger time.
   */
  function GenerateVerificationReport(s: VerificationStore, ext: External, certId: string, now: U64): (r: Result<VerificationReport>)
    reads s
    ensures GetCertification(s, ext, certId).Err? ==> r == Err(GetCertification(s, ext, certId).error)
    ensures GetCertification(s, ext, certId).Ok? && ValidateAuthority(s, ext, certId) == Err(HostTrap) ==> r == Err(HostTrap)
    ensures GetCertification(s, ext, certId).Ok? && ValidateAuthority(s, ext, certId) != Err(HostTrap) ==>
      var c := GetCertification(s, ext, certId).value;
      && r.Ok?
      && r.value.certId == c.certId && r.value.certType == c.certType && r.value.version == c.version
      && r.value.authorityId == c.authorityId && r.value.entityId == c.entityId
      && r.value.issueDate == c.issueDate && r.value.expiryDate == c.expiryDate
      && r.value.signatureValid == (CheckAuthenticSignature(s, ext, certId) == Ok(true))
      && r.value.expiryValid == (now <= c.expiryDate)
      && r.value.authorityValid == (ValidateAuthority(s, ext, certId) == Ok(true))
      && r.value.status == ReportStatus(c.status, r.value.signatureValid, r.value.expiryValid, r.value.authorityValid)
      && r.value.verificationTimestamp == now
  {
    match GetCertification(s, ext, certId)
    case Err(e) => Err(e)
    case Ok(c) =>
      // `unwrap_or(false)`: an error code reads as false; a trap is no error code and still aborts
      var signatureValid := CheckAuthenticSignature(s, ext, certId) == Ok(true);
      var expiryValid := ValidateExpiryDate(s, ext, certId, now) == Ok(true);
      var authority := ValidateAuthority(s, ext, certId);
      if authority == Err(HostTrap) then Err(HostTrap)
      else
        var authorityValid := authority == Ok(true);
        Ok(VerificationReport(c.certId, c.certType, c.version, c.authorityId, c.entityId, c.issueDate, c.expiryDate,
                              signatureValid, expiryValid, authorityValid,
                              ReportStatus(c.status, signatureValid, expiryValid, authorityValid), now))
  }

  /** A report says `Valid` only for an active, unexpired certification whose three checks all passed. */
  lemma ValidReportMeansAllChecks(s: VerificationStore, ext: External, certId: string, now: U64)
    requires GenerateVerificationReport(s, ext, certId, now).Ok?
    requires GenerateVerificationReport(s, ext, certId, now).value.status == Valid
    ensures VerifyById(s, ext, certId).Ok?
    ensures ValidateExpiryDate(s, ext, certId, now) == Ok(true)
    ensures CheckAuthenticSignature(s, ext, certId) == Ok(true)
    ensures ValidateAuthority(s, ext, certId) == Ok(true)
  {
  }
}
