/**
 * Records and error codes of the verification contract, and the outside
 * world it consults: the certification and authority contracts it calls,
 * the byte view of strings, and the host's Ed25519 check.
 */
module VerificationTypes {
  import opened Prims

  type Signature64 = s: Bytes | |s| == 64 witness seq(64, _ => 0)

  datatype CertificationStatus = Active | Revoked | Suspended | Expired

  datatype VerificationStatus = Valid | Invalid | Expired | Revoked | Suspended

  datatype Certification = Certification(
    certId: string,
    certType: string,
    version: string,
    authorityId: Address,
    entityId: Address,
    issueDate: U64,
    expiryDate: U64,
    scope: string,
    status: CertificationStatus,
    evidenceHash: Hash32,
    digitalSignature: Signature64)

  datatype VerificationReport = VerificationReport(
    certId: string,
    certType: string,
    version: string,
    authorityId: Address,
    entityId: Address,
    issueDate: U64,
    expiryDate: U64,
    signatureValid: bool,
    expiryValid: bool,
    authorityValid: bool,
    status: VerificationStatus,
    verificationTimestamp: U64)

  /**
   * The contract's error enum, plus `HostTrap`: a panic that no handler
   * catches, which aborts the whole invocation rather than returning a code.
   */
  datatype Error =
    | AlreadyInitialized
    | NotInitialized
    | ContractReferenceNotSet
    | Unauthorized
    | AdminOnly
    | CertificationNotFound
    | CertificationInactive
    | CertificationExpired
    | CertificationRevoked
    | CertificationSuspended
    | InvalidSignature
    | SignatureVerificationFailed
    | InvalidAuthority
    | ExternalContractError
    | AuthorityContractError
    | CertificationContractError
    | HostTrap

  datatype Result<T> = Ok(value: T) | Err(error: Error)

  /**
   * The calls into other contracts, each keyed by the callee's contract id;
   * `None` is a call that failed. `authorityPublicKey` covers
   * `get_authority_info` together with the extraction of its `public_key`
   * entry, `authorityCertTypes` covers `get_authority` together with the
   * extraction of `allowed_cert_types`.
   */
  datatype External = External(
    getCertification: (Address, string) -> Option<Certification>,
    certificationExists: (Address, string) -> Option<bool>,
    authorityPublicKey: (Address, Address) -> Option<Hash32>,
    isAuthorityAllowedCertType: (Address, Address, string) -> Option<bool>,
    verifyAuthority: (Address, Address) -> Option<bool>,
    authorityCertTypes: (Address, Address) -> Option<seq<string>>,
    utf8: string -> Bytes,
    sha256: Bytes -> Hash32,
    ed25519Verify: (Hash32, Hash32, Signature64) -> bool)
}
