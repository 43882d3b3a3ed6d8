/**
 * The record of the certification-type catalog, its status, the catalog's
 * error codes and the constructor that fills in a fresh record.
 */
module CertType {
  import opened Prims

  datatype CertTypeStatus = Active | Deprecated

  datatype CertificationType = CertificationType(
    certTypeId: string,
    name: string,
    version: string,
    description: string,
    industryScope: seq<string>,
    validityPeriod: string,
    requiredEvidence: seq<string>,
    verificationRequirements: string,
    status: CertTypeStatus,
    authorities: seq<string>,
    deprecationReason: Option<string>)

  /**
   * The catalog's error codes. `Unauthorized`, `InvalidInput`,
   * `InvalidStatus`, `InvalidEvidence` and `InvalidAuthority` are declared
   * but never returned.
   */
  datatype Error =
    | AlreadyExists       // 1
    | NotFound            // 2
    | Unauthorized        // 3
    | InvalidInput        // 4
    | AlreadyDeprecated   // 100
    | InvalidField        // 101
    | InvalidStatus       // 102
    | InvalidEvidence     // 103
    | InvalidAuthority    // 104

  datatype Result<T> = Ok(value: T) | Err(error: Error)

  /**
   * `CertificationType::new`: the given identity and description fields,
   * and an active record with no evidence, no requirements, no authorities
   * and no deprecation reason.
   */
  function New(certTypeId: string, name: string, version: string, description: string,
               industryScope: seq<string>, validityPeriod: string): (t: CertificationType)
    ensures t.certTypeId == certTypeId && t.name == name && t.version == version
    ensures t.description == description && t.industryScope == industryScope
    ensures t.validityPeriod == validityPeriod
    ensures t.requiredEvidence == [] && t.verificationRequirements == "" && t.authorities == []
    ensures t.status == Active && t.deprecationReason == None
  {
    CertificationType(certTypeId, name, version, description, industryScope, validityPeriod,
                      [], "", Active, [], None)
  }
}
