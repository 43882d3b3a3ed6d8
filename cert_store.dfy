/**
 * The storage of the certification-issuance contract: the certificate
 * record types, the instance entries (admin, issuer list, certificate
 * counter) and the persistent entries (certificate records and the owner and
 * issuer index lists).
 *
 * Persistent keys are built from the FIRST BYTE of a SHA-256 digest
 * (`cert` + hex byte, `owner_certs_` + hex byte, `issuer_certs_` + hex byte), so each of the three
 * key spaces has 256 slots and distinct certificates or addresses may share a
 * slot. The model keys every persistent map by that byte.
 */
module CertStore {
  import opened Prims

  /** `CertificateId(BytesN<32>)`. */
  datatype CertificateId = CertificateId(bytes: Hash32)

  datatype CertificateMetadata = CertificateMetadata(
    title: string,
    description: string,
    achievementType: string,
    additionalData: map<string, Hash32>)

  datatype Certificate = Certificate(
    id: CertificateId,
    owner: Address,
    issuer: Address,
    metadata: CertificateMetadata,
    issuanceDate: U64,
    expirationDate: Option<U64>,
    revoked: bool,
    signature: Bytes)

  /** The panics of the contract, one constructor per message. */
  datatype Error =
    | AlreadyInitialized       // "Contract already initialized"
    | NotInitialized           // "Contract not initialized"
    | Unauthorized(who: Address) // a failed `require_auth` of `who`
    | CertificateNotFound      // "Certificate not found"
    | LengthMismatch           // "Input arrays must have the same length"

  datatype Result<T> = Ok(value: T) | Err(error: Error)

  /** Slot of a certificate record: first byte of SHA-256 of the id's 32 bytes. */
  function CertificateKey(host: Host, id: CertificateId): Byte {
    host.sha256(id.bytes)[0]
  }

  /**
   * Slot of an owner's or an issuer's index list: first byte of SHA-256 of
   * the address XDR. Owner and issuer lists live in separate key spaces
   * (different prefixes), which the model keeps as separate maps.
   */
  function AddressKey(host: Host, a: Address): Byte {
    host.sha256(host.addressXdr(a))[0]
  }

  /** A missing index list reads as the empty list. */
  function Lookup(lists: map<Byte, seq<CertificateId>>, k: Byte): seq<CertificateId> {
    if k in lists then lists[k] else []
  }

  /** The list under `k` with `id` pushed at the back. */
  function Appended(lists: map<Byte, seq<CertificateId>>, k: Byte, id: CertificateId): (r: map<Byte, seq<CertificateId>>)
    ensures Lookup(r, k) == Lookup(lists, k) + [id]
    ensures forall j :: j != k ==> Lookup(r, j) == Lookup(lists, j)
  {
    lists[k := Lookup(lists, k) + [id]]
  }

  /** Every id held by an index list has a record in its slot. */
  ghost predicate Resolves(host: Host, lists: map<Byte, seq<CertificateId>>, certificates: map<Byte, Certificate>) {
    forall k, id | k in lists && id in lists[k] :: CertificateKey(host, id) in certificates
  }

  /** The persistent part of the storage, as one value. */
  datatype Records = Records(
    certificates: map<Byte, Certificate>,
    ownerLists: map<Byte, seq<CertificateId>>,
    issuerLists: map<Byte, seq<CertificateId>>,
    certCount: nat)

  ghost predicate Indexed(host: Host, rec: Records) {
    Resolves(host, rec.ownerLists, rec.certificates) && Resolves(host, rec.issuerLists, rec.certificates)
  }

  /**
   * The key functions are not injective: under some SHA-256 stand-in two
   * distinct ids share a record slot and two distinct addresses share a list.
   */
  lemma KeysCanCollide()
    ensures exists h: Host, a: CertificateId, b: CertificateId :: a != b && CertificateKey(h, a) == CertificateKey(h, b)
    ensures exists h: Host, a: Address, b: Address :: a != b && AddressKey(h, a) == AddressKey(h, b)
  {
    var zero: Hash32 := seq(32, _ => 0);
    var one: Hash32 := seq(32, _ => 1);
    var h := Host(_ => zero, _ => [], _ => []);
    var a, b := CertificateId(zero), CertificateId(one);
    assert a.bytes[0] != b.bytes[0];
    assert CertificateKey(h, a) == CertificateKey(h, b);
    var x, y := Address("GA"), Address("GB");
    assert x.strkey[1] != y.strkey[1];
    assert AddressKey(h, x) == AddressKey(h, y);
  }

  class CertificationStorage {
    /** The host primitives seen by this contract instance. */
    const host: Host

    // instance storage
    var admin: Option<Address>
    var issuers: seq<Address>
    var certCount: U32

    // persistent storage
    var certificates: map<Byte, Certificate>
    var ownerLists: map<Byte, seq<CertificateId>>
    var issuerLists: map<Byte, seq<CertificateId>>

    /** A freshly deployed contract: nothing stored. */
    constructor (host: Host)
      ensures this.host == host && admin == None && issuers == [] && certCount == 0
      ensures certificates == map[] && ownerLists == map[] && issuerLists == map[]
    {
      this.host := host;
      admin := None;
      issuers := [];
      certCount := 0;
      certificates := map[];
      ownerLists := map[];
      issuerLists := map[];
    }

    /** `get_owner_certificates`: the list in the owner's slot, empty when unset. */
    function OwnerCertificates(owner: Address): seq<CertificateId>
      reads this
    {
      Lookup(ownerLists, AddressKey(host, owner))
    }

    /** `get_issuer_certificates`: the list in the issuer's slot, empty when unset. */
    function IssuerCertificates(issuer: Address): seq<CertificateId>
      reads this
    {
      Lookup(issuerLists, AddressKey(host, issuer))
    }

    function Persistent(): Records
      reads this
    {
      Records(certificates, ownerLists, issuerLists, certCount)
    }

    /** Every id found in an index list can be fetched. */
    ghost predicate Valid()
      reads this
    {
      Indexed(host, Persistent())
    }
  }
}
