/**
 * The signature/expiry verdict of the certification-issuance contract and
 * the byte layout of the message a certificate's signature is meant to
 * cover.
 */
module CertVerification {
  import opened Prims
  import opened ByteCodec
  import opened CertStore

  /**
   * The data hashed into the verification message: id bytes, owner and
   * issuer XDR, the XDR of title, description and achievement type, the
   * issuance date as 8 bytes least-significant first, then the expiration
   * date the same way when there is one.
   */
  function VerificationPreimage(host: Host, c: Certificate): Bytes {
    c.id.bytes + host.addressXdr(c.owner) + host.addressXdr(c.issuer)
    + host.stringXdr(c.metadata.title) + host.stringXdr(c.metadata.description) + host.stringXdr(c.metadata.achievementType)
    + LittleEndian(c.issuanceDate, 8)
    + (match c.expirationDate case None => [] case Some(e) => LittleEndian(e, 8))
  }

  /**
   * The message starts with the 32 id bytes; its tail gives back the
   * issuance date, and the expiration date when one is set.
   */
  lemma VerificationPreimageLayout(host: Host, c: Certificate)
    ensures var p := VerificationPreimage(host, c);
      && |p| >= 40
      && p[..32] == c.id.bytes
      && (c.expirationDate.None? ==> FromLittleEndian(p[|p| - 8..]) == c.issuanceDate)
      && (c.expirationDate.Some? ==>
            && FromLittleEndian(p[|p| - 16..|p| - 8]) == c.issuanceDate
            && FromLittleEndian(p[|p| - 8..]) == c.expirationDate.value)
  {
    var p := VerificationPreimage(host, c);
    var head := c.id.bytes + host.addressXdr(c.owner) + host.addressXdr(c.issuer)
      + host.stringXdr(c.metadata.title) + host.stringXdr(c.metadata.description) + host.stringXdr(c.metadata.achievementType);
    var issued := LittleEndian(c.issuanceDate, 8);
    U64LittleEndianRoundTrip(c.issuanceDate);
    assert head[..32] == c.id.bytes;
    match c.expirationDate
    case None =>
      assert p == head + issued;
      assert p[|p| - 8..] == issued;
    case Some(e) =>
      var expires := LittleEndian(e, 8);
      assert p == head + issued + expires;
      assert p[|p| - 16..|p| - 8] == issued;
      assert p[|p| - 8..] == expires;
      U64LittleEndianRoundTrip(e);
  }

  /** The message covers neither the revocation flag nor the stored signature nor the additional data. */
  lemma VerificationPreimageIgnores(host: Host, c: Certificate, revoked: bool, signature: Bytes, additionalData: map<string, Hash32>)
    ensures VerificationPreimage(host, c) == VerificationPreimage(host, c.(revoked := revoked, signature := signature,
                                                                          metadata := c.metadata.(additionalData := additionalData)))
  {
  }

  /** `create_verification_message`: appends, two byte loops, then SHA-256 of the whole. */
  method CreateVerificationMessage(host: Host, c: Certificate) returns (message: Hash32)
    ensures message == host.sha256(VerificationPreimage(host, c))
  {
    var data: Bytes := [];
    data := data + c.id.bytes;
    assert data == c.id.bytes;
    data := data + host.addressXdr(c.owner);
    data := data + host.addressXdr(c.issuer);
    data := data + host.stringXdr(c.metadata.title);
    data := data + host.stringXdr(c.metadata.description);
    data := data + host.stringXdr(c.metadata.achievementType);
    data := AppendLittleEndian64(data, c.issuanceDate);
    ghost var withIssuance := data;
    if c.expirationDate.Some? {
      data := AppendLittleEndian64(data, c.expirationDate.value);
    } else {
      assert data == withIssuance + [];
    }
    message := host.sha256(data);
  }

  /**
   * `get_issuer_public_key`: SHA-256 of the issuer's XDR. Its first byte is
   * the slot of the issuer's certificate list.
   */
  function IssuerPublicKey(host: Host, issuer: Address): (key: Hash32)
    ensures key[0] == AddressKey(host, issuer)
  {
    host.sha256(host.addressXdr(issuer))
  }

  /** The verdict on a stored record at ledger time `now`. */
  predicate Verdict(c: Certificate, now: U64) {
    !c.revoked && (c.expirationDate.None? || now <= c.expirationDate.value)
  }

  /**
   * `verify_certificate_signature`: an empty slot fails; a revoked record is
   * false; a record whose expiration lies strictly before the ledger time is
   * false; any other record is true. The message and public key are
   * computed and checked against a zero signature whose outcome is unused.
   */
  method VerifyCertificateSignature(s: CertificationStorage, id: CertificateId, ledger: Ledger) returns (r: Result<bool>)
    ensures var k := CertificateKey(s.host, id);
      && (k !in s.certificates ==> r == Err(CertificateNotFound))
      && (k in s.certificates ==> r == Ok(Verdict(s.certificates[k], ledger.timestamp)))
    ensures r == Ok(true) <==>
      var k := CertificateKey(s.host, id);
      k in s.certificates && !s.certificates[k].revoked
      && forall e :: s.certificates[k].expirationDate == Some(e) ==> ledger.timestamp <= e
  {
    var k := CertificateKey(s.host, id);
    if k !in s.certificates {
      return Err(CertificateNotFound);
    }
    var certificate := s.certificates[k];
    if certificate.revoked {
      return Ok(false);
    }
    if certificate.expirationDate.Some? {
      var currentTime := ledger.timestamp;
      if currentTime > certificate.expirationDate.value {
        return Ok(false);
      }
    }
    var message := CreateVerificationMessage(s.host, certificate);
    var issuerPublicKey := IssuerPublicKey(s.host, certificate.issuer);
    r := Ok(true);
  }

  /** A revoked record never verifies, whatever the ledger time. */
  lemma RevokedNeverVerifies(c: Certificate, now: U64)
    requires c.revoked
    ensures !Verdict(c, now)
  {
  }

  /** Expiry is inclusive: the verdict at the expiration instant is that of a record without expiration. */
  lemma ExpiryInclusive(c: Certificate)
    requires c.expirationDate.Some?
    ensures Verdict(c, c.expirationDate.value) == Verdict(c.(expirationDate := None), c.expirationDate.value)
    ensures c.expirationDate.value + 1 < U64_LIMIT ==> !Verdict(c, c.expirationDate.value + 1)
  {
  }
}
