/**
 * The canonical certification message of the verification contract: the
 * string fields each followed by a zero separator, the two dates as
 * `u64::to_be_bytes`, the scope and its separator, then the 32 evidence-hash
 * bytes.
 */
module VerificationUtils {
  import opened Prims
  import opened ByteCodec
  import opened VerificationTypes

  /** The message, as one expression over the certification. */
  function CertificationMessage(ext: External, c: Certification): Bytes {
    ext.utf8(c.certId) + [0] + ext.utf8(c.certType) + [0] + ext.utf8(c.version) + [0]
    + ext.utf8(c.authorityId.strkey) + [0] + ext.utf8(c.entityId.strkey) + [0]
    + BigEndian(c.issueDate, 8) + BigEndian(c.expiryDate, 8)
    + ext.utf8(c.scope) + [0]
    + c.evidenceHash
  }

  /** The byte length of the six string fields. */
  function FieldsLength(ext: External, c: Certification): nat {
    |ext.utf8(c.certId)| + |ext.utf8(c.certType)| + |ext.utf8(c.version)|
    + |ext.utf8(c.authorityId.strkey)| + |ext.utf8(c.entityId.strkey)| + |ext.utf8(c.scope)|
  }

  /**
   * Layout of the message: six separators, sixteen date bytes and thirty-two
   * hash bytes beyond the fields; the dates sit right after the entity's
   * separator and decode back; the hash closes the message.
   */
  lemma CertificationMessageLayout(ext: External, c: Certification)
    ensures var m := CertificationMessage(ext, c);
      var d := |ext.utf8(c.certId)| + |ext.utf8(c.certType)| + |ext.utf8(c.version)|
               + |ext.utf8(c.authorityId.strkey)| + |ext.utf8(c.entityId.strkey)| + 5;
      && |m| == FieldsLength(ext, c) + 54
      && m[d - 1] == 0
      && FromBigEndian(m[d..d + 8]) == c.issueDate
      && FromBigEndian(m[d + 8..d + 16]) == c.expiryDate
      && m[|m| - 33] == 0
      && m[|m| - 32..] == c.evidenceHash
  {
    var m := CertificationMessage(ext, c);
    var head := ext.utf8(c.certId) + [0] + ext.utf8(c.certType) + [0] + ext.utf8(c.version) + [0]
      + ext.utf8(c.authorityId.strkey) + [0] + ext.utf8(c.entityId.strkey) + [0];
    var issue, expiry := BigEndian(c.issueDate, 8), BigEndian(c.expiryDate, 8);
    var tail := ext.utf8(c.scope) + [0];
    assert m == head + issue + expiry + tail + c.evidenceHash;
    var d := |head|;
    assert m[d - 1] == head[d - 1] == 0;
    assert m[d..d + 8] == issue;
    assert m[d + 8..d + 16] == expiry;
    assert m[|m| - 33] == tail[|tail| - 1];
    assert m[|m| - 32..] == c.evidenceHash;
    U64BigEndianRoundTrip(c.issueDate);
    U64BigEndianRoundTrip(c.expiryDate);
  }

  /** Neither the status nor the signature enters the message. */
  lemma CertificationMessageIgnores(ext: External, c: Certification, status: CertificationStatus, signature: Signature64)
    ensures CertificationMessage(ext, c) == CertificationMessage(ext, c.(status := status, digitalSignature := signature))
  {
  }

  /** `create_certification_message`: `extend_from_slice` and `push` onto a fresh buffer, the hash copied byte by byte. */
  method CreateCertificationMessage(ext: External, c: Certification) returns (message: Bytes)
    ensures message == CertificationMessage(ext, c)
  {
    message := [];
    message := message + ext.utf8(c.certId);
    assert message == ext.utf8(c.certId);
    message := message + [0];
    message := message + ext.utf8(c.certType);
    message := message + [0];
    message := message + ext.utf8(c.version);
    message := message + [0];
    message := message + ext.utf8(c.authorityId.strkey);
    message := message + [0];
    message := message + ext.utf8(c.entityId.strkey);
    message := message + [0];
    message := message + BigEndian(c.issueDate, 8);
    message := message + BigEndian(c.expiryDate, 8);
    message := message + ext.utf8(c.scope);
    message := message + [0];
    ghost var prefix := message;
    var i := 0;
    while i < 32
      invariant 0 <= i <= 32
      invariant message == prefix + c.evidenceHash[..i]
    {
      assert c.evidenceHash[..i + 1] == c.evidenceHash[..i] + [c.evidenceHash[i]];
      message := message + [c.evidenceHash[i]];
      i := i + 1;
    }
    assert c.evidenceHash[..32] == c.evidenceHash;
  }

  /** `validate_hash`: the two digests agree byte for byte. */
  function ValidateHash(actualHash: Hash32, expectedHash: Hash32): (r: bool)
    ensures r <==> forall i | 0 <= i < 32 :: actualHash[i] == expectedHash[i]
  {
    if actualHash == expectedHash then true
    else
      assert exists i | 0 <= i < 32 :: actualHash[i] != expectedHash[i];
      false
  }
}
