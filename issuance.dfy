/**
 * Issuance of certificates, one at a time or in a batch, with a
 * content-derived certificate id.
 *
 * The id is SHA-256 of: owner XDR, issuer XDR, the XDR of title, description
 * and achievement type, the ledger timestamp as 8 bytes least-significant
 * first, then 4 bytes of the ledger sequence and 4 low bytes of the
 * timestamp, most-significant first. Nothing else enters it, so two
 * issuances with equal inputs in one ledger get the same id; issuance never
 * checks for an existing record and overwrites the slot.
 */
module Issuance {
  import opened Prims
  import opened Sequences
  import opened ByteCodec
  import opened CertStore
  import opened AccessControl

  function IdPreimage(host: Host, owner: Address, issuer: Address, metadata: CertificateMetadata, ledger: Ledger): Bytes {
    host.addressXdr(owner) + host.addressXdr(issuer)
    + host.stringXdr(metadata.title) + host.stringXdr(metadata.description) + host.stringXdr(metadata.achievementType)
    + LittleEndian(ledger.timestamp, 8)
    + BigEndian(ledger.sequence, 4) + BigEndian(ledger.timestamp, 4)
  }

  function CertificateIdFor(host: Host, owner: Address, issuer: Address, metadata: CertificateMetadata, ledger: Ledger): CertificateId {
    CertificateId(host.sha256(IdPreimage(host, owner, issuer, metadata, ledger)))
  }

  /**
   * The last 16 bytes of the hashed data give back the ledger data: the
   * timestamp (8 bytes, least-significant first), the sequence, and the
   * timestamp reduced to its low 32 bits (4 bytes each, most-significant
   * first).
   */
  lemma IdPreimageTail(host: Host, owner: Address, issuer: Address, metadata: CertificateMetadata, ledger: Ledger)
    ensures var p := IdPreimage(host, owner, issuer, metadata, ledger);
      && |p| >= 16
      && FromLittleEndian(p[|p| - 16..|p| - 8]) == ledger.timestamp
      && FromBigEndian(p[|p| - 8..|p| - 4]) == ledger.sequence
      && FromBigEndian(p[|p| - 4..]) == ledger.timestamp % U32_LIMIT
  {
    var p := IdPreimage(host, owner, issuer, metadata, ledger);
    var head := host.addressXdr(owner) + host.addressXdr(issuer)
      + host.stringXdr(metadata.title) + host.stringXdr(metadata.description) + host.stringXdr(metadata.achievementType);
    var le, seqBytes, tsBytes := LittleEndian(ledger.timestamp, 8), BigEndian(ledger.sequence, 4), BigEndian(ledger.timestamp, 4);
    assert p == head + le + seqBytes + tsBytes;
    assert p[|p| - 16..|p| - 8] == le;
    assert p[|p| - 8..|p| - 4] == seqBytes;
    assert p[|p| - 4..] == tsBytes;
    U64LittleEndianRoundTrip(ledger.timestamp);
    Pow256Widths();
    BigEndianRoundTrip(ledger.sequence, 4);
    BigEndianTruncates(ledger.timestamp, 4);
  }

  /** Additional data, expiration and signature do not enter the id. */
  lemma IdIgnoresUnhashedFields(host: Host, owner: Address, issuer: Address, m1: CertificateMetadata, m2: CertificateMetadata, ledger: Ledger)
    requires m1.title == m2.title && m1.description == m2.description && m1.achievementType == m2.achievementType
    ensures CertificateIdFor(host, owner, issuer, m1, ledger) == CertificateIdFor(host, owner, issuer, m2, ledger)
  {
  }

  /**
   * `generate_certificate_id`: the data is built by appends, the timestamp
   * by a shift loop and the unique bytes by shifts and masks.
   */
  method GenerateCertificateId(host: Host, owner: Address, issuer: Address, metadata: CertificateMetadata, ledger: Ledger)
    returns (id: CertificateId)
    ensures id == CertificateIdFor(host, owner, issuer, metadata, ledger)
  {
    var data: Bytes := [];
    data := data + host.addressXdr(owner);
    assert data == host.addressXdr(owner);
    data := data + host.addressXdr(issuer);
    data := data + host.stringXdr(metadata.title);
    data := data + host.stringXdr(metadata.description);
    data := data + host.stringXdr(metadata.achievementType);
    data := AppendLittleEndian64(data, ledger.timestamp);
    var sequence, timestamp := ledger.sequence, ledger.timestamp;
    var unique: Bytes := [
      (sequence / 0x100_0000) % 256, (sequence / 0x1_0000) % 256, (sequence / 0x100) % 256, sequence % 256,
      (timestamp / 0x100_0000) % 256, (timestamp / 0x1_0000) % 256, (timestamp / 0x100) % 256, timestamp % 256];
    BigEndian4AsShifts(sequence);
    BigEndian4AsShifts(timestamp);
    assert unique == BigEndian(sequence, 4) + BigEndian(timestamp, 4);
    ghost var prefix := data;
    data := data + unique;
    assert data == prefix + BigEndian(sequence, 4) + BigEndian(timestamp, 4);
    id := CertificateId(host.sha256(data));
  }

  /** The record `issue_certificate` builds. */
  function NewCertificate(id: CertificateId, owner: Address, issuer: Address, metadata: CertificateMetadata,
                          ledger: Ledger, expirationDate: Option<U64>, signature: Bytes): Certificate {
    Certificate(id, owner, issuer, metadata, ledger.timestamp, expirationDate, false, signature)
  }

  /**
   * The persistent storage after `issuer` issues certificate `id` to `owner`;
   * the issuing methods name the id (`CertificateIdFor`).
   */
  function Issued(host: Host, rec: Records, id: CertificateId, issuer: Address, owner: Address, metadata: CertificateMetadata,
                  expirationDate: Option<U64>, signature: Bytes, ledger: Ledger): Records {
    Records(
      rec.certificates[CertificateKey(host, id) := NewCertificate(id, owner, issuer, metadata, ledger, expirationDate, signature)],
      Appended(rec.ownerLists, AddressKey(host, owner), id),
      Appended(rec.issuerLists, AddressKey(host, issuer), id),
      rec.certCount + 1)
  }

  /**
   * Issuance never looks at the slot it writes: a revoked record sharing the
   * new id's slot is replaced by a record that is not revoked.
   */
  lemma IssueCanReplaceRevoked(host: Host, rec: Records, id: CertificateId, issuer: Address, owner: Address, metadata: CertificateMetadata,
                               expirationDate: Option<U64>, signature: Bytes, ledger: Ledger)
    requires CertificateKey(host, id) in rec.certificates && rec.certificates[CertificateKey(host, id)].revoked
    ensures !RevokedStay(rec.certificates, Issued(host, rec, id, issuer, owner, metadata, expirationDate, signature, ledger).certificates)
  {
    var k := CertificateKey(host, id);
    assert !Issued(host, rec, id, issuer, owner, metadata, expirationDate, signature, ledger).certificates[k].revoked;
  }

  /** Issuance keeps every index list resolvable. */
  lemma IssuedKeepsIndexed(host: Host, rec: Records, id: CertificateId, issuer: Address, owner: Address, metadata: CertificateMetadata,
                           expirationDate: Option<U64>, signature: Bytes, ledger: Ledger)
    requires Indexed(host, rec)
    ensures Indexed(host, Issued(host, rec, id, issuer, owner, metadata, expirationDate, signature, ledger))
  {
    var after := Issued(host, rec, id, issuer, owner, metadata, expirationDate, signature, ledger);
    forall k, x | k in after.ownerLists && x in after.ownerLists[k]
      ensures CertificateKey(host, x) in after.certificates
    {
      if k != AddressKey(host, owner) {
        assert after.ownerLists[k] == rec.ownerLists[k];
      } else if x != id {
        assert x in Lookup(rec.ownerLists, k);
      }
    }
    forall k, x | k in after.issuerLists && x in after.issuerLists[k]
      ensures CertificateKey(host, x) in after.certificates
    {
      if k != AddressKey(host, issuer) {
        assert after.issuerLists[k] == rec.issuerLists[k];
      } else if x != id {
        assert x in Lookup(rec.issuerLists, k);
      }
    }
  }

  predicate SameLengths(owners: seq<Address>, metadatas: seq<CertificateMetadata>, expirationDates: seq<Option<U64>>, signatures: seq<Bytes>) {
    |metadatas| == |owners| && |expirationDates| == |owners| && |signatures| == |owners|
  }

  /** The ids a batch returns: item i hashed with the batch's one ledger. */
  function BatchIds(host: Host, issuer: Address, owners: seq<Address>, metadatas: seq<CertificateMetadata>, ledger: Ledger): (ids: seq<CertificateId>)
    requires |metadatas| == |owners|
    ensures |ids| == |owners|
    ensures forall i | 0 <= i < |ids| :: ids[i] == CertificateIdFor(host, owners[i], issuer, metadatas[i], ledger)
  {
    seq(|owners|, i requires 0 <= i < |owners| => CertificateIdFor(host, owners[i], issuer, metadatas[i], ledger))
  }

  /**
   * Two batch items with the same owner, title, description and achievement
   * type get the same id, since the whole batch shares one ledger.
   */
  lemma BatchIdsCollide(host: Host, issuer: Address, owners: seq<Address>, metadatas: seq<CertificateMetadata>,
                        ledger: Ledger, i: nat, j: nat)
    requires |metadatas| == |owners| && i < |owners| && j < |owners|
    requires owners[i] == owners[j]
    requires metadatas[i].title == metadatas[j].title && metadatas[i].description == metadatas[j].description
    requires metadatas[i].achievementType == metadatas[j].achievementType
    ensures BatchIds(host, issuer, owners, metadatas, ledger)[i] == BatchIds(host, issuer, owners, metadatas, ledger)[j]
  {
    IdIgnoresUnhashedFields(host, owners[i], issuer, metadatas[i], metadatas[j], ledger);
  }

  /** The persistent storage after the first `n` items of a batch, item i issued as `ids[i]`. */
  function IssuedBatch(host: Host, rec: Records, ids: seq<CertificateId>, issuer: Address, owners: seq<Address>,
                       metadatas: seq<CertificateMetadata>, expirationDates: seq<Option<U64>>, signatures: seq<Bytes>,
                       ledger: Ledger, n: nat): Records
    requires SameLengths(owners, metadatas, expirationDates, signatures) && |ids| == |owners| && n <= |owners|
  {
    if n == 0 then rec
    else Issued(host, IssuedBatch(host, rec, ids, issuer, owners, metadatas, expirationDates, signatures, ledger, n - 1),
                ids[n - 1], issuer, owners[n - 1], metadatas[n - 1], expirationDates[n - 1], signatures[n - 1], ledger)
  }

  /** A batch of `n` items raises the certificate count by exactly `n`. */
  lemma {:induction false} BatchCount(host: Host, rec: Records, ids: seq<CertificateId>, issuer: Address, owners: seq<Address>,
                                      metadatas: seq<CertificateMetadata>, expirationDates: seq<Option<U64>>, signatures: seq<Bytes>,
                                      ledger: Ledger, n: nat)
    requires SameLengths(owners, metadatas, expirationDates, signatures) && |ids| == |owners| && n <= |owners|
    ensures IssuedBatch(host, rec, ids, issuer, owners, metadatas, expirationDates, signatures, ledger, n).certCount == rec.certCount + n
  {
    if n > 0 {
      BatchCount(host, rec, ids, issuer, owners, metadatas, expirationDates, signatures, ledger, n - 1);
    }
  }

  /** The issuer's list gains the batch's ids, in input order. */
  lemma {:induction false} BatchIssuerList(host: Host, rec: Records, ids: seq<CertificateId>, issuer: Address, owners: seq<Address>,
                                           metadatas: seq<CertificateMetadata>, expirationDates: seq<Option<U64>>, signatures: seq<Bytes>,
                                           ledger: Ledger, n: nat)
    requires SameLengths(owners, metadatas, expirationDates, signatures) && |ids| == |owners| && n <= |owners|
    ensures var k := AddressKey(host, issuer);
      Lookup(IssuedBatch(host, rec, ids, issuer, owners, metadatas, expirationDates, signatures, ledger, n).issuerLists, k)
      == Lookup(rec.issuerLists, k) + ids[..n]
  {
    if n > 0 {
      var k := AddressKey(host, issuer);
      var prev := IssuedBatch(host, rec, ids, issuer, owners, metadatas, expirationDates, signatures, ledger, n - 1);
      BatchIssuerList(host, rec, ids, issuer, owners, metadatas, expirationDates, signatures, ledger, n - 1);
      SnocStep(Lookup(rec.issuerLists, k), ids, n, Lookup(prev.issuerLists, k),
               Lookup(IssuedBatch(host, rec, ids, issuer, owners, metadatas, expirationDates, signatures, ledger, n).issuerLists, k));
    }
  }

  /** The ids among `ids` whose owner's list lives in slot `k`, in order. */
  function OwnedInSlot(host: Host, owners: seq<Address>, ids: seq<CertificateId>, k: Byte): seq<CertificateId>
    requires |ids| == |owners|
  {
    if owners == [] then []
    else
      var last := if AddressKey(host, owners[|owners| - 1]) == k then [ids[|ids| - 1]] else [];
      OwnedInSlot(host, owners[..|owners| - 1], ids[..|ids| - 1], k) + last
  }

  /** Every owner slot gains exactly the batch ids of the owners stored there, in input order. */
  lemma {:induction false} BatchOwnerLists(host: Host, rec: Records, ids: seq<CertificateId>, issuer: Address, owners: seq<Address>,
                                           metadatas: seq<CertificateMetadata>, expirationDates: seq<Option<U64>>, signatures: seq<Bytes>,
                                           ledger: Ledger, n: nat, k: Byte)
    requires SameLengths(owners, metadatas, expirationDates, signatures) && |ids| == |owners| && n <= |owners|
    ensures Lookup(IssuedBatch(host, rec, ids, issuer, owners, metadatas, expirationDates, signatures, ledger, n).ownerLists, k)
      == Lookup(rec.ownerLists, k) + OwnedInSlot(host, owners[..n], ids[..n], k)
  {
    if n > 0 {
      BatchOwnerLists(host, rec, ids, issuer, owners, metadatas, expirationDates, signatures, ledger, n - 1, k);
      assert owners[..n][..n - 1] == owners[..n - 1];
      assert ids[..n][..n - 1] == ids[..n - 1];
    }
  }

  /** A batch keeps every index list resolvable. */
  lemma {:induction false} BatchKeepsIndexed(host: Host, rec: Records, ids: seq<CertificateId>, issuer: Address, owners: seq<Address>,
                                             metadatas: seq<CertificateMetadata>, expirationDates: seq<Option<U64>>, signatures: seq<Bytes>,
                                             ledger: Ledger, n: nat)
    requires SameLengths(owners, metadatas, expirationDates, signatures) && |ids| == |owners| && n <= |owners|
    requires Indexed(host, rec)
    ensures Indexed(host, IssuedBatch(host, rec, ids, issuer, owners, metadatas, expirationDates, signatures, ledger, n))
  {
    if n > 0 {
      BatchKeepsIndexed(host, rec, ids, issuer, owners, metadatas, expirationDates, signatures, ledger, n - 1);
      IssuedKeepsIndexed(host, IssuedBatch(host, rec, ids, issuer, owners, metadatas, expirationDates, signatures, ledger, n - 1),
                         ids[n - 1], issuer, owners[n - 1], metadatas[n - 1], expirationDates[n - 1], signatures[n - 1], ledger);
    }
  }

  /** `increment_certificate_count`: the counter, 0 when unset, goes up by one. */
  method IncrementCertificateCount(s: CertificationStorage)
    requires s.certCount + 1 < U32_LIMIT
    modifies s`certCount
    ensures s.certCount == old(s.certCount) + 1
  {
    s.certCount := s.certCount + 1;
  }

  /** `add_to_owner_certificates`: push the id at the back of the owner's slot. */
  method AddToOwnerCertificates(s: CertificationStorage, owner: Address, id: CertificateId)
    modifies s`ownerLists
    ensures s.ownerLists == Appended(old(s.ownerLists), AddressKey(s.host, owner), id)
    ensures s.OwnerCertificates(owner) == old(s.OwnerCertificates(owner)) + [id]
  {
    var k := AddressKey(s.host, owner);
    var ownerCerts := Lookup(s.ownerLists, k);
    ownerCerts := ownerCerts + [id];
    s.ownerLists := s.ownerLists[k := ownerCerts];
  }

  /** `add_to_issuer_certificates`: push the id at the back of the issuer's slot. */
  method AddToIssuerCertificates(s: CertificationStorage, issuer: Address, id: CertificateId)
    modifies s`issuerLists
    ensures s.issuerLists == Appended(old(s.issuerLists), AddressKey(s.host, issuer), id)
    ensures s.IssuerCertificates(issuer) == old(s.IssuerCertificates(issuer)) + [id]
  {
    var k := AddressKey(s.host, issuer);
    var issuerCerts := Lookup(s.issuerLists, k);
    issuerCerts := issuerCerts + [id];
    s.issuerLists := s.issuerLists[k := issuerCerts];
  }

  /** The store of one issuance, as `issue_certificate` and each batch step perform it. */
  method Store(s: CertificationStorage, issuer: Address, owner: Address, metadata: CertificateMetadata,
               expirationDate: Option<U64>, signature: Bytes, ledger: Ledger) returns (id: CertificateId)
    requires s.certCount + 1 < U32_LIMIT
    modifies s`certificates, s`certCount, s`ownerLists, s`issuerLists
    ensures id == CertificateIdFor(s.host, owner, issuer, metadata, ledger)
    ensures s.Persistent() == Issued(s.host, old(s.Persistent()), id, issuer, owner, metadata, expirationDate, signature, ledger)
  {
    id := GenerateCertificateId(s.host, owner, issuer, metadata, ledger);
    var certificate := NewCertificate(id, owner, issuer, metadata, ledger, expirationDate, signature);
    s.certificates := s.certificates[CertificateKey(s.host, id) := certificate];
    IncrementCertificateCount(s);
    AddToOwnerCertificates(s, owner, id);
    AddToIssuerCertificates(s, issuer, id);
  }

  /**
   * `issue_certificate`: the admin (via `require_issuer`) and the owner
   * authorize; the record is stored in its slot, the count rises by one and
   * the id is pushed on the owner's and on the admin's list.
   */
  method IssueCertificate(s: CertificationStorage, auth: set<Address>, ledger: Ledger, owner: Address,
                          metadata: CertificateMetadata, expirationDate: Option<U64>, signature: Bytes)
    returns (r: Result<CertificateId>)
    requires s.certCount + 1 < U32_LIMIT
    modifies s`certificates, s`certCount, s`ownerLists, s`issuerLists
    ensures RequireIssuer(s, auth).Err? ==> r == Err(RequireIssuer(s, auth).error) && s.Persistent() == old(s.Persistent())
    ensures RequireIssuer(s, auth).Ok? && owner !in auth ==> r == Err(Unauthorized(owner)) && s.Persistent() == old(s.Persistent())
    ensures RequireIssuer(s, auth).Ok? && owner in auth ==>
      && r == Ok(CertificateIdFor(s.host, owner, s.admin.value, metadata, ledger))
      && s.Persistent() == Issued(s.host, old(s.Persistent()), r.value, s.admin.value, owner, metadata, expirationDate, signature, ledger)
    ensures r.Ok? ==>
      && CertificateKey(s.host, r.value) in s.certificates
      && s.certificates[CertificateKey(s.host, r.value)] == NewCertificate(r.value, owner, s.admin.value, metadata, ledger, expirationDate, signature)
      && s.certCount == old(s.certCount) + 1
      && s.OwnerCertificates(owner) == old(s.OwnerCertificates(owner)) + [r.value]
      && s.IssuerCertificates(s.admin.value) == old(s.IssuerCertificates(s.admin.value)) + [r.value]
    ensures old(s.Valid()) ==> s.Valid()
  {
    match RequireIssuer(s, auth)
    case Err(e) => return Err(e);
    case Ok(issuer) =>
      if owner !in auth {
        return Err(Unauthorized(owner));
      }
      if s.Valid() {
        IssuedKeepsIndexed(s.host, s.Persistent(), CertificateIdFor(s.host, owner, issuer, metadata, ledger),
                           issuer, owner, metadata, expirationDate, signature, ledger);
      }
      var id := Store(s, issuer, owner, metadata, expirationDate, signature, ledger);
      r := Ok(id);
  }

  /** The scan for the first owner that did not authorize the call (`|owners|` if none). */
  method FirstUnauthorized(owners: seq<Address>, auth: set<Address>) returns (j: nat)
    ensures j <= |owners|
    ensures forall i | 0 <= i < j :: owners[i] in auth
    ensures j < |owners| ==> owners[j] !in auth
  {
    j := 0;
    while j < |owners| && owners[j] in auth
      invariant j <= |owners|
      invariant forall i | 0 <= i < j :: owners[i] in auth
    {
      j := j + 1;
    }
  }

  /** The loop of `batch_issue_certificates`: one issuance per index, in order. */
  method StoreAll(s: CertificationStorage, issuer: Address, owners: seq<Address>, metadatas: seq<CertificateMetadata>,
                  expirationDates: seq<Option<U64>>, signatures: seq<Bytes>, ledger: Ledger)
    returns (ids: seq<CertificateId>)
    requires SameLengths(owners, metadatas, expirationDates, signatures)
    requires s.certCount + |owners| < U32_LIMIT
    modifies s`certificates, s`certCount, s`ownerLists, s`issuerLists
    ensures ids == BatchIds(s.host, issuer, owners, metadatas, ledger)
    ensures s.Persistent() == IssuedBatch(s.host, old(s.Persistent()), ids, issuer, owners, metadatas, expirationDates, signatures, ledger, |owners|)
  {
    ghost var before := s.Persistent();
    ghost var all := BatchIds(s.host, issuer, owners, metadatas, ledger);
    ids := [];
    var i := 0;
    while i < |owners|
      invariant 0 <= i <= |owners|
      invariant s.Persistent() == IssuedBatch(s.host, before, all, issuer, owners, metadatas, expirationDates, signatures, ledger, i)
      invariant s.certCount == before.certCount + i
      invariant ids == all[..i]
    {
      ghost var prev := s.Persistent();
      var id := Store(s, issuer, owners[i], metadatas[i], expirationDates[i], signatures[i], ledger);
      assert id == all[i];
      assert s.Persistent() == Issued(s.host, prev, all[i], issuer, owners[i], metadatas[i], expirationDates[i], signatures[i], ledger);
      TakeSnoc(all, i);
      ids := ids + [id];
      i := i + 1;
    }
    assert all[..|owners|] == all;
  }

  /**
   * `batch_issue_certificates`: one `require_issuer`, the length check, then
   * for each index in order the owner's authorization and one issuance. A
   * failed owner authorization aborts the whole invocation, so no item is
   * stored; the model checks all owners before the first write.
   */
  method BatchIssueCertificates(s: CertificationStorage, auth: set<Address>, ledger: Ledger, owners: seq<Address>,
                                metadatas: seq<CertificateMetadata>, expirationDates: seq<Option<U64>>, signatures: seq<Bytes>)
    returns (r: Result<seq<CertificateId>>)
    requires s.certCount + |owners| < U32_LIMIT
    modifies s`certificates, s`certCount, s`ownerLists, s`issuerLists
    ensures RequireIssuer(s, auth).Err? ==> r == Err(RequireIssuer(s, auth).error) && s.Persistent() == old(s.Persistent())
    ensures RequireIssuer(s, auth).Ok? && !SameLengths(owners, metadatas, expirationDates, signatures) ==>
      r == Err(LengthMismatch) && s.Persistent() == old(s.Persistent())
    ensures (RequireIssuer(s, auth).Ok? && SameLengths(owners, metadatas, expirationDates, signatures)
             && exists j | 0 <= j < |owners| :: owners[j] !in auth) ==>
      && s.Persistent() == old(s.Persistent())
      && exists j | 0 <= j < |owners| :: owners[j] !in auth && (forall i | 0 <= i < j :: owners[i] in auth) && r == Err(Unauthorized(owners[j]))
    ensures (RequireIssuer(s, auth).Ok? && SameLengths(owners, metadatas, expirationDates, signatures)
             && forall j | 0 <= j < |owners| :: owners[j] in auth) ==>
      && r == Ok(BatchIds(s.host, s.admin.value, owners, metadatas, ledger))
      && s.Persistent() == IssuedBatch(s.host, old(s.Persistent()), r.value, s.admin.value, owners, metadatas, expirationDates, signatures, ledger, |owners|)
    ensures old(s.Valid()) ==> s.Valid()
  {
    match RequireIssuer(s, auth)
    case Err(e) => return Err(e);
    case Ok(issuer) =>
      var count := |owners|;
      if |metadatas| != count || |expirationDates| != count || |signatures| != count {
        return Err(LengthMismatch);
      }
      var bad := FirstUnauthorized(owners, auth);
      if bad < count {
        return Err(Unauthorized(owners[bad]));
      }
      if s.Valid() {
        BatchKeepsIndexed(s.host, s.Persistent(), BatchIds(s.host, issuer, owners, metadatas, ledger),
                          issuer, owners, metadatas, expirationDates, signatures, ledger, count);
      }
      var ids := StoreAll(s, issuer, owners, metadatas, expirationDates, signatures, ledger);
      r := Ok(ids);
  }
}
