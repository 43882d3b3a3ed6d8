/**
 * Transfer of a certificate to a new owner. The record is found through its
 * key slot only: the stored record's own id is never compared with the id
 * given, so under a slot collision the record of another certificate is the
 * one whose owner changes.
 */
module Transfer {
  import opened Prims
  import opened Sequences
  import opened CertStore
  import opened Issuance

  /** The persistent storage after a transfer of the record in `id`'s slot. */
  function Transferred(host: Host, rec: Records, id: CertificateId, newOwner: Address): Records
    requires CertificateKey(host, id) in rec.certificates
  {
    var k := CertificateKey(host, id);
    var certificate := rec.certificates[k];
    var oldSlot := AddressKey(host, certificate.owner);
    var removed := rec.ownerLists[oldSlot := Without(Lookup(rec.ownerLists, oldSlot), id)];
    Records(
      rec.certificates[k := certificate.(owner := newOwner)],
      Appended(removed, AddressKey(host, newOwner), id),
      rec.issuerLists,
      rec.certCount)
  }

  /** A transfer keeps every index list resolvable and stores no new slot. */
  lemma TransferKeepsIndexed(host: Host, rec: Records, id: CertificateId, newOwner: Address)
    requires CertificateKey(host, id) in rec.certificates
    requires Indexed(host, rec)
    ensures var after := Transferred(host, rec, id, newOwner);
      && Indexed(host, after)
      && after.certificates.Keys == rec.certificates.Keys
  {
    var after := Transferred(host, rec, id, newOwner);
    var oldSlot := AddressKey(host, rec.certificates[CertificateKey(host, id)].owner);
    var newSlot := AddressKey(host, newOwner);
    forall k, x | k in after.ownerLists && x in after.ownerLists[k]
      ensures CertificateKey(host, x) in after.certificates
    {
      WithoutMembers(Lookup(rec.ownerLists, oldSlot), id);
      if x != id {
        if k == newSlot {
          assert x in Lookup(after.ownerLists, newSlot);
        }
        if k == oldSlot || k == newSlot {
          assert x in Lookup(rec.ownerLists, k);
        } else {
          assert after.ownerLists[k] == rec.ownerLists[k];
        }
      }
    }
  }

  /**
   * Where the id ends up: at the back of the new owner's list, held once
   * there when both owners share a slot, and gone from the old owner's slot
   * otherwise. Every other slot is untouched.
   */
  lemma TransferredOwnerLists(host: Host, rec: Records, id: CertificateId, newOwner: Address)
    requires CertificateKey(host, id) in rec.certificates
    ensures var after := Transferred(host, rec, id, newOwner);
      var oldSlot := AddressKey(host, rec.certificates[CertificateKey(host, id)].owner);
      var newSlot := AddressKey(host, newOwner);
      && Lookup(after.ownerLists, newSlot)[|Lookup(after.ownerLists, newSlot)| - 1] == id
      && multiset(Lookup(after.ownerLists, newSlot))[id] == (if oldSlot == newSlot then 1 else multiset(Lookup(rec.ownerLists, newSlot))[id] + 1)
      && (oldSlot != newSlot ==> id !in Lookup(after.ownerLists, oldSlot))
      && (forall j :: j != oldSlot && j != newSlot ==> Lookup(after.ownerLists, j) == Lookup(rec.ownerLists, j))
  {
    var oldSlot := AddressKey(host, rec.certificates[CertificateKey(host, id)].owner);
    var newSlot := AddressKey(host, newOwner);
    var kept := Without(Lookup(rec.ownerLists, oldSlot), id);
    var removed := rec.ownerLists[oldSlot := kept];
    var after := Transferred(host, rec, id, newOwner);
    assert after.ownerLists == Appended(removed, newSlot, id);
    WithoutMultiset(Lookup(rec.ownerLists, oldSlot), id);
    WithoutMembers(Lookup(rec.ownerLists, oldSlot), id);
    assert multiset(Lookup(removed, newSlot) + [id])[id] == multiset(Lookup(removed, newSlot))[id] + 1;
    if oldSlot == newSlot {
      assert Lookup(removed, newSlot) == kept;
    } else {
      assert Lookup(removed, newSlot) == Lookup(rec.ownerLists, newSlot);
      assert Lookup(after.ownerLists, oldSlot) == kept;
    }
  }

  /** `remove_from_owner_certificates`: the owner's slot rebuilt without the id, written even when empty. */
  method RemoveFromOwnerCertificates(s: CertificationStorage, owner: Address, id: CertificateId)
    modifies s`ownerLists
    ensures var k := AddressKey(s.host, owner);
      s.ownerLists == old(s.ownerLists)[k := Without(Lookup(old(s.ownerLists), k), id)]
  {
    var k := AddressKey(s.host, owner);
    var ownerCerts := Lookup(s.ownerLists, k);
    var newOwnerCerts, _ := FilterOut(ownerCerts, id);
    s.ownerLists := s.ownerLists[k := newOwnerCerts];
  }

  /**
   * `transfer_certificate`: an empty slot fails; a revoked record gives
   * `false` with nothing written; otherwise the current owner and then the
   * new owner authorize, the id leaves the current owner's list, joins the
   * new owner's list and the record's owner is replaced.
   */
  method TransferCertificate(s: CertificationStorage, auth: set<Address>, id: CertificateId, newOwner: Address)
    returns (r: Result<bool>)
    modifies s`certificates, s`ownerLists
    ensures var k := CertificateKey(s.host, id);
      && (k !in old(s.certificates) ==> r == Err(CertificateNotFound) && s.Persistent() == old(s.Persistent()))
      && (k in old(s.certificates) && old(s.certificates)[k].revoked ==> r == Ok(false) && s.Persistent() == old(s.Persistent()))
      && (k in old(s.certificates) && !old(s.certificates)[k].revoked && old(s.certificates)[k].owner !in auth ==>
            r == Err(Unauthorized(old(s.certificates)[k].owner)) && s.Persistent() == old(s.Persistent()))
      && (k in old(s.certificates) && !old(s.certificates)[k].revoked && old(s.certificates)[k].owner in auth && newOwner !in auth ==>
            r == Err(Unauthorized(newOwner)) && s.Persistent() == old(s.Persistent()))
      && (k in old(s.certificates) && !old(s.certificates)[k].revoked && old(s.certificates)[k].owner in auth && newOwner in auth ==>
            r == Ok(true) && s.Persistent() == Transferred(s.host, old(s.Persistent()), id, newOwner))
    ensures AccessControl.RevokedStay(old(s.certificates), s.certificates)
    ensures old(s.Valid()) ==> s.Valid()
  {
    var k := CertificateKey(s.host, id);
    if k !in s.certificates {
      return Err(CertificateNotFound);
    }
    var certificate := s.certificates[k];
    if certificate.revoked {
      return Ok(false);
    }
    if certificate.owner !in auth {
      return Err(Unauthorized(certificate.owner));
    }
    if newOwner !in auth {
      return Err(Unauthorized(newOwner));
    }
    if s.Valid() {
      TransferKeepsIndexed(s.host, s.Persistent(), id, newOwner);
    }
    RemoveFromOwnerCertificates(s, certificate.owner, id);
    AddToOwnerCertificates(s, newOwner, id);
    s.certificates := s.certificates[k := certificate.(owner := newOwner)];
    r := Ok(true);
  }
}
