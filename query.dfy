/**
 * Read-only queries of the certification-issuance contract: one record by
 * id, a page of an owner's or an issuer's records, and the list lengths.
 */
module Query {
  import opened Prims
  import opened CertStore

  /** `get_certificate`: the record in the id's slot; an empty slot fails. */
  function GetCertificate(host: Host, certificates: map<Byte, Certificate>, id: CertificateId): (r: Result<Certificate>)
    ensures r.Ok? <==> CertificateKey(host, id) in certificates
    ensures r.Err? ==> r.error == CertificateNotFound
    ensures r.Ok? ==> r.value == certificates[CertificateKey(host, id)]
  {
    var k := CertificateKey(host, id);
    if k in certificates then Ok(certificates[k]) else Err(CertificateNotFound)
  }

  /**
   * The records of `ids`, fetched one after the other; the first id whose
   * slot is empty aborts with `CertificateNotFound`.
   */
  function Fetch(host: Host, certificates: map<Byte, Certificate>, ids: seq<CertificateId>): (r: Result<seq<Certificate>>)
    ensures r.Ok? <==> forall id | id in ids :: CertificateKey(host, id) in certificates
    ensures r.Err? ==> r.error == CertificateNotFound
    ensures r.Ok? ==> |r.value| == |ids| && forall i {:trigger r.value[i]} | 0 <= i < |ids| :: r.value[i] == certificates[CertificateKey(host, ids[i])]
    decreases |ids|
  {
    if ids == [] then Ok([])
    else
      match Fetch(host, certificates, ids[..|ids| - 1])
      case Err(e) => Err(e)
      case Ok(prefix) =>
        match GetCertificate(host, certificates, ids[|ids| - 1])
        case Err(e) => Err(e)
        case Ok(c) => Ok(prefix + [c])
  }

  function Min(a: int, b: int): int {
    if a <= b then a else b
  }

  /**
   * A page: nothing when `start` is past the end, otherwise the records of
   * `ids[start..min(start + limit, |ids|)]` in index order.
   */
  function Page(host: Host, certificates: map<Byte, Certificate>, ids: seq<CertificateId>, start: nat, limit: nat): (r: Result<seq<Certificate>>)
    ensures start >= |ids| ==> r == Ok([])
    ensures limit == 0 ==> r == Ok([])
    ensures r.Ok? ==> |r.value| == (if start >= |ids| then 0 else Min(start + limit, |ids|) - start)
  {
    if start >= |ids| then Ok([])
    else Fetch(host, certificates, ids[start..Min(start + limit, |ids|)])
  }

  /**
   * What a page holds: it fails exactly when an id of the slice has no
   * record, and its k-th record is the record of `ids[start + k]`.
   */
  lemma PageElements(host: Host, certificates: map<Byte, Certificate>, ids: seq<CertificateId>, start: nat, limit: nat)
    ensures var r := Page(host, certificates, ids, start, limit);
      && (r.Ok? <==> forall j | start <= j < Min(start + limit, |ids|) :: CertificateKey(host, ids[j]) in certificates)
      && (r.Ok? ==> forall k | 0 <= k < |r.value| ::
            start + k < |ids| && r.value[k] == certificates[CertificateKey(host, ids[start + k])])
  {
    if start < |ids| {
      var part := ids[start..Min(start + limit, |ids|)];
      forall j | start <= j < Min(start + limit, |ids|)
        ensures ids[j] == part[j - start]
      {
      }
    }
  }

  /** Fetching one more id: the records so far, then that id's record. */
  lemma FetchSnoc(host: Host, certificates: map<Byte, Certificate>, ids: seq<CertificateId>, id: CertificateId)
    ensures Fetch(host, certificates, ids + [id]) ==
      if Fetch(host, certificates, ids).Ok? && CertificateKey(host, id) in certificates
      then Ok(Fetch(host, certificates, ids).value + [certificates[CertificateKey(host, id)]])
      else Err(CertificateNotFound)
  {
    assert (ids + [id])[..|ids|] == ids;
  }

  /** Fetching a concatenation: it succeeds iff both parts do, with the records concatenated. */
  lemma FetchConcat(host: Host, certificates: map<Byte, Certificate>, a: seq<CertificateId>, b: seq<CertificateId>)
    ensures Fetch(host, certificates, a + b).Ok? <==> Fetch(host, certificates, a).Ok? && Fetch(host, certificates, b).Ok?
    ensures Fetch(host, certificates, a + b).Ok? ==>
      Fetch(host, certificates, a + b).value == Fetch(host, certificates, a).value + Fetch(host, certificates, b).value
  {
    var ab := a + b;
    var ra, rb, rab := Fetch(host, certificates, a), Fetch(host, certificates, b), Fetch(host, certificates, ab);
    if rab.Ok? {
      assert ra.Ok? && rb.Ok?;
      var joined := ra.value + rb.value;
      forall i | 0 <= i < |ab| ensures rab.value[i] == joined[i] {
        if i < |a| {
          assert ab[i] == a[i];
        } else {
          assert ab[i] == b[i - |a|];
        }
      }
      assert rab.value == joined;
    }
  }

  /** A page that starts inside the list fetches the slice from `start` to `hi`. */
  lemma PageIsFetch(host: Host, certificates: map<Byte, Certificate>, ids: seq<CertificateId>, start: nat, limit: nat, hi: nat)
    requires start < |ids| && hi == Min(start + limit, |ids|)
    ensures Page(host, certificates, ids, start, limit) == Fetch(host, certificates, ids[start..hi])
  {
  }

  /** Fetching a slice cut in two. */
  lemma FetchSlices(host: Host, certificates: map<Byte, Certificate>, ids: seq<CertificateId>, lo: nat, mid: nat, hi: nat)
    requires lo <= mid <= hi <= |ids|
    ensures var whole, left, right := Fetch(host, certificates, ids[lo..hi]), Fetch(host, certificates, ids[lo..mid]), Fetch(host, certificates, ids[mid..hi]);
      && (whole.Ok? <==> left.Ok? && right.Ok?)
      && (whole.Ok? ==> whole.value == left.value + right.value)
  {
    assert ids[lo..hi] == ids[lo..mid] + ids[mid..hi];
    FetchConcat(host, certificates, ids[lo..mid], ids[mid..hi]);
  }

  /** Consecutive pages tile the list: a page of `a` then a page of `b` is the page of `a + b`. */
  lemma PagesTile(host: Host, certificates: map<Byte, Certificate>, ids: seq<CertificateId>, start: nat, a: nat, b: nat)
    requires start + a < |ids|
    ensures var first, second := Page(host, certificates, ids, start, a), Page(host, certificates, ids, start + a, b);
      && (Page(host, certificates, ids, start, a + b).Ok? <==> first.Ok? && second.Ok?)
      && (first.Ok? && second.Ok? ==> Page(host, certificates, ids, start, a + b) == Ok(first.value + second.value))
  {
    var mid, hi := start + a, Min(start + a + b, |ids|);
    PageIsFetch(host, certificates, ids, start, a, mid);
    PageIsFetch(host, certificates, ids, mid, b, hi);
    PageIsFetch(host, certificates, ids, start, a + b, hi);
    FetchSlices(host, certificates, ids, start, mid, hi);
  }

  /** When the index lists resolve, every page of them succeeds. */
  lemma IndexedPagesSucceed(host: Host, rec: Records, slot: Byte, start: nat, limit: nat)
    requires Indexed(host, rec)
    ensures Page(host, rec.certificates, Lookup(rec.ownerLists, slot), start, limit).Ok?
    ensures Page(host, rec.certificates, Lookup(rec.issuerLists, slot), start, limit).Ok?
  {
    var owned, issued := Lookup(rec.ownerLists, slot), Lookup(rec.issuerLists, slot);
    if start < |owned| {
      var part := owned[start..Min(start + limit, |owned|)];
      forall i | 0 <= i < |part| ensures CertificateKey(host, part[i]) in rec.certificates {
        assert part[i] in owned;
      }
    }
    if start < |issued| {
      var part := issued[start..Min(start + limit, |issued|)];
      forall i | 0 <= i < |part| ensures CertificateKey(host, part[i]) in rec.certificates {
        assert part[i] in issued;
      }
    }
  }

  /**
   * The pagination loop shared by both listings: `for i in start..end`,
   * one `get_certificate` and one `push_back` per index. `start + limit` is
   * a `u32` sum and must not overflow.
   */
  method ListPage(host: Host, certificates: map<Byte, Certificate>, ids: seq<CertificateId>, startIndex: U32, limit: U32)
    returns (r: Result<seq<Certificate>>)
    requires startIndex >= |ids| || startIndex + limit < U32_LIMIT
    ensures r == Page(host, certificates, ids, startIndex, limit)
  {
    if startIndex >= |ids| {
      return Ok([]);
    }
    var start := startIndex;
    var end := Min(start + limit, |ids|);
    var page: seq<Certificate> := [];
    var i := start;
    while i < end
      invariant start <= i <= end
      invariant Fetch(host, certificates, ids[start..i]) == Ok(page)
    {
      var k := CertificateKey(host, ids[i]);
      if k !in certificates {
        assert ids[start..end][i - start] == ids[i];
        return Err(CertificateNotFound);
      }
      assert ids[start..i + 1] == ids[start..i] + [ids[i]];
      FetchSnoc(host, certificates, ids[start..i], ids[i]);
      page := page + [certificates[k]];
      i := i + 1;
    }
    r := Ok(page);
  }

  /** `list_certificates_by_owner`: a page of the owner's slot list. */
  method ListCertificatesByOwner(s: CertificationStorage, owner: Address, startIndex: U32, limit: U32)
    returns (r: Result<seq<Certificate>>)
    requires startIndex >= |s.OwnerCertificates(owner)| || startIndex + limit < U32_LIMIT
    ensures r == Page(s.host, s.certificates, s.OwnerCertificates(owner), startIndex, limit)
    ensures s.Valid() ==> r.Ok?
  {
    if s.Valid() {
      IndexedPagesSucceed(s.host, s.Persistent(), AddressKey(s.host, owner), startIndex, limit);
    }
    r := ListPage(s.host, s.certificates, s.OwnerCertificates(owner), startIndex, limit);
  }

  /** `list_certificates_by_issuer`: a page of the issuer's slot list. */
  method ListCertificatesByIssuer(s: CertificationStorage, issuer: Address, startIndex: U32, limit: U32)
    returns (r: Result<seq<Certificate>>)
    requires startIndex >= |s.IssuerCertificates(issuer)| || startIndex + limit < U32_LIMIT
    ensures r == Page(s.host, s.certificates, s.IssuerCertificates(issuer), startIndex, limit)
    ensures s.Valid() ==> r.Ok?
  {
    if s.Valid() {
      IndexedPagesSucceed(s.host, s.Persistent(), AddressKey(s.host, issuer), startIndex, limit);
    }
    r := ListPage(s.host, s.certificates, s.IssuerCertificates(issuer), startIndex, limit);
  }

  /**
   * `count_certificates_by_owner`: the length of the owner's slot list. Every
   * address sharing that slot gets the same count.
   */
  function CountCertificatesByOwner(s: CertificationStorage, owner: Address): (n: nat)
    reads s
    ensures forall other :: AddressKey(s.host, other) == AddressKey(s.host, owner) ==> n == |s.OwnerCertificates(other)|
  {
    |s.OwnerCertificates(owner)|
  }

  /**
   * `count_certificates_by_issuer`: the length of the issuer's slot list. Every
   * address sharing that slot gets the same count.
   */
  function CountCertificatesByIssuer(s: CertificationStorage, issuer: Address): (n: nat)
    reads s
    ensures forall other :: AddressKey(s.host, other) == AddressKey(s.host, issuer) ==> n == |s.IssuerCertificates(other)|
  {
    |s.IssuerCertificates(issuer)|
  }

  /** A page that starts at 0 and is as long as the count holds the whole list. */
  lemma CountBoundsPages(s: CertificationStorage, owner: Address)
    ensures var r := Page(s.host, s.certificates, s.OwnerCertificates(owner), 0, CountCertificatesByOwner(s, owner));
      r == Fetch(s.host, s.certificates, s.OwnerCertificates(owner))
      && (r.Ok? ==> |r.value| == CountCertificatesByOwner(s, owner))
  {
    var ids := s.OwnerCertificates(owner);
    if ids != [] {
      assert ids[0..Min(|ids|, |ids|)] == ids;
    }
  }
}
