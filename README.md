# QualiNova Soroban contracts in Dafny

This project models the Soroban smart contracts of QualiNova, a certification platform. It covers five contracts:

- **certification-issuance**: an admin with an issuer list. It issues certificates one at a time or in a batch, under ids derived from their content. It keeps owner and issuer index lists, transfers certificates, lists them a page at a time, revokes them, and gives a signature/expiry verdict.
- **verification contract**: looks up a certification held by another contract. It runs three checks: a signature check, an expiry check, and an authority check that falls back through several queries. It combines them into a verification report whose status follows a fixed precedence. It also builds the canonical byte message that is signed.
- **authority registry** and **entity registry**: keyed records with input checks in a fixed order, an id counter capped at ten, a whitelist of updatable field names, an Active to Inactive status machine, and lists that refuse duplicates.
- **certification-type catalog**: an id generator that names only three ids, a newest-first id list, a listing in registration order, an Active to Deprecated status machine, and edits refused on deprecated types.
- **audit trail**: records under counter-derived ids, an index per operation type and per subject, and a filtered search.

### Conventions of the model

- A contract's storage is a `class` whose fields are the storage entries. Methods that write storage carry `modifies` clauses. A snapshot datatype plus a pure transition function (`Issued`, `Transferred`, `Registered`, `Recorded`) state the new storage. A `WellFormed`/`Valid` invariant is proved to be preserved by every operation.
- Host primitives are uninterpreted function fields of `Prims.Host`: SHA-256 and the XDR serialisation of addresses and strings. The verification contract reaches SHA-256 and Ed25519 verification through the oracle fields `sha256` and `ed25519Verify` of `VerificationTypes.External`. Nothing about any of them is assumed, injectivity included.
- Storage keys of certificates, owner lists and issuer lists are the first byte of a SHA-256 digest. They are therefore not injective, and distinct certificates or addresses can share a slot (`CertStore.KeysCanCollide`).
- A panic reverts the whole invocation. The model returns an `Err` with one constructor per panic message and writes nothing.
- `require_auth(a)` is the check `a in auth`, where `auth` is the set of addresses that authorized the invocation.
- The ledger timestamp and sequence are inputs (`Prims.Ledger`).
- Calls into other contracts are oracle functions returning `Option` (`VerificationTypes.External`). `None` is a call that failed.
- `u32`/`u64` counters and sums get no-overflow preconditions where the source would trap.

## Model

| member | source | states |
|---|---|---|
| Sequences.LinearContains | apps/qualinova-contracts/contracts/certification-issuance/src/access_control.rs:150-159 | the scan for an equal element finds one exactly when the element is in the list |
| Sequences.FilterOut | apps/qualinova-contracts/contracts/certification-issuance/src/access_control.rs:117-130 | the filtered rebuild returns the list without every occurrence of the value, and whether it occurred |
| Sequences.WithoutMultiset | apps/qualinova-contracts/contracts/certification-issuance/src/access_control.rs:117-130 | the rebuilt list drops every occurrence of the value and keeps every other element with its multiplicity |
| Sequences.WithoutConcat | apps/qualinova-contracts/contracts/certification-issuance/src/transfer.rs:60-67 | filtering distributes over concatenation, so the kept elements stay in their original order |
| Sequences.WithoutKeepsNoDuplicates | apps/qualinova-contracts/contracts/authority-contract/src/authority.rs:196-206 | filtering a duplicate-free list leaves it duplicate-free |
| Sequences.NoDuplicatesSnoc | apps/qualinova-contracts/contracts/authority-contract/src/authority.rs:21-27 | appending keeps a list duplicate-free exactly when the new element is not already in it |
| Sequences.NoDuplicatesCons | apps/qualinova-contracts/contracts/certification-type-management/src/storage.rs:219-227 | prepending keeps a list duplicate-free exactly when the new element is not already in it |
| ByteCodec.LittleEndianTruncates | apps/qualinova-contracts/contracts/certification-issuance/src/issuance.rs:160-165 | decoding the least-significant-first bytes gives back the value modulo 256^n |
| ByteCodec.BigEndianTruncates | apps/qualinova-contracts/contracts/verification-contract/src/utils.rs:37-42 | decoding the most-significant-first bytes gives back the value modulo 256^n |
| ByteCodec.U64LittleEndianRoundTrip | apps/qualinova-contracts/contracts/certification-issuance/src/verification.rs:68-75 | a u64 written as 8 bytes least-significant first decodes back to itself |
| ByteCodec.U64BigEndianRoundTrip | apps/qualinova-contracts/contracts/verification-contract/src/utils.rs:37-42 | a u64 written by `to_be_bytes` decodes back to itself |
| ByteCodec.BigEndian4AsShifts | apps/qualinova-contracts/contracts/certification-issuance/src/issuance.rs:171-179 | the four shift-and-mask bytes are exactly the 4-byte most-significant-first encoding |
| ByteCodec.AppendLittleEndian64 | apps/qualinova-contracts/contracts/certification-issuance/src/issuance.rs:160-165 | the 8-step shift loop appends exactly the 8 least-significant-first bytes of the value |
| CertStore.Appended | apps/qualinova-contracts/contracts/certification-issuance/src/issuance.rs:203-214 | pushing an id on a slot's list appends it at the back of that slot and leaves every other slot unchanged |
| CertStore.KeysCanCollide | apps/qualinova-contracts/contracts/certification-issuance/src/issuance.rs:241-261 | the first-digest-byte keys are not injective: two distinct ids, and two distinct addresses, can share a slot |
| AccessControl.Initialize | apps/qualinova-contracts/contracts/certification-issuance/src/access_control.rs:16-28 | a stored admin makes it fail with no write; otherwise the admin is stored with an empty issuer list |
| AccessControl.GetAdmin | apps/qualinova-contracts/contracts/certification-issuance/src/access_control.rs:41-46 | fails with NotInitialized exactly when no admin is stored, otherwise returns it |
| AccessControl.RequireIssuer | apps/qualinova-contracts/contracts/certification-issuance/src/access_control.rs:173-185 | succeeds exactly when the admin exists and authorized, and then always returns the admin, never a listed issuer |
| AccessControl.IsIssuer | apps/qualinova-contracts/contracts/certification-issuance/src/access_control.rs:143-162 | true exactly when the address is the admin or occurs in the issuer list |
| AccessControl.TransferAdmin | apps/qualinova-contracts/contracts/certification-issuance/src/access_control.rs:49-64 | needs the current admin's authorization, replaces the admin and returns true; the old admin stays an issuer only if listed or the new admin |
| AccessControl.AddIssuer | apps/qualinova-contracts/contracts/certification-issuance/src/access_control.rs:67-97 | an already listed address gives false and no write; otherwise it is appended and true is returned; the list stays duplicate-free |
| AccessControl.RemoveIssuer | apps/qualinova-contracts/contracts/certification-issuance/src/access_control.rs:100-140 | an absent address gives false and no write; otherwise every occurrence is filtered out, other addresses kept |
| AccessControl.RevokeCertificate | apps/qualinova-contracts/contracts/certification-issuance/src/access_control.rs:188-218 | an empty slot fails; an already revoked record gives false and no write; otherwise only the revoked flag is set; no record is ever un-revoked |
| Issuance.IdPreimageTail | apps/qualinova-contracts/contracts/certification-issuance/src/issuance.rs:158-181 | the last 16 hashed bytes decode to the timestamp, the sequence and the timestamp's low 32 bits |
| Issuance.IdIgnoresUnhashedFields | apps/qualinova-contracts/contracts/certification-issuance/src/issuance.rs:139-187 | additional data does not affect the id; neither do expiration and signature, which are not inputs |
| Issuance.GenerateCertificateId | apps/qualinova-contracts/contracts/certification-issuance/src/issuance.rs:139-187 | the id is SHA-256 of owner, issuer, title, description and achievement type, then the ledger bytes |
| Issuance.IssueCanReplaceRevoked | apps/qualinova-contracts/contracts/certification-issuance/src/issuance.rs:44-47 | issuance overwrites its slot without looking, so a revoked record there is replaced by one that is not revoked |
| Issuance.IssuedKeepsIndexed | apps/qualinova-contracts/contracts/certification-issuance/src/issuance.rs:44-56 | after an issuance every id in an owner or issuer list still has a record in its slot |
| Issuance.BatchIds | apps/qualinova-contracts/contracts/certification-issuance/src/issuance.rs:87-127 | a batch names one id per input index: item i's id is the certificate id of item i's owner and metadata under the batch's single ledger |
| Issuance.BatchIdsCollide | apps/qualinova-contracts/contracts/certification-issuance/src/issuance.rs:87-127 | two batch items with the same owner, title, description and achievement type get the same id |
| Issuance.BatchCount | apps/qualinova-contracts/contracts/certification-issuance/src/issuance.rs:116-117 | a batch of n items raises the certificate count by exactly n |
| Issuance.BatchIssuerList | apps/qualinova-contracts/contracts/certification-issuance/src/issuance.rs:122-123 | the issuer's list gains the batch's ids at the back, in input order |
| Issuance.BatchOwnerLists | apps/qualinova-contracts/contracts/certification-issuance/src/issuance.rs:119-120 | each owner slot gains, in input order, the ids of the items whose owner maps to that slot |
| Issuance.BatchKeepsIndexed | apps/qualinova-contracts/contracts/certification-issuance/src/issuance.rs:87-127 | after a batch every listed id still has a record |
| Issuance.IncrementCertificateCount | apps/qualinova-contracts/contracts/certification-issuance/src/issuance.rs:190-194 | the count rises by exactly one |
| Issuance.AddToOwnerCertificates | apps/qualinova-contracts/contracts/certification-issuance/src/issuance.rs:203-214 | the owner's list gains the id at the back, every other slot unchanged |
| Issuance.AddToIssuerCertificates | apps/qualinova-contracts/contracts/certification-issuance/src/issuance.rs:217-228 | the issuer's list gains the id at the back, every other slot unchanged |
| Issuance.Store | apps/qualinova-contracts/contracts/certification-issuance/src/issuance.rs:30-56 | one issuance step: the record in its slot, the count plus one, the id on both lists |
| Issuance.IssueCertificate | apps/qualinova-contracts/contracts/certification-issuance/src/issuance.rs:16-65 | needs the admin's and the owner's authorization; stores the record with issuer = admin, issuance date = ledger time and not revoked; count plus one; id last on both lists |
| Issuance.FirstUnauthorized | apps/qualinova-contracts/contracts/certification-issuance/src/issuance.rs:87-94 | finds the first owner in input order that did not authorize |
| Issuance.StoreAll | apps/qualinova-contracts/contracts/certification-issuance/src/issuance.rs:87-127 | the batch loop returns the ids in input order and leaves the storage that n successive issuances give |
| Issuance.BatchIssueCertificates | apps/qualinova-contracts/contracts/certification-issuance/src/issuance.rs:68-136 | unequal input lengths fail before any write; an unauthorized owner fails with nothing stored; otherwise the ids in input order and the n issuances |
| Transfer.TransferKeepsIndexed | apps/qualinova-contracts/contracts/certification-issuance/src/transfer.rs:30-50 | a transfer keeps every listed id resolvable and the set of record slots unchanged |
| Transfer.TransferredOwnerLists | apps/qualinova-contracts/contracts/certification-issuance/src/transfer.rs:34-35 | the id ends last in the new owner's slot; it occurs exactly once there if both owners share a slot, and it is gone from a distinct old slot |
| Transfer.RemoveFromOwnerCertificates | apps/qualinova-contracts/contracts/certification-issuance/src/transfer.rs:54-75 | the owner's list is rebuilt without any entry equal to the id, the rest in order |
| Transfer.TransferCertificate | apps/qualinova-contracts/contracts/certification-issuance/src/transfer.rs:13-51 | absent fails; revoked gives false with no authorization and no write; otherwise both owners authorize and only the owner field and the two lists change |
| Query.GetCertificate | apps/qualinova-contracts/contracts/certification-issuance/src/query.rs:11-19 | fails exactly when the id's slot is empty, otherwise returns the slot's record |
| Query.Fetch | apps/qualinova-contracts/contracts/certification-issuance/src/query.rs:42-46 | fetching a run of ids succeeds exactly when every id has a record, element by element |
| Query.Page | apps/qualinova-contracts/contracts/certification-issuance/src/query.rs:32-46 | a start past the end or a limit of 0 gives an empty page; otherwise a page has min(start+limit, len) - start records |
| Query.PageElements | apps/qualinova-contracts/contracts/certification-issuance/src/query.rs:32-46 | a page fails exactly when an id in its range has no record; its k-th record is the record of ids[start+k] |
| Query.PagesTile | apps/qualinova-contracts/contracts/certification-issuance/src/query.rs:32-46 | a page of a+b items is the page of a items followed by the page that starts a items later |
| Query.IndexedPagesSucceed | apps/qualinova-contracts/contracts/certification-issuance/src/query.rs:42-46 | over well-indexed storage no page of an owner or issuer list fails |
| Query.ListPage | apps/qualinova-contracts/contracts/certification-issuance/src/query.rs:32-46 | the pagination loop computes exactly Page |
| Query.ListCertificatesByOwner | apps/qualinova-contracts/contracts/certification-issuance/src/query.rs:22-49 | the page of the owner's slot list, and it never fails on valid storage |
| Query.ListCertificatesByIssuer | apps/qualinova-contracts/contracts/certification-issuance/src/query.rs:52-79 | the page of the issuer's slot list, and it never fails on valid storage |
| Query.CountCertificatesByOwner | apps/qualinova-contracts/contracts/certification-issuance/src/query.rs:92-94 | the length of the owner's slot list, shared by every address in that slot |
| Query.CountCertificatesByIssuer | apps/qualinova-contracts/contracts/certification-issuance/src/query.rs:97-99 | the length of the issuer's slot list, shared by every address in that slot |
| Query.CountBoundsPages | apps/qualinova-contracts/contracts/certification-issuance/src/query.rs:92-94 | a page from 0 with the count as limit covers the whole list |
| CertVerification.VerificationPreimageLayout | apps/qualinova-contracts/contracts/certification-issuance/src/verification.rs:52-90 | the signed data starts with the 32 id bytes, and its tail decodes to the issuance date and to the expiration when set |
| CertVerification.VerificationPreimageIgnores | apps/qualinova-contracts/contracts/certification-issuance/src/verification.rs:52-90 | revoked flag, signature and additional data do not enter the message |
| CertVerification.CreateVerificationMessage | apps/qualinova-contracts/contracts/certification-issuance/src/verification.rs:52-90 | the message is SHA-256 of the id, parties, metadata strings and dates |
| CertVerification.IssuerPublicKey | apps/qualinova-contracts/contracts/certification-issuance/src/verification.rs:93-100 | the stand-in key is SHA-256 of the issuer's XDR, so its first byte is the issuer's list slot |
| CertVerification.VerifyCertificateSignature | apps/qualinova-contracts/contracts/certification-issuance/src/verification.rs:7-49 | an empty slot fails; otherwise true exactly when not revoked and the ledger time is not past the expiration |
| CertVerification.RevokedNeverVerifies | apps/qualinova-contracts/contracts/certification-issuance/src/verification.rs:19-21 | a revoked record never verifies, at any time |
| CertVerification.ExpiryInclusive | apps/qualinova-contracts/contracts/certification-issuance/src/verification.rs:24-29 | at the expiration instant the verdict is as with no expiration; one second later it is false |
| VerificationStorage.GetAdmin | apps/qualinova-contracts/contracts/verification-contract/src/storage.rs:39-46 | NotInitialized exactly when no admin is stored |
| VerificationStorage.SetAdmin | apps/qualinova-contracts/contracts/verification-contract/src/storage.rs:49-56 | AlreadyInitialized with no write when an admin exists, otherwise stores it |
| VerificationStorage.GetAuthorityContractId | apps/qualinova-contracts/contracts/verification-contract/src/storage.rs:59-63 | ContractReferenceNotSet exactly when unset |
| VerificationStorage.SetAuthorityContractId | apps/qualinova-contracts/contracts/verification-contract/src/storage.rs:65-68 | stores the reference |
| VerificationStorage.GetCertificationContractId | apps/qualinova-contracts/contracts/verification-contract/src/storage.rs:71-75 | ContractReferenceNotSet exactly when unset |
| VerificationStorage.SetCertificationContractId | apps/qualinova-contracts/contracts/verification-contract/src/storage.rs:77-80 | stores the reference |
| VerificationStorage.GetCertification | apps/qualinova-contracts/contracts/verification-contract/src/storage.rs:83-94 | a failed call becomes CertificationNotFound, a successful one is returned unchanged |
| VerificationStorage.CertificationExists | apps/qualinova-contracts/contracts/verification-contract/src/storage.rs:97-108 | a failed call becomes ExternalContractError |
| VerificationStorage.GetAuthorityPublicKey | apps/qualinova-contracts/contracts/verification-contract/src/storage.rs:111-135 | one attempt; a failure becomes InvalidAuthority |
| VerificationStorage.ValidateAuthorityForCertType | apps/qualinova-contracts/contracts/verification-contract/src/storage.rs:138-174 | the primary answer unchanged; else verify_authority false gives false, true gives membership of the type, failure gives ExternalContractError; true only via one of the two routes |
| VerificationStorage.FallbackNeedsListedType | apps/qualinova-contracts/contracts/verification-contract/src/storage.rs:147-169 | when the primary query fails, true means exactly a verified authority that lists the type |
| VerificationUtils.CertificationMessageLayout | apps/qualinova-contracts/contracts/verification-contract/src/utils.rs:9-54 | length is the six field lengths plus 54; zero separators after each field; both big-endian dates decode back; the last 32 bytes are the evidence hash |
| VerificationUtils.CertificationMessageIgnores | apps/qualinova-contracts/contracts/verification-contract/src/utils.rs:9-54 | status and signature do not enter the message |
| VerificationUtils.CreateCertificationMessage | apps/qualinova-contracts/contracts/verification-contract/src/utils.rs:9-54 | the byte-pushing loops build exactly the canonical message |
| VerificationUtils.ValidateHash | apps/qualinova-contracts/contracts/verification-contract/src/utils.rs:62-64 | true exactly when the two hashes agree at every index |
| VerificationLib.Initialize | apps/qualinova-contracts/contracts/verification-contract/src/lib.rs:28-47 | AlreadyInitialized with no write when an admin exists; otherwise the admin and both references are stored |
| VerificationLib.VerifyById | apps/qualinova-contracts/contracts/verification-contract/src/lib.rs:51-62 | returns the certification exactly when Active; Revoked, Suspended and Expired give their errors |
| VerificationLib.CheckAuthenticSignature | apps/qualinova-contracts/contracts/verification-contract/src/lib.rs:66-86 | true exactly when the key lookup succeeds and Ed25519 accepts the signature over SHA-256 of the message; never aborts |
| VerificationLib.ValidateExpiryDate | apps/qualinova-contracts/contracts/verification-contract/src/lib.rs:89-98 | true exactly when the ledger time is at most the expiry date |
| VerificationLib.ValidateAuthority | apps/qualinova-contracts/contracts/verification-contract/src/lib.rs:101-110 | the fallback chain for the certification's authority and type |
| VerificationLib.ReportStatus | apps/qualinova-contracts/contracts/verification-contract/src/lib.rs:123-132 | stored Revoked/Suspended/Expired win; Active is Valid exactly when all three checks pass, Expired on a failed expiry, otherwise Invalid |
| VerificationLib.GenerateVerificationReport | apps/qualinova-contracts/contracts/verification-contract/src/lib.rs:113-151 | only a missing certification (or an uncaught abort) fails; failed checks count as false; the report copies the fields and stamps the ledger time |
| VerificationLib.ValidReportMeansAllChecks | apps/qualinova-contracts/contracts/verification-contract/src/lib.rs:113-132 | a Valid report means lookup, expiry, signature and authority checks all succeeded with true |
| AuthorityRegistry.AuthorityIdFor | apps/qualinova-contracts/contracts/authority-contract/src/authority.rs:45-70 | counter 1..10 names AUTH_n; 0 and values above 10 fail |
| AuthorityRegistry.AuthorityIdsDistinct | apps/qualinova-contracts/contracts/authority-contract/src/authority.rs:45-70 | distinct counter values name distinct authorities |
| AuthorityRegistry.RegistryCapped | apps/qualinova-contracts/contracts/authority-contract/src/authority.rs:45-70 | a valid registry holds at most ten authorities and its counter never passes 11 |
| AuthorityRegistry.RegisterCheckPasses | apps/qualinova-contracts/contracts/authority-contract/src/authority.rs:11-36 | a registration that passes its checks had authorization, non-empty name and accreditation, distinct types, a free key and a counter in 1..10 |
| AuthorityRegistry.RegisteredKeepsWellFormed | apps/qualinova-contracts/contracts/authority-contract/src/authority.rs:72-102 | registration keeps records under their keys, the key list duplicate-free and in step with the records, ids AUTH_1.. in order, and the counter one past the count |
| AuthorityRegistry.AllUnique | apps/qualinova-contracts/contracts/authority-contract/src/authority.rs:21-27 | the seen-list loop accepts exactly the duplicate-free type lists |
| AuthorityRegistry.RegisterAuthority | apps/qualinova-contracts/contracts/authority-contract/src/authority.rs:4-105 | the checks fail in source order with no write; otherwise an Active record stamped with the ledger time, the key appended, the counter plus one |
| AuthorityRegistry.UpdateAuthorityInfo | apps/qualinova-contracts/contracts/authority-contract/src/authority.rs:107-132 | absent or inactive fails; only name or accreditation_info change; any other field name is refused |
| AuthorityRegistry.VerifyAuthority | apps/qualinova-contracts/contracts/authority-contract/src/authority.rs:134-140 | true exactly when the authority exists and is Active |
| AuthorityRegistry.GetAuthority | apps/qualinova-contracts/contracts/authority-contract/src/authority.rs:217-222 | the stored record; an unknown key fails; on valid storage the record carries the requested public key and duplicate-free types |
| AuthorityRegistry.DeactivateAuthority | apps/qualinova-contracts/contracts/authority-contract/src/authority.rs:142-159 | absent or already inactive fails; otherwise Inactive, after which it no longer verifies and stays stored |
| AuthorityRegistry.InactiveKeyCannotRegister | apps/qualinova-contracts/contracts/authority-contract/src/authority.rs:29-36 | a deactivated key is refused by every later registration |
| AuthorityRegistry.AddCertificationType | apps/qualinova-contracts/contracts/authority-contract/src/authority.rs:161-182 | inactive or duplicate fails; otherwise the type is appended |
| AuthorityRegistry.RemoveCertificationType | apps/qualinova-contracts/contracts/authority-contract/src/authority.rs:184-215 | inactive or missing fails; otherwise every occurrence is filtered out, the rest in order |
| EntityRegistry.EntityIdFor | apps/qualinova-contracts/contracts/entity-contract/src/entity.rs:44-62 | counter 1..10 names ENT_n; 0 and values above 10 fail |
| EntityRegistry.EntityIdsDistinct | apps/qualinova-contracts/contracts/entity-contract/src/entity.rs:44-62 | distinct counter values name distinct entities |
| EntityRegistry.RegisteredKeepsWellFormed | apps/qualinova-contracts/contracts/entity-contract/src/entity.rs:64-96 | registration keeps the registry invariant: records under their keys with non-empty fields, key list in step, ids ENT_1.. in order |
| EntityRegistry.RegisterEntity | apps/qualinova-contracts/contracts/entity-contract/src/entity.rs:4-99 | the emptiness checks in source order, then the free key and the counter; otherwise an Active record with no certifications, appended to the key list |
| EntityRegistry.WithFieldChangesOneField | apps/qualinova-contracts/contracts/entity-contract/src/entity.rs:113-136 | an accepted update changes exactly the named field |
| EntityRegistry.UpdateEntityInfo | apps/qualinova-contracts/contracts/entity-contract/src/entity.rs:101-142 | absent or inactive fails; only the four named fields, each with a non-empty value; other names are refused |
| EntityRegistry.GetEntity | apps/qualinova-contracts/contracts/entity-contract/src/entity.rs:204-208 | the stored record; an unknown key fails |
| EntityRegistry.VerifyEntity | apps/qualinova-contracts/contracts/entity-contract/src/entity.rs:144-151 | true exactly when the entity exists and is Active |
| EntityRegistry.ListEntityCertifications | apps/qualinova-contracts/contracts/entity-contract/src/entity.rs:194-202 | the stored list, duplicate-free on valid storage; an unknown key fails |
| EntityRegistry.DeactivateEntity | apps/qualinova-contracts/contracts/entity-contract/src/entity.rs:153-171 | absent or already inactive fails; otherwise Inactive and no longer verified |
| EntityRegistry.AddCertification | apps/qualinova-contracts/contracts/entity-contract/src/entity.rs:173-192 | absent, inactive or already associated fails; otherwise the id is appended |
| EntityAdmin.Initialize | apps/qualinova-contracts/contracts/entity-contract/src/admin.rs:4-22 | refused once an admin exists; otherwise needs the admin's authorization and resets the key list and the counter to 1 |
| EntityAdmin.InitializeAfterRegistrationResets | apps/qualinova-contracts/contracts/entity-contract/src/admin.rs:7-16 | initializing after a registration breaks the registry invariant and names the next entity ENT_1 again |
| EntityAdmin.GetAdmin | apps/qualinova-contracts/contracts/entity-contract/src/admin.rs:24-29 | fails with AdminNotSet exactly before initialization |
| EntityAdmin.IsAdmin | apps/qualinova-contracts/contracts/entity-contract/src/admin.rs:31-34 | true exactly when the address is the stored admin |
| EntityAdmin.RequireAdmin | apps/qualinova-contracts/contracts/entity-contract/src/admin.rs:36-41 | succeeds exactly when the address authorized and is the admin; otherwise Unauthorized, AdminNotSet or NotAdmin |
| EntityAdmin.TransferAdmin | apps/qualinova-contracts/contracts/entity-contract/src/admin.rs:43-45 | the admin is replaced only after the current admin passes require_admin |
| CertType.New | apps/qualinova-contracts/contracts/certification-type-management/src/types.rs:27-49 | the given fields copied; no evidence, empty requirements, no authorities, Active, no deprecation reason |
| CertTypeCatalog.IdFor | apps/qualinova-contracts/contracts/certification-type-management/src/storage.rs:49-55 | counter 0 names CERT_TYPE_A, 1 names CERT_TYPE_B, every later value CERT_TYPE_C |
| CertTypeCatalog.IdForCollides | apps/qualinova-contracts/contracts/certification-type-management/src/storage.rs:49-55 | two counter values share an id exactly when both are past 1 |
| CertTypeCatalog.ListingOfPrepended | apps/qualinova-contracts/contracts/certification-type-management/src/storage.rs:155-168 | a registered id pushed to the front has its record listed last: the listing is in registration order |
| CertTypeCatalog.ListingReversesIds | apps/qualinova-contracts/contracts/certification-type-management/src/storage.rs:155-168 | when every listed id is stored the listing is the id list reversed, record by record |
| CertTypeCatalog.Editable | apps/qualinova-contracts/contracts/certification-type-management/src/storage.rs:102-107 | the edits' shared check: NotFound for an unknown id, AlreadyDeprecated for a deprecated one |
| CertTypeCatalog.RegisteredKeepsWellFormed | apps/qualinova-contracts/contracts/certification-type-management/src/storage.rs:80-89 | registration keeps ids and records in step, each record under its own id |
| CertTypeCatalog.RegistrationRevivesDeprecated | apps/qualinova-contracts/contracts/certification-type-management/src/storage.rs:67-84 | a third or later registration replaces a deprecated CERT_TYPE_C with an active record |
| CertTypeCatalog.GenerateCertTypeId | apps/qualinova-contracts/contracts/certification-type-management/src/storage.rs:37-56 | names the counter's value (0 when unset) and writes it back plus one |
| CertTypeCatalog.RegisterCertificationType | apps/qualinova-contracts/contracts/certification-type-management/src/storage.rs:59-92 | a fresh record under the next id, overwriting, the id pushed to the front; the new record comes last in the listing |
| CertTypeCatalog.UpdateCertificationType | apps/qualinova-contracts/contracts/certification-type-management/src/storage.rs:95-125 | NotFound, then AlreadyDeprecated, then only description or verification_requirements; any other name is InvalidField with no write |
| CertTypeCatalog.DeprecateCertificationType | apps/qualinova-contracts/contracts/certification-type-management/src/storage.rs:128-152 | an active record becomes Deprecated with the reason, after which every edit is refused |
| CertTypeCatalog.ListAllCertificationTypes | apps/qualinova-contracts/contracts/certification-type-management/src/storage.rs:155-168 | the loop that pushes found records to the front builds exactly the listing: the id list reversed, missing ids skipped |
| CertTypeCatalog.GetCertificationTypeDetails | apps/qualinova-contracts/contracts/certification-type-management/src/storage.rs:171-177 | the stored record, NotFound otherwise |
| CertTypeCatalog.SetRequiredEvidence | apps/qualinova-contracts/contracts/certification-type-management/src/storage.rs:180-203 | NotFound, then AlreadyDeprecated; otherwise the evidence list is replaced wholesale |
| CertTypeCatalog.AssignAuthorityToCertType | apps/qualinova-contracts/contracts/certification-type-management/src/storage.rs:206-236 | NotFound, then AlreadyDeprecated, then AlreadyExists for a listed authority; otherwise it is prepended and the list stays duplicate-free |
| AuditTrail.AuditIdFor | apps/qualinova-contracts/contracts/audit-trail/src/lib.rs:127-138 | counter n names audit-00n for 1..9 and audit-010 otherwise |
| AuditTrail.AuditIdsDistinct | apps/qualinova-contracts/contracts/audit-trail/src/lib.rs:127-138 | two counter values share an id exactly when both are at least 10 |
| AuditTrail.NextIdIsFresh | apps/qualinova-contracts/contracts/audit-trail/src/lib.rs:122-138 | up to the tenth record each new id has never been named |
| AuditTrail.Recorded | apps/qualinova-contracts/contracts/audit-trail/src/lib.rs:141-164 | the record is stored under its id, the id is pushed at the back of its type's and subject's index, other indexes unchanged, counter plus one |
| AuditTrail.RecordedKeepsWellFormed | apps/qualinova-contracts/contracts/audit-trail/src/lib.rs:141-164 | recording keeps records under their ids, all keys named by the counter, and every indexed id resolvable |
| AuditTrail.RecordedKeepsConsistent | apps/qualinova-contracts/contracts/audit-trail/src/lib.rs:151-164 | a record under a fresh id keeps every index entry pointing at a record of that type and subject |
| AuditTrail.OverwriteLeavesStaleIndex | apps/qualinova-contracts/contracts/audit-trail/src/lib.rs:137-158 | once ids repeat, an overwritten record leaves its old type's index pointing at a record of another type |
| AuditTrail.CollectMembers | apps/qualinova-contracts/contracts/audit-trail/src/lib.rs:175-179 | every collected record is the record of some listed id |
| AuditTrail.CollectComplete | apps/qualinova-contracts/contracts/audit-trail/src/lib.rs:175-179 | every listed id that has a record contributes that record |
| AuditTrail.CollectElements | apps/qualinova-contracts/contracts/audit-trail/src/lib.rs:175-179 | when every listed id has a record, the result has one record per id, the j-th being the record of the j-th id |
| AuditTrail.IndexesResolve | apps/qualinova-contracts/contracts/audit-trail/src/lib.rs:151-164 | on well-formed storage every id of every type or subject index has a record |
| AuditTrail.FilterMembers | apps/qualinova-contracts/contracts/audit-trail/src/lib.rs:493-516 | a record is in the filtered list exactly when it is in the list and passes the filters |
| AuditTrail.SearchIsFilteredCollect | apps/qualinova-contracts/contracts/audit-trail/src/lib.rs:437-521 | the search is the index's records, in index order, filtered |
| AuditTrail.SearchComplete | apps/qualinova-contracts/contracts/audit-trail/src/lib.rs:437-521 | every record of the searched index that passes the filters is in the result |
| AuditTrail.SearchSatisfiesFilters | apps/qualinova-contracts/contracts/audit-trail/src/lib.rs:437-521 | every result passes the time window (inclusive) and performer filters and, on the intersection path, the type; with consistent indexes also the requested type and subject |
| AuditTrail.RecordAuditEvent | apps/qualinova-contracts/contracts/audit-trail/src/lib.rs:107-167 | performed_by authorizes; the storage becomes Recorded under the counter's next id, stamped with the ledger time; keeps the invariants |
| AuditTrail.CollectRecords | apps/qualinova-contracts/contracts/audit-trail/src/lib.rs:174-181 | the loop returns the records of the ids in order, skipping ids with no record |
| AuditTrail.GetAuditTrail | apps/qualinova-contracts/contracts/audit-trail/src/lib.rs:170-182 | the subject index's records in recording order; every indexed record is included; on valid storage exactly one per index entry, in index order; all of that subject when the indexes are consistent |
| AuditTrail.GetAuditsByType | apps/qualinova-contracts/contracts/audit-trail/src/lib.rs:200-212 | the type index's records in recording order; every indexed record is included; on valid storage exactly one per index entry, in index order; all of that type when the indexes are consistent |
| AuditTrail.SearchAuditRecords | apps/qualinova-contracts/contracts/audit-trail/src/lib.rs:437-521 | the filter loop over the chosen index computes exactly the filtered listing: every result passes the filters and every indexed record that passes them is found |
| AuditTrail.GetAuditsByTimeframe | apps/qualinova-contracts/contracts/audit-trail/src/lib.rs:185-197 | always empty, since neither type nor subject is given |
| AuditTrail.GetAuditRecord | apps/qualinova-contracts/contracts/audit-trail/src/lib.rs:524-526 | the record stored under the id, if any |

## Left out

- Events (`env.events().publish`), logging and the allocator set-up have no effect on storage or results, so they are not modelled.
- `export_audit_report` (audit-trail lib.rs, lines 215-434) only formats string-keyed maps and is not modelled. Nor are the aliases `create_audit_record` and `get_by_type`, which only forward to the modelled operations.
- The contract entry points in each `lib.rs` that only forward to the modelled functions are not repeated. The exception is the entity contract's `initialize` guard, which is folded into `EntityAdmin.Initialize`.
- Simple getters without logic are left out: `get_issuers`, `is_initialized`, `get_certificate_count`, `get_owner_certificates`. The last two appear as the `certCount` field and `OwnerCertificates`.
- The authority contract's `admin.rs` and `lib.rs` set-up, the verification contract's `auth.rs` and `hash_evidence` are not part of this model. The Ed25519 check behind `check_authentic_signature` is an oracle of `VerificationTypes.External`.
- CertVerification.VerifyCertificateSignature: the Ed25519 call on a zero placeholder signature is treated as having no effect, as its discarded result suggests. The host function aborts the invocation when verification fails, and that is not modelled.
- VerificationLib.CheckAuthenticSignature: the host's Ed25519 verification is an oracle that returns a boolean. An abort of the host function is not modelled.
- VerificationStorage.ValidateAuthorityForCertType: the unguarded `get_authority` call of the fallback is `HostTrap`, which aborts the invocation. Decoding the returned value into `allowed_cert_types` is folded into the same oracle.
- Numeric error codes are constructors of each contract's `Error` datatype. The verification contract's `Error` carries an extra `HostTrap` for aborts that no handler catches.
- Issuance.IncrementCertificateCount, Issuance.IssueCertificate, Issuance.BatchIssueCertificates: they require the `u32` count not to overflow instead of modelling the overflow trap.
- Query.ListPage, Query.ListCertificatesByOwner, Query.ListCertificatesByIssuer: they require that `start + limit` does not overflow a `u32` whenever `start` is inside the list, instead of modelling the trap.
- CertTypeCatalog.GenerateCertTypeId, CertTypeCatalog.RegisterCertificationType, AuditTrail.RecordAuditEvent: they require the `u64` counter not to overflow.
- Issuance.BatchIssueCertificates: every owner's authorization is checked before the first write. In the source a missing authorization aborts midway, and the abort reverts the earlier writes, so the outcome is the same.
- Query.ListPage: a failing `get_certificate` aborts the whole listing. The model returns `CertificateNotFound` for the whole page.
- Authorization beyond `require_auth` is not modelled: Soroban's authorization trees and nonces are reduced to the set of addresses that authorized the invocation.
