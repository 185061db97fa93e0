# Kyp chaincode: a Dafny model

`Kyp` is a Hyperledger Fabric chaincode. It stores one record per identity on a key-value
world state. A **patient** record (created by an identity whose `role` attribute is
`client`) has an access list, an allowed list and a medical-information log. A **doctor**
record (role `doctor`) has only an allowed list. A patient grants another identity access
with `addPermission`. The grant is written on both sides: `{id, role}` is pushed onto the
patient's access list and `{caller, callerRole}` onto the grantee's allowed list.
`deletePermission` filters both entries out again. A doctor on a patient's access list may
append entries to that patient's medical log. The read-only transactions return a record's
lists or answer whether the caller is permitted.

The project has these files:

- `results.dfy` (`Results`): `Option`, `Result` and the chaincode's error conditions. These
  are a refused role, a missing record, a caller without permission, and the JavaScript
  `TypeError` raised when a doctor record's missing `access_list` is filtered.
- `strings.dfy` (`Strings`): `indexOf` and `String.prototype.split` for a non-empty separator.
  `split` is proved to lose nothing: joining the pieces back gives the string.
- `identity.dfy` (`Identity`): `getCallerId` on the credential string, and the role assertion.
- `records.dfy` (`Records`): the record datatypes, the world state `map<string, Record>`,
  and the list operations: `filter`, the id membership test, the guarded `push` and the
  removal by id.
- `queries.dfy` (`Queries`): the six read-only transactions as functions of the state.
- `transitions.dfy` (`Transitions`): the five writing transactions as functions from the
  state before to the new state or the error.
- `contract.dfy` (`Contract`): class `Kyp` holding the world state as a mutable field. Its
  methods are the writing transactions written imperatively: read the records, change local
  copies, put them back key by key. Each method is proved to commit exactly what its
  `Transitions` function prescribes, and nothing on failure. `GrantLifecycle` runs one
  grant from creation to revocation on a fresh contract.
- `properties.dfy` (`Properties`): invariants and relations across transactions. These
  cover id-uniqueness preservation, idempotence, revocation undoing a fresh grant, grants and
  revocations leaving every medical log intact, and two-sided consistency. Concrete lemmas
  show where these do not hold: a self-grant breaks consistency, and re-creating a record
  breaks it and throws the record's medical log away.

Inputs. The caller id, the caller's `role` attribute and the date are parameters of the
ledger transactions. The role attribute is an `Option<string>`, because Fabric's
`getAttributeValue` answers `null` for an absent attribute. `getCallerRole` is therefore
that parameter. `getCallerId` is modelled separately, as `Identity.CallerId` on the
credential string.

Behaviour of the code that the model keeps and a reader might not expect:

- An absent role attribute is passed on as `null` (`None`), not as an empty string. It is
  stored as-is in the grantee's allowed list.
- `checkMyPermissionStatus` fails on a missing record, and also with a `TypeError` when the
  record under `patientId` is a doctor record.
- When `id` is the caller itself, `addPermission` and `deletePermission` write the caller's
  key twice. The second write, carrying only the allowed-list change, is the one that stays.
- Re-creating a record replaces it unconditionally, including patient by doctor and vice versa,
  and so throws its medical log away.

## Model

| member | source | states |
|---|---|---|
| Transitions.CreatePatientRecord | kyp/javascript/lib/kyp.js:15-32 | fails exactly when the role is not `client`, with that error; on success the caller maps to an empty patient record, whatever was there, the keys are the old keys plus the caller, and no other key changes |
| Transitions.CreateDoctorRecord | kyp/javascript/lib/kyp.js:38-54 | as above for role `doctor` and an empty doctor record |
| Transitions.WritePatientRecord | kyp/javascript/lib/kyp.js:62-98 | succeeds exactly when the role is `doctor`, the patient record exists and is a patient's, and the caller is on its access list; each failing condition gives its own error, in the code's order; on success exactly one entry `{date, caller, info}` is appended to the log, both lists and every other key are unchanged |
| Transitions.AddPermission | kyp/javascript/lib/kyp.js:238-280 | succeeds exactly when both records exist and the caller's is a patient's, with NotFound(caller), NotFound(id), TypeError in that order otherwise; for a different id the caller's access list gets the guarded push of `{id, role}` and the target's allowed list that of `{caller, callerRole}`; for a self-grant only the allowed-list change survives; other keys unchanged |
| Transitions.DeletePermission | kyp/javascript/lib/kyp.js:287-317 | same success condition and errors as the grant; the caller's access list loses every entry for `id` and the target's allowed list every entry for the caller; for a self-revoke only the allowed-list change survives; other keys unchanged |
| Contract.Kyp.CreatePatientRecord | kyp/javascript/lib/kyp.js:15-32 | the imperative transaction returns `true` and leaves exactly the state `Transitions.CreatePatientRecord` prescribes, or returns its error and leaves the state unchanged |
| Contract.Kyp.CreateDoctorRecord | kyp/javascript/lib/kyp.js:38-54 | as above, against `Transitions.CreateDoctorRecord` |
| Contract.Kyp.WritePatientRecord | kyp/javascript/lib/kyp.js:62-98 | the check-then-push-then-put transaction commits exactly `Transitions.WritePatientRecord`, or its error with no change |
| Contract.Kyp.AddPermission | kyp/javascript/lib/kyp.js:238-280 | the two guarded pushes and the two sequential writes, caller key first, commit exactly `Transitions.AddPermission`, including the self-grant overwrite |
| Contract.Kyp.DeletePermission | kyp/javascript/lib/kyp.js:287-317 | the two filters, field reassignments and sequential writes commit exactly `Transitions.DeletePermission` |
| Contract.GrantLifecycle | kyp/javascript/lib/kyp.js:15-317 | on a fresh contract: `alice` (client) and `bob` (doctor) create records, `alice` grants `bob`, `bob` writes once, and the log is exactly that entry; after `alice` revokes, `bob`'s next write is refused with NotAllowed |
| Queries.GetMyMedicalInfo | kyp/javascript/lib/kyp.js:104-115 | fails exactly when the caller has no record; otherwise the patient's log, and no value for a doctor record |
| Queries.GetMedicalInfoByPatientId | kyp/javascript/lib/kyp.js:117-136 | succeeds exactly when the record exists, is a patient's and names the caller on its access list, and then returns the log verbatim; NotFound, TypeError or NotAllowed otherwise |
| Queries.GetDoctorList | kyp/javascript/lib/kyp.js:142-164 | client only; succeeds exactly when the caller's patient record exists; the result holds exactly the access-list entries whose role is `doctor` |
| Queries.GetAccessList | kyp/javascript/lib/kyp.js:170-187 | client only; fails exactly on a wrong role or a missing record; returns the stored access list unchanged, and no value for a doctor record |
| Queries.GetAllowedList | kyp/javascript/lib/kyp.js:193-204 | no role check; fails exactly when the caller has no record, and otherwise returns its allowed list unchanged |
| Queries.CheckMyPermissionStatus | kyp/javascript/lib/kyp.js:211-230 | fails exactly when the record is missing or is a doctor's; otherwise answers whether some access-list entry has the caller's id |
| Queries.PermissionStatusGatesInfo | kyp/javascript/lib/kyp.js:117-136 | the guarded read succeeds exactly when the check answers `true`, is refused exactly when it answers `false`, and otherwise fails with the check's error |
| Queries.DoctorListFiltersAccessList | kyp/javascript/lib/kyp.js:142-187 | the doctor list is available exactly when the access list is, and is its doctor entries |
| Identity.CallerId | kyp/javascript/lib/kyp.js:320-326 | fails with a TypeError exactly when the credential has no `::`; otherwise yields no id exactly when the second `::` piece has no `CN=`; an id it returns contains no `CN=` |
| Identity.CallerIdOfCredential | kyp/javascript/lib/kyp.js:320-325 | for `<scheme>::<dn head>CN=<cn><dn tail>::<issuer>` with no colon before the issuer, no `CN=` in the head or in `cn`, and a tail that is empty or starts with `CN=`, the id is `cn` |
| Identity.CallerIdWithoutCommonName | kyp/javascript/lib/kyp.js:323-324 | any credential with a second `::` piece that has no `CN=` yields no id, and that is not a failure |
| Identity.SubjectSegment | kyp/javascript/lib/kyp.js:323 | when neither the scheme nor the subject contains a colon, the second `::` piece of `<scheme>::<subject>::<issuer>` is the subject |
| Identity.HasRole | kyp/javascript/lib/kyp.js:18 | the role assertion of every gated transaction (also lines 41, 67, 147, 175): an absent role attribute never passes, and a passing one equals the expected role exactly |
| Identity.SampleCredential | kyp/javascript/lib/kyp.js:322-324 | for a user with no colon and no `CN=`, the credential `x509::/OU=client/CN=<user>::/CN=ca.org1.example.com` yields the id `user` |
| Strings.IndexOf | kyp/javascript/lib/kyp.js:323-324 | the result is the first occurrence of the separator, and none means it occurs nowhere |
| Strings.Split | kyp/javascript/lib/kyp.js:323-324 | at least one piece, and exactly one when the separator does not occur |
| Strings.SplitJoin | kyp/javascript/lib/kyp.js:323-324 | joining the pieces with the separator gives back the string |
| Strings.SplitPiecesFree | kyp/javascript/lib/kyp.js:324 | no piece contains the separator |
| Strings.FirstOccurrence | kyp/javascript/lib/kyp.js:323-324 | the first occurrence in `a + sep + b` is at `|a|` when none starts inside `a` |
| Strings.SplitAtFirst | kyp/javascript/lib/kyp.js:323-324 | when no occurrence of `sep` starts inside `a`, the split of `a + sep + b` is `a` followed by the split of `b` |
| Records.Filter | kyp/javascript/lib/kyp.js:79-81 | the result is no longer than the list and holds exactly the list's elements that pass the test |
| Records.FilterConcat | kyp/javascript/lib/kyp.js:303-311 | filtering distributes over concatenation, so survivors keep their order |
| Records.FilterAll | kyp/javascript/lib/kyp.js:303-311 | a filter every element passes returns the list unchanged |
| Records.HasIdIsNonEmptyFilter | kyp/javascript/lib/kyp.js:79-84 | the id membership test holds exactly when `filter(e => e.id == id)` is non-empty |
| Records.AddGrant | kyp/javascript/lib/kyp.js:256-274 | the list is a prefix of the result, which grows by one, ending in the new entry, exactly when the id was absent; the id is present afterwards |
| Records.AddGrantIds | kyp/javascript/lib/kyp.js:256-274 | after the guarded push the list names exactly its old ids and the new one, and holds only old entries and the new one |
| Records.AddGrantIdempotent | kyp/javascript/lib/kyp.js:256-274 | a second guarded push of the same entry changes nothing |
| Records.AddGrantKeepsUnique | kyp/javascript/lib/kyp.js:256-274 | the guarded push keeps ids unique |
| Records.WithoutId | kyp/javascript/lib/kyp.js:303-311 | the result holds exactly the entries whose id differs from the removed one, and never names it |
| Records.WithoutIdIds | kyp/javascript/lib/kyp.js:303-311 | after the removal the list names exactly its old ids except the removed one |
| Records.WithoutIdConcat | kyp/javascript/lib/kyp.js:303-311 | the removal distributes over concatenation, so the remaining entries keep their order |
| Records.WithoutIdKeepsUnique | kyp/javascript/lib/kyp.js:303-311 | removal keeps ids unique |
| Records.FilterKeepsUnique | kyp/javascript/lib/kyp.js:303-311 | any filter keeps ids unique |
| Records.WithoutIdIdempotent | kyp/javascript/lib/kyp.js:303-311 | removing the same id twice is removing it once |
| Records.WithoutIdUndoesAdd | kyp/javascript/lib/kyp.js:256-311 | removing an id just pushed, absent before, gives back the original list |
| Records.WithoutIdAbsent | kyp/javascript/lib/kyp.js:303-311 | removing an absent id changes nothing |
| Records.Doctors | kyp/javascript/lib/kyp.js:159-161 | holds exactly the entries whose role is `doctor` |
| Records.DoctorsConcat | kyp/javascript/lib/kyp.js:159-161 | the doctor filter distributes over concatenation, so doctors keep their order |
| Properties.CreateKeepsWellFormed | kyp/javascript/lib/kyp.js:15-54 | record creation keeps every list free of duplicate ids |
| Properties.WriteKeepsWellFormed | kyp/javascript/lib/kyp.js:62-98 | a write keeps every list free of duplicate ids |
| Properties.AddPermissionKeepsWellFormed | kyp/javascript/lib/kyp.js:256-277 | a grant keeps every list free of duplicate ids |
| Properties.DeletePermissionKeepsWellFormed | kyp/javascript/lib/kyp.js:303-314 | a revocation keeps every list free of duplicate ids |
| Properties.AddPermissionGrants | kyp/javascript/lib/kyp.js:238-280 | after a grant to another id, each side names the other, new entries carry `role` and the caller's role, and the grantee passes the permission check on the granter's record |
| Properties.SelfGrantKeepsOnlyAllowedList | kyp/javascript/lib/kyp.js:276-277 | a self-grant leaves the caller's access list and log as they were and names the caller on its own allowed list |
| Properties.AddPermissionIdempotent | kyp/javascript/lib/kyp.js:256-274 | repeating a successful grant succeeds and changes nothing |
| Properties.DeletePermissionIdempotent | kyp/javascript/lib/kyp.js:303-311 | repeating a successful revocation succeeds and changes nothing |
| Properties.DeletePermissionRevokes | kyp/javascript/lib/kyp.js:287-317 | after revoking another id neither side names the other, the check answers `false`, and a write by the revoked doctor is refused |
| Properties.DeletePermissionUnrelated | kyp/javascript/lib/kyp.js:303-314 | revoking a pair that neither side names succeeds and leaves the store unchanged |
| Properties.DeleteUndoesAdd | kyp/javascript/lib/kyp.js:238-317 | revoking a grant that was new on both sides restores the state before it |
| Properties.WriteThenRead | kyp/javascript/lib/kyp.js:62-136 | after a permitted write the writer reads back the old log followed by the new entry |
| Properties.LogOnlyGrows | kyp/javascript/lib/kyp.js:238-317 | grants and revocations keep every patient record a patient's, with its log as a prefix of the new one |
| Properties.AddPermissionKeepsConsistent | kyp/javascript/lib/kyp.js:238-280 | a grant between different ids keeps every list entry pointing at a stored record, and keeps allowed lists and access lists mirror images of each other |
| Properties.DeletePermissionKeepsConsistent | kyp/javascript/lib/kyp.js:287-317 | a revocation between different ids keeps that consistency |
| Properties.WriteKeepsConsistent | kyp/javascript/lib/kyp.js:62-98 | a write keeps that consistency |
| Properties.CreateFreshKeepsConsistent | kyp/javascript/lib/kyp.js:15-54 | creating the first record under an id keeps that consistency |
| Properties.SelfGrantBreaksMirror | kyp/javascript/lib/kyp.js:276-277 | a self-grant on a single empty patient record breaks the mirror |
| Properties.SelfRevokeBreaksMirror | kyp/javascript/lib/kyp.js:313-314 | a self-revocation on a patient that names itself on both lists breaks the mirror |
| Properties.RecreateBreaksMirror | kyp/javascript/lib/kyp.js:21-29 | re-creating a patient record that had granted access to a doctor leaves the doctor's allowed-list entry dangling |
| Properties.RecreateErasesLog | kyp/javascript/lib/kyp.js:21-51 | re-creating a patient's record replaces it by an empty patient record or an empty doctor record, so a non-empty log is lost |

## Left out

- The Fabric `ClientIdentity` API and X.509 parsing: the credential string and the role
  attribute are inputs; the outcome of `assertAttributeValue` is computed from the role
  attribute by `Identity.HasRole`.
- The ledger transactions take the caller id already extracted, as a string. A credential
  yielding no id (`undefined`) is not carried into `getState`/`putState`.
- JSON and `Buffer` serialisation: records are stored as values. The results of the queries
  are these values, not their JSON text. `JSON.stringify(undefined)` is `None`.
- Date formatting with `date-utils`: the date is an opaque string parameter.
- `async`/`await`, transaction scheduling and MVCC conflicts on the ledger. The two writes of
  a grant are a single atomic step of the model.
- Identity.CallerIdOfCredential: states the id only for credentials whose scheme and subject
  contain no colon. Other credentials are covered only by `Identity.CallerId`'s failure
  condition and by `Strings.SplitJoin`.
- Properties.AddPermissionKeepsConsistent: holds only between different ids;
  `Properties.SelfGrantBreaksMirror` shows the self-grant case.
- Properties.DeletePermissionKeepsConsistent: likewise only between different ids;
  `Properties.SelfRevokeBreaksMirror` shows the self-revocation case.
- Properties.CreateFreshKeepsConsistent: holds only for an id without a record;
  `Properties.RecreateBreaksMirror` shows the re-creation case.
