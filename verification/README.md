# Secutor: a verified model

Secutor keeps a private PKI and runs an ACME server for it. This project models the parts of it
whose correctness is hardest to see by reading and proves what they promise, for all inputs and
all runs.

| Part | Files |
|---|---|
| ACME issuance: orders, authorizations, challenges, the validation worker, expiry, server-managed DNS | AcmeModel, AcmeServer, AcmeIssuance, AcmeProtocol, AcmeHandlers, AcmePromotion, AcmeSubject, AcmeStuck, AcmeDns, AcmeZone, AcmeSweep, DnsDispatch, DnsRegistry, MemoryZone |
| The certificate store and its issuer graph: verification, revocation, audit and repair | Certificates, IssuerGraph, Verify, Revocation, Audit, AuditFindings, AuditRepair |
| Moving certificates: key bundles between contexts, chains from files | Transfer, ImportLaws, ImportedRows, SubtreeTransfer, Importer, SavedImports |
| CA rotation and background re-signing | CaRotation, Reissue, ReissueRuns |
| Wire formats: DER, OIDs, revocation lists, SSH wire encoding, framed bundles | Bytes, Der, DerWalk, Oid, CrlTime, Crl, DerReader, SshWire, Bundles |

## How it is built

Code that changes things step by step is written as classes and methods with loops over mutable
state; each method is proved equal to a function of the old state, or to have a property that
determines its result, and the theorems are lemmas about those functions. What an operation does is stated a
second time from its inputs and outputs alone, without naming the function that specifies it: when it succeeds,
which error it gives otherwise, which rows it writes and what they hold. Pure code is functions
only.

The ACME server is a state machine. One step runs from one `await` to the next: handlers are one step
each, `runOne` is split at `place`, at the validator, at each `cleanup` and at the return of
`cleanupPlacementsFor`, and the startup sweep at each `cleanup`. At most one `runOne` is in flight, as the worker's
`running` flag ensures. A restart may happen at any suspension point and keeps rows and zone. The re-signing
worker is treated in the same way.

X.509 parsing, signatures, hashing, scrypt, AES-GCM, JSON and the rules that pick a random token are
parameters: functions of the right type, of which each theorem assumes no more than it says (fresh tokens, a
hash without collisions for the DNS theorems, decryption and JSON parsing that undo their counterparts).
Clocks and random numbers are parameters of the operations.

JavaScript's 32-bit operators are written out: `<<` drops high bits and wraps to a signed number, `>>>`
reduces to 32 bits, a byte past the end of a buffer reads as missing or as zero, and `subarray` counts
negative positions from the end.

Lemmas carry `{:induction false}`, so their bodies are the proofs.

## Where the code does less than its comments or the standard say

These are proved as they are, with the exact condition:

- `finalize` compares the common name of a CSR only when the CSR has no alternative names, and signs it as the
  subject in any case (acme-server/src/server/routes.ts:398-405, acme-server/src/server/signer.ts:348-349): the
  subject of a certificate is one of the validated names exactly when it is absent from the CSR, alone in it, or
  repeated among its alternative names (`AcmeProtocol.SubjectListedIff`); otherwise it can be any name, even one
  outside the allow-list (`AcmeProtocol.AnySubjectIsSigned`, `AcmeSubject.RefusedSubjectIsSigned`).
- The provider chosen at cleanup can differ from the one chosen at placement for names that start with two
  wildcard labels (`DnsDispatch.PlacementAndCleanupAgree`, `AcmeDns.SingleWildcardAgrees`). An accepted wildcard
  lacks a provider after its prefix is stripped when every zone that matches it is longer than the stripped name,
  such as `*.*.base` (`DnsDispatch.AcceptedWildcardHasProvider`, `DnsDispatch.LongerMatchIsDoubleWildcard`).
- A published record is lost to the books when `place` throws or the process dies after publishing and before
  `insertPlacement`, when `cleanup` throws, because the row is marked cleaned all the same, and when `cleanup`
  is sent to another provider than the one that published it
  (`AcmeZone.ZoneMatchesRows`, `AcmeZone.OrphansWereStranded`).
- An order stays `pending` with every authorization valid if the process restarts while the worker awaits the
  cleanup that comes before the promotion; nothing promotes it later (`AcmePromotion.StuckIffPromotionLost`,
  `AcmePromotion.LostOrderNeverReady`, `AcmeStuck.OrderIsStuck`).
- `verifyCert` remembers a revoked issuer by its common name and tests that name for truth
  (src/certs/verify.ts:88, 181): a revoked issuer whose common name is empty is passed over, and revoking it
  changes no verdict below it (`Verify.OkIff`, `Verify.NamelessIssuerUnnoticed`, `Revocation.RevocationCascades`).
- `saveImport` is not a transaction: rows written for the chain stay when a later certificate cannot be saved
  (`SavedImports.FailedSaveUnchangedIff`).
- A re-signing job whose items all failed ends `done` instead of `failed` exactly when the process restarted
  while the job was running with nothing pending (`ReissueRuns.FailureReportedIff`,
  `ReissueRuns.DoneThoughAllFailed`).
- A serial number in the revocation list keeps leading zero octets (`Crl.SerialMinimalIff`); the serials this
  server draws have none (`Crl.GeneratedSerial`).
- Lengths from 2^31 on and OID arcs from 2^31 on are misread (`Der.LengthRoundTrip`, `Oid.OidRoundTrip`); dates
  outside the years 1000 to 9999 cannot be read back (`CrlTime.TimeRoundTrip`).
- `sshMpint` writes zero with one byte, where section 5 of RFC 4251 asks for none (`SshWire.MpintMinimalIff`).
- Bundles are built without the schema check that parsing makes (`Bundles.BodyRoundTrip`).

## Model

| member | source | states |
|---|---|---|
| AcmeIssuance.StepInv | acme-server/src/server/worker.ts:86-228 | every atomic step of every actor (account, newOrder, challenge, finalize, expiry tick, the five steps of `runOne`, startup sweep, restart) keeps the safety invariant, and statuses move only upwards |
| AcmeIssuance.RunInv | acme-server/src/server/routes.ts:249-452 | the invariant holds after every run, in any interleaving of the actors |
| AcmeProtocol.IssuedNameWasValidated | acme-server/src/server/routes.ts:379-437 | every subject alternative name of every issued certificate, and its subject common name wherever `finalize` compared that, was posted in the certificate's order, has an authorization there, and that authorization owns a challenge a validator confirmed |
| AcmeProtocol.IssuedNamesMatchOrderAndCsr | acme-server/src/server/routes.ts:66-84 | the alternative names of a certificate are exactly the order's lower-cased identifiers and exactly the lower-cased names of the CSR; its subject is the CSR's common name or, without one, the order's first identifier |
| AcmeProtocol.SubjectListedIff | acme-server/src/server/routes.ts:397-405 | for every issued certificate of every run: the subject is one of the order's identifiers (equally: one of the alternative names) if and only if the CSR has no common name, has no alternative names, or repeats its common name among them |
| AcmeProtocol.AnySubjectIsSigned | acme-server/src/server/routes.ts:397-420 | every ready order of every run can be turned into a certificate with any non-empty subject: there is a CSR with the names of the order for which `finalize` signs it |
| AcmeSubject.RefusedSubjectIsSigned | acme-server/src/server/signer.ts:346-377 | a reachable run that signs a subject which is no identifier of the order and is outside the allow-list |
| AcmeProtocol.IssuedNameIsAllowed | acme-server/src/server/routes.ts:86-98 | no certificate is ever issued for an alternative name, or for a subject that was compared, outside the configured allow-list |
| AcmeProtocol.ReadyOrderIsAuthorized | acme-server/src/server/worker.ts:220-228 | a `ready` order has only `valid` authorizations, each with its own validated challenge |
| AcmePromotion.StuckIffPromotionLost | acme-server/src/server/worker.ts:163-171 | in every run a `pending` order has all its authorizations valid and no `runOne` in flight if and only if a restart hit the worker between the success of its last authorization and the promotion, while it awaited the cleanup |
| AcmePromotion.LostOrderNeverReady | acme-server/src/server/worker.ts:220-228 | such an order is never promoted: at every later point it is `pending` or `expired` |
| AcmeStuck.OrderIsStuck | acme-server/src/server/worker.ts:163-171 | a reachable run of this kind, and whatever follows it |
| AcmeProtocol.OneCertificatePerOrder | acme-server/src/server/routes.ts:388-437 | over a whole run at most one certificate is inserted for an order |
| AcmeProtocol.CertificateIdIsOwn | acme-server/src/server/repos.ts:163-172 | an order names a certificate exactly when one was issued for it; it is that certificate, and the order is then `valid` or `invalid` |
| AcmeProtocol.OrderStatusClimbs | acme-server/src/server/repos.ts:163-172 | at any later point of a run an order's status is the same or of higher rank (pending, ready, processing, then valid or expired, then invalid); `invalid` is absorbing |
| AcmeProtocol.AtMostFourStatusChanges | acme-server/src/server/repos.ts:678-686 | an order changes status at most four times in its life |
| AcmeProtocol.EarlyReturnsUnreachable | acme-server/src/server/worker.ts:86-96 | the missing-row returns of `runOne` are never taken: it proceeds exactly for challenges in status `processing` |
| AcmeProtocol.TerminalChallengeIsFinal | acme-server/src/server/repos.ts:242-276 | a valid or invalid challenge never changes again |
| AcmeProtocol.AtMostSixValidations | acme-server/src/server/worker.ts:18-19 | however the actors interleave and restart, a challenge's validation is completed at most six times |
| AcmeProtocol.RunOneDecides | acme-server/src/server/worker.ts:86-183 | however `runOne` ends (no provider, a provider that throws, any verdict of the validator) it decides its challenge, or after a negative verdict uses up one of six attempts and schedules the next one with the delay of the table; until then the challenge is untouched |
| AcmeProtocol.RunOneRows | acme-server/src/server/worker.ts:86-188 | for every run and every step of `runOne` that works on a challenge: if it fails for good, its authorization and its order become `invalid` in the same step; if it is accepted, its authorization becomes `valid` and, when there is no cleanup to wait for, a pending order whose authorizations are all valid becomes `ready`; on a retry, or without a result, both stay as they are; no other row changes |
| AcmeProtocol.RunOneStarts | acme-server/src/server/worker.ts:86-136 | for every run: a due challenge of a server-managed order without an open row gets the digest of token, dot and thumbprint published under `_acme-challenge.` and its name, by the first most specific provider, or fails for lack of one; any other goes to the validator |
| AcmeProtocol.RunOneMovesOn | acme-server/src/server/worker.ts:86-218 | what follows each await of `runOne`: a place that returns leads to the validation and one that throws to the end; a verdict leads to the cleanup of a server-managed challenge, else to the end; each cleanup shortens the list, so the loop ends |
| AcmeProtocol.PlaceThrows | acme-server/src/server/worker.ts:115-135 | a place that throws, or is cut off by a restart, leaves its record published exactly if it got that far, or an earlier one had, and no row |
| AcmeProtocol.CleanupThrows | acme-server/src/server/worker.ts:205-218 | a cleanup that throws and leaves its record behind marks the row all the same |
| AcmeProtocol.CleanedPromotesIff | acme-server/src/server/worker.ts:163-171 | after the cleanup the order becomes `ready` if and only if the challenge was accepted, the order is pending and all its authorizations are valid |
| AcmeHandlers.AccountAdded | acme-server/src/server/routes.ts:214-222 | a new account has its thumbprint and an id of its own; nothing else changes |
| AcmeHandlers.FinalizeIssuesIff | acme-server/src/server/routes.ts:379-452 | for every run and every finalize request: a certificate is issued if and only if the order is the account's own and `ready`, the CSR parses and names exactly its identifiers, and signing succeeds; a failed signature makes the order `invalid`, and any other request changes nothing |
| AcmeHandlers.FinalizeWrites | acme-server/src/server/routes.ts:409-437 | such a request adds one certificate, for the order, its account and its names; the order becomes `valid` and names it; no other row changes |
| AcmeHandlers.ChallengeQueuedIff | acme-server/src/server/routes.ts:354-376 | a challenge request queues a challenge if and only if the challenge belongs to an order of the account and is pending; otherwise nothing changes |
| AcmeHandlers.ExpiredIff | acme-server/src/server/expireWorker.ts:28-36 | a tick expires exactly the pending, ready and processing orders and the pending authorizations whose own time is past |
| AcmeHandlers.AllowListIff | acme-server/src/server/routes.ts:86-98 | a name is allowed if and only if the list is empty or, in any case, it is a listed name or a base of `*.base` or a name under it |
| AcmeHandlers.NewOrderIff | acme-server/src/server/routes.ts:249-301 | an order is made if and only if the account exists, there are identifiers, all are DNS names and allowed, and for a server-managed order dns-01 is on and every identifier has a matching zone; otherwise nothing changes |
| AcmeHandlers.NewOrderAnswer | acme-server/src/server/routes.ts:249-301 | which problem is answered otherwise: account, empty list, first offending identifier, missing provider, in this order |
| AcmeHandlers.NewOrderCreates | acme-server/src/server/routes.ts:302-333 | for every run: an accepted request makes one authorization per identifier, its `*.` stripped and remembered, with exactly the challenges of its mode: dns-01 if enabled, queued at once if the server manages it; http-01 if enabled, and never for a wildcard or a server-managed order |
| AcmeServer.CollectExpectedSans | acme-server/src/server/routes.ts:66-72 | the loop collects exactly the lower-cased values of the DNS identifiers, and yields the first of them as the Set lists it |
| AcmeServer.CompareSans | acme-server/src/server/routes.ts:74-84 | equal cardinality plus inclusion is equality of the two sets of names |
| AcmeServer.Server.UpdateOrderStatus | acme-server/src/server/repos.ts:163-167 | the statement changes one order's status and nothing else |
| AcmeServer.Server.AttachCertToOrder | acme-server/src/server/repos.ts:168-173 | one order gets its certificate, its CSR and status `valid` |
| AcmeServer.Server.UpdateChallengeResult | acme-server/src/server/repos.ts:249-269 | one challenge's status, retry time and attempts are replaced |
| AcmeServer.Server.Queue | acme-server/src/server/repos.ts:242-248 | only a pending challenge is moved to `processing` |
| AcmeServer.Server.AddAuthz | acme-server/src/server/repos.ts:175-195 | the `*.` prefix of the posted name is stripped and remembered |
| AcmeServer.Server.ExpireTick | acme-server/src/server/expireWorker.ts:28-36 | one tick expires exactly the open orders and pending authorizations whose time has passed |
| AcmeServer.Server.CheckIdentifiers | acme-server/src/server/routes.ts:256-263 | the first offending identifier decides the answer |
| AcmeServer.Server.PostNewOrder | acme-server/src/server/routes.ts:249-333 | the handler as one atomic step: nothing changes when it answers with a problem, otherwise order, authorizations and challenges are inserted |
| AcmeServer.Server.AddIdentifiers | acme-server/src/server/routes.ts:302-319 | the insertion loop creates, per identifier, the authorization and the challenges its mode allows |
| AcmeServer.Server.PostChallenge | acme-server/src/server/routes.ts:354-376 | the ownership check, then the queueing, as one step |
| AcmeServer.Server.PostFinalize | acme-server/src/server/routes.ts:379-452 | checks, signing outcome, certificate row with subject and alternative names, and order row as one step |
| AcmeServer.Server.StartRunOne | acme-server/src/server/worker.ts:86-136 | `runOne` up to its first await: early returns, missing provider, publication or reuse of a placement |
| AcmeServer.Server.ResumeAfterPlace | acme-server/src/server/worker.ts:115-135 | after `place` has returned, or thrown with its record published or not |
| AcmeServer.Server.ResumeAfterValidate | acme-server/src/server/worker.ts:160-183 | after the validator has answered: success, final failure or retry |
| AcmeServer.Server.WithdrawNext | acme-server/src/server/worker.ts:199-206 | the loop up to its next await skips placements without a provider and withdraws the first other one |
| AcmeServer.Server.ResumeAfterCleanup | acme-server/src/server/worker.ts:205-218 | after `cleanup` has returned, or thrown and perhaps left its record: the row is marked in any case and the loop goes on |
| AcmeServer.Server.ResumeSweep | acme-server/src/server/worker.ts:52-76 | one round of the startup sweep |
| AcmeServer.Server.Start | acme-server/src/server/worker.ts:32-45 | a new process finds rows and zone as they were left, a `place` that was cut off has published or not, and starts the sweep |
| AcmeZone.RunDns | acme-server/src/server/worker.ts:103-136 | for every run, with providers that may throw at any call and any names and rules, the DNS invariant holds, with the startup sweep and restarts interleaved anywhere |
| AcmeZone.ZoneMatchesRows | acme-server/src/server/worker.ts:197-218 | in every run, when no `place` or `cleanup` is in flight, the published records equal those of the open placement rows if and only if no record is stranded without a row |
| AcmeZone.OrphansWereStranded | acme-server/src/server/worker.ts:115-135 | a record outlives its row only through a `place` that was cut off by a throw or a restart after publishing, a `cleanup` that threw and left it, or a `cleanup` sent to a provider that does not hold it |
| AcmeZone.OneOpenPlacementPerChallenge | acme-server/src/server/worker.ts:104-105 | in every run, with any rules, names and provider failures, a challenge has at most one open placement |
| AcmeZone.FinishedChallengeIsCleanedUp | acme-server/src/server/worker.ts:170-218 | once nothing is in flight, a finished challenge has an open row only if cleanup has no provider for it (so none if placement and cleanup ask the same one), and its record is published if and only if it has such a row or is stranded, which only such a call can have done |
| AcmeZone.WithdrawnIsNotHeld | acme-server/src/server/dnsProviders.ts:69-79 | cleanup takes exactly that name and value from what the asked provider holds and nothing from any other; the challenge's own record goes if and only if the asked provider is the one that holds it |
| AcmeSweep.SweepCleansAll | acme-server/src/server/worker.ts:52-76 | over every run, whatever the other actors do meanwhile: when the sweep after the last restart is done, exactly those of the placements it found open are marked cleaned that some rule serves |
| AcmeSweep.SweepMovesOn | acme-server/src/server/worker.ts:52-76 | a step of the sweep marks the row it was at, changes no other, and shortens the list, so the sweep ends |
| AcmeDns.RecordsDistinct | acme-server/src/server/routes.ts:307-312 | two challenges never publish the same value, hence never the same record |
| MemoryZone.MemoryProvider.Place | acme-server/src/dns/providers.ts:133-137 | publishes exactly one more record: the contents gain that pair of name and value |
| MemoryZone.MemoryProvider.Cleanup | acme-server/src/dns/providers.ts:138-143 | withdraws exactly one record, keeps no empty name, and is idempotent: the contents lose that pair of name and value |
| DnsDispatch.MatchRule | acme-server/src/server/dnsProviders.ts:87-99 | the nested loops and the sort find the rule that the specification function picks |
| DnsDispatch.PickIsFirstMostSpecific | acme-server/src/server/dnsProviders.ts:87-99 | the picked rule has maximal specificity among all matches and is the first listed one that has it; none is picked exactly when nothing matches |
| DnsDispatch.ZoneMatchesIff | acme-server/src/server/dnsProviders.ts:101-121 | what matches a zone: `*` everything with specificity 0, `*.base` and a plain zone the name itself and all names under it with the length of that name |
| DnsDispatch.LookupNameIs | acme-server/src/server/dnsProviders.ts:87-99 | names are looked up in lower case, without one `_acme-challenge.` in front |
| DnsDispatch.PlacementAndCleanupAgree | acme-server/src/server/dnsProviders.ts:101-124 | under every rule list, the provider asked at cleanup (from the record name) is the one asked at placement, if and only if the identifier does not start with two wildcard labels |
| DnsDispatch.AcceptedWildcardHasProvider | acme-server/src/server/routes.ts:277-284 | for every base, also one that starts with `_acme-challenge.`: a wildcard accepted at newOrder has a provider after the `*.` is stripped, if and only if some zone matches the wildcard on no more characters than the name the base is looked up under |
| DnsDispatch.LongerMatchIsDoubleWildcard | acme-server/src/server/dnsProviders.ts:113-121 | without that prefix the only zone that matches on more characters is the doubly wildcarded `*.*.base` |
| DnsRegistry.Registry.PickFor | acme-server/src/server/dnsProviders.ts:38-79 | returns the provider of the picked rule, the same object at every call: the instance of its label for a memory rule, which is built empty on first use and kept |
| DnsRegistry.Registry.SharedIff | acme-server/src/server/dnsProviders.ts:69-79 | two rules are served by the same object if and only if they have the same home, the first rule that shares their provider |
| DnsDispatch.HomeIff | acme-server/src/server/dnsProviders.ts:69-79 | two rules have the same home if and only if they are the same rule or memory rules of one label |
| DnsRegistry.Registry.HasProviderFor | acme-server/src/server/dnsProviders.ts:49-51 | true exactly when a rule is picked |
| Certificates.CertRepo.Insert | src/storage/repos.ts:35-51 | insertion under the unique-name and issuer constraints; on failure nothing changes, on success exactly one row with a fresh key is appended |
| Certificates.CertRepo.Relink | src/storage/repos.ts:96-103 | exactly the issuer link of one row changes; keys stay valid |
| Certificates.CertRepo.Revoke | src/storage/repos.ts:159-166 | exactly the revocation columns of one row are set |
| Certificates.CertRepo.Unrevoke | src/storage/repos.ts:167-174 | exactly the revocation columns of one row are cleared |
| IssuerGraph.ParentsOf | src/transfer/repoBridge.ts:122-134 | exactly the proper ancestors of the row, each once and in issuer order, also on cyclic and dangling links |
| IssuerGraph.DescendantsOf | src/transfer/repoBridge.ts:136-151 | the explicit stack finds exactly the rows on whose issuer walk the given id is a proper ancestor, each once, also on cyclic graphs |
| IssuerGraph.CollectSubtreePems | src/certs/generator.ts:402-417 | the recursion collects the PEMs of exactly the same set plus the root, each row once, and nothing for a missing root |
| IssuerGraph.RootedIffRootExists | src/certs/verify.ts:69-94 | the walk ends at a null issuer if and only if a chain to a row without issuer exists |
| Verify.VerifyCert | src/certs/verify.ts:55-233 | the loops of `verifyCert` compute the verdict of the issuer walk: names, first bad link, the name of the nearest revoked issuer that has one, validity, requested name |
| Verify.OkIff | src/certs/verify.ts:55-233 | the verdict is ok if and only if a chain of pairwise verified rows leads from the row to a row without issuer, the row is not revoked and no row above it is revoked with a non-empty common name, the row is inside its validity and any requested name matches |
| Verify.VerdictIs | src/certs/verify.ts:55-233 | what `verifyCert` answers about any certificate that parses: the names of the chain, each flag, and the first of the reasons in their order |
| Verify.VerdictNoneIff | src/certs/verify.ts:55-68 | `verifyCert` throws exactly for a certificate that does not parse |
| Verify.MatchHostIff | src/certs/verify.ts:235-246 | a host matches its own name in any case, and `*.base` if it is one more non-empty label without a dot in front of base; an empty pattern or host matches nothing |
| Verify.SniMatchesIff | src/certs/verify.ts:138-155 | a certificate is for the names of its extension and for its common name |
| Verify.NamelessIssuerUnnoticed | src/certs/verify.ts:88-90 | a correctly signed certificate below a revoked root without a common name gets the verdict ok |
| Verify.WildcardMatchesOneLabel | src/certs/verify.ts:235-246 | a wildcard pattern matches exactly the names with one extra, non-empty, dot-free label |
| Revocation.RevocationCascades | src/storage/repos.ts:159-166 | revoking x turns an ok verdict into a failure for exactly x and, if x has a common name, its descendants; results outside its subtree stay the same, and below a nameless x only an empty `revokedAncestor` is added |
| Audit.AuditCertificates | src/certs/audit.ts:203-377 | the audit loop reports, row by row and in order, exactly the findings of the specification |
| Audit.AuditLink | src/certs/audit.ts:252-344 | which link finding a row gets, and which repair is offered |
| Audit.FindCandidateIssuer | src/certs/audit.ts:165-190 | the first other CA row whose subject is the certificate's issuer and whose key signed it |
| Audit.ApplyAll | src/screens/AuditScreen.tsx:90-112 | the fix-all loop applies the offered repairs one after the other |
| AuditRepair.RepairConverges | src/screens/AuditScreen.tsx:90-112 | for every store, applying all repairs of one audit, in any order and however often each, leaves nothing repairable for the next audit |
| AuditRepair.CleanAuditVerifies | src/certs/audit.ts:203-377 | when no row has a parse, missing-issuer, name-mismatch or bad-signature finding, `verifyCert` never fails on a missing issuer or a bad link |
| AuditRepair.AppliedRows | src/screens/AuditScreen.tsx:90-102 | repairs do not interfere: each row ends with exactly the repairs asked for it |
| AuditFindings.RowReports | src/certs/audit.ts:203-377 | for every table and row: an unreadable certificate is reported, and nothing else about it; otherwise a key that is not its own, a drift of any of the seven columns, an expired or a not yet valid certificate are reported if and only if they are there |
| AuditFindings.LinkReports | src/certs/audit.ts:252-344 | a missing link, a link to no row, a parent of another name and a wrong signature are each reported if and only if they are there |
| AuditFindings.FindingsAre | src/certs/audit.ts:165-377 | every finding has the severity and the repair of its kind: the columns of the certificate for a drift; the first other CA that could have issued it for a wrong link; a cut link if there is none |
| Transfer.InsertCertItem | src/transfer/repoBridge.ts:595-668 | integrity check, merge into an existing row, or insertion under a free name, with the id of the row that now holds the certificate |
| Transfer.FreeName | src/transfer/repoBridge.ts:92-99 | the suggested name if free, else the first free numbered one up to 9999 |
| Transfer.ImportLeafOrCa | src/transfer/repoBridge.ts:390-440 | parents first, then the certificate with its key, then the links |
| Transfer.ImportSubtree | src/transfer/repoBridge.ts:441-485 | keys filed by fingerprint, certificates inserted, links set |
| Transfer.ImportBundle | src/transfer/repoBridge.ts:353-388 | a failing import leaves the store as it was; a successful one has exactly the effect of the specification |
| ImportLaws.ImportKeeps | src/transfer/repoBridge.ts:353-485 | a successful import keeps every row with its id, name, type, certificate and metadata, never changes a non-empty key unless asked to, leaves ids and names pairwise distinct, and makes no two rows of one fingerprint where there were none |
| ImportLaws.ImportAddsOnlyBundle | src/transfer/repoBridge.ts:595-668 | every added row holds a certificate of the bundle |
| ImportLaws.ImportTwice | src/transfer/repoBridge.ts:353-485 | importing a bundle that was imported successfully changes nothing, for every leaf, ca or subtree bundle and every option |
| ImportLaws.RunLinksRows | src/transfer/repoBridge.ts:470-484 | after the relink pass each row has the issuer of the last step that concerns it, and nothing else changed |
| ImportedRows.PrimaryImported | src/transfer/repoBridge.ts:390-440 | after a successful import of a leaf or ca bundle, told from its items: the certificate is in the store; it has the bundle's key unless it had one that is not to be overwritten; a new row has the type and name that are asked for, or a numbered name if that one is taken; it is issued by the row of the issuer that the item, else the bundle, names, if that row exists |
| ImportedRows.MemberImported | src/transfer/repoBridge.ts:595-668 | the same for every parent, and for every certificate of a subtree: it is in the store, a recorded fingerprint is its own, and the first item for a new certificate says what its row is |
| ImportedRows.MemberIssuer | src/transfer/repoBridge.ts:425-485 | the last item that names an existing issuer for its certificate decides its issuer |
| ImportedRows.IssuerKept | src/transfer/repoBridge.ts:425-485 | where no item names one, the issuer of a row stays, and a new row has none |
| ImportedRows.SubtreeKeysKept | src/transfer/repoBridge.ts:441-468 | after an import of a subtree each certificate has the last key filed under its fingerprint, unless it had one that is not to be overwritten |
| ImportedRows.ImportFailure | src/transfer/repoBridge.ts:353-388 | an import fails only for a reason in the bundle: no certificate, or an item to insert with a foreign fingerprint, without a readable certificate or without a free name |
| Transfer.TakenNameNumbered | src/transfer/repoBridge.ts:92-99 | a taken name gets the first number from 2 to 9999 that makes it free, and there is no name if none does |
| SubtreeTransfer.ExportCertSubtree | src/transfer/repoBridge.ts:211-268 | the bundle lists the CA and everything below it, each once, with keys and issuer fingerprints; other rows and missing ids are refused |
| SubtreeTransfer.ExportedItems | src/transfer/repoBridge.ts:211-268 | the bundle begins with the CA's certificate and has, of every member, the certificate with name, type, fingerprint and (but for the CA) the issuer's fingerprint, and its key filed under its fingerprint if it has one; nothing else |
| SubtreeTransfer.SubtreeRoundTrip | src/transfer/repoBridge.ts:211-268 | exporting a CA subtree and importing it into an empty context gives an isomorphic store: same certificates, types, names and keys, and the same issuer relation on all rows but the root |
| SubtreeTransfer.RoundTripIsTree | src/transfer/repoBridge.ts:441-485 | the imported rows form a tree under the exported CA, also when the source's issuer links run in a circle through it |
| SubtreeTransfer.ContextIsPortable | src/transfer/repoBridge.ts:83-90 | every subtree of a context with distinct names and fingerprints, whose columns repeat its PEMs, meets the theorem's needs |
| Importer.OrderChain | src/certs/importer.ts:158-192 | the maps and loops compute the specified order, and terminate on issuer cycles |
| Importer.OrderedIsPermutation | src/certs/importer.ts:158-192 | for distinct fingerprints the result is a permutation of the input, whatever the issuers look like |
| Importer.OrderedIs | src/certs/importer.ts:158-192 | for every file: first the first certificate that no other one names as its issuer (else the first one), then issuer by issuer the last certificate of that name, until it is missing or was there before, then the others as they stood |
| Importer.OrderedLinear | src/certs/importer.ts:158-192 | every permutation of a linear chain with distinct subjects, its root self-signed or missing, comes out from leaf to root |
| SavedImports.Save | src/certs/importer.ts:215-274 | the loop from the root down writes the specified rows, also when the call fails half-way |
| SavedImports.MakeUniqueName | src/certs/importer.ts:276-284 | the sanitised name if free, else the first free one up to 999, else one with a time stamp |
| SavedImports.SavedLinks | src/certs/importer.ts:215-274 | after a successful save of unstored certificates as CAs, the issuer links lead from the leaf through exactly these certificates, in order, to `issuerCertId`, and the returned ids are theirs |
| SavedImports.SavedRows | src/certs/importer.ts:215-274 | after a successful save: the leaf has the name and type that are asked for and the given key, else the key of the file; with chainAsCAs each intermediate has a CA row without a key under the next one; without it nothing but the leaf is added; rows that were there stay |
| SavedImports.SavedNames | src/certs/importer.ts:215-274 | the returned ids are those of the intermediates, in their order, also where a row was there before; each new one is named after its common name, or `imported-ca`, by the rule below at the time it is written |
| SavedImports.UniqueNameIs | src/certs/importer.ts:276-284 | a name loses the characters files may not have and everything from the 41st on; if it is taken, the first free number from 2 to 999 is appended, or the time |
| SavedImports.SavedWalk | src/certs/importer.ts:215-274 | the issuer walk from the saved leaf starts with exactly that chain |
| SavedImports.FailedSaveUnchangedIff | src/certs/importer.ts:215-274 | a save that fails, wherever it fails, leaves the store unchanged if and only if everything above the failing certificate was stored already; told before the call: nothing in the chain is missing from the store, or the missing certificate nearest the root has a taken name or a missing issuer |
| SavedImports.MissingIssuerUnchanged | src/certs/importer.ts:215-274 | a save that fails on a missing issuer, or on an empty list, never leaves anything behind |
| CaRotation.CaStore.StageCa | acme-server/src/server/caStore.ts:70-139 | the checks in their order, and the candidate that is remembered |
| CaRotation.CaStore.PromoteCa | acme-server/src/server/caStore.ts:151-182 | the shared CA object gets the staged fields in place, the old ones are kept for rollback |
| CaRotation.CaStore.RollbackCa | acme-server/src/server/caStore.ts:188-207 | the kept fields come back inside the window; outside it the way back is given up |
| CaRotation.CaStore.HasRollback | acme-server/src/server/caStore.ts:55-58 | true exactly when a rollback at this time would succeed |
| CaRotation.RootAndPairKept | acme-server/src/server/caStore.ts:70-207 | over every run of stage, discard, promote and rollback at any times the active root is the initial one up to white space and the active key pairs with the active certificate |
| CaRotation.RollbackUndoesPromote | acme-server/src/server/caStore.ts:151-207 | promote, any staging activity, rollback: it succeeds exactly inside the window and then every replaced field is what it was; what is staged stays staged |
| CaRotation.RollbacksNeedPromotes | acme-server/src/server/caStore.ts:188-207 | over every run there are at most as many successful rollbacks as successful promotions |
| CaRotation.PromoteNeedsOnlyStaged | acme-server/src/server/caStore.ts:70-157 | in every run from a usable active key, a candidate had thirty days left when it was staged, and a promotion succeeds exactly when something is staged |
| CaRotation.WhiteSpaceIgnored | acme-server/src/server/caStore.ts:235-237 | root certificates that differ only in white space count as equal |
| CaRotation.StageAcceptsIff | acme-server/src/server/caStore.ts:70-139 | a candidate is staged if and only if its key and certificate are readable and pair up, the last certificate of its chain (else its own) is the active root up to white space, it is another certificate than the active one and has thirty days left; then every field of it is remembered, and otherwise nothing changes |
| CaRotation.StageFailureIs | acme-server/src/server/caStore.ts:70-139 | which of these checks is named when several fail: the first one |
| CaRotation.PromoteKeeps | acme-server/src/server/caStore.ts:151-182 | a promotion keeps the active fields, their fingerprint, the kind of key and the time, and leaves nothing staged |
| Reissue.ReissueWorker.TickJobs | acme-server/src/server/reissueWorker.ts:98-105 | a tick starts a driver for each running job that has none, up to the listing limit; each processes its first item at once |
| Reissue.ReissueWorker.ResumeDriver | acme-server/src/server/reissueWorker.ts:114-140 | the driver from one pause to the next: next item, stop on cancellation, or final status |
| Reissue.ReissueWorker.CancelJob | acme-server/src/server/reissueWorker.ts:50-56 | only running jobs can be cancelled |
| Reissue.ReissueWorker.Start | acme-server/src/server/reissueWorker.ts:60-73 | a job starts with all items pending and a rate clamped to 1..200 |
| ReissueRuns.StartedJob | acme-server/src/server/reissueWorker.ts:60-73 | a new job is running, has one pending item per certificate and nothing counted, and its rate is the wanted one, or 10, kept between 1 and 200 |
| Reissue.DelayMs | acme-server/src/server/reissueWorker.ts:107-108 | the pause between items is never zero, so every item ends in a suspension |
| ReissueRuns.StepInv | acme-server/src/server/reissueWorker.ts:50-140 | every step keeps: counters equal item counts, each driver holds exactly the pending items of its job, the log of re-signings and their outcomes lists exactly the finished items, each once |
| ReissueRuns.WorkConserved | acme-server/src/server/repos.ts:744-823 | in every reachable state `done` and `failed` equal the numbers of such items, and with the pending ones they add up to `total` |
| ReissueRuns.ResignedAtMostOnce | acme-server/src/server/reissueWorker.ts:114-131 | no item is re-signed twice, over any interleaving and restarts at any suspension point |
| ReissueRuns.OutcomesRecorded | acme-server/src/server/reissueWorker.ts:114-131 | over every run with restarts: an item is `done` if and only if a re-signing of it succeeded, and `failed` if and only if one failed |
| ReissueRuns.StepMovesItems | acme-server/src/server/reissueWorker.ts:114-131 | one event moves at most the first pending item of a job, to `done` if its re-signing succeeds in that event and else to `failed` |
| ReissueRuns.ResumeMovesOn | acme-server/src/server/reissueWorker.ts:114-139 | a driver that wakes up tries the first pending item, records the outcome and goes on; it ends on cancellation, and when nothing is pending, giving a running job its status |
| ReissueRuns.AllSucceeded | acme-server/src/server/reissueWorker.ts:114-139 | over every run: if every re-signing of a job succeeds, its `failed` is 0, it is never `failed`, and `done` means that all its items are done |
| ReissueRuns.NoneSucceeded | acme-server/src/server/reissueWorker.ts:114-139 | if none succeeds, its `done` is 0, and when it has ended all its items have failed |
| ReissueRuns.TickTakesUp | acme-server/src/server/reissueWorker.ts:98-105 | over every run a tick takes up exactly the running jobs that nobody drives, among the fifty newest running ones |
| ReissueRuns.TickTries | acme-server/src/server/reissueWorker.ts:107-131 | a job that is taken up has its first pending item tried at once, or is `done` without one |
| ReissueRuns.FinishedMeansNothingPending | acme-server/src/server/reissueWorker.ts:132-139 | `done` and `failed` jobs have no pending item |
| ReissueRuns.TerminalIsFinal | acme-server/src/server/reissueWorker.ts:50-56 | a done, failed or cancelled job never changes again; in particular no item leaves pending after a cancellation |
| ReissueRuns.FailedMeansAllFailed | acme-server/src/server/reissueWorker.ts:132-139 | `failed` means that there were items and all of them failed |
| ReissueRuns.FailureReportedIff | acme-server/src/server/reissueWorker.ts:109-139 | over every run, a job that has ended is `failed` if and only if it had items, none succeeded, and no restart found it running with nothing pending; otherwise it is `done` |
| ReissueRuns.DoneMeansSomeSucceeded | acme-server/src/server/reissueWorker.ts:132-139 | hence in a run without restarts `done` means that the job was empty or an item succeeded |
| ReissueRuns.DoneThoughAllFailed | acme-server/src/server/reissueWorker.ts:109-113 | such a restart does happen: a run in which the only item failed and the job ends `done` |
| Der.EncodeLength | acme-server/src/server/crl.ts:11-20 | the loop with `>>>=` writes the specified length octets for every number |
| Der.ReadLength | acme-server/src/server/crl.ts:133-140 | the loop with signed 32-bit shifts reads the specified header, also past the end of the buffer |
| Der.LengthRoundTrip | acme-server/src/server/crl.ts:133-140 | wherever it stands, a written length is read back with the exact header size if and only if it is below 2^31, without looking past the end |
| Der.LengthMinimal | acme-server/src/server/crl.ts:11-20 | the long form has no leading zero and no byte string for the same number is shorter (sections 8.1.3 and 10.1 of X.690) |
| Der.LongLengthRead | acme-server/src/server/crl.ts:133-140 | in any bytes: a first byte from 0x80 on announces the number of length bytes, and the length is what they denote, as a signed 32-bit integer |
| Der.InRangeIff | acme-server/src/server/crl.ts:133-140 | a header counts as read inside the buffer if and only if all its bytes exist |
| Der.SkipTag | acme-server/src/server/crl.ts:141-144 | `skip` lands exactly past any written value if and only if its body is shorter than 2^31 bytes |
| DerWalk.CaSubjectDer | acme-server/src/server/crl.ts:98-132 | the cursor walk computes the specified result on every byte string |
| DerWalk.SubjectExtracted | acme-server/src/server/crl.ts:98-132 | for every well-formed certificate, with or without version, exactly the subject's bytes are returned and no length is read past the end |
| DerWalk.SubjectAnswers | acme-server/src/server/crl.ts:98-132 | which byte strings are accepted: the bytes that must be tags, and the error of the first that is not |
| DerWalk.WalkCsr | acme-server/src/server/signer.ts:191-245 | the cursor walk computes the specified result on every byte string |
| DerWalk.CsrExtracted | acme-server/src/server/signer.ts:191-245 | for every well-formed request exactly the signed bytes, the key, the algorithm and the signature are returned and no length is read past the end |
| DerWalk.CsrAnswers | acme-server/src/server/signer.ts:191-245 | the same for requests: five tags, the BIT STRING and its zero byte, in the order of the checks |
| DerWalk.SpkiSubjectPublicKeyBits | src/certs/manualBuilder.ts:112-131 | the cursor walk computes the specified result on every byte string |
| DerWalk.KeyBitsExtracted | src/certs/manualBuilder.ts:112-131 | exactly the key bits are returned |
| DerWalk.KeyBitsAnswers | src/certs/manualBuilder.ts:112-131 | the same for keys |
| Oid.EncodeOid | acme-server/src/server/crl.ts:27-43 | the base-128 loop writes the specified contents |
| Oid.DecodeOid | acme-server/src/server/signer.ts:263-279 | the nested loops read the specified arcs |
| Oid.OidRoundTrip | acme-server/src/server/signer.ts:263-279 | `derToOid` inverts the contents of `oid` if and only if the second arc is below 40, the first byte does not overflow and all further arcs are below 2^31 |
| Oid.ArcDenotes | acme-server/src/server/signer.ts:263-279 | in any contents: a further arc goes on to the first byte without continuation bit, or to the end, and is what its base-128 digits denote, as a signed 32-bit integer |
| CrlTime.TimeRoundTrip | acme-server/src/server/crl.ts:54-62 | a date is read back from its UTCTime or GeneralizedTime, by the rules of section 4.1.2.5 of RFC 5280, if and only if its year has four digits |
| CrlTime.TimeTag | acme-server/src/server/crl.ts:54-62 | UTCTime exactly for the years 1950 to 2049 |
| Crl.SerialValue | acme-server/src/server/crl.ts:44-50 | the INTEGER's two's-complement value is the hexadecimal serial as a natural number |
| Crl.HexDigitIs | acme-server/src/server/crl.ts:44-50 | a digit of the serial has its place in the list of hexadecimal digits, in either case |
| Crl.SerialMinimalIff | acme-server/src/server/crl.ts:44-50 | the INTEGER is minimal in the sense of section 8.3.2 of X.690 if and only if the serial is not empty and, padded to whole octets, does not start with a zero octet followed by one below 128 |
| Crl.GeneratedSerial | acme-server/src/server/signer.ts:304-308 | every serial that genSerial draws is positive and encoded minimally in as many octets as it has |
| Crl.SelectedInOrder | acme-server/src/server/crl.ts:158-164 | exactly the revoked rows that expired at most a day ago are selected, each once and in the order of the rows |
| Crl.BuildCrl | acme-server/src/server/crl.ts:152-200 | the builder emits the specified list |
| Crl.TbsRoundTrip | acme-server/src/server/crl.ts:171-190 | decoding the TBSCertList gives exactly one entry per selected row, in order, with its serial and time, both dates, the algorithm and the issuer; without rows the field is absent |
| Crl.CrlRoundTrip | acme-server/src/server/crl.ts:192-200 | decoding the signed list gives its three parts, the signature being over the encoding of the first |
| Crl.SigAlgReads | acme-server/src/server/crl.ts:85-91 | the algorithm is read back as its OID and, for RSA, a NULL |
| DerReader.AllReads | acme-server/src/server/crl.ts:21-26 | an independent reader finds exactly the values that were written in a row |
| SshWire.FieldsRoundTrip | src/ssh/sshKeys.ts:98-102 | concatenated wire strings decode uniquely: writing and reading are inverse to each other |
| SshWire.SshMpint | src/ssh/sshKeys.ts:104-112 | the loop writes the specified contents |
| SshWire.MpintValue | src/ssh/sshKeys.ts:104-112 | the value is preserved: read in two's complement the contents denote the input |
| SshWire.MpintMinimalIff | src/ssh/sshKeys.ts:104-112 | no byte string for the same number is shorter, if and only if the number is positive (or the input empty); zero is stored with one byte, unlike section 5 of RFC 4251 |
| SshWire.PadLeftBytes | src/ssh/sshKeys.ts:173-184 | the loop computes the specified result |
| SshWire.PadLeftExact | src/ssh/sshKeys.ts:173-184 | the same number in exactly `len` bytes; it fails exactly for numbers that do not fit |
| SshWire.Padding | src/ssh/sshKeys.ts:279-289 | fewer than eight bytes 1, 2, 3, ... up to the next multiple of eight |
| Bundles.WriteHeader | src/transfer/keyBundle.ts:132-135 | the header bytes written into the buffer, the rest of it untouched |
| Bundles.BuildPlainBundle | src/transfer/keyBundle.ts:130-137 | header, length, manifest and payload, back to back |
| Bundles.BuildEncryptedBundle | src/transfer/keyBundle.ts:144-179 | prefix, salt, nonce, ciphertext and tag, back to back, or the error of the first failing check |
| Bundles.PlainLayout | src/transfer/keyBundle.ts:130-137 | every octet of a plain file |
| Bundles.EncryptedLayout | src/transfer/keyBundle.ts:144-179 | every octet of an encrypted file, and the order of the checks before it is written |
| Bundles.BodyRoundTrip | src/transfer/keyBundle.ts:290-315 | a body is decoded to what was encoded if and only if the manifest meets the schema, which encoding does not check |
| Bundles.PlainRoundTrip | src/transfer/keyBundle.ts:200-213 | `parseBundle` inverts `buildPlainBundle`, with any password or none |
| Bundles.EncryptedRoundTrip | src/transfer/keyBundle.ts:215-247 | `parseBundle` with the same password inverts `buildEncryptedBundle` |
| Bundles.PlainSplit | src/transfer/keyBundle.ts:297-315 | every accepted plain file is header, length, manifest and payload with no gap, overlap or rest |
| Bundles.ParseAnswer | src/transfer/keyBundle.ts:200-247 | for every file and password: which files are read and which error is given otherwise, in the order of the checks |
| Bundles.BodyAnswer | src/transfer/keyBundle.ts:297-315 | the same for the body |
| Bundles.MeetsIff | src/transfer/keyBundle.ts:309-312 | the schema: version 1, and in a key bundle a kind and a list of items |
| Bundles.SignatureRoundTrip | src/certs/signing.ts:284-300 | `parseSignatureBundle` inverts `buildSignatureBundle`, if and only if the manifest has version 1 |
| Bundles.SignatureSplit | src/certs/signing.ts:284-300 | every accepted signature file is magic, length, manifest and data with no gap, overlap or rest |
| Bundles.SignatureAnswer | src/certs/signing.ts:284-300 | which signature files are read, and the error otherwise |

## Left out

- AcmeProtocol.OrderStatusClimbs: does not say that `valid` is final; a later failed challenge of the same order turns it `invalid` (acme-server/src/server/worker.ts:188).
- AcmeZone.ZoneMatchesRows: a cleanup that a restart cuts off is taken to have happened; the sweep repeats it before the theorem speaks.
- DnsRegistry.Registry.PickFor: building an rfc2136 provider does not fail on a missing key file, and tests do not register instances of their own.
- Names.Lower: folds ASCII letters only, where `toLowerCase` folds other alphabets too; this holds for every theorem about names: the allow-list, alternative names and subjects, provider zones and host names.
- Verify.VerifyCert: the text of error messages and the signature detail are not modelled; the row to verify is a row of the table.
- Audit.AuditCertificates: finding texts, the per-certificate index and the sorting for display are not modelled; repairs are shown to converge in any order instead.
- Transfer.ImportBundle: covers the kinds leaf, ca and subtree; the summary counters, SSH keys and PKCS#12 profiles of a bundle are not modelled, and a type in a manifest is one of the three the table accepts.
- SubtreeTransfer.SubtreeRoundTrip: revocation columns and metadata that disagrees with the PEM do not travel in a bundle, so they are not part of the isomorphism.
- SavedImports.Save: an existing row is looked up in insertion order; with distinct fingerprints the order does not matter.
- CaRotation.CaStore.StageCa: PEM block splitting and key labels are parameters; the candidate's display name is not used by the code either.
- CaRotation.IsSpace: the ASCII white space that `\s` matches; other alphabets' spaces count as text.
- Reissue.ReissueWorker.Start: which certificates a job takes up (collectTargets, acme-server/src/server/reissueWorker.ts:75-96) is a parameter.
- Reissue.ReissueWorker.TickJobs: a crash inside an item's processing and failing database statements are not modelled; a restart happens between items. Job listing order is creation order.
- DerWalk.CaSubjectDer: starts from the DER bytes; removing the PEM armour and base64 are not modelled. The same holds for the SPKI walk.
- Oid.EncodeOid: arcs are numbers; splitting and joining the dotted text is not modelled.
- Crl.BuildCrl: dates are given by their UTC fields, the issuer Name and the signature are parameters; comparing ISO texts in the query is modelled as comparing times.
- Bundles.EncryptedRoundTrip: the manifest is a JSON value that survives printing and parsing; properties with the value undefined, which printing drops, are not JSON values.
- `exportCert` with its parents is not modelled; its parents are not re-chained by the importer, because their metadata lacks the issuer fingerprint (src/transfer/repoBridge.ts:60-72).
- Nonces, JWS verification, rate limits, audit log rows, error details and timestamps of rows: they influence no modelled decision.
- The revoke-cert handler and the admin HTTP endpoints: certificates issued or revoked through them are outside the model.
- Issuing and encoding certificates, PKCS#12, encrypted private keys and the second CRL builder of src/certs/generator.ts: they rest on foreign libraries.
- Deleting certificate rows, encryption at rest and the order of writes to disk.
- All screens, the command line, configuration files, statistics and the generated proxy configurations.
