/** src/certs/audit.ts and the "fix all" loop of src/screens/AuditScreen.tsx. */
module Audit {
  import opened Wrappers
  import opened Certificates
  import opened IssuerGraph
  import V = Verify

  datatype FindingKind =
    | ParseError
    | KeyMismatch
    | MetaDrift
    | IssuerNotSet
    | MissingIssuerRow
    | IssuerDnMismatch
    | SignatureInvalid
    | ExpiredCert
    | NotYetValidCert

  datatype Severity = Error | Warn | Info

  datatype Fix = Refresh(metadata: DerivedMeta) | Relink(newIssuerId: Option<nat>)

  datatype Finding = Finding(certId: nat, kind: FindingKind, severity: Severity, fix: Option<Fix>)

  // ---- what one row is compared with ----

  function OrEmpty(s: Option<string>): string {
    if s.Some? then s.value else ""
  }

  predicate SameInstantSec(x: X509, a: string, b: string) {
    if x.instant(a).None? || x.instant(b).None? then a == b else x.instant(a) == x.instant(b)
  }

  /** metaDriftDetail returns null. */
  predicate MetaAgrees(x: X509, row: CertRow, meta: DerivedMeta) {
    && row.commonName == meta.commonName
    && OrEmpty(row.organization) == OrEmpty(meta.organization)
    && row.serial == meta.serial
    && OrEmpty(row.san) == OrEmpty(meta.san)
    && row.fingerprint == meta.fingerprint
    && SameInstantSec(x, row.notBefore, meta.notBefore)
    && SameInstantSec(x, row.notAfter, meta.notAfter)
  }

  function SubjectDn(x: X509, pem: string): Option<string> {
    if x.parse(pem).Some? then x.parse(pem).value.subjectDn else None
  }

  function IssuerDn(x: X509, pem: string): Option<string> {
    if x.parse(pem).Some? then x.parse(pem).value.issuerDn else None
  }

  predicate IsSelfSigned(x: X509, pem: string) {
    SubjectDn(x, pem).Some? && SubjectDn(x, pem) == IssuerDn(x, pem)
  }

  /** The subject of `caPem` is the issuer named in `pem`, and its key signed it. */
  predicate Issued(x: X509, caPem: string, pem: string) {
    DnMatches(x, caPem, pem) && x.signs(caPem, pem)
  }

  predicate DnMatches(x: X509, caPem: string, pem: string) {
    SubjectDn(x, caPem).Some? && SubjectDn(x, caPem) == IssuerDn(x, pem)
  }

  /** findCandidateIssuer: the first other CA row from `k` on that issued the certificate. */
  function Candidate(x: X509, rows: Table, row: CertRow, k: nat): (r: Option<nat>)
    requires k <= |rows|
    ensures r.Some? ==> exists i :: k <= i < |rows| && rows[i].id == r.value && IsCandidate(x, rows[i], row)
    ensures r.None? ==> forall i :: k <= i < |rows| ==> !IsCandidate(x, rows[i], row)
    decreases |rows| - k
  {
    if k == |rows| then None
    else if IsCandidate(x, rows[k], row) then Some(rows[k].id)
    else Candidate(x, rows, row, k + 1)
  }

  predicate IsCandidate(x: X509, ca: CertRow, row: CertRow) {
    ca.kind == Ca && ca.id != row.id && Issued(x, ca.certPem, row.certPem)
  }

  function CandidateFix(candidate: Option<nat>): Option<Fix> {
    if candidate.Some? then Some(Relink(candidate)) else None
  }

  // ---- findings of one row ----

  function KeyFinding(x: X509, row: CertRow): seq<Finding> {
    if x.keyMatches(row.keyPem, row.certPem) then [] else [Finding(row.id, KeyMismatch, Error, None)]
  }

  function MetaFinding(x: X509, row: CertRow, meta: DerivedMeta): seq<Finding> {
    if MetaAgrees(x, row, meta) then [] else [Finding(row.id, MetaDrift, Warn, Some(Refresh(meta)))]
  }

  function LinkFinding(x: X509, rows: Table, row: CertRow): seq<Finding> {
    var candidate := Candidate(x, rows, row, 0);
    if row.issuerId.None? then
      if row.kind == Ca && IsSelfSigned(x, row.certPem) then []
      else [Finding(row.id, IssuerNotSet, Error, CandidateFix(candidate))]
    else
      match FindById(rows, row.issuerId.value)
      case None => [Finding(row.id, MissingIssuerRow, Error, Some(Relink(candidate)))]
      case Some(parent) =>
        if !DnMatches(x, parent.certPem, row.certPem) then
          [Finding(row.id, IssuerDnMismatch, Error, CandidateFix(candidate))]
        else if !x.signs(parent.certPem, row.certPem) then
          [Finding(row.id, SignatureInvalid, Error,
                   if candidate == Some(parent.id) then None else CandidateFix(candidate))]
        else []
  }

  function DateFinding(x: X509, row: CertRow, now: int): seq<Finding>
    requires x.parse(row.certPem).Some?
  {
    var info := x.parse(row.certPem).value;
    if info.notAfter < now then [Finding(row.id, ExpiredCert, Warn, None)]
    else if info.notBefore > now then [Finding(row.id, NotYetValidCert, Info, None)]
    else []
  }

  function RowFindings(x: X509, rows: Table, row: CertRow, now: int): seq<Finding> {
    match Derive(x, row.certPem)
    case None => [Finding(row.id, ParseError, Error, None)]
    case Some(meta) =>
      KeyFinding(x, row) + MetaFinding(x, row, meta) + LinkFinding(x, rows, row) + DateFinding(x, row, now)
  }

  function FindingsUpTo(x: X509, rows: Table, now: int, n: nat): seq<Finding>
    requires n <= |rows|
  {
    if n == 0 then [] else FindingsUpTo(x, rows, now, n - 1) + RowFindings(x, rows, rows[n - 1], now)
  }

  function Findings(x: X509, rows: Table, now: int): seq<Finding> {
    FindingsUpTo(x, rows, now, |rows|)
  }

  // ---- the audit as it runs ----

  method FindCandidateIssuer(x: X509, rows: Table, row: CertRow) returns (r: Option<nat>)
    ensures r == Candidate(x, rows, row, 0)
  {
    var k := 0;
    while k < |rows|
      invariant k <= |rows|
      invariant Candidate(x, rows, row, 0) == Candidate(x, rows, row, k)
    {
      if IsCandidate(x, rows[k], row) { return Some(rows[k].id); }
      k := k + 1;
    }
    r := None;
  }

  method AuditLink(x: X509, rows: Table, row: CertRow) returns (found: seq<Finding>)
    ensures found == LinkFinding(x, rows, row)
  {
    found := [];
    var expectsParent := !(row.kind == Ca && IsSelfSigned(x, row.certPem));
    if expectsParent && row.issuerId.None? {
      var candidate := FindCandidateIssuer(x, rows, row);
      found := [Finding(row.id, IssuerNotSet, Error, CandidateFix(candidate))];
    } else if row.issuerId.Some? {
      var parent := FindById(rows, row.issuerId.value);
      var candidate := FindCandidateIssuer(x, rows, row);
      if parent.None? {
        found := [Finding(row.id, MissingIssuerRow, Error, Some(Relink(candidate)))];
      } else if !DnMatches(x, parent.value.certPem, row.certPem) {
        found := [Finding(row.id, IssuerDnMismatch, Error, CandidateFix(candidate))];
      } else if !x.signs(parent.value.certPem, row.certPem) {
        var fix := if candidate.Some? && candidate.value != parent.value.id then Some(Relink(candidate)) else None;
        found := [Finding(row.id, SignatureInvalid, Error, fix)];
      }
    }
  }

  method AuditCertificates(x: X509, rows: Table, now: int) returns (findings: seq<Finding>)
    ensures findings == Findings(x, rows, now)
  {
    findings := [];
    for k := 0 to |rows|
      invariant findings == FindingsUpTo(x, rows, now, k)
    {
      var row := rows[k];
      var derived := Derive(x, row.certPem);
      if derived.None? {
        findings := findings + [Finding(row.id, ParseError, Error, None)];
        continue;
      }
      var found := KeyFinding(x, row) + MetaFinding(x, row, derived.value);
      var link := AuditLink(x, rows, row);
      findings := findings + (found + link + DateFinding(x, row, now));
    }
  }

  // ---- applying fixes ----

  function ApplyFix(t: Table, f: Finding): Table {
    match f.fix
    case None => t
    case Some(Refresh(meta)) => RefreshMeta(t, f.certId, meta)
    case Some(Relink(issuer)) => RelinkIssuer(t, f.certId, issuer)
  }

  function ApplyFixes(t: Table, fs: seq<Finding>): Table {
    if fs == [] then t else ApplyFix(ApplyFixes(t, fs[..|fs| - 1]), fs[|fs| - 1])
  }

  /** applyAll on the open context; `fs` are the findings in the order the screen sorted them. */
  method ApplyAll(repo: CertRepo, fs: seq<Finding>)
    requires repo.Valid()
    modifies repo
    ensures repo.Valid() && repo.nextId == old(repo.nextId) && repo.rows == ApplyFixes(old(repo.rows), fs)
  {
    for k := 0 to |fs|
      invariant repo.Valid() && repo.nextId == old(repo.nextId)
      invariant repo.rows == ApplyFixes(old(repo.rows), fs[..k])
    {
      assert fs[..k + 1][..k] == fs[..k];
      match fs[k].fix
      case None =>
      case Some(Refresh(meta)) => repo.Refresh(fs[k].certId, meta);
      case Some(Relink(issuer)) => repo.Relink(fs[k].certId, issuer);
    }
    assert fs[..|fs|] == fs;
  }
}
