/** When the audit reports what about a certificate, told from the row and from what the
    X.509 library says about it. */
module AuditFindings {
  import opened Wrappers
  import opened Certificates
  import opened Audit

  /** The report has a finding of this kind for the certificate. */
  ghost predicate Reports(fs: seq<Finding>, id: nat, kind: FindingKind) {
    exists f :: f in fs && f.certId == id && f.kind == kind
  }

  // ---- the conditions ----

  predicate Parses(x: X509, row: CertRow) {
    x.parse(row.certPem).Some?
  }

  predicate Differs(column: Option<string>, derived: Option<string>) {
    (if column.Some? then column.value else "") != (if derived.Some? then derived.value else "")
  }

  /** Times in different seconds, or not both readable and spelled differently. */
  predicate OtherInstant(x: X509, a: string, b: string) {
    match (x.instant(a), x.instant(b))
    case (Some(ta), Some(tb)) => ta != tb
    case _ => a != b
  }

  /** One of the seven columns is not what the certificate says. */
  predicate Drifted(x: X509, row: CertRow)
    requires Parses(x, row)
  {
    var info := x.parse(row.certPem).value;
    || Differs(Some(row.commonName), info.commonName)
    || Differs(row.organization, info.organization)
    || row.serial != info.serial
    || Differs(row.san, info.sanJson)
    || row.fingerprint != x.fingerprint(row.certPem)
    || OtherInstant(x, row.notBefore, info.notBeforeIso)
    || OtherInstant(x, row.notAfter, info.notAfterIso)
  }

  /** Both certificates parse and the subject of the first is the issuer of the second. */
  predicate NamesAsIssuer(x: X509, ca: CertRow, row: CertRow) {
    && Parses(x, ca) && Parses(x, row)
    && x.parse(ca.certPem).value.subjectDn.Some?
    && x.parse(ca.certPem).value.subjectDn == x.parse(row.certPem).value.issuerDn
  }

  ghost predicate ParentIs(rows: Table, row: CertRow, parent: CertRow) {
    parent in rows && row.issuerId == Some(parent.id)
  }

  ghost predicate HasParent(rows: Table, row: CertRow) {
    exists parent :: ParentIs(rows, row, parent)
  }

  /** The first CA in the table that could have issued the certificate and is another row. */
  ghost predicate FirstIssuer(x: X509, rows: Table, row: CertRow, k: nat) {
    && k < |rows| && CouldIssue(x, rows[k], row)
    && forall j :: 0 <= j < k ==> !CouldIssue(x, rows[j], row)
  }

  predicate CouldIssue(x: X509, ca: CertRow, row: CertRow) {
    ca.kind == Ca && ca.id != row.id && NamesAsIssuer(x, ca, row) && x.signs(ca.certPem, row.certPem)
  }

  // ---- the findings of one row ----

  lemma {:induction false} RowFindingsIn(x: X509, rows: Table, now: int, n: nat, f: Finding)
    requires n <= |rows|
    ensures f in FindingsUpTo(x, rows, now, n) <==> exists i :: 0 <= i < n && f in RowFindings(x, rows, rows[i], now)
  {
    hide RowFindings;
    if n > 0 { RowFindingsIn(x, rows, now, n - 1, f); }
  }

  lemma {:induction false} OwnFindings(x: X509, rows: Table, row: CertRow, now: int)
    ensures forall f :: f in RowFindings(x, rows, row, now) ==> f.certId == row.id
  {}

  /** The findings for a row's id are the row's own. */
  lemma {:induction false} FindingsOfId(x: X509, rows: Table, row: CertRow, now: int, f: Finding)
    requires UniqueIds(rows) && row in rows && f.certId == row.id
    ensures f in Findings(x, rows, now) <==> f in RowFindings(x, rows, row, now)
  {
    RowFindingsIn(x, rows, now, |rows|, f);
    hide RowFindings, FindingsUpTo;
    if f in Findings(x, rows, now) {
      var i :| 0 <= i < |rows| && f in RowFindings(x, rows, rows[i], now);
      OwnFindings(x, rows, rows[i], now);
      assert rows[i] == row;
    }
    var k :| 0 <= k < |rows| && rows[k] == row;
  }

  lemma {:induction false} ReportsIff(x: X509, rows: Table, row: CertRow, now: int, kind: FindingKind)
    requires UniqueIds(rows) && row in rows
    ensures Reports(Findings(x, rows, now), row.id, kind) <==> Reports(RowFindings(x, rows, row, now), row.id, kind)
  {
    hide Findings, RowFindings;
    forall f: Finding | f.certId == row.id ensures f in Findings(x, rows, now) <==> f in RowFindings(x, rows, row, now) {
      FindingsOfId(x, rows, row, now, f);
    }
  }

  lemma {:induction false} DriftIff(x: X509, row: CertRow)
    requires Parses(x, row)
    ensures Derive(x, row.certPem).Some? && (MetaAgrees(x, row, Derive(x, row.certPem).value) <==> !Drifted(x, row))
  {}

  /** Where the findings of a row come from. */
  ghost predicate SplitInto(all: seq<Finding>, key: seq<Finding>, meta: seq<Finding>, link: seq<Finding>, date: seq<Finding>) {
    forall f :: f in all <==> f in key || f in meta || f in link || f in date
  }

  lemma {:induction false} RowSplits(x: X509, rows: Table, row: CertRow, now: int)
    requires Parses(x, row)
    ensures Derive(x, row.certPem).Some?
    ensures SplitInto(RowFindings(x, rows, row, now), KeyFinding(x, row), MetaFinding(x, row, Derive(x, row.certPem).value),
                      LinkFinding(x, rows, row), DateFinding(x, row, now))
  {
    hide KeyFinding, MetaFinding, LinkFinding, DateFinding;
  }

  /** Kinds and severities of the parts. */
  lemma {:induction false} LinkKinds(x: X509, rows: Table, row: CertRow)
    ensures |LinkFinding(x, rows, row)| <= 1
    ensures forall f :: f in LinkFinding(x, rows, row) ==>
              f.certId == row.id && f.kind in {IssuerNotSet, MissingIssuerRow, IssuerDnMismatch, SignatureInvalid}
  {}

  lemma {:induction false} KeyFindingIff(x: X509, rows: Table, row: CertRow, now: int)
    ensures Reports(RowFindings(x, rows, row, now), row.id, KeyMismatch) <==> Parses(x, row) && !x.keyMatches(row.keyPem, row.certPem)
  {
    if Parses(x, row) {
      RowSplits(x, rows, row, now);
      LinkKinds(x, rows, row);
      hide RowFindings, LinkFinding;
      if !x.keyMatches(row.keyPem, row.certPem) { assert Finding(row.id, KeyMismatch, Error, None) in RowFindings(x, rows, row, now); }
    }
  }

  lemma {:induction false} MetaFindingIff(x: X509, rows: Table, row: CertRow, now: int)
    ensures Reports(RowFindings(x, rows, row, now), row.id, MetaDrift) <==> Parses(x, row) && Drifted(x, row)
  {
    if Parses(x, row) {
      RowSplits(x, rows, row, now);
      LinkKinds(x, rows, row);
      DriftIff(x, row);
      hide RowFindings, LinkFinding, MetaAgrees, Drifted;
      if Drifted(x, row) {
        assert Finding(row.id, MetaDrift, Warn, Some(Refresh(Derive(x, row.certPem).value))) in RowFindings(x, rows, row, now);
      }
    }
  }

  lemma {:induction false} DateFindingIff(x: X509, rows: Table, row: CertRow, now: int)
    ensures Reports(RowFindings(x, rows, row, now), row.id, ExpiredCert) <==> Parses(x, row) && x.parse(row.certPem).value.notAfter < now
    ensures Reports(RowFindings(x, rows, row, now), row.id, NotYetValidCert) <==>
            Parses(x, row) && now <= x.parse(row.certPem).value.notAfter && now < x.parse(row.certPem).value.notBefore
  {
    if Parses(x, row) {
      RowSplits(x, rows, row, now);
      LinkKinds(x, rows, row);
      var info := x.parse(row.certPem).value;
      hide RowFindings, LinkFinding;
      if info.notAfter < now {
        assert Finding(row.id, ExpiredCert, Warn, None) in RowFindings(x, rows, row, now);
      } else if now < info.notBefore {
        assert Finding(row.id, NotYetValidCert, Info, None) in RowFindings(x, rows, row, now);
      }
    }
  }

  lemma {:induction false} ParseFindingIff(x: X509, rows: Table, row: CertRow, now: int)
    ensures Reports(RowFindings(x, rows, row, now), row.id, ParseError) <==> !Parses(x, row)
  {
    if Parses(x, row) {
      RowSplits(x, rows, row, now);
      LinkKinds(x, rows, row);
      hide RowFindings, LinkFinding;
    } else {
      assert Finding(row.id, ParseError, Error, None) in RowFindings(x, rows, row, now);
    }
  }

  /** What is reported about a row's own data: an unreadable certificate and nothing else, or a
      key that is not its own, columns that drifted, and a time outside the validity. */
  lemma {:induction false} RowReports(x: X509, rows: Table, row: CertRow, now: int)
    requires UniqueIds(rows) && row in rows
    ensures var fs := Findings(x, rows, now);
            && (Reports(fs, row.id, ParseError) <==> !Parses(x, row))
            && (Reports(fs, row.id, KeyMismatch) <==> Parses(x, row) && !x.keyMatches(row.keyPem, row.certPem))
            && (Reports(fs, row.id, MetaDrift) <==> Parses(x, row) && Drifted(x, row))
            && (Reports(fs, row.id, ExpiredCert) <==> Parses(x, row) && x.parse(row.certPem).value.notAfter < now)
            && (Reports(fs, row.id, NotYetValidCert) <==>
                  Parses(x, row) && now <= x.parse(row.certPem).value.notAfter && now < x.parse(row.certPem).value.notBefore)
  {
    hide Findings, RowFindings, Reports, Drifted;
    forall kind ensures Reports(Findings(x, rows, now), row.id, kind) <==> Reports(RowFindings(x, rows, row, now), row.id, kind) {
      ReportsIff(x, rows, row, now, kind);
    }
    ParseFindingIff(x, rows, row, now);
    KeyFindingIff(x, rows, row, now);
    MetaFindingIff(x, rows, row, now);
    DateFindingIff(x, rows, row, now);
  }

  // ---- links ----

  lemma {:induction false} ParentFound(rows: Table, row: CertRow)
    requires UniqueIds(rows) && row.issuerId.Some?
    ensures FindById(rows, row.issuerId.value).None? <==> !HasParent(rows, row)
    ensures forall parent :: ParentIs(rows, row, parent) <==> FindById(rows, row.issuerId.value) == Some(parent)
  {
    forall parent | ParentIs(rows, row, parent) ensures FindById(rows, row.issuerId.value) == Some(parent) { FindUnique(rows, parent); }
    if FindById(rows, row.issuerId.value).Some? { assert ParentIs(rows, row, FindById(rows, row.issuerId.value).value); }
  }

  lemma {:induction false} NamesIff(x: X509, ca: CertRow, row: CertRow)
    requires Parses(x, row)
    ensures DnMatches(x, ca.certPem, row.certPem) <==> NamesAsIssuer(x, ca, row)
    ensures IsCandidate(x, ca, row) <==> CouldIssue(x, ca, row)
  {}

  lemma {:induction false} CandidateIsFirst(x: X509, rows: Table, row: CertRow, from: nat, k: nat)
    requires from <= k && Parses(x, row) && FirstIssuer(x, rows, row, k)
    ensures Candidate(x, rows, row, from) == Some(rows[k].id)
    decreases k - from
  {
    NamesIff(x, rows[from], row);
    if from < k { CandidateIsFirst(x, rows, row, from + 1, k); }
  }

  lemma {:induction false} NoCandidate(x: X509, rows: Table, row: CertRow)
    requires Parses(x, row) && forall j :: 0 <= j < |rows| ==> !CouldIssue(x, rows[j], row)
    ensures Candidate(x, rows, row, 0).None?
  {
    if Candidate(x, rows, row, 0).Some? {
      var i :| 0 <= i < |rows| && rows[i].id == Candidate(x, rows, row, 0).value && IsCandidate(x, rows[i], row);
      NamesIff(x, rows[i], row);
    }
  }

  /** The link of the row is wrong in this way. */
  ghost predicate WrongLink(x: X509, rows: Table, row: CertRow, kind: FindingKind) {
    match kind
    case IssuerNotSet => row.issuerId.None? && !(row.kind == Ca && NamesAsIssuer(x, row, row))
    case MissingIssuerRow => row.issuerId.Some? && !HasParent(rows, row)
    case IssuerDnMismatch => exists parent :: ParentIs(rows, row, parent) && !NamesAsIssuer(x, parent, row)
    case SignatureInvalid => exists parent :: ParentIs(rows, row, parent) && NamesAsIssuer(x, parent, row) && !x.signs(parent.certPem, row.certPem)
    case _ => false
  }

  lemma {:induction false} LinkFindingKind(x: X509, rows: Table, row: CertRow, kind: FindingKind)
    requires UniqueIds(rows) && Parses(x, row)
    ensures (exists f :: f in LinkFinding(x, rows, row) && f.kind == kind) <==> WrongLink(x, rows, row, kind)
  {
    hide UniqueIds, Candidate;
    if row.issuerId.Some? {
      ParentFound(rows, row);
      var parent := FindById(rows, row.issuerId.value);
      if parent.Some? {
        assert ParentIs(rows, row, parent.value);
        NamesIff(x, parent.value, row);
      }
    } else {
      NamesIff(x, row, row);
    }
    hide FindById, DnMatches, NamesAsIssuer;
    var fs := LinkFinding(x, rows, row);
    assert fs != [] ==> fs[0] in fs && forall f :: f in fs ==> f == fs[0];
  }

  /** The link findings of a row, one by one. */
  lemma {:induction false} LinkReports(x: X509, rows: Table, row: CertRow, now: int, kind: FindingKind)
    requires UniqueIds(rows) && row in rows && kind in {IssuerNotSet, MissingIssuerRow, IssuerDnMismatch, SignatureInvalid}
    ensures Reports(Findings(x, rows, now), row.id, kind) <==> Parses(x, row) && WrongLink(x, rows, row, kind)
  {
    ReportsIff(x, rows, row, now, kind);
    hide Findings, UniqueIds, WrongLink;
    if Parses(x, row) {
      RowSplits(x, rows, row, now);
      LinkKinds(x, rows, row);
      LinkFindingKind(x, rows, row, kind);
      hide RowFindings, LinkFinding;
    }
  }

  // ---- severities and repairs ----

  /** The repair that goes with a wrong link: the first possible issuer, if it is not the one
      the row has; without any, a dangling link is cut and other links are left to the user. */
  ghost predicate LinkRepair(x: X509, rows: Table, row: CertRow, f: Finding) {
    && (forall k: nat :: FirstIssuer(x, rows, row, k) ==>
          f.fix == if f.kind == SignatureInvalid && row.issuerId == Some(rows[k].id) then None else Some(Relink(Some(rows[k].id))))
    && ((forall j :: 0 <= j < |rows| ==> !CouldIssue(x, rows[j], row)) ==>
          f.fix == if f.kind == MissingIssuerRow then Some(Relink(None)) else None)
  }

  ghost predicate FindingIs(x: X509, rows: Table, row: CertRow, f: Finding) {
    match f.kind
    case ParseError => f.severity == Error && f.fix == None
    case KeyMismatch => f.severity == Error && f.fix == None
    case MetaDrift =>
      && f.severity == Warn && x.parse(row.certPem).Some? && f.fix.Some? && f.fix.value.Refresh?
      && var info, meta := x.parse(row.certPem).value, f.fix.value.metadata;
         && !Differs(Some(meta.commonName), info.commonName) && meta.organization == info.organization && meta.serial == info.serial
         && meta.notBefore == info.notBeforeIso && meta.notAfter == info.notAfterIso && meta.san == info.sanJson
         && meta.fingerprint == x.fingerprint(row.certPem)
    case ExpiredCert => f.severity == Warn && f.fix == None
    case NotYetValidCert => f.severity == Info && f.fix == None
    case _ => f.severity == Error && LinkRepair(x, rows, row, f)
  }

  lemma {:induction false} LinkFindingIs(x: X509, rows: Table, row: CertRow, f: Finding)
    requires Parses(x, row) && f in LinkFinding(x, rows, row)
    ensures f.severity == Error && LinkRepair(x, rows, row, f)
  {
    forall k: nat | FirstIssuer(x, rows, row, k) ensures Candidate(x, rows, row, 0) == Some(rows[k].id) { CandidateIsFirst(x, rows, row, 0, k); }
    if forall j :: 0 <= j < |rows| ==> !CouldIssue(x, rows[j], row) { NoCandidate(x, rows, row); }
    hide Candidate, CouldIssue, DnMatches, IsSelfSigned;
    if row.issuerId.Some? && FindById(rows, row.issuerId.value).Some? {
      assert FindById(rows, row.issuerId.value).value.id == row.issuerId.value;
    }
    hide FindById;
  }

  lemma {:induction false} LinkFindingOk(x: X509, rows: Table, row: CertRow, f: Finding)
    requires Parses(x, row) && f in LinkFinding(x, rows, row)
    ensures FindingIs(x, rows, row, f)
  {
    LinkKinds(x, rows, row);
    LinkFindingIs(x, rows, row, f);
    hide LinkFinding, LinkRepair, Parses;
  }

  lemma {:induction false} OwnFindingOk(x: X509, rows: Table, row: CertRow, now: int, f: Finding)
    requires Parses(x, row) && Derive(x, row.certPem).Some?
    requires f in KeyFinding(x, row) || f in MetaFinding(x, row, Derive(x, row.certPem).value) || f in DateFinding(x, row, now)
    ensures FindingIs(x, rows, row, f)
  {
    hide MetaAgrees, LinkRepair;
  }

  /** Every finding of the report has the severity and the repair of its kind. */
  lemma {:induction false} FindingsAre(x: X509, rows: Table, row: CertRow, now: int, f: Finding)
    requires UniqueIds(rows) && row in rows && f in Findings(x, rows, now) && f.certId == row.id
    ensures FindingIs(x, rows, row, f)
  {
    FindingsOfId(x, rows, row, now, f);
    if Parses(x, row) {
      RowSplits(x, rows, row, now);
      hide Findings, UniqueIds, RowFindings, FindingIs, LinkFinding, KeyFinding, MetaFinding, DateFinding;
      if f in LinkFinding(x, rows, row) { LinkFindingOk(x, rows, row, f); } else { OwnFindingOk(x, rows, row, now, f); }
    } else {
      assert RowFindings(x, rows, row, now) == [Finding(row.id, ParseError, Error, None)];
    }
  }
}
