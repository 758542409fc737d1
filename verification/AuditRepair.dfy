/** One pass of repairs settles everything the audit can repair, and a context without
    link findings never fails verification on a link. */
module AuditRepair {
  import opened Wrappers
  import opened Certificates
  import opened IssuerGraph
  import opened Audit
  import V = Verify

  // ---- the two fixes a row can need ----

  function MetaFix(x: X509, row: CertRow): Option<DerivedMeta> {
    match Derive(x, row.certPem)
    case None => None
    case Some(meta) => if MetaAgrees(x, row, meta) then None else Some(meta)
  }

  function LinkFix(x: X509, rows: Table, row: CertRow): Option<Option<nat>> {
    if Derive(x, row.certPem).None? then None
    else
      var found := LinkFinding(x, rows, row);
      if found == [] || found[0].fix.None? then None
      else match found[0].fix.value case Relink(issuer) => Some(issuer) case Refresh(_) => None
  }

  /** Some finding in `fs` asks for this fix of row `id`. */
  ghost predicate Wants(fs: seq<Finding>, id: nat, fix: Fix) {
    exists f :: f in fs && f.certId == id && f.fix == Some(fix)
  }

  lemma {:induction false} FindingsOfRow(x: X509, rows: Table, now: int, n: nat, i: nat)
    requires i < n <= |rows|
    ensures forall f :: f in RowFindings(x, rows, rows[i], now) ==> f in FindingsUpTo(x, rows, now, n)
  {
    if i < n - 1 { FindingsOfRow(x, rows, now, n - 1, i); }
  }

  lemma {:induction false} FindingHasRow(x: X509, rows: Table, now: int, n: nat, f: Finding) returns (i: nat)
    requires n <= |rows| && f in FindingsUpTo(x, rows, now, n)
    ensures i < n && f in RowFindings(x, rows, rows[i], now)
  {
    if f in RowFindings(x, rows, rows[n - 1], now) {
      i := n - 1;
    } else {
      i := FindingHasRow(x, rows, now, n - 1, f);
    }
  }

  /** The fixes of a row's findings are its metadata fix and its link fix. */
  lemma {:induction false} RowFixes(x: X509, rows: Table, row: CertRow, now: int)
    ensures forall f :: f in RowFindings(x, rows, row, now) ==> f.certId == row.id
    ensures forall meta :: Wants(RowFindings(x, rows, row, now), row.id, Refresh(meta)) <==> MetaFix(x, row) == Some(meta)
    ensures forall issuer :: Wants(RowFindings(x, rows, row, now), row.id, Relink(issuer)) <==> LinkFix(x, rows, row) == Some(issuer)
  {
    var fs := RowFindings(x, rows, row, now);
    if Derive(x, row.certPem).Some? {
      var meta := Derive(x, row.certPem).value;
      LinkFindingFix(x, rows, row);
      var k, m, l, d := KeyFinding(x, row), MetaFinding(x, row, meta), LinkFinding(x, rows, row), DateFinding(x, row, now);
      assert forall f :: f in fs <==> f in k || f in m || f in l || f in d;
      if m != [] { assert m[0] in fs; }
      if l != [] { assert l[0] in fs; }
    }
  }

  lemma {:induction false} LinkFindingFix(x: X509, rows: Table, row: CertRow)
    ensures |LinkFinding(x, rows, row)| <= 1
    ensures forall f :: f in LinkFinding(x, rows, row) ==> f.certId == row.id && (f.fix.Some? ==> f.fix.value.Relink?)
  {}

  /** What the audit asks for, row by row. */
  lemma {:induction false} AuditWants(x: X509, rows: Table, now: int, i: nat)
    requires UniqueIds(rows) && i < |rows|
    ensures forall meta :: Wants(Findings(x, rows, now), rows[i].id, Refresh(meta)) <==> MetaFix(x, rows[i]) == Some(meta)
    ensures forall issuer :: Wants(Findings(x, rows, now), rows[i].id, Relink(issuer)) <==> LinkFix(x, rows, rows[i]) == Some(issuer)
  {
    hide MetaFix, LinkFix, Findings;
    forall fix
      ensures Wants(Findings(x, rows, now), rows[i].id, fix) <==> Wants(RowFindings(x, rows, rows[i], now), rows[i].id, fix)
    {
      RowWants(x, rows, now, i, fix);
    }
    RowFixes(x, rows, rows[i], now);
  }

  /** Only a row's own findings ask for fixes of it. */
  lemma {:induction false} RowWants(x: X509, rows: Table, now: int, i: nat, fix: Fix)
    requires UniqueIds(rows) && i < |rows|
    ensures Wants(Findings(x, rows, now), rows[i].id, fix) <==> Wants(RowFindings(x, rows, rows[i], now), rows[i].id, fix)
  {
    hide RowFindings, MetaFix, LinkFix;
    FindingsOfRow(x, rows, now, |rows|, i);
    if f :| f in Findings(x, rows, now) && f.certId == rows[i].id && f.fix == Some(fix) {
      var j := FindingHasRow(x, rows, now, |rows|, f);
      RowFixes(x, rows, rows[j], now);
    }
  }

  // ---- applying them ----

  /** The row after the fixes selected by `meta` and `link`. */
  function Partly(x: X509, rows: Table, row: CertRow, meta: bool, link: bool): CertRow {
    var r := if meta && MetaFix(x, row).Some? then WithMeta(row, MetaFix(x, row).value) else row;
    if link && LinkFix(x, rows, row).Some? then r.(issuerId := LinkFix(x, rows, row).value) else r
  }

  function Repaired(x: X509, rows: Table, row: CertRow): CertRow {
    Partly(x, rows, row, true, true)
  }

  ghost predicate HasRefresh(fs: seq<Finding>, id: nat) {
    exists meta :: Wants(fs, id, Refresh(meta))
  }

  ghost predicate HasRelink(fs: seq<Finding>, id: nat) {
    exists issuer :: Wants(fs, id, Relink(issuer))
  }

  /** The findings ask for nothing but the rows' own fixes. */
  ghost predicate Proper(x: X509, rows: Table, fs: seq<Finding>) {
    && (forall i, meta :: 0 <= i < |rows| && Wants(fs, rows[i].id, Refresh(meta)) ==> MetaFix(x, rows[i]) == Some(meta))
    && (forall i, issuer :: 0 <= i < |rows| && Wants(fs, rows[i].id, Relink(issuer)) ==> LinkFix(x, rows, rows[i]) == Some(issuer))
  }

  lemma {:induction false} ProperInit(x: X509, rows: Table, fs: seq<Finding>, f: Finding)
    requires Proper(x, rows, fs + [f])
    ensures Proper(x, rows, fs)
  {}

  /** One more fix of the row, on top of those already applied. */
  lemma {:induction false} FixApplied(x: X509, rows: Table, t: Table, f: Finding, i: nat, meta: bool, link: bool)
    requires i < |rows| == |t| && t[i] == Partly(x, rows, rows[i], meta, link)
    requires f.certId == rows[i].id && f.fix.Some? ==>
               match f.fix.value
               case Refresh(m) => MetaFix(x, rows[i]) == Some(m)
               case Relink(issuer) => LinkFix(x, rows, rows[i]) == Some(issuer)
    ensures var mine := f.certId == rows[i].id && f.fix.Some?;
            && |ApplyFix(t, f)| == |rows|
            && ApplyFix(t, f)[i] == Partly(x, rows, rows[i], meta || (mine && f.fix.value.Refresh?), link || (mine && f.fix.value.Relink?))
  {}

  lemma {:induction false} ProperFix(x: X509, rows: Table, fs: seq<Finding>, f: Finding, i: nat)
    requires Proper(x, rows, fs + [f]) && i < |rows| && f.certId == rows[i].id && f.fix.Some?
    ensures match f.fix.value
            case Refresh(m) => MetaFix(x, rows[i]) == Some(m)
            case Relink(issuer) => LinkFix(x, rows, rows[i]) == Some(issuer)
  {}

  /** In whatever order and however often the fixes are applied, each row ends up with
      exactly the fixes asked for it. */
  lemma {:induction false} AppliedRows(x: X509, rows: Table, fs: seq<Finding>, i: nat)
    requires Proper(x, rows, fs) && i < |rows|
    ensures |ApplyFixes(rows, fs)| == |rows|
    ensures ApplyFixes(rows, fs)[i] == Partly(x, rows, rows[i], HasRefresh(fs, rows[i].id), HasRelink(fs, rows[i].id))
  {
    hide Proper, Partly, ApplyFix, HasRefresh, HasRelink;
    if fs == [] {
      NoRequests(rows[i].id);
      NoFixes(x, rows, rows[i]);
    } else {
      var init, f := fs[..|fs| - 1], fs[|fs| - 1];
      assert fs == init + [f];
      ProperInit(x, rows, init, f);
      AppliedRows(x, rows, init, i);
      SnocRequests(init, f, rows[i].id);
      if f.certId == rows[i].id && f.fix.Some? { ProperFix(x, rows, init, f, i); }
      FixApplied(x, rows, ApplyFixes(rows, init), f, i, HasRefresh(init, rows[i].id), HasRelink(init, rows[i].id));
    }
  }

  lemma {:induction false} NoFixes(x: X509, rows: Table, row: CertRow)
    ensures Partly(x, rows, row, false, false) == row
  {}

  lemma {:induction false} NoRequests(id: nat)
    ensures !HasRefresh([], id) && !HasRelink([], id)
  {}

  lemma {:induction false} SnocRequests(fs: seq<Finding>, f: Finding, id: nat)
    ensures HasRefresh(fs + [f], id) <==> HasRefresh(fs, id) || (f.certId == id && f.fix.Some? && f.fix.value.Refresh?)
    ensures HasRelink(fs + [f], id) <==> HasRelink(fs, id) || (f.certId == id && f.fix.Some? && f.fix.value.Relink?)
  {}

  // ---- the second audit ----

  /** Same certificates in the same places; only metadata and links may differ. */
  ghost predicate SameCerts(t: Table, n: Table) {
    |n| == |t| && forall i :: 0 <= i < |t| ==> n[i].id == t[i].id && n[i].kind == t[i].kind && n[i].certPem == t[i].certPem
  }

  lemma {:induction false} CandidateSame(x: X509, t: Table, n: Table, row: CertRow, row': CertRow, k: nat)
    requires SameCerts(t, n) && row'.id == row.id && row'.certPem == row.certPem && k <= |t|
    ensures Candidate(x, n, row', k) == Candidate(x, t, row, k)
    decreases |t| - k
  {
    if k < |t| && !IsCandidate(x, t[k], row) { CandidateSame(x, t, n, row, row', k + 1); }
  }

  lemma {:induction false} FindSame(t: Table, n: Table, id: nat)
    requires SameCerts(t, n)
    ensures FindById(n, id).Some? <==> FindById(t, id).Some?
    ensures FindById(n, id).Some? ==> FindById(n, id).value.certPem == FindById(t, id).value.certPem
  {
    if t != [] { FindSame(t[1..], n[1..], id); }
  }

  lemma {:induction false} RepairedMeta(x: X509, rows: Table, row: CertRow)
    ensures MetaFix(x, Repaired(x, rows, row)).None?
  {}

  lemma {:induction false} CandidateRow(x: X509, rows: Table, row: CertRow)
    requires UniqueIds(rows) && Candidate(x, rows, row, 0).Some?
    ensures var c := FindById(rows, Candidate(x, rows, row, 0).value);
            c.Some? && Issued(x, c.value.certPem, row.certPem)
  {}

  /** LinkFix in one table: what the audit proposes for a link. */
  lemma {:induction false} LinkFixCases(x: X509, rows: Table, row: CertRow)
    requires UniqueIds(rows)
    ensures LinkFix(x, rows, row) ==
            var c := Candidate(x, rows, row, 0);
            if Derive(x, row.certPem).None? then None
            else if row.issuerId.None? then
              if (row.kind == Ca && IsSelfSigned(x, row.certPem)) || c.None? then None else Some(c)
            else
              var parent := FindById(rows, row.issuerId.value);
              if parent.None? then Some(c)
              else if Issued(x, parent.value.certPem, row.certPem) || c.None? then None
              else Some(c)
  {
    hide IsSelfSigned, DnMatches, Derive, Candidate, IsCandidate, UniqueIds;
    var c := Candidate(x, rows, row, 0);
    if c.Some? { CandidateRow(x, rows, row); }
  }

  lemma {:induction false} LinkFixSame(x: X509, t: Table, n: Table, row: CertRow, row': CertRow)
    requires UniqueIds(t) && UniqueIds(n) && SameCerts(t, n)
    requires row'.id == row.id && row'.kind == row.kind && row'.certPem == row.certPem && row'.issuerId == row.issuerId
    ensures LinkFix(x, n, row') == LinkFix(x, t, row)
  {
    hide LinkFix, Derive, Candidate, SameCerts, UniqueIds, Issued, IsSelfSigned;
    LinkFixCases(x, t, row);
    LinkFixCases(x, n, row');
    CandidateSame(x, t, n, row, row', 0);
    if row.issuerId.Some? { FindSame(t, n, row.issuerId.value); }
  }

  /** A link that was just set as proposed needs no further fix. */
  lemma {:induction false} RelinkedLink(x: X509, t: Table, n: Table, row: CertRow, row': CertRow)
    requires UniqueIds(t) && UniqueIds(n) && SameCerts(t, n)
    requires row'.id == row.id && row'.kind == row.kind && row'.certPem == row.certPem
    requires LinkFix(x, t, row) == Some(row'.issuerId)
    ensures LinkFix(x, n, row').None?
  {
    hide LinkFix, Derive, Candidate, SameCerts, UniqueIds, Issued, IsSelfSigned;
    LinkFixCases(x, t, row);
    LinkFixCases(x, n, row');
    CandidateSame(x, t, n, row, row', 0);
    if row'.issuerId.Some? {
      CandidateRow(x, t, row);
      FindSame(t, n, row'.issuerId.value);
    }
  }

  lemma {:induction false} RepairedParts(x: X509, rows: Table, row: CertRow)
    ensures var r := Repaired(x, rows, row);
            && r.id == row.id && r.kind == row.kind && r.certPem == row.certPem
            && r.issuerId == if LinkFix(x, rows, row).Some? then LinkFix(x, rows, row).value else row.issuerId
  {}

  lemma {:induction false} RepairedLink(x: X509, rows: Table, n: Table, row: CertRow)
    requires UniqueIds(rows) && UniqueIds(n) && SameCerts(rows, n)
    ensures LinkFix(x, n, Repaired(x, rows, row)).None?
  {
    hide LinkFix, SameCerts, UniqueIds, Repaired;
    RepairedParts(x, rows, row);
    if LinkFix(x, rows, row).Some? {
      RelinkedLink(x, rows, n, row, Repaired(x, rows, row));
    } else {
      LinkFixSame(x, rows, n, row, Repaired(x, rows, row));
    }
  }

  /** Apply all fixes of one audit, in any order: the next audit has nothing left to fix. */
  lemma {:induction false} RepairConverges(x: X509, rows: Table, now: int, later: int, fs: seq<Finding>)
    requires UniqueIds(rows)
    requires forall id, fix :: Wants(fs, id, fix) <==> Wants(Findings(x, rows, now), id, fix)
    ensures forall f :: f in Findings(x, ApplyFixes(rows, fs), later) ==> f.fix.None?
  {
    var n := ApplyFixes(rows, fs);
    AllRepaired(x, rows, now, fs);
    forall f | f in Findings(x, n, later) ensures f.fix.None? {
      var i := FindingHasRow(x, n, later, |n|, f);
      NothingLeft(x, rows, n, later, i, f);
    }
  }

  /** `n` holds the repaired rows of `rows`. */
  ghost predicate RepairedTable(x: X509, rows: Table, n: Table) {
    |n| == |rows| && forall i :: 0 <= i < |rows| ==> n[i] == Repaired(x, rows, rows[i])
  }

  lemma {:induction false} RepairedSame(x: X509, rows: Table, n: Table)
    requires UniqueIds(rows) && RepairedTable(x, rows, n)
    ensures SameCerts(rows, n) && UniqueIds(n)
  {}

  lemma {:induction false} FixIsWanted(x: X509, rows: Table, row: CertRow, now: int, f: Finding)
    requires f in RowFindings(x, rows, row, now) && f.fix.Some?
    ensures MetaFix(x, row).Some? || LinkFix(x, rows, row).Some?
  {}

  lemma {:induction false} NothingLeft(x: X509, rows: Table, n: Table, later: int, i: nat, f: Finding)
    requires UniqueIds(rows) && RepairedTable(x, rows, n) && i < |n| && f in RowFindings(x, n, n[i], later)
    ensures f.fix.None?
  {
    hide RowFindings, MetaFix, LinkFix, Repaired, SameCerts, UniqueIds;
    RepairedSame(x, rows, n);
    RepairedMeta(x, rows, rows[i]);
    RepairedLink(x, rows, n, rows[i]);
    if f.fix.Some? { FixIsWanted(x, n, n[i], later, f); }
  }

  lemma {:induction false} AllRepaired(x: X509, rows: Table, now: int, fs: seq<Finding>)
    requires UniqueIds(rows)
    requires forall id, fix :: Wants(fs, id, fix) <==> Wants(Findings(x, rows, now), id, fix)
    ensures RepairedTable(x, rows, ApplyFixes(rows, fs))
  {
    hide Repaired, Wants, ApplyFixes, Findings;
    forall i | 0 <= i < |rows|
      ensures |ApplyFixes(rows, fs)| == |rows| && ApplyFixes(rows, fs)[i] == Repaired(x, rows, rows[i])
    {
      RowRepaired(x, rows, now, fs, i);
    }
    if rows == [] { NothingApplied(rows, fs); } else { RowRepaired(x, rows, now, fs, 0); }
  }

  lemma {:induction false} NothingApplied(rows: Table, fs: seq<Finding>)
    requires rows == []
    ensures ApplyFixes(rows, fs) == []
  {
    if fs != [] { NothingApplied(rows, fs[..|fs| - 1]); }
  }

  lemma {:induction false} RowRepaired(x: X509, rows: Table, now: int, fs: seq<Finding>, i: nat)
    requires UniqueIds(rows) && i < |rows|
    requires forall id, fix :: Wants(fs, id, fix) <==> Wants(Findings(x, rows, now), id, fix)
    ensures |ApplyFixes(rows, fs)| == |rows| && ApplyFixes(rows, fs)[i] == Repaired(x, rows, rows[i])
  {
    forall j | 0 <= j < |rows|
      ensures forall meta :: Wants(fs, rows[j].id, Refresh(meta)) <==> MetaFix(x, rows[j]) == Some(meta)
      ensures forall issuer :: Wants(fs, rows[j].id, Relink(issuer)) <==> LinkFix(x, rows, rows[j]) == Some(issuer)
    {
      AuditWants(x, rows, now, j);
    }
    assert Proper(x, rows, fs);
    AppliedRows(x, rows, fs, i);
    assert MetaFix(x, rows[i]).Some? ==> Wants(fs, rows[i].id, Refresh(MetaFix(x, rows[i]).value));
    assert LinkFix(x, rows, rows[i]).Some? ==> Wants(fs, rows[i].id, Relink(LinkFix(x, rows, rows[i]).value));
  }

  // ---- clean audits and verification ----

  predicate IsLinkKind(kind: FindingKind) {
    kind in {ParseError, MissingIssuerRow, IssuerDnMismatch, SignatureInvalid}
  }

  lemma {:induction false} BadLinkFound(x: X509, rows: Table, row: CertRow)
    requires row.issuerId.Some?
    ensures var parent := FindById(rows, row.issuerId.value);
            (parent.Some? && x.signs(parent.value.certPem, row.certPem))
            || exists f :: f in LinkFinding(x, rows, row) && IsLinkKind(f.kind)
  {
    hide Candidate, DnMatches;
    var l := LinkFinding(x, rows, row);
    assert l != [] ==> l[0] in l;
  }

  lemma {:induction false} LinkFindingListed(x: X509, rows: Table, row: CertRow, now: int)
    ensures var fs := RowFindings(x, rows, row, now);
            if Derive(x, row.certPem).None? then Finding(row.id, ParseError, Error, None) in fs
            else forall f :: f in LinkFinding(x, rows, row) ==> f in fs
  {}

  /** A row without these findings has an issuer row that signed it, if it names one. */
  lemma {:induction false} CleanRowLink(x: X509, rows: Table, now: int, row: CertRow)
    requires row in rows && row.issuerId.Some?
    requires forall f :: f in Findings(x, rows, now) ==> !IsLinkKind(f.kind)
    ensures var parent := FindById(rows, row.issuerId.value);
            parent.Some? && x.signs(parent.value.certPem, row.certPem)
  {
    var i :| 0 <= i < |rows| && rows[i] == row;
    FindingsOfRow(x, rows, now, |rows|, i);
    hide RowFindings, LinkFinding, Derive, FindById;
    LinkFindingListed(x, rows, row, now);
    BadLinkFound(x, rows, row);
  }

  lemma {:induction false} CleanWalk(x: X509, rows: Table, now: int, cur: CertRow, seen: set<nat>)
    requires cur in rows && forall f :: f in Findings(x, rows, now) ==> !IsLinkKind(f.kind)
    ensures var w := WalkUp(rows, cur, seen); !w.end.Dangling? && V.IsTrusted(x, w.chain)
    decreases Ids(rows) - seen
  {
    if cur.issuerId.Some? && cur.issuerId.value !in seen {
      CleanRowLink(x, rows, now, cur);
      var id := cur.issuerId.value;
      var parent := FindById(rows, id).value;
      CleanWalk(x, rows, now, parent, seen + {id});
      var rest := WalkUp(rows, parent, seen + {id}).chain;
      forall i | 0 <= i < |rest| ensures x.signs(([cur] + rest)[i + 1].certPem, ([cur] + rest)[i].certPem) {
        if i > 0 { assert x.signs(rest[i].certPem, rest[i - 1].certPem); }
      }
    }
  }

  /** With no parse or link finding anywhere in the context, verifyCert never fails on a
      missing issuer or on a link that does not verify. */
  lemma {:induction false} CleanAuditVerifies(x: X509, rows: Table, now: int, row: CertRow, at: int, sni: Option<string>)
    requires row in rows && forall f :: f in Findings(x, rows, now) ==> !IsLinkKind(f.kind)
    ensures var r := V.Verdict(x, rows, row, at, sni);
            r.Some? && r.value.failure.Some? ==> !r.value.failure.value.MissingIssuer? && !r.value.failure.value.BadLink?
  {
    CleanWalk(x, rows, now, row, {});
    var chain := WalkUp(rows, row, {}).chain;
    assert V.FirstBadLink(x, chain, 0) == |chain|;
  }
}
