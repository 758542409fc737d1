/** The `certificates` table of a context (src/storage/repos.ts) and the facts read out
    of a certificate by foreign libraries. */
module Certificates {
  import opened Wrappers

  datatype CertType = Ca | ServerCert | ClientCert

  /** What the X.509 parser reports about a PEM text. Times are in milliseconds. */
  datatype CertInfo = CertInfo(commonName: Option<string>, organization: Option<string>, serial: string,
                               notBefore: int, notAfter: int, notBeforeIso: string, notAfterIso: string,
                               sans: seq<string>, sanJson: Option<string>,
                               subjectDn: Option<string>, issuerDn: Option<string>)

  /** The cryptographic library: any functions of these types. */
  datatype X509 = X509(parse: string -> Option<CertInfo>,        // parseCertCompat; None when it throws
                       signs: (string, string) -> bool,          // caSignsLeaf(parentPem, leafPem)
                       fingerprint: string -> string,            // SHA-256 of the DER body
                       keyMatches: (string, string) -> bool,     // keyMatchesCert(keyPem, certPem)
                       instant: string -> Option<int>)           // floor(Date.parse(s) / 1000)

  datatype CertRow = CertRow(id: nat, name: string, kind: CertType, commonName: string, organization: Option<string>,
                             issuerId: Option<nat>, serial: string, notBefore: string, notAfter: string,
                             san: Option<string>, certPem: string, keyPem: string, fingerprint: string,
                             revokedAt: Option<string>, revocationReason: Option<string>)

  /** The columns that repeat what the PEM says. */
  datatype DerivedMeta = DerivedMeta(commonName: string, organization: Option<string>, serial: string,
                                     notBefore: string, notAfter: string, san: Option<string>, fingerprint: string)

  /** What the columns should say; None when the PEM does not parse. */
  function Derive(x: X509, pem: string): Option<DerivedMeta> {
    match x.parse(pem)
    case None => None
    case Some(info) =>
      Some(DerivedMeta(if info.commonName.Some? then info.commonName.value else "", info.organization, info.serial,
                       info.notBeforeIso, info.notAfterIso, info.sanJson, x.fingerprint(pem)))
  }

  /** Rows in the order they were inserted. */
  type Table = seq<CertRow>

  predicate Truthy(s: Option<string>) {
    s.Some? && s.value != ""
  }

  predicate IsRevoked(row: CertRow) {
    Truthy(row.revokedAt)
  }

  ghost predicate UniqueIds(t: Table) {
    forall i, j :: 0 <= i < j < |t| ==> t[i].id != t[j].id
  }

  ghost predicate UniqueNames(t: Table) {
    forall i, j :: 0 <= i < j < |t| ==> t[i].name != t[j].name
  }

  ghost predicate UniqueFingerprints(t: Table) {
    forall i, j :: 0 <= i < j < |t| ==> t[i].fingerprint != t[j].fingerprint
  }

  function Ids(t: Table): set<nat> {
    set r | r in t :: r.id
  }

  function FindById(t: Table, id: nat): (r: Option<CertRow>)
    ensures r.Some? ==> r.value in t && r.value.id == id
    ensures r.None? <==> id !in Ids(t)
  {
    if t == [] then None else if t[0].id == id then Some(t[0]) else FindById(t[1..], id)
  }

  lemma {:induction false} FindUnique(t: Table, row: CertRow)
    requires UniqueIds(t) && row in t
    ensures FindById(t, row.id) == Some(row)
  {}

  function FindByName(t: Table, name: string): (r: Option<CertRow>)
    ensures r.Some? ==> r.value in t && r.value.name == name
    ensures r.None? <==> forall x :: x in t ==> x.name != name
  {
    if t == [] then None else if t[0].name == name then Some(t[0]) else FindByName(t[1..], name)
  }

  function FindByFingerprint(t: Table, fingerprint: string): (r: Option<CertRow>)
    ensures r.Some? ==> r.value in t && r.value.fingerprint == fingerprint
    ensures r.None? <==> forall x :: x in t ==> x.fingerprint != fingerprint
  {
    if t == [] then None else if t[0].fingerprint == fingerprint then Some(t[0]) else FindByFingerprint(t[1..], fingerprint)
  }

  /** listIssuedBy: newest first. */
  function IssuedBy(t: Table, issuer: nat): (r: seq<CertRow>)
    ensures forall x :: x in r <==> x in t && x.issuerId == Some(issuer)
  {
    if t == [] then []
    else IssuedBy(t[1..], issuer) + (if t[0].issuerId == Some(issuer) then [t[0]] else [])
  }

  /** An UPDATE of the row with key `id`. */
  function Update(t: Table, id: nat, f: CertRow -> CertRow): (r: Table)
    ensures |r| == |t|
    ensures forall i :: 0 <= i < |t| ==> r[i] == if t[i].id == id then f(t[i]) else t[i]
  {
    seq(|t|, i requires 0 <= i < |t| => if t[i].id == id then f(t[i]) else t[i])
  }

  function RelinkIssuer(t: Table, id: nat, issuer: Option<nat>): Table {
    Update(t, id, (r: CertRow) => r.(issuerId := issuer))
  }

  function SetRevocation(t: Table, id: nat, at: Option<string>, reason: Option<string>): Table {
    Update(t, id, (r: CertRow) => r.(revokedAt := at, revocationReason := reason))
  }

  function UpdateKey(t: Table, id: nat, keyPem: string): Table {
    Update(t, id, (r: CertRow) => r.(keyPem := keyPem))
  }

  function WithMeta(row: CertRow, meta: DerivedMeta): CertRow {
    row.(commonName := meta.commonName, organization := meta.organization, serial := meta.serial,
         notBefore := meta.notBefore, notAfter := meta.notAfter, san := meta.san, fingerprint := meta.fingerprint)
  }

  function RefreshMeta(t: Table, id: nat, meta: DerivedMeta): Table {
    Update(t, id, (r: CertRow) => WithMeta(r, meta))
  }

  /** AUTOINCREMENT: ids start at 1, grow and are never reused. */
  ghost predicate ValidTable(t: Table, nextId: nat) {
    UniqueIds(t) && nextId >= 1 && forall r :: r in t ==> 1 <= r.id < nextId
  }

  datatype StoreError = NameTaken | IssuerMissing

  /** INSERT fails on a taken name or a dangling issuer, else yields the new key. */
  function InsertOutcome(t: Table, nextId: nat, row: CertRow): Result<nat, StoreError> {
    if FindByName(t, row.name).Some? then Err(NameTaken)
    else if row.issuerId.Some? && row.issuerId.value !in Ids(t) && row.issuerId.value != nextId then Err(IssuerMissing)
    else Ok(nextId)
  }

  function Inserted(t: Table, nextId: nat, row: CertRow): Table {
    t + [row.(id := nextId, revokedAt := None, revocationReason := None)]
  }

  /** The table with its next key, as a value. */
  datatype Store = Store(rows: Table, nextId: nat)

  function StoreOf(repo: CertRepo): Store
    reads repo
  {
    Store(repo.rows, repo.nextId)
  }

  /** certRepo: the open context's table, changed in place. */
  class CertRepo {
    var rows: Table
    var nextId: nat

    ghost predicate Valid()
      reads this
    {
      ValidTable(rows, nextId) && UniqueNames(rows)
    }

    constructor ()
      ensures Valid() && rows == [] && nextId == 1
    {
      rows, nextId := [], 1;
    }

    /** INSERT under the UNIQUE(name) and issuer foreign-key constraints. */
    method Insert(row: CertRow) returns (r: Result<nat, StoreError>)
      requires Valid()
      modifies this
      ensures Valid()
      ensures r == InsertOutcome(old(rows), old(nextId), row)
      ensures r.Err? ==> rows == old(rows) && nextId == old(nextId)
      ensures r.Ok? ==> rows == Inserted(old(rows), old(nextId), row) && nextId == old(nextId) + 1
    {
      if FindByName(rows, row.name).Some? { return Err(NameTaken); }
      if row.issuerId.Some? && FindById(rows, row.issuerId.value).None? && row.issuerId.value != nextId {
        return Err(IssuerMissing);
      }
      forall i | 0 <= i < |rows| ensures rows[i].id != nextId && rows[i].name != row.name {
        assert rows[i] in rows;
      }
      rows := rows + [row.(id := nextId, revokedAt := None, revocationReason := None)];
      r := Ok(nextId);
      nextId := nextId + 1;
    }

    method Relink(id: nat, issuer: Option<nat>)
      requires Valid()
      modifies this
      ensures Valid() && nextId == old(nextId) && rows == RelinkIssuer(old(rows), id, issuer)
    {
      rows := RelinkIssuer(rows, id, issuer);
    }

    method Refresh(id: nat, meta: DerivedMeta)
      requires Valid()
      modifies this
      ensures Valid() && nextId == old(nextId) && rows == RefreshMeta(old(rows), id, meta)
    {
      rows := RefreshMeta(rows, id, meta);
    }

    method SetKey(id: nat, keyPem: string)
      requires Valid()
      modifies this
      ensures Valid() && nextId == old(nextId) && rows == UpdateKey(old(rows), id, keyPem)
    {
      rows := UpdateKey(rows, id, keyPem);
    }

    method Revoke(id: nat, at: string, reason: Option<string>)
      requires Valid()
      modifies this
      ensures Valid() && nextId == old(nextId) && rows == SetRevocation(old(rows), id, Some(at), reason)
    {
      rows := SetRevocation(rows, id, Some(at), reason);
    }

    method Unrevoke(id: nat)
      requires Valid()
      modifies this
      ensures Valid() && nextId == old(nextId) && rows == SetRevocation(old(rows), id, None, None)
    {
      rows := SetRevocation(rows, id, None, None);
    }
  }

}
