/** Writing an imported chain into a context: saveImport of src/certs/importer.ts. */
module SavedImports {
  import opened Wrappers
  import opened Names
  import opened Certificates
  import opened IssuerGraph
  import opened Importer

  datatype SaveOptions = SaveOptions(leafName: string, leafKind: CertType, leafKeyPem: Option<string>,
                                     chainAsCAs: bool, issuerCertId: Option<nat>)

  datatype SaveError = NoCertificates | AlreadyImported(name: string) | StoreFailed(error: StoreError)

  // ---- names ----

  predicate IsSafeChar(c: char) {
    'a' <= c <= 'z' || 'A' <= c <= 'Z' || '0' <= c <= '9' || c in "._-"
  }

  /** Other characters become underscores; at most 40 characters are kept. */
  function SafeName(base: string): (r: string)
    ensures 0 < |r| <= 40 && forall c :: c in r ==> IsSafeChar(c)
  {
    var n := if |base| < 40 then |base| else 40;
    var safe := seq(n, i requires 0 <= i < n => if IsSafeChar(base[i]) then base[i] else '_');
    if safe == "" then "imported" else safe
  }

  /** The first free name of base, base-2, ..., base-999; else one with the time stamp,
      which may be taken. */
  function NameFrom(t: Table, safe: string, i: nat, stamp: string): (r: string)
    requires i <= 1000
    ensures FindByName(t, r).None? || r == safe + "-" + stamp
    decreases 1000 - i
  {
    if i == 1000 then safe + "-" + stamp
    else if FindByName(t, safe + "-" + Decimal(i)).None? then safe + "-" + Decimal(i)
    else NameFrom(t, safe, i + 1, stamp)
  }

  function UniqueName(t: Table, base: string, stamp: string): string {
    var safe := SafeName(base);
    if FindByName(t, safe).None? then safe else NameFrom(t, safe, 2, stamp)
  }

  method MakeUniqueName(repo: CertRepo, base: string, stamp: string) returns (r: string)
    ensures r == UniqueName(repo.rows, base, stamp)
  {
    var safe := SafeName(base);
    if FindByName(repo.rows, safe).None? { return safe; }
    var i := 2;
    while i < 1000
      invariant 2 <= i <= 1000
      invariant UniqueName(repo.rows, base, stamp) == NameFrom(repo.rows, safe, i, stamp)
    {
      var n := safe + "-" + Decimal(i);
      if FindByName(repo.rows, n).None? { return n; }
      i := i + 1;
    }
    r := safe + "-" + stamp;
  }

  // ---- saveImport as a function of the store ----

  function RowOf(c: ImportedCert, name: string, kind: CertType, issuer: Option<nat>, key: string): CertRow {
    WithMeta(CertRow(0, name, kind, "", None, issuer, "", "", "", None, c.pem, key, "", None, None), c.meta)
  }

  function CaName(c: ImportedCert): string {
    if c.meta.commonName == "" then "imported-ca" else c.meta.commonName
  }

  /** How far the chain has been written: the row the next certificate hangs under and the
      ids so far, from the leaf's side. */
  datatype Saved = Saved(store: Store, parent: Option<nat>, ids: seq<nat>, error: Option<SaveError>)

  function InsertRow(s: Store, row: CertRow): Store {
    Store(Inserted(s.rows, s.nextId, row), s.nextId + 1)
  }

  function SaveCa(s: Saved, c: ImportedCert, stamp: string): Saved {
    match FindByFingerprint(s.store.rows, Fp(c))
    case Some(row) => s.(parent := Some(row.id), ids := [row.id] + s.ids)
    case None =>
      var row := RowOf(c, UniqueName(s.store.rows, CaName(c), stamp), Ca, s.parent, "");
      match InsertOutcome(s.store.rows, s.store.nextId, row)
      case Err(e) => s.(error := Some(StoreFailed(e)))
      case Ok(id) => Saved(InsertRow(s.store, row), Some(id), [id] + s.ids, None)
  }

  /** certs[k..], written from the root down. `stamps[k]` is the time certs[k] is named. */
  function SaveChain(s: Store, issuer: Option<nat>, certs: seq<ImportedCert>, k: nat, stamps: nat -> string): Saved
    requires k <= |certs|
    decreases |certs| - k
  {
    if k == |certs| then Saved(s, issuer, [], None)
    else
      var up := SaveChain(s, issuer, certs, k + 1, stamps);
      if up.error.Some? then up else SaveCa(up, certs[k], stamps(k))
  }

  function ChainStart(certs: seq<ImportedCert>, opts: SaveOptions): (k: nat)
    requires certs != []
    ensures 0 < k <= |certs|
  {
    if opts.chainAsCAs then 1 else |certs|
  }

  function LeafKey(opts: SaveOptions, fileKey: Option<string>): string {
    if Truthy(opts.leafKeyPem) then opts.leafKeyPem.value else if fileKey.Some? then fileKey.value else ""
  }

  datatype SaveResult = SaveResult(store: Store, outcome: Result<(nat, seq<nat>), SaveError>)

  function LeafSaved(chain: Saved, c: ImportedCert, fileKey: Option<string>, opts: SaveOptions): SaveResult {
    var existing := FindByFingerprint(chain.store.rows, Fp(c));
    if existing.Some? then SaveResult(chain.store, Err(AlreadyImported(existing.value.name)))
    else
      var row := RowOf(c, opts.leafName, opts.leafKind, chain.parent, LeafKey(opts, fileKey));
      match InsertOutcome(chain.store.rows, chain.store.nextId, row)
      case Err(e) => SaveResult(chain.store, Err(StoreFailed(e)))
      case Ok(id) => SaveResult(InsertRow(chain.store, row), Ok((id, chain.ids)))
  }

  /** The store afterwards, also when the call throws: nothing is rolled back. */
  function SaveImport(s: Store, certs: seq<ImportedCert>, fileKey: Option<string>, opts: SaveOptions, stamps: nat -> string): SaveResult {
    if certs == [] then SaveResult(s, Err(NoCertificates))
    else
      var chain := SaveChain(s, opts.issuerCertId, certs, ChainStart(certs, opts), stamps);
      if chain.error.Some? then SaveResult(chain.store, Err(chain.error.value))
      else LeafSaved(chain, certs[0], fileKey, opts)
  }

  /** One turn of the loop over the chain. */
  method SaveOne(repo: CertRepo, c: ImportedCert, parent: Option<nat>, ids: seq<nat>, stamp: string)
    returns (parentId: Option<nat>, chainIds: seq<nat>, error: Option<SaveError>)
    requires repo.Valid()
    modifies repo
    ensures repo.Valid()
    ensures Saved(StoreOf(repo), parentId, chainIds, error) == SaveCa(Saved(old(StoreOf(repo)), parent, ids, None), c, stamp)
  {
    hide UniqueName;
    parentId, chainIds, error := parent, ids, None;
    var existing := FindByFingerprint(repo.rows, Fp(c));
    if existing.Some? {
      return Some(existing.value.id), [existing.value.id] + ids, None;
    }
    var name := MakeUniqueName(repo, CaName(c), stamp);
    var id := repo.Insert(RowOf(c, name, Ca, parent, ""));
    if id.Err? { return parent, ids, Some(StoreFailed(id.error)); }
    parentId, chainIds := Some(id.value), [id.value] + ids;
  }

  method SaveLeaf(repo: CertRepo, c: ImportedCert, parent: Option<nat>, ids: seq<nat>, fileKey: Option<string>, opts: SaveOptions)
    returns (r: Result<(nat, seq<nat>), SaveError>)
    requires repo.Valid()
    modifies repo
    ensures repo.Valid()
    ensures SaveResult(StoreOf(repo), r) == LeafSaved(Saved(old(StoreOf(repo)), parent, ids, None), c, fileKey, opts)
  {
    var existing := FindByFingerprint(repo.rows, Fp(c));
    if existing.Some? { return Err(AlreadyImported(existing.value.name)); }
    var id := repo.Insert(RowOf(c, opts.leafName, opts.leafKind, parent, LeafKey(opts, fileKey)));
    if id.Err? { return Err(StoreFailed(id.error)); }
    r := Ok((id.value, ids));
  }

  method Save(repo: CertRepo, certs: seq<ImportedCert>, fileKey: Option<string>, opts: SaveOptions, stamps: nat -> string)
    returns (r: Result<(nat, seq<nat>), SaveError>)
    requires repo.Valid()
    modifies repo
    ensures repo.Valid()
    ensures SaveResult(StoreOf(repo), r) == SaveImport(old(StoreOf(repo)), certs, fileKey, opts, stamps)
  {
    hide SaveCa, LeafSaved;
    if certs == [] { return Err(NoCertificates); }
    var chainIds: seq<nat> := [];
    var parentId := opts.issuerCertId;
    var first := ChainStart(certs, opts);
    ghost var s0 := StoreOf(repo);
    var k := |certs|;
    while k > first
      invariant first <= k <= |certs| && repo.Valid()
      invariant SaveChain(s0, opts.issuerCertId, certs, k, stamps) == Saved(StoreOf(repo), parentId, chainIds, None)
    {
      k := k - 1;
      var error: Option<SaveError>;
      parentId, chainIds, error := SaveOne(repo, certs[k], parentId, chainIds, stamps(k));
      if error.Some? {
        FailureStays(s0, opts.issuerCertId, certs, k, first, stamps);
        return Err(error.value);
      }
    }
    r := SaveLeaf(repo, certs[0], parentId, chainIds, fileKey, opts);
  }

  lemma {:induction false} FailureStays(s: Store, issuer: Option<nat>, certs: seq<ImportedCert>, k: nat, j: nat, stamps: nat -> string)
    requires j <= k <= |certs| && SaveChain(s, issuer, certs, k, stamps).error.Some?
    ensures SaveChain(s, issuer, certs, j, stamps) == SaveChain(s, issuer, certs, k, stamps)
    decreases k - j
  {
    hide SaveCa;
    if j < k { FailureStays(s, issuer, certs, k, j + 1, stamps); }
  }

  // ---- the links that were written ----

  ghost predicate NoneStored(s: Store, certs: seq<ImportedCert>) {
    forall i :: 0 <= i < |certs| ==> FindByFingerprint(s.rows, Fp(certs[i])).None?
  }

  /** Row number j after the `base` old ones holds certificate |certs| - 1 - j under the row
      written just before it. */
  ghost predicate Placed(t: Table, base: nat, nextId: nat, issuer: Option<nat>, certs: seq<ImportedCert>, j: nat)
    requires base + j < |t| && j < |certs|
  {
    var row, c := t[base + j], certs[|certs| - 1 - j];
    && row.id == nextId + j && row.certPem == c.pem && row.fingerprint == Fp(c)
    && row.issuerId == if j == 0 then issuer else Some(nextId + j - 1)
  }

  /** The first n certificates from the root are written, nothing else. */
  ghost predicate Written(s: Store, t: Store, issuer: Option<nat>, certs: seq<ImportedCert>, n: nat)
    requires n <= |certs|
  {
    && ValidTable(t.rows, t.nextId) && s.rows <= t.rows
    && |t.rows| == |s.rows| + n && t.nextId == s.nextId + n
    && forall j :: 0 <= j < n ==> Placed(t.rows, |s.rows|, s.nextId, issuer, certs, j)
  }

  lemma {:induction false} WrittenOneMore(s: Store, t: Store, issuer: Option<nat>, certs: seq<ImportedCert>, n: nat, row: CertRow)
    requires n < |certs| && Written(s, t, issuer, certs, n)
    requires row.certPem == certs[|certs| - 1 - n].pem && row.fingerprint == Fp(certs[|certs| - 1 - n])
    requires row.issuerId == if n == 0 then issuer else Some(s.nextId + n - 1)
    ensures Written(s, InsertRow(t, row), issuer, certs, n + 1)
  {
    var t' := InsertRow(t, row);
    forall j | 0 <= j < n + 1 ensures Placed(t'.rows, |s.rows|, s.nextId, issuer, certs, j) {
      if j < n { assert Placed(t.rows, |s.rows|, s.nextId, issuer, certs, j); }
    }
  }

  lemma {:induction false} StillUnstored(s: Store, t: Store, issuer: Option<nat>, certs: seq<ImportedCert>, n: nat, i: nat)
    requires i < |certs| - n && Written(s, t, issuer, certs, n) && NoneStored(s, certs) && DistinctFps(certs)
    ensures FindByFingerprint(t.rows, Fp(certs[i])).None?
  {
    forall k | 0 <= k < |t.rows| ensures t.rows[k].fingerprint != Fp(certs[i]) {
      if k < |s.rows| {
        assert t.rows[k] == s.rows[k] && s.rows[k] in s.rows;
      } else {
        assert Placed(t.rows, |s.rows|, s.nextId, issuer, certs, k - |s.rows|);
      }
    }
  }

  /** The keys of n new rows, the newest first. */
  function NewIds(next: nat, n: nat): (r: seq<nat>)
    ensures |r| == n && forall i :: 0 <= i < n ==> r[i] == next + (n - 1 - i)
  {
    seq(n, i requires 0 <= i < n => next + (n - 1 - i))
  }

  function TopId(next: nat, issuer: Option<nat>, n: nat): Option<nat> {
    if n == 0 then issuer else Some(next + n - 1)
  }

  ghost predicate ChainDone(s: Store, r: Saved, issuer: Option<nat>, certs: seq<ImportedCert>, n: nat)
    requires n <= |certs|
  {
    Written(s, r.store, issuer, certs, n) && r.parent == TopId(s.nextId, issuer, n) && r.ids == NewIds(s.nextId, n)
  }

  lemma {:induction false} ChainDoneNext(s: Store, up: Saved, issuer: Option<nat>, certs: seq<ImportedCert>, n: nat, row: CertRow)
    requires n < |certs| && ChainDone(s, up, issuer, certs, n)
    requires row.certPem == certs[|certs| - 1 - n].pem && row.fingerprint == Fp(certs[|certs| - 1 - n])
    requires row.issuerId == up.parent
    ensures ChainDone(s, Saved(InsertRow(up.store, row), Some(up.store.nextId), [up.store.nextId] + up.ids, None), issuer, certs, n + 1)
  {
    WrittenOneMore(s, up.store, issuer, certs, n, row);
    assert NewIds(s.nextId, n + 1) == [s.nextId + n] + NewIds(s.nextId, n);
  }

  lemma {:induction false} ChainWritten(s: Store, issuer: Option<nat>, certs: seq<ImportedCert>, k: nat, stamps: nat -> string)
    requires ValidTable(s.rows, s.nextId) && NoneStored(s, certs) && DistinctFps(certs) && k <= |certs|
    requires SaveChain(s, issuer, certs, k, stamps).error.None?
    ensures ChainDone(s, SaveChain(s, issuer, certs, k, stamps), issuer, certs, |certs| - k)
    decreases |certs| - k
  {
    hide ChainDone, SaveCa, NoneStored, DistinctFps, ValidTable, InsertRow, Written;
    if k == |certs| {
      NothingWritten(s, issuer, certs);
    } else {
      var up := SaveChain(s, issuer, certs, k + 1, stamps);
      ChainWritten(s, issuer, certs, k + 1, stamps);
      ChainWrittenOne(s, issuer, certs, k, up, stamps(k));
    }
  }

  lemma {:induction false} NothingWritten(s: Store, issuer: Option<nat>, certs: seq<ImportedCert>)
    requires ValidTable(s.rows, s.nextId)
    ensures ChainDone(s, Saved(s, issuer, [], None), issuer, certs, 0)
  {}

  lemma {:induction false} ChainDoneParts(s: Store, r: Saved, issuer: Option<nat>, certs: seq<ImportedCert>, n: nat)
    requires n <= |certs| && ChainDone(s, r, issuer, certs, n)
    ensures Written(s, r.store, issuer, certs, n)
  {}

  lemma {:induction false} ChainWrittenOne(s: Store, issuer: Option<nat>, certs: seq<ImportedCert>, k: nat, up: Saved, stamp: string)
    requires k < |certs| && NoneStored(s, certs) && DistinctFps(certs)
    requires ChainDone(s, up, issuer, certs, |certs| - k - 1) && up.error.None? && SaveCa(up, certs[k], stamp).error.None?
    ensures ChainDone(s, SaveCa(up, certs[k], stamp), issuer, certs, |certs| - k)
  {
    hide *;
    var n := |certs| - k - 1;
    ChainDoneParts(s, up, issuer, certs, n);
    StillUnstored(s, up.store, issuer, certs, n, k);
    var row := NewCaRow(up, certs[k], stamp);
    ChainDoneNext(s, up, issuer, certs, n, row);
  }

  lemma {:induction false} NewCaRow(up: Saved, c: ImportedCert, stamp: string) returns (row: CertRow)
    requires FindByFingerprint(up.store.rows, Fp(c)).None?
    requires up.error.None? && SaveCa(up, c, stamp).error.None?
    ensures row.certPem == c.pem && row.fingerprint == Fp(c) && row.issuerId == up.parent
    ensures SaveCa(up, c, stamp) == Saved(InsertRow(up.store, row), Some(up.store.nextId), [up.store.nextId] + up.ids, None)
  {
    hide UniqueName;
    row := RowOf(c, UniqueName(up.store.rows, CaName(c), stamp), Ca, up.parent, "");
  }

  /** `p` are the rows of `certs`, each issued by the next, the last one by `issuer`. */
  ghost predicate StoredChain(t: Table, p: seq<CertRow>, certs: seq<ImportedCert>, issuer: Option<nat>) {
    && IsChain(t, p) && |p| == |certs| && p[|p| - 1].issuerId == issuer
    && (forall i :: 0 <= i < |p| ==> p[i].certPem == certs[i].pem && p[i].fingerprint == Fp(certs[i]))
    && (forall i, j :: 0 <= i < j < |p| ==> p[i].id != p[j].id)
  }

  lemma {:induction false} WrittenRow(s: Store, t: Store, issuer: Option<nat>, certs: seq<ImportedCert>, i: nat)
    requires i < |certs| && Written(s, t, issuer, certs, |certs|)
    ensures |t.rows| == |s.rows| + |certs|
    ensures var row := t.rows[|s.rows| + (|certs| - 1 - i)];
            && row.id == s.nextId + (|certs| - 1 - i) && row.certPem == certs[i].pem && row.fingerprint == Fp(certs[i])
            && row.issuerId == TopId(s.nextId, issuer, |certs| - 1 - i)
  {
    assert Placed(t.rows, |s.rows|, s.nextId, issuer, certs, |certs| - 1 - i);
  }

  lemma {:induction false} WrittenChain(s: Store, t: Store, issuer: Option<nat>, certs: seq<ImportedCert>) returns (p: seq<CertRow>)
    requires certs != [] && Written(s, t, issuer, certs, |certs|)
    ensures StoredChain(t.rows, p, certs, issuer)
    ensures forall i :: 0 <= i < |p| ==> p[i].id == s.nextId + (|certs| - 1 - i)
  {
    var n := |certs|;
    p := seq(n, i requires 0 <= i < n => t.rows[|s.rows| + (n - 1 - i)]);
    assert UniqueIds(t.rows);
    hide Written, UniqueIds;
    forall i | 0 <= i < n
      ensures p[i] in t.rows && p[i].id == s.nextId + (n - 1 - i) && p[i].certPem == certs[i].pem && p[i].fingerprint == Fp(certs[i])
      ensures p[i].issuerId == TopId(s.nextId, issuer, n - 1 - i)
    {
      WrittenRow(s, t, issuer, certs, i);
    }
    assert p[|p| - 1].issuerId == issuer;
    LinkedRows(t.rows, p, s.nextId, issuer);
  }

  /** Rows numbered downwards, each naming the next as its issuer. */
  lemma {:induction false} LinkedRows(t: Table, p: seq<CertRow>, next: nat, issuer: Option<nat>)
    requires UniqueIds(t) && p != []
    requires forall i :: 0 <= i < |p| ==>
               p[i] in t && p[i].id == next + (|p| - 1 - i) && p[i].issuerId == TopId(next, issuer, |p| - 1 - i)
    ensures IsChain(t, p)
  {}

  /** After a successful save with chainAsCAs of certificates that were not stored, the
      issuer links lead from the leaf through exactly these certificates, in this order,
      to issuerCertId. */
  lemma {:induction false} SavedLinks(s: Store, certs: seq<ImportedCert>, fileKey: Option<string>, opts: SaveOptions, stamps: nat -> string)
    returns (p: seq<CertRow>)
    requires ValidTable(s.rows, s.nextId) && NoneStored(s, certs) && DistinctFps(certs) && opts.chainAsCAs
    requires SaveImport(s, certs, fileKey, opts, stamps).outcome.Ok?
    ensures var r := SaveImport(s, certs, fileKey, opts, stamps);
            && StoredChain(r.store.rows, p, certs, opts.issuerCertId)
            && UniqueIds(r.store.rows) && s.rows <= r.store.rows && |r.store.rows| == |s.rows| + |certs|
            && p[0].id == r.outcome.value.0
            && |r.outcome.value.1| == |certs| - 1
            && forall i :: 0 <= i < |certs| - 1 ==> r.outcome.value.1[i] == p[i + 1].id
  {
    hide *;
    SaveImportParts(s, certs, fileKey, opts, stamps);
    var chain := SaveChain(s, opts.issuerCertId, certs, 1, stamps);
    ChainWritten(s, opts.issuerCertId, certs, 1, stamps);
    var row := NewLeafRow(chain, certs[0], fileKey, opts);
    ChainDoneNext(s, chain, opts.issuerCertId, certs, |certs| - 1, row);
    p := ChainDoneRows(s, Saved(InsertRow(chain.store, row), Some(chain.store.nextId), [chain.store.nextId] + chain.ids, None),
                       opts.issuerCertId, certs);
    StoredChainLength(InsertRow(chain.store, row).rows, p, certs, opts.issuerCertId);
  }

  lemma {:induction false} StoredChainLength(t: Table, p: seq<CertRow>, certs: seq<ImportedCert>, issuer: Option<nat>)
    requires StoredChain(t, p, certs, issuer)
    ensures |p| == |certs| > 0
  {}

  /** A save that went through has saved the chain and then the leaf. */
  lemma {:induction false} SaveImportParts(s: Store, certs: seq<ImportedCert>, fileKey: Option<string>, opts: SaveOptions, stamps: nat -> string)
    requires SaveImport(s, certs, fileKey, opts, stamps).outcome.Ok? && opts.chainAsCAs
    ensures certs != []
    ensures var chain := SaveChain(s, opts.issuerCertId, certs, 1, stamps);
            && chain.error.None?
            && SaveImport(s, certs, fileKey, opts, stamps) == LeafSaved(chain, certs[0], fileKey, opts)
  {}

  lemma {:induction false} NewLeafRow(chain: Saved, c: ImportedCert, fileKey: Option<string>, opts: SaveOptions) returns (row: CertRow)
    requires LeafSaved(chain, c, fileKey, opts).outcome.Ok?
    ensures row.certPem == c.pem && row.fingerprint == Fp(c) && row.issuerId == chain.parent
    ensures LeafSaved(chain, c, fileKey, opts) == SaveResult(InsertRow(chain.store, row), Ok((chain.store.nextId, chain.ids)))
  {
    row := RowOf(c, opts.leafName, opts.leafKind, chain.parent, LeafKey(opts, fileKey));
  }

  lemma {:induction false} ChainDoneRows(s: Store, r: Saved, issuer: Option<nat>, certs: seq<ImportedCert>) returns (p: seq<CertRow>)
    requires certs != [] && ChainDone(s, r, issuer, certs, |certs|)
    ensures StoredChain(r.store.rows, p, certs, issuer)
    ensures |p| == |r.ids| == |certs| && forall i :: 0 <= i < |p| ==> p[i].id == r.ids[i]
    ensures UniqueIds(r.store.rows) && s.rows <= r.store.rows && |r.store.rows| == |s.rows| + |certs|
  {
    p := WrittenChain(s, r.store, issuer, certs);
  }

  /** A chain of distinct rows is what the upward walk from its first row starts with. */
  lemma {:induction false} WalkFollowsChain(t: Table, p: seq<CertRow>)
    requires UniqueIds(t) && IsChain(t, p) && forall i, j :: 0 <= i < j < |p| ==> p[i].id != p[j].id
    ensures p <= WalkUp(t, p[0], {}).chain
  {
    var w := WalkUp(t, p[0], {});
    WalkIsChain(t, p[0], {});
    forall i | 0 <= i < |p| && i < |w.chain| ensures p[i] == w.chain[i] { ChainsAgree(t, p, w.chain, i); }
    if |w.chain| < |p| {
      var m := |w.chain| - 1;
      assert FindById(t, p[m].issuerId.value) == Some(p[m + 1]);
      assert forall i :: 0 < i < |w.chain| ==> w.chain[i].id != p[m + 1].id;
      assert w.end.Cyclic?;
      CyclicWalk(t, p[0], {});
    }
  }

  /** So the upward walk from the saved leaf starts with exactly these certificates. */
  lemma {:induction false} SavedWalk(s: Store, certs: seq<ImportedCert>, fileKey: Option<string>, opts: SaveOptions, stamps: nat -> string)
    returns (p: seq<CertRow>)
    requires ValidTable(s.rows, s.nextId) && NoneStored(s, certs) && DistinctFps(certs) && opts.chainAsCAs
    requires SaveImport(s, certs, fileKey, opts, stamps).outcome.Ok?
    ensures var r := SaveImport(s, certs, fileKey, opts, stamps);
            && StoredChain(r.store.rows, p, certs, opts.issuerCertId) && p[0].id == r.outcome.value.0
            && p <= WalkUp(r.store.rows, p[0], {}).chain
  {
    p := SavedLinks(s, certs, fileKey, opts, stamps);
    hide SaveImport, IsChain, WalkUp;
    WalkFollowsChain(SaveImport(s, certs, fileKey, opts, stamps).store.rows, p);
  }

  // ---- failures ----

  /** All of certs[k..] are in the store. */
  ghost predicate Stored(s: Store, certs: seq<ImportedCert>, k: nat) {
    forall i :: k <= i < |certs| ==> FindByFingerprint(s.rows, Fp(certs[i])).Some?
  }

  /** The last certificate of certs[k..] that is not in the store: the first to be written. */
  function TopUnstored(s: Store, certs: seq<ImportedCert>, k: nat): (d: Option<nat>)
    requires k <= |certs|
    ensures d.None? <==> Stored(s, certs, k)
    ensures d.Some? ==> k <= d.value < |certs| && FindByFingerprint(s.rows, Fp(certs[d.value])).None? && Stored(s, certs, d.value + 1)
    decreases |certs| - k
  {
    if k == |certs| then None
    else
      var above := TopUnstored(s, certs, k + 1);
      if above.Some? then above else if FindByFingerprint(s.rows, Fp(certs[k])).None? then Some(k) else None
  }

  /** certs[d] can be written under the row of certs[d + 1], or under `issuer` as the topmost
      one: its name is free, and an issuer that was asked for is there. */
  predicate Writable(s: Store, issuer: Option<nat>, certs: seq<ImportedCert>, d: nat, stamp: string)
    requires d < |certs|
  {
    && FindByName(s.rows, UniqueName(s.rows, CaName(certs[d]), stamp)).None?
    && (d == |certs| - 1 && issuer.Some? ==> issuer.value in Ids(s.rows) || issuer.value == s.nextId)
  }

  /** certs[k..] are stored already and the walk over them has passed them by. */
  ghost predicate PassedBy(s: Store, issuer: Option<nat>, certs: seq<ImportedCert>, k: nat, r: Saved)
    requires k <= |certs|
  {
    && r.store == s && r.error.None?
    && (if k == |certs| then r.parent == issuer else r.parent.Some? && r.parent.value in Ids(s.rows))
  }

  lemma {:induction false} StoredPassedBy(s: Store, issuer: Option<nat>, certs: seq<ImportedCert>, k: nat, stamps: nat -> string)
    requires k <= |certs| && Stored(s, certs, k)
    ensures PassedBy(s, issuer, certs, k, SaveChain(s, issuer, certs, k, stamps))
    decreases |certs| - k
  {
    hide SaveCa;
    if k < |certs| {
      StoredPassedBy(s, issuer, certs, k + 1, stamps);
      OneCaPassedBy(SaveChain(s, issuer, certs, k + 1, stamps), certs[k], stamps(k));
    }
  }

  lemma {:induction false} OneCaGrows(up: Saved, c: ImportedCert, stamp: string)
    ensures |up.store.rows| <= |SaveCa(up, c, stamp).store.rows|
  {
    hide UniqueName, RowOf;
  }

  lemma {:induction false} OneCaPassedBy(up: Saved, c: ImportedCert, stamp: string)
    requires FindByFingerprint(up.store.rows, Fp(c)).Some? && up.error.None?
    ensures var r := SaveCa(up, c, stamp);
            r.store == up.store && r.error.None? && r.parent.Some? && r.parent.value in Ids(up.store.rows)
  {}

  /** Once a row is written the table stays longer. */
  lemma {:induction false} ChainGrows(s: Store, issuer: Option<nat>, certs: seq<ImportedCert>, k: nat, d: nat, stamps: nat -> string)
    requires k <= d <= |certs|
    ensures |SaveChain(s, issuer, certs, d, stamps).store.rows| <= |SaveChain(s, issuer, certs, k, stamps).store.rows|
    decreases d - k
  {
    hide SaveCa;
    if k < d {
      ChainGrows(s, issuer, certs, k + 1, d, stamps);
      OneCaGrows(SaveChain(s, issuer, certs, k + 1, stamps), certs[k], stamps(k));
    }
  }

  /** Where the loop down to `k` stops: all of certs[j..] were dealt with, and the next one
      down failed unless j == k. */
  function StopsAt(s: Store, issuer: Option<nat>, certs: seq<ImportedCert>, k: nat, stamps: nat -> string): (j: nat)
    requires k <= |certs|
    ensures k <= j <= |certs|
    decreases |certs| - k
  {
    if SaveChain(s, issuer, certs, k, stamps).error.None? then k else StopsAt(s, issuer, certs, k + 1, stamps)
  }

  lemma {:induction false} StopsThere(s: Store, issuer: Option<nat>, certs: seq<ImportedCert>, k: nat, stamps: nat -> string)
    requires k <= |certs|
    ensures var j := StopsAt(s, issuer, certs, k, stamps);
            && SaveChain(s, issuer, certs, j, stamps).error.None?
            && SaveChain(s, issuer, certs, j, stamps).store == SaveChain(s, issuer, certs, k, stamps).store
            && (j > k ==> SaveChain(s, issuer, certs, j - 1, stamps) == SaveChain(s, issuer, certs, k, stamps)
                          && SaveChain(s, issuer, certs, k, stamps).error.Some?)
    decreases |certs| - k
  {
    hide SaveCa;
    if SaveChain(s, issuer, certs, k, stamps).error.Some? {
      StopsThere(s, issuer, certs, k + 1, stamps);
      OneMoreCa(s, issuer, certs, k, stamps);
    }
  }

  lemma {:induction false} OneMoreCa(s: Store, issuer: Option<nat>, certs: seq<ImportedCert>, k: nat, stamps: nat -> string)
    requires k < |certs| && SaveChain(s, issuer, certs, k, stamps).error.Some?
    ensures var up, r := SaveChain(s, issuer, certs, k + 1, stamps), SaveChain(s, issuer, certs, k, stamps);
            r.store == up.store && (up.error.Some? ==> r == up)
  {
    hide UniqueName, RowOf;
  }

  lemma {:induction false} ChainUnchangedIff(s: Store, issuer: Option<nat>, certs: seq<ImportedCert>, k: nat, stamps: nat -> string)
    requires k <= |certs|
    ensures var r := SaveChain(s, issuer, certs, k, stamps);
            var d := TopUnstored(s, certs, k);
            && (r.store == s <==> d.None? || !Writable(s, issuer, certs, d.value, stamps(d.value)))
            && (r.store == s <==> Stored(s, certs, StopsAt(s, issuer, certs, k, stamps)))
            && |s.rows| <= |r.store.rows|
  {
    hide *;
    var r, d, j := SaveChain(s, issuer, certs, k, stamps), TopUnstored(s, certs, k), StopsAt(s, issuer, certs, k, stamps);
    if d.None? {
      StoredPassedBy(s, issuer, certs, k, stamps);
      PassedByStore(s, issuer, certs, k, r);
      StoredFurther(s, certs, k, j);
    } else {
      StoredPassedBy(s, issuer, certs, d.value + 1, stamps);
      PassedByStore(s, issuer, certs, d.value + 1, SaveChain(s, issuer, certs, d.value + 1, stamps));
      FirstWrite(s, issuer, certs, d.value, stamps);
      ChainGrows(s, issuer, certs, k, d.value, stamps);
      StopsBelow(s, issuer, certs, k, d.value, stamps);
      StoredFurther(s, certs, d.value + 1, j);
      UnstoredCounts(s, certs, j, d.value);
    }
  }

  lemma {:induction false} PassedByStore(s: Store, issuer: Option<nat>, certs: seq<ImportedCert>, k: nat, r: Saved)
    requires k <= |certs| && PassedBy(s, issuer, certs, k, r)
    ensures r.store == s && r.error.None?
  {}

  lemma {:induction false} StoredFurther(s: Store, certs: seq<ImportedCert>, k: nat, j: nat)
    ensures Stored(s, certs, k) && k <= j ==> Stored(s, certs, j)
  {}

  lemma {:induction false} UnstoredCounts(s: Store, certs: seq<ImportedCert>, j: nat, d: nat)
    requires d < |certs| && FindByFingerprint(s.rows, Fp(certs[d])).None?
    ensures j <= d ==> !Stored(s, certs, j)
  {}

  /** The first certificate that needs a row gets it or ends the loop. */
  lemma {:induction false} FirstWrite(s: Store, issuer: Option<nat>, certs: seq<ImportedCert>, d: nat, stamps: nat -> string)
    requires d < |certs| && Stored(s, certs, d + 1) && FindByFingerprint(s.rows, Fp(certs[d])).None?
    ensures var r := SaveChain(s, issuer, certs, d, stamps);
            if Writable(s, issuer, certs, d, stamps(d)) then r.error.None? && |r.store.rows| == |s.rows| + 1
            else r.error.Some? && r.store == s
  {
    hide UniqueName, Stored;
    StoredPassedBy(s, issuer, certs, d + 1, stamps);
  }

  lemma {:induction false} StopsBelow(s: Store, issuer: Option<nat>, certs: seq<ImportedCert>, k: nat, d: nat, stamps: nat -> string)
    requires k <= d < |certs|
    ensures var j, r := StopsAt(s, issuer, certs, k, stamps), SaveChain(s, issuer, certs, d, stamps);
            if r.error.None? then j <= d
            else d < j && SaveChain(s, issuer, certs, k, stamps).store == r.store
  {
    hide SaveCa, SaveChain, StopsAt;
    var j := StopsAt(s, issuer, certs, k, stamps);
    StopsThere(s, issuer, certs, k, stamps);
    if SaveChain(s, issuer, certs, d, stamps).error.Some? {
      FailureStays(s, issuer, certs, d, k, stamps);
      if j <= d { FailureStays(s, issuer, certs, d, j, stamps); }
    } else if j > d {
      FailureStays(s, issuer, certs, j - 1, d, stamps);
    }
  }

  /** A save that fails, for whatever reason, leaves the store as it was if and only if no
      row was needed before the failing one: nothing in the chain was missing from the
      store, or the first missing certificate, counted from the root, could not be written.
      Otherwise the rows written for the chain stay behind. */
  lemma {:induction false} FailedSaveUnchangedIff(s: Store, certs: seq<ImportedCert>, fileKey: Option<string>, opts: SaveOptions, stamps: nat -> string)
    requires certs != [] && SaveImport(s, certs, fileKey, opts, stamps).outcome.Err?
    ensures var start := ChainStart(certs, opts);
            var kept := SaveImport(s, certs, fileKey, opts, stamps).store == s;
            var d := TopUnstored(s, certs, start);
            && (kept <==> d.None? || !Writable(s, opts.issuerCertId, certs, d.value, stamps(d.value)))
            && (kept <==> Stored(s, certs, StopsAt(s, opts.issuerCertId, certs, start, stamps)))
  {
    hide TopUnstored, Writable, Stored, StopsAt;
    ChainUnchangedIff(s, opts.issuerCertId, certs, ChainStart(certs, opts), stamps);
  }

  /** The failures that never leave anything behind: nothing to import, and an issuerCertId
      that does not exist. */
  lemma {:induction false} MissingIssuerUnchanged(s: Store, certs: seq<ImportedCert>, fileKey: Option<string>, opts: SaveOptions, stamps: nat -> string)
    requires SaveImport(s, certs, fileKey, opts, stamps).outcome in {Err(NoCertificates), Err(StoreFailed(IssuerMissing))}
    ensures SaveImport(s, certs, fileKey, opts, stamps).store == s
  {
    if certs != [] {
      hide SaveCa, UniqueName;
      var start := ChainStart(certs, opts);
      ChainParent(s, opts.issuerCertId, certs, start, stamps);
    }
  }

  lemma {:induction false} CaParent(up: Saved, c: ImportedCert, stamp: string)
    requires up.error.None?
    ensures var r := SaveCa(up, c, stamp);
            && (r.error.None? ==> r.parent.Some? && r.parent.value in Ids(r.store.rows))
            && (r.error == Some(StoreFailed(IssuerMissing)) ==> r.store == up.store && up.parent.Some? && up.parent.value !in Ids(up.store.rows))
            && r.error != Some(NoCertificates)
  {
    hide UniqueName;
  }

  /** Under `issuer` as given, or under a row of the store. */
  lemma {:induction false} ChainParent(s: Store, issuer: Option<nat>, certs: seq<ImportedCert>, k: nat, stamps: nat -> string)
    requires k <= |certs|
    ensures var r := SaveChain(s, issuer, certs, k, stamps);
            && (r.error.None? ==> (r.store == s && r.parent == issuer) || (r.parent.Some? && r.parent.value in Ids(r.store.rows)))
            && (r.error == Some(StoreFailed(IssuerMissing)) ==> r.store == s)
            && r.error != Some(NoCertificates)
    decreases |certs| - k
  {
    hide SaveCa;
    if k < |certs| {
      ChainParent(s, issuer, certs, k + 1, stamps);
      var up := SaveChain(s, issuer, certs, k + 1, stamps);
      if up.error.None? { CaParent(up, certs[k], stamps(k)); }
    }
  }

  // ---- the rows that are written ----

  /** The row for a certificate; a new one is written as the call says, an old one stays. */
  ghost predicate RowIs(s: Store, n: Store, c: ImportedCert, kind: CertType, key: string, issuer: Option<nat>) {
    var was, found := FindByFingerprint(s.rows, Fp(c)), FindByFingerprint(n.rows, Fp(c));
    && found.Some?
    && (was.Some? ==> found == was)
    && (was.None? ==>
          && found.value.certPem == c.pem && found.value.kind == kind && found.value.keyPem == key && found.value.issuerId == issuer
          && found.value.revokedAt.None? && WithMeta(found.value, c.meta) == found.value)
  }

  lemma {:induction false} FoundInLonger(t: Table, row: CertRow, fp: string)
    ensures FindByFingerprint(t + [row], fp) ==
            if FindByFingerprint(t, fp).Some? then FindByFingerprint(t, fp) else if row.fingerprint == fp then Some(row) else None
  {
    if t != [] {
      assert (t + [row])[1..] == t[1..] + [row];
      FoundInLonger(t[1..], row, fp);
    }
  }

  /** The certificate above number i of the file: the next one, or what the caller named. */
  function IssuerAbove(n: Store, issuer: Option<nat>, certs: seq<ImportedCert>, i: nat): Option<nat>
    requires i < |certs|
  {
    if i == |certs| - 1 then issuer
    else
      var above := FindByFingerprint(n.rows, Fp(certs[i + 1]));
      if above.Some? then Some(above.value.id) else None
  }

  /** All of certs[k..] have their rows, and the walk stands at the one of certs[k]. */
  ghost predicate ChainRows(s: Store, r: Saved, issuer: Option<nat>, certs: seq<ImportedCert>, k: nat)
    requires k <= |certs|
  {
    && (forall i :: k <= i < |certs| ==> RowIs(s, r.store, certs[i], Ca, "", IssuerAbove(r.store, issuer, certs, i)))
    && (if k == |certs| then r.parent == issuer
        else FindByFingerprint(r.store.rows, Fp(certs[k])).Some? && r.parent == Some(FindByFingerprint(r.store.rows, Fp(certs[k])).value.id))
    && (forall fp :: (forall i :: k <= i < |certs| ==> Fp(certs[i]) != fp) ==> FindByFingerprint(r.store.rows, fp) == FindByFingerprint(s.rows, fp))
  }

  lemma {:induction false} CaStored(up: Saved, c: ImportedCert, stamp: string)
    requires up.error.None? && SaveCa(up, c, stamp).error.None?
    ensures var r := SaveCa(up, c, stamp);
            var was, found := FindByFingerprint(up.store.rows, Fp(c)), FindByFingerprint(r.store.rows, Fp(c));
            && found.Some? && r.parent == Some(found.value.id)
            && (was.Some? ==> found == was)
            && (was.None? ==>
                  && found.value.certPem == c.pem && found.value.kind == Ca && found.value.keyPem == "" && found.value.issuerId == up.parent
                  && found.value.revokedAt.None? && WithMeta(found.value, c.meta) == found.value)
            && (forall fp :: fp != Fp(c) ==> FindByFingerprint(r.store.rows, fp) == FindByFingerprint(up.store.rows, fp))
  {
    hide UniqueName;
    var r := SaveCa(up, c, stamp);
    if FindByFingerprint(up.store.rows, Fp(c)).None? {
      var row := r.store.rows[|up.store.rows|];
      assert r.store.rows == up.store.rows + [row];
      forall fp ensures FindByFingerprint(r.store.rows, fp) ==
                        if FindByFingerprint(up.store.rows, fp).Some? then FindByFingerprint(up.store.rows, fp)
                        else if row.fingerprint == fp then Some(row) else None {
        FoundInLonger(up.store.rows, row, fp);
      }
    }
  }

  lemma {:induction false} CaWritten(s: Store, up: Saved, issuer: Option<nat>, certs: seq<ImportedCert>, k: nat, stamp: string)
    requires k < |certs| && DistinctFps(certs) && ChainRows(s, up, issuer, certs, k + 1) && up.error.None? && SaveCa(up, certs[k], stamp).error.None?
    ensures ChainRows(s, SaveCa(up, certs[k], stamp), issuer, certs, k)
  {
    hide FindByFingerprint, SaveCa, WithMeta;
    var r := SaveCa(up, certs[k], stamp);
    CaStored(up, certs[k], stamp);
    forall i | k < i < |certs| ensures RowIs(s, r.store, certs[i], Ca, "", IssuerAbove(r.store, issuer, certs, i)) {
      assert RowIs(s, up.store, certs[i], Ca, "", IssuerAbove(up.store, issuer, certs, i));
      if i < |certs| - 1 { assert RowIs(s, up.store, certs[i + 1], Ca, "", IssuerAbove(up.store, issuer, certs, i + 1)); }
    }
  }

  lemma {:induction false} ChainRowsWritten(s: Store, issuer: Option<nat>, certs: seq<ImportedCert>, k: nat, stamps: nat -> string)
    requires k <= |certs| && DistinctFps(certs) && SaveChain(s, issuer, certs, k, stamps).error.None?
    ensures ChainRows(s, SaveChain(s, issuer, certs, k, stamps), issuer, certs, k)
    decreases |certs| - k
  {
    hide SaveCa, DistinctFps;
    if k < |certs| {
      hide ChainRows;
      ChainRowsWritten(s, issuer, certs, k + 1, stamps);
      CaWritten(s, SaveChain(s, issuer, certs, k + 1, stamps), issuer, certs, k, stamps(k));
    }
  }

  /** After a successful save with chainAsCAs the intermediates have CA rows without a key,
      each under the next one, and the leaf has the name, type and key the caller asked for
      (else the key of the file), under the first intermediate or issuerCertId. Rows that were
      there before are left alone. */
  lemma {:induction false} SavedRows(s: Store, certs: seq<ImportedCert>, fileKey: Option<string>, opts: SaveOptions, stamps: nat -> string)
    requires DistinctFps(certs) && SaveImport(s, certs, fileKey, opts, stamps).outcome.Ok?
    ensures certs != []
    ensures var r := SaveImport(s, certs, fileKey, opts, stamps);
            var leaf := FindByFingerprint(r.store.rows, Fp(certs[0]));
            && FindByFingerprint(s.rows, Fp(certs[0])).None?
            && RowIs(s, r.store, certs[0], opts.leafKind,
                     if opts.leafKeyPem.Some? && opts.leafKeyPem.value != "" then opts.leafKeyPem.value
                     else if fileKey.Some? then fileKey.value else "",
                     if opts.chainAsCAs then IssuerAbove(r.store, opts.issuerCertId, certs, 0) else opts.issuerCertId)
            && leaf.Some? && leaf.value.name == opts.leafName && leaf.value.id == r.outcome.value.0
            && (opts.chainAsCAs ==> forall i :: 1 <= i < |certs| ==>
                  RowIs(s, r.store, certs[i], Ca, "", IssuerAbove(r.store, opts.issuerCertId, certs, i)))
            && (!opts.chainAsCAs ==> |r.store.rows| == |s.rows| + 1)
  {
    var start := ChainStart(certs, opts);
    var chain := SaveChain(s, opts.issuerCertId, certs, start, stamps);
    ChainRowsWritten(s, opts.issuerCertId, certs, start, stamps);
    LeafWritten(s, chain, certs, fileKey, opts, start);
  }

  lemma {:induction false} LeafWritten(s: Store, chain: Saved, certs: seq<ImportedCert>, fileKey: Option<string>, opts: SaveOptions, start: nat)
    requires certs != [] && DistinctFps(certs) && start == ChainStart(certs, opts) && ChainRows(s, chain, opts.issuerCertId, certs, start)
    requires LeafSaved(chain, certs[0], fileKey, opts).outcome.Ok? && (!opts.chainAsCAs ==> chain.store == s)
    ensures var r := LeafSaved(chain, certs[0], fileKey, opts);
            var leaf := FindByFingerprint(r.store.rows, Fp(certs[0]));
            && FindByFingerprint(s.rows, Fp(certs[0])).None?
            && RowIs(s, r.store, certs[0], opts.leafKind,
                     if opts.leafKeyPem.Some? && opts.leafKeyPem.value != "" then opts.leafKeyPem.value
                     else if fileKey.Some? then fileKey.value else "",
                     if opts.chainAsCAs then IssuerAbove(r.store, opts.issuerCertId, certs, 0) else opts.issuerCertId)
            && leaf.Some? && leaf.value.name == opts.leafName && leaf.value.id == r.outcome.value.0
            && (opts.chainAsCAs ==> forall i :: 1 <= i < |certs| ==>
                  RowIs(s, r.store, certs[i], Ca, "", IssuerAbove(r.store, opts.issuerCertId, certs, i)))
            && (!opts.chainAsCAs ==> |r.store.rows| == |s.rows| + 1)
  {
    var r := LeafSaved(chain, certs[0], fileKey, opts);
    var row := r.store.rows[|chain.store.rows|];
    assert r.store.rows == chain.store.rows + [row];
    assert FindByFingerprint(chain.store.rows, Fp(certs[0])) == FindByFingerprint(s.rows, Fp(certs[0]));
    forall fp ensures FindByFingerprint(r.store.rows, fp) ==
                      if FindByFingerprint(chain.store.rows, fp).Some? then FindByFingerprint(chain.store.rows, fp)
                      else if row.fingerprint == fp then Some(row) else None {
      FoundInLonger(chain.store.rows, row, fp);
    }
    hide FindByFingerprint, LeafSaved;
    forall i | start <= i < |certs| ensures RowIs(s, r.store, certs[i], Ca, "", IssuerAbove(r.store, opts.issuerCertId, certs, i)) {
      assert RowIs(s, chain.store, certs[i], Ca, "", IssuerAbove(chain.store, opts.issuerCertId, certs, i));
      if i < |certs| - 1 { assert RowIs(s, chain.store, certs[i + 1], Ca, "", IssuerAbove(chain.store, opts.issuerCertId, certs, i + 1)); }
    }
  }

  // ---- the names and ids of the chain ----

  /** The row of a new CA was named when the rows before it were there: after the certificate's
      common name, or "imported-ca" without one. */
  ghost predicate CaNamed(s: Store, n: Store, c: ImportedCert, stamp: string) {
    FindByFingerprint(s.rows, Fp(c)).None? ==> exists m: nat :: NamedAt(n, c, stamp, m)
  }

  predicate NamedAt(n: Store, c: ImportedCert, stamp: string, m: nat) {
    && m < |n.rows| && FindByFingerprint(n.rows, Fp(c)) == Some(n.rows[m])
    && n.rows[m].name == UniqueName(n.rows[..m], if c.meta.commonName == "" then "imported-ca" else c.meta.commonName, stamp)
  }

  /** The ids of certs[k..] in their order, and their names. */
  ghost predicate ChainNames(s: Store, n: Store, ids: seq<nat>, certs: seq<ImportedCert>, k: nat, stamps: nat -> string)
    requires k <= |certs|
  {
    && |ids| == |certs| - k
    && forall i :: k <= i < |certs| ==> HasId(n, certs[i], ids[i - k]) && CaNamed(s, n, certs[i], stamps(i))
  }

  predicate HasId(n: Store, c: ImportedCert, id: nat) {
    FindByFingerprint(n.rows, Fp(c)).Some? && FindByFingerprint(n.rows, Fp(c)).value.id == id
  }

  lemma {:induction false} FoundStays(t: Table, more: Table, fp: string)
    requires FindByFingerprint(t, fp).Some?
    ensures FindByFingerprint(t + more, fp) == FindByFingerprint(t, fp)
  {
    if t[0].fingerprint != fp {
      assert (t + more)[1..] == t[1..] + more;
      FoundStays(t[1..], more, fp);
    } else {
      assert (t + more)[0] == t[0];
    }
  }

  lemma {:induction false} NameStays(s: Store, mid: Store, n: Store, c: ImportedCert, id: nat, stamp: string)
    requires mid.rows <= n.rows && HasId(mid, c, id) && CaNamed(s, mid, c, stamp)
    ensures HasId(n, c, id) && CaNamed(s, n, c, stamp)
  {
    hide UniqueName;
    assert n.rows == mid.rows + n.rows[|mid.rows|..];
    FoundStays(mid.rows, n.rows[|mid.rows|..], Fp(c));
    if FindByFingerprint(s.rows, Fp(c)).None? {
      var m: nat :| NamedAt(mid, c, stamp, m);
      assert n.rows[..m] == mid.rows[..m];
      assert NamedAt(n, c, stamp, m);
    }
  }

  lemma {:induction false} CaNameWritten(up: Saved, c: ImportedCert, stamp: string)
    requires up.error.None? && SaveCa(up, c, stamp).error.None?
    ensures var r := SaveCa(up, c, stamp);
            && up.store.rows <= r.store.rows && |r.ids| == |up.ids| + 1 && r.ids[1..] == up.ids
            && HasId(r.store, c, r.ids[0]) && CaNamed(up.store, r.store, c, stamp)
  {
    hide UniqueName;
    var r := SaveCa(up, c, stamp);
    if FindByFingerprint(up.store.rows, Fp(c)).None? {
      var row := r.store.rows[|up.store.rows|];
      assert r.store.rows == up.store.rows + [row] && r.store.rows[..|up.store.rows|] == up.store.rows;
      FoundInLonger(up.store.rows, row, Fp(c));
      assert NamedAt(r.store, c, stamp, |up.store.rows|);
    }
  }

  lemma {:induction false} NamesStay(s: Store, mid: Store, n: Store, ids: seq<nat>, certs: seq<ImportedCert>, k: nat, stamps: nat -> string)
    requires k <= |certs| && mid.rows <= n.rows && ChainNames(s, mid, ids, certs, k, stamps)
    ensures ChainNames(s, n, ids, certs, k, stamps)
  {
    hide HasId, CaNamed;
    forall i | k <= i < |certs| ensures HasId(n, certs[i], ids[i - k]) && CaNamed(s, n, certs[i], stamps(i)) {
      NameStays(s, mid, n, certs[i], ids[i - k], stamps(i));
    }
  }

  lemma {:induction false} OneMoreName(s: Store, n: Store, ids: seq<nat>, certs: seq<ImportedCert>, k: nat, stamps: nat -> string)
    requires k < |certs| && ids != [] && ChainNames(s, n, ids[1..], certs, k + 1, stamps)
    requires HasId(n, certs[k], ids[0]) && CaNamed(s, n, certs[k], stamps(k))
    ensures ChainNames(s, n, ids, certs, k, stamps)
  {
    hide HasId, CaNamed;
    forall i | k <= i < |certs| ensures HasId(n, certs[i], ids[i - k]) && CaNamed(s, n, certs[i], stamps(i)) {
      if i > k { assert ids[1..][i - (k + 1)] == ids[i - k]; }
    }
  }

  lemma {:induction false} NamedAnew(s: Store, mid: Store, n: Store, c: ImportedCert, stamp: string)
    requires FindByFingerprint(mid.rows, Fp(c)) == FindByFingerprint(s.rows, Fp(c)) && CaNamed(mid, n, c, stamp)
    ensures CaNamed(s, n, c, stamp)
  {}

  lemma {:induction false} FreshInChain(s: Store, up: Saved, issuer: Option<nat>, certs: seq<ImportedCert>, k: nat)
    requires k < |certs| && DistinctFps(certs) && ChainRows(s, up, issuer, certs, k + 1)
    ensures FindByFingerprint(up.store.rows, Fp(certs[k])) == FindByFingerprint(s.rows, Fp(certs[k]))
  {}

  lemma {:induction false} ChainNext(s: Store, issuer: Option<nat>, certs: seq<ImportedCert>, k: nat, stamps: nat -> string)
    requires k < |certs| && SaveChain(s, issuer, certs, k, stamps).error.None?
    ensures var up := SaveChain(s, issuer, certs, k + 1, stamps);
            up.error.None? && SaveChain(s, issuer, certs, k, stamps) == SaveCa(up, certs[k], stamps(k))
  {
    hide SaveCa;
  }

  lemma {:induction false} NobodyNamed(s: Store, issuer: Option<nat>, certs: seq<ImportedCert>, stamps: nat -> string)
    ensures var r := SaveChain(s, issuer, certs, |certs|, stamps); ChainNames(s, r.store, r.ids, certs, |certs|, stamps)
  {}

  lemma {:induction false} ChainNamesWritten(s: Store, issuer: Option<nat>, certs: seq<ImportedCert>, k: nat, stamps: nat -> string)
    requires k <= |certs| && DistinctFps(certs) && SaveChain(s, issuer, certs, k, stamps).error.None?
    ensures var r := SaveChain(s, issuer, certs, k, stamps); ChainNames(s, r.store, r.ids, certs, k, stamps)
    decreases |certs| - k
  {
    hide *;
    if k == |certs| {
      NobodyNamed(s, issuer, certs, stamps);
    } else {
      var up, r := SaveChain(s, issuer, certs, k + 1, stamps), SaveChain(s, issuer, certs, k, stamps);
      ChainNext(s, issuer, certs, k, stamps);
      ChainNamesWritten(s, issuer, certs, k + 1, stamps);
      ChainRowsWritten(s, issuer, certs, k + 1, stamps);
      FreshInChain(s, up, issuer, certs, k);
      CaNameWritten(up, certs[k], stamps(k));
      NamesStay(s, up.store, r.store, up.ids, certs, k + 1, stamps);
      NamedAnew(s, up.store, r.store, certs[k], stamps(k));
      OneMoreName(s, r.store, r.ids, certs, k, stamps);
    }
  }

  /** A successful save with chainAsCAs returns the ids of the intermediates in their order; it
      names the new ones after their common names. Without chainAsCAs it returns none. */
  lemma {:induction false} SavedNames(s: Store, certs: seq<ImportedCert>, fileKey: Option<string>, opts: SaveOptions, stamps: nat -> string)
    requires DistinctFps(certs) && SaveImport(s, certs, fileKey, opts, stamps).outcome.Ok?
    ensures certs != []
    ensures var r := SaveImport(s, certs, fileKey, opts, stamps);
            if opts.chainAsCAs then ChainNames(s, r.store, r.outcome.value.1, certs, 1, stamps) else r.outcome.value.1 == []
  {
    var start := ChainStart(certs, opts);
    var chain, r := SaveChain(s, opts.issuerCertId, certs, start, stamps), SaveImport(s, certs, fileKey, opts, stamps);
    assert r == LeafSaved(chain, certs[0], fileKey, opts) && chain.error.None?;
    hide SaveImport, SaveChain, LeafSaved, DistinctFps, ChainNames;
    ChainNamesWritten(s, opts.issuerCertId, certs, start, stamps);
    LeafAppended(chain, certs[0], fileKey, opts);
    NamesStay(s, chain.store, r.store, chain.ids, certs, start, stamps);
    if !opts.chainAsCAs { NoNames(s, r.store, chain.ids, certs, stamps); }
  }

  lemma {:induction false} NoNames(s: Store, n: Store, ids: seq<nat>, certs: seq<ImportedCert>, stamps: nat -> string)
    requires ChainNames(s, n, ids, certs, |certs|, stamps)
    ensures ids == []
  {}

  lemma {:induction false} LeafAppended(chain: Saved, c: ImportedCert, fileKey: Option<string>, opts: SaveOptions)
    requires LeafSaved(chain, c, fileKey, opts).outcome.Ok?
    ensures var r := LeafSaved(chain, c, fileKey, opts); chain.store.rows <= r.store.rows && r.outcome.value.1 == chain.ids
  {}

  // ---- the names of the rows ----

  predicate Numbered(t: Table, safe: string, i: nat) {
    FindByName(t, safe + "-" + Decimal(i)).Some?
  }

  lemma {:induction false} NameFromIs(t: Table, safe: string, from: nat, i: nat, stamp: string)
    requires from <= i <= 1000 && (i < 1000 ==> !Numbered(t, safe, i)) && forall j :: from <= j < i ==> Numbered(t, safe, j)
    ensures NameFrom(t, safe, from, stamp) == if i < 1000 then safe + "-" + Decimal(i) else safe + "-" + stamp
    decreases i - from
  {
    hide Decimal, FindByName;
    if from < i {
      assert Numbered(t, safe, from);
      NameFromIs(t, safe, from + 1, i, stamp);
    }
  }

  /** The name without characters that files may not have, at most 40 long. */
  ghost predicate IsSafeForm(base: string, safe: string) {
    if base == "" then safe == "imported"
    else
      && |safe| == (if |base| < 40 then |base| else 40)
      && forall i :: 0 <= i < |safe| ==>
           safe[i] == if 'a' <= base[i] <= 'z' || 'A' <= base[i] <= 'Z' || '0' <= base[i] <= '9' || base[i] == '.' || base[i] == '_' || base[i] == '-'
                      then base[i] else '_'
  }

  /** A name is made safe; if it is taken the first free number from 2 to 999 is appended, and
      if there is none the time. */
  lemma {:induction false} UniqueNameIs(t: Table, base: string, stamp: string, i: nat)
    requires 2 <= i <= 1000 && (i < 1000 ==> !Numbered(t, SafeName(base), i)) && forall j :: 2 <= j < i ==> Numbered(t, SafeName(base), j)
    ensures IsSafeForm(base, SafeName(base))
    ensures UniqueName(t, base, stamp) ==
            if FindByName(t, SafeName(base)).None? then SafeName(base)
            else if i < 1000 then SafeName(base) + "-" + Decimal(i) else SafeName(base) + "-" + stamp
  {
    NameFromIs(t, SafeName(base), 2, i, stamp);
    hide Decimal, FindByName, NameFrom;
  }
}
