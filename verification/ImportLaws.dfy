/** What every import keeps, and why importing a bundle again changes nothing. */
module ImportLaws {
  import opened Wrappers
  import opened Certificates
  import opened Transfer

  ghost predicate ValidStore(s: Store) {
    ValidTable(s.rows, s.nextId) && UniqueNames(s.rows)
  }

  /** The schema does not ask for distinct fingerprints, but no import makes a duplicate. */
  ghost predicate StaysUnique(t: Table, n: Table) {
    UniqueFingerprints(t) ==> UniqueFingerprints(n)
  }

  /** The same row up to its issuer link and its key; a non-empty key may change only on request. */
  ghost predicate KeepsRow(r: CertRow, n: CertRow, overwrite: bool) {
    n == r.(keyPem := n.keyPem, issuerId := n.issuerId) && (overwrite || r.keyPem == "" || n.keyPem == r.keyPem)
  }

  ghost predicate Keeps(t: Table, n: Table, overwrite: bool) {
    |t| <= |n| && forall i :: 0 <= i < |t| ==> KeepsRow(t[i], n[i], overwrite)
  }

  // ---- what one insert and one link keep ----

  lemma {:induction false} InsertOneKeeps(x: X509, s: Store, st: InsertStep, overwrite: bool)
    requires ValidStore(s) && InsertOne(x, s, st, overwrite).Ok?
    ensures var n := InsertOne(x, s, st, overwrite).value;
            ValidStore(n) && Keeps(s.rows, n.rows, overwrite) && StaysUnique(s.rows, n.rows)
  {
    hide ValidStore, UniqueName, Keeps, StaysUnique;
    var n := InsertOne(x, s, st, overwrite).value;
    var found := FindByFingerprint(s.rows, x.fingerprint(st.pem));
    if found.Some? {
      ColumnsKept(s.rows, n.rows, s.nextId);
      SameKeeps(s.rows, overwrite);
      if st.key.Some? && (found.value.keyPem == "" || overwrite) { OnlyThatKey(s, found.value, st.key.value, overwrite); }
    } else {
      AppendKeeps(s, n.rows[|s.rows|], overwrite);
    }
  }

  lemma {:induction false} ColumnsKept(t: Table, n: Table, nextId: nat)
    requires |n| == |t| && forall i :: 0 <= i < |t| ==>
               n[i].id == t[i].id && n[i].name == t[i].name && n[i].fingerprint == t[i].fingerprint
    ensures ValidStore(Store(t, nextId)) ==> ValidStore(Store(n, nextId))
    ensures StaysUnique(t, n)
  {}

  lemma {:induction false} SameKeeps(t: Table, overwrite: bool)
    ensures Keeps(t, t, overwrite)
  {}

  lemma {:induction false} AppendKeeps(s: Store, row: CertRow, overwrite: bool)
    requires ValidStore(s) && row.id == s.nextId
    requires FindByName(s.rows, row.name).None? && FindByFingerprint(s.rows, row.fingerprint).None?
    ensures ValidStore(Store(s.rows + [row], s.nextId + 1)) && Keeps(s.rows, s.rows + [row], overwrite)
    ensures StaysUnique(s.rows, s.rows + [row])
  {}

  lemma {:induction false} OnlyThatKey(s: Store, row: CertRow, key: string, overwrite: bool)
    requires ValidStore(s) && row in s.rows && (row.keyPem == "" || overwrite)
    ensures Keeps(s.rows, UpdateKey(s.rows, row.id, key), overwrite)
  {}

  lemma {:induction false} KeepsTransitive(a: Table, b: Table, c: Table, overwrite: bool)
    requires Keeps(a, b, overwrite) && Keeps(b, c, overwrite)
    ensures Keeps(a, c, overwrite)
  {}

  lemma {:induction false} RunInsertsKeeps(x: X509, s: Store, steps: seq<InsertStep>, overwrite: bool)
    requires ValidStore(s) && RunInserts(x, s, steps, overwrite).Ok?
    ensures var n := RunInserts(x, s, steps, overwrite).value;
            ValidStore(n) && Keeps(s.rows, n.rows, overwrite) && StaysUnique(s.rows, n.rows)
  {
    hide InsertOne, ValidStore, UniqueFingerprints;
    if steps != [] {
      var init := steps[..|steps| - 1];
      RunInsertsKeeps(x, s, init, overwrite);
      var mid := RunInserts(x, s, init, overwrite).value;
      InsertOneKeeps(x, mid, steps[|steps| - 1], overwrite);
      KeepsTransitive(s.rows, mid.rows, RunInserts(x, s, steps, overwrite).value.rows, overwrite);
    }
  }

  // ---- links ----

  /** The issuer that the last effective link step for row `id` names. */
  function LinkTarget(t: Table, links: seq<LinkStep>, id: nat): Option<nat> {
    if links == [] then None
    else
      var l := links[|links| - 1];
      if Effective(t, l) && FindByFingerprint(t, l.child.value).value.id == id
      then Some(FindByFingerprint(t, l.issuer.value).value.id)
      else LinkTarget(t, links[..|links| - 1], id)
  }

  function Linked(row: CertRow, target: Option<nat>): CertRow {
    if target.Some? then row.(issuerId := target) else row
  }

  /** The same rows up to issuer links and keys. */
  ghost predicate SameRows(t: Table, n: Table) {
    |n| == |t| && forall i :: 0 <= i < |t| ==> n[i] == t[i].(issuerId := n[i].issuerId, keyPem := n[i].keyPem)
  }

  lemma {:induction false} SameRowsFind(t: Table, n: Table, fp: string)
    requires SameRows(t, n)
    ensures FindByFingerprint(n, fp).Some? <==> FindByFingerprint(t, fp).Some?
    ensures FindByFingerprint(n, fp).Some? ==> FindByFingerprint(n, fp).value.id == FindByFingerprint(t, fp).value.id
  {
    FindKept(t, n, fp);
  }

  /** Links end up as the last effective step for each row says. */
  lemma {:induction false} RunLinksRows(t: Table, links: seq<LinkStep>)
    ensures |RunLinks(t, links)| == |t|
    ensures forall i :: 0 <= i < |t| ==> RunLinks(t, links)[i] == Linked(t[i], LinkTarget(t, links, t[i].id))
  {
    if links != [] {
      var init, l := links[..|links| - 1], links[|links| - 1];
      RunLinksRows(t, init);
      var mid := RunLinks(t, init);
      assert SameRows(t, mid);
      hide SameRows, RunLinks;
      assert RunLinks(t, links) == LinkOne(mid, l);
      if l.child.Some? { SameRowsFind(t, mid, l.child.value); }
      if l.issuer.Some? { SameRowsFind(t, mid, l.issuer.value); }
    }
  }

  lemma {:induction false} LinkTargetSame(t: Table, n: Table, links: seq<LinkStep>, id: nat)
    requires SameRows(t, n)
    ensures LinkTarget(n, links, id) == LinkTarget(t, links, id)
  {
    hide SameRows;
    if links != [] {
      var l := links[|links| - 1];
      if l.child.Some? { SameRowsFind(t, n, l.child.value); }
      if l.issuer.Some? { SameRowsFind(t, n, l.issuer.value); }
      LinkTargetSame(t, n, links[..|links| - 1], id);
    }
  }

  lemma {:induction false} RunLinksSameRows(t: Table, links: seq<LinkStep>)
    ensures SameRows(t, RunLinks(t, links))
  {
    RunLinksRows(t, links);
  }

  lemma {:induction false} RunLinksTwice(t: Table, links: seq<LinkStep>)
    ensures RunLinks(RunLinks(t, links), links) == RunLinks(t, links)
  {
    var n := RunLinks(t, links);
    RunLinksRows(t, links);
    RunLinksSameRows(t, links);
    RunLinksRows(n, links);
    hide SameRows, RunLinks;
    forall i | 0 <= i < |t| ensures RunLinks(n, links)[i] == n[i] {
      LinkTargetSame(t, n, links, t[i].id);
    }
  }

  lemma {:induction false} RunLinksKeeps(t: Table, links: seq<LinkStep>, overwrite: bool)
    ensures Keeps(t, RunLinks(t, links), overwrite)
    ensures forall nextId :: ValidStore(Store(t, nextId)) ==> ValidStore(Store(RunLinks(t, links), nextId))
    ensures StaysUnique(t, RunLinks(t, links))
  {
    RunLinksRows(t, links);
    forall nextId | ValidStore(Store(t, nextId)) ensures ValidStore(Store(RunLinks(t, links), nextId)) {
    }
  }

  /** A successful import keeps every row with its id, name, type, certificate and metadata,
      changes no non-empty key unless asked to, leaves ids and names distinct, and makes no
      two rows of one fingerprint that were not there. */
  lemma {:induction false} ImportKeeps(x: X509, s: Store, b: Bundle, opts: ImportOptions)
    requires ValidStore(s) && Import(x, s, b, opts).Ok?
    ensures var n := Import(x, s, b, opts).value;
            ValidStore(n) && Keeps(s.rows, n.rows, opts.overwriteKey) && StaysUnique(s.rows, n.rows)
  {
    hide PlanOf, RunInserts, RunLinks, ValidStore, Keeps, UniqueFingerprints;
    var plan := PlanOf(x, b, opts).value;
    RunInsertsKeeps(x, s, plan.inserts, opts.overwriteKey);
    var mid := RunInserts(x, s, plan.inserts, opts.overwriteKey).value;
    RunLinksKeeps(mid.rows, plan.links, opts.overwriteKey);
    KeepsTransitive(s.rows, mid.rows, RunLinks(mid.rows, plan.links), opts.overwriteKey);
    assert mid == Store(mid.rows, mid.nextId);
  }

  /** The row holds the certificate the step asked for. */
  ghost predicate MadeBy(x: X509, row: CertRow, st: InsertStep) {
    row.certPem == st.pem && row.kind == st.kind && row.fingerprint == x.fingerprint(st.pem)
  }

  lemma {:induction false} InsertedFrom(x: X509, s: Store, steps: seq<InsertStep>, overwrite: bool, i: nat) returns (k: nat)
    requires ValidStore(s) && RunInserts(x, s, steps, overwrite).Ok?
    requires |s.rows| <= i < |RunInserts(x, s, steps, overwrite).value.rows|
    ensures k < |steps| && MadeBy(x, RunInserts(x, s, steps, overwrite).value.rows[i], steps[k])
  {
    hide UniqueName, ValidStore;
    var init := steps[..|steps| - 1];
    var mid := RunInserts(x, s, init, overwrite).value;
    RunInsertsKeeps(x, s, init, overwrite);
    InsertOneKeeps(x, mid, steps[|steps| - 1], overwrite);
    if i < |mid.rows| {
      k := InsertedFrom(x, s, init, overwrite, i);
    } else {
      k := |init|;
    }
  }

  /** Rows that an import added hold certificates of the bundle. */
  lemma {:induction false} ImportAddsOnlyBundle(x: X509, s: Store, b: Bundle, opts: ImportOptions, i: nat)
    requires ValidStore(s) && Import(x, s, b, opts).Ok?
    requires |s.rows| <= i < |Import(x, s, b, opts).value.rows|
    ensures exists st :: st in PlanOf(x, b, opts).value.inserts && MadeBy(x, Import(x, s, b, opts).value.rows[i], st)
  {
    hide PlanOf, RunInserts, RunLinks, ValidStore;
    var plan := PlanOf(x, b, opts).value;
    var mid := RunInserts(x, s, plan.inserts, opts.overwriteKey).value;
    RunLinksSameRows(mid.rows, plan.links);
    var k := InsertedFrom(x, s, plan.inserts, opts.overwriteKey, i);
    assert plan.inserts[k] in plan.inserts;
  }

  // ---- importing twice ----

  /** A step that has nothing left to do. */
  ghost predicate Settled(x: X509, t: Table, st: InsertStep, overwrite: bool) {
    var row := FindByFingerprint(t, x.fingerprint(st.pem));
    && (Truthy(st.metaFp) ==> st.metaFp.value == x.fingerprint(st.pem))
    && row.Some?
    && (st.key.Some? && (row.value.keyPem == "" || overwrite) ==> row.value.keyPem == st.key.value)
  }

  /** Two steps for the same certificate that carry a key carry the same key. */
  ghost predicate KeysAgree(x: X509, steps: seq<InsertStep>) {
    forall i, j :: 0 <= i < |steps| && 0 <= j < |steps| ==> SameKey(x, steps[i], steps[j])
  }

  ghost predicate SameKey(x: X509, a: InsertStep, b: InsertStep) {
    x.fingerprint(a.pem) == x.fingerprint(b.pem) && a.key.Some? && b.key.Some? ==> a.key == b.key
  }

  /** Setting the key of the row that is found for its fingerprint changes what is found for
      that fingerprint only. */
  lemma {:induction false} FindAfterKey(t: Table, row: CertRow, key: string, fp: string)
    requires UniqueIds(t) && FindByFingerprint(t, row.fingerprint) == Some(row)
    ensures FindByFingerprint(UpdateKey(t, row.id, key), fp) ==
            if fp == row.fingerprint then Some(row.(keyPem := key)) else FindByFingerprint(t, fp)
  {
    var n := UpdateKey(t, row.id, key);
    assert n[1..] == UpdateKey(t[1..], row.id, key);
    if t[0].id == row.id {
      assert row in t && t[0] == row;
      assert n[1..] == t[1..];
    } else {
      FindAfterKey(t[1..], row, key, fp);
    }
  }

  lemma {:induction false} InsertOneSettles(x: X509, s: Store, st: InsertStep, overwrite: bool)
    requires ValidStore(s) && InsertOne(x, s, st, overwrite).Ok?
    ensures Settled(x, InsertOne(x, s, st, overwrite).value.rows, st, overwrite)
  {
    hide UniqueName;
    var fp := x.fingerprint(st.pem);
    var found := FindByFingerprint(s.rows, fp);
    if found.Some? {
      if st.key.Some? { FindAfterKey(s.rows, found.value, st.key.value, fp); }
    } else {
      var n := InsertOne(x, s, st, overwrite).value;
      FindAppended(s.rows, n.rows[|s.rows|], fp);
    }
  }

  lemma {:induction false} InsertOneKeepsSettled(x: X509, s: Store, st: InsertStep, earlier: InsertStep, overwrite: bool)
    requires ValidStore(s) && InsertOne(x, s, st, overwrite).Ok?
    requires Settled(x, s.rows, earlier, overwrite) && SameKey(x, earlier, st)
    ensures Settled(x, InsertOne(x, s, st, overwrite).value.rows, earlier, overwrite)
  {
    hide UniqueName;
    var fp, mine := x.fingerprint(st.pem), x.fingerprint(earlier.pem);
    var found := FindByFingerprint(s.rows, fp);
    if found.Some? {
      if st.key.Some? { FindAfterKey(s.rows, found.value, st.key.value, mine); }
    } else {
      var n := InsertOne(x, s, st, overwrite).value;
      FindAppended(s.rows, n.rows[|s.rows|], mine);
    }
  }

  lemma {:induction false} RunInsertsSettles(x: X509, s: Store, steps: seq<InsertStep>, overwrite: bool)
    requires ValidStore(s) && KeysAgree(x, steps) && RunInserts(x, s, steps, overwrite).Ok?
    ensures forall i :: 0 <= i < |steps| ==> Settled(x, RunInserts(x, s, steps, overwrite).value.rows, steps[i], overwrite)
  {
    hide InsertOne, ValidStore, Settled, SameKey;
    if steps != [] {
      var init, st := steps[..|steps| - 1], steps[|steps| - 1];
      assert KeysAgree(x, init);
      RunInsertsSettles(x, s, init, overwrite);
      RunInsertsKeeps(x, s, init, overwrite);
      var mid := RunInserts(x, s, init, overwrite).value;
      InsertOneSettles(x, mid, st, overwrite);
      forall i | 0 <= i < |init| ensures Settled(x, RunInserts(x, s, steps, overwrite).value.rows, steps[i], overwrite) {
        assert init[i] == steps[i] && SameKey(x, steps[i], steps[|steps| - 1]);
        InsertOneKeepsSettled(x, mid, st, init[i], overwrite);
      }
    }
  }

  lemma {:induction false} SettledStep(x: X509, s: Store, st: InsertStep, overwrite: bool)
    requires UniqueIds(s.rows) && Settled(x, s.rows, st, overwrite)
    ensures InsertOne(x, s, st, overwrite) == Ok(s)
  {
    var row := FindByFingerprint(s.rows, x.fingerprint(st.pem)).value;
    if st.key.Some? && (row.keyPem == "" || overwrite) {
      var n := UpdateKey(s.rows, row.id, st.key.value);
      var k :| 0 <= k < |s.rows| && s.rows[k] == row;
      forall i | 0 <= i < |n| ensures n[i] == s.rows[i] {
        assert s.rows[i].id == row.id ==> i == k;
        assert row.(keyPem := row.keyPem) == row;
      }
      assert n == s.rows;
    }
  }

  lemma {:induction false} SettledSteps(x: X509, s: Store, steps: seq<InsertStep>, overwrite: bool)
    requires UniqueIds(s.rows) && forall i :: 0 <= i < |steps| ==> Settled(x, s.rows, steps[i], overwrite)
    ensures RunInserts(x, s, steps, overwrite) == Ok(s)
  {
    hide InsertOne, Settled, UniqueIds;
    if steps != [] {
      SettledSteps(x, s, steps[..|steps| - 1], overwrite);
      SettledStep(x, s, steps[|steps| - 1], overwrite);
    }
  }

  lemma {:induction false} LinksKeepSettled(x: X509, t: Table, links: seq<LinkStep>, st: InsertStep, overwrite: bool)
    requires Settled(x, t, st, overwrite)
    ensures Settled(x, RunLinks(t, links), st, overwrite)
  {
    RunLinksRows(t, links);
    FindLinked(t, RunLinks(t, links), x.fingerprint(st.pem));
  }

  lemma {:induction false} FindLinked(t: Table, n: Table, fp: string)
    requires |n| == |t| && forall i :: 0 <= i < |t| ==> n[i] == t[i].(issuerId := n[i].issuerId)
    ensures FindByFingerprint(n, fp).Some? <==> FindByFingerprint(t, fp).Some?
    ensures FindByFingerprint(n, fp).Some? ==> FindByFingerprint(n, fp).value.keyPem == FindByFingerprint(t, fp).value.keyPem
  {
    if t != [] { FindLinked(t[1..], n[1..], fp); }
  }

  /** Steps of a plan that ran: every recorded fingerprint is the certificate's own. */
  lemma {:induction false} RanIntact(x: X509, s: Store, steps: seq<InsertStep>, overwrite: bool, i: nat)
    requires i < |steps| && RunInserts(x, s, steps, overwrite).Ok?
    ensures Truthy(steps[i].metaFp) ==> steps[i].metaFp.value == x.fingerprint(steps[i].pem)
  {
    hide UniqueName;
    if i < |steps| - 1 { RanIntact(x, s, steps[..|steps| - 1], overwrite, i); }
  }

  lemma {:induction false} PlanKeysAgree(x: X509, s: Store, b: Bundle, opts: ImportOptions, plan: Plan)
    requires PlanOf(x, b, opts) == Some(plan) && RunInserts(x, s, plan.inserts, opts.overwriteKey).Ok?
    ensures KeysAgree(x, plan.inserts)
  {
    hide PlanOf, RunInserts, KeysByFp, ItemsWith;
    var steps := plan.inserts;
    forall i, j | 0 <= i < |steps| && 0 <= j < |steps| ensures SameKey(x, steps[i], steps[j]) {
      RanIntact(x, s, steps, opts.overwriteKey, i);
      RanIntact(x, s, steps, opts.overwriteKey, j);
      if steps[i].key.Some? && steps[j].key.Some? {
        PlanKey(x, b, opts, plan, i);
        PlanKey(x, b, opts, plan, j);
      }
    }
  }

  /** A subtree step's key is the one filed under its recorded fingerprint; only the last
      step of any other bundle carries a key. */
  lemma {:induction false} PlanKey(x: X509, b: Bundle, opts: ImportOptions, plan: Plan, i: nat)
    requires PlanOf(x, b, opts) == Some(plan) && i < |plan.inserts| && plan.inserts[i].key.Some?
    ensures if b.kind.SubtreeBundle? then
              var keys, fp := KeysByFp(ItemsWith(b.items, {KeyRole})), plan.inserts[i].metaFp;
              Truthy(fp) && fp.value in keys && plan.inserts[i].key.value == keys[fp.value]
            else i == |plan.inserts| - 1
  {}

  /** Importing a bundle that was imported successfully changes nothing, whatever the bundle. */
  lemma {:induction false} ImportTwice(x: X509, s: Store, b: Bundle, opts: ImportOptions)
    requires ValidStore(s) && Import(x, s, b, opts).Ok?
    ensures Import(x, Import(x, s, b, opts).value, b, opts) == Import(x, s, b, opts)
  {
    hide PlanOf, RunInserts, RunLinks, ValidStore, Settled;
    var plan := PlanOf(x, b, opts).value;
    var mid := RunInserts(x, s, plan.inserts, opts.overwriteKey).value;
    var n := Import(x, s, b, opts).value;
    PlanKeysAgree(x, s, b, opts, plan);
    RunInsertsSettles(x, s, plan.inserts, opts.overwriteKey);
    forall i | 0 <= i < |plan.inserts| ensures Settled(x, n.rows, plan.inserts[i], opts.overwriteKey) {
      LinksKeepSettled(x, mid.rows, plan.links, plan.inserts[i], opts.overwriteKey);
    }
    ImportKeeps(x, s, b, opts);
    StoreIds(n);
    SettledSteps(x, n, plan.inserts, opts.overwriteKey);
    RunLinksTwice(mid.rows, plan.links);
  }

  lemma {:induction false} StoreIds(s: Store)
    requires ValidStore(s)
    ensures UniqueIds(s.rows)
  {}
}
