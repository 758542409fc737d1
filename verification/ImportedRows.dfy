/** What an import leaves in the store for each certificate of a bundle, told from the items
    of the bundle and the rows that were there. */
module ImportedRows {
  import opened Wrappers
  import opened Certificates
  import opened Transfer
  import opened ImportLaws

  // ---- one fingerprint through a sequence of inserts ----

  /** Step k is the first one for the certificate with fingerprint `fp`. */
  ghost predicate FirstStep(x: X509, steps: seq<InsertStep>, fp: string, k: nat) {
    k < |steps| && x.fingerprint(steps[k].pem) == fp && forall j :: 0 <= j < k ==> x.fingerprint(steps[j].pem) != fp
  }

  /** Some step for `fp` brings this key. */
  ghost predicate Brings(x: X509, steps: seq<InsertStep>, fp: string, key: string) {
    exists i :: 0 <= i < |steps| && x.fingerprint(steps[i].pem) == fp && steps[i].key == Some(key)
  }

  /** What one insert does to the row found for `fp`. */
  lemma {:induction false} InsertOneFound(x: X509, s: Store, st: InsertStep, overwrite: bool, fp: string)
    requires ValidStore(s) && InsertOne(x, s, st, overwrite).Ok?
    ensures var n, was := InsertOne(x, s, st, overwrite).value, FindByFingerprint(s.rows, fp);
            var found := FindByFingerprint(n.rows, fp);
            if x.fingerprint(st.pem) != fp then found == was
            else if was.Some? then
              found == Some(was.value.(keyPem := if st.key.Some? && (was.value.keyPem == "" || overwrite) then st.key.value else was.value.keyPem))
            else
              && found.Some? && found.value.certPem == st.pem && found.value.kind == st.kind && found.value.issuerId.None?
              && found.value.keyPem == (if st.key.Some? then st.key.value else "")
              && found.value.revokedAt.None? && Derive(x, st.pem).Some? && WithMeta(found.value, Derive(x, st.pem).value) == found.value
              && found.value.id == s.nextId && |n.rows| == |s.rows| + 1
              && (found.value.name == st.name || FindByName(s.rows, st.name).Some?)
  {
    hide UniqueName;
    var mine := x.fingerprint(st.pem);
    var row := FindByFingerprint(s.rows, mine);
    if row.Some? {
      if st.key.Some? { FindAfterKey(s.rows, row.value, st.key.value, fp); }
    } else {
      var n := InsertOne(x, s, st, overwrite).value;
      FindAppended(s.rows, n.rows[|s.rows|], fp);
    }
  }

  /** A row that was there keeps everything but its key; a new one is what its first step says. */
  ghost predicate RowOfStep(x: X509, s: Store, n: Store, st: InsertStep) {
    var fp := x.fingerprint(st.pem);
    var was, found := FindByFingerprint(s.rows, fp), FindByFingerprint(n.rows, fp);
    && found.Some?
    && (was.Some? ==> found.value == was.value.(keyPem := found.value.keyPem))
    && (was.None? ==>
          && found.value.certPem == st.pem && found.value.kind == st.kind && found.value.issuerId.None? && found.value.revokedAt.None?
          && Derive(x, st.pem).Some? && WithMeta(found.value, Derive(x, st.pem).value) == found.value
          && (found.value.name == st.name || NameInUse(n, st.name, found.value.id)))
  }

  /** Another row than `id` has the name. */
  ghost predicate NameInUse(s: Store, name: string, id: nat) {
    exists r :: r in s.rows && r.id != id && r.name == name
  }

  lemma {:induction false} NameStaysInUse(s: Store, n: Store, name: string, id: nat, overwrite: bool)
    requires Keeps(s.rows, n.rows, overwrite) && NameInUse(s, name, id)
    ensures NameInUse(n, name, id)
  {
    var r :| r in s.rows && r.id != id && r.name == name;
    var i :| 0 <= i < |s.rows| && s.rows[i] == r;
    assert KeepsRow(s.rows[i], n.rows[i], overwrite);
    assert n.rows[i] in n.rows;
  }

  lemma {:induction false} OldNameInUse(s: Store, name: string)
    requires ValidStore(s) && FindByName(s.rows, name).Some?
    ensures NameInUse(s, name, s.nextId)
  {}

  lemma {:induction false} StepsRow(x: X509, s: Store, steps: seq<InsertStep>, overwrite: bool, k: nat)
    requires ValidStore(s) && RunInserts(x, s, steps, overwrite).Ok?
    requires k < |steps| && FirstStep(x, steps, x.fingerprint(steps[k].pem), k)
    ensures RowOfStep(x, s, RunInserts(x, s, steps, overwrite).value, steps[k])
  {
    hide InsertOne, ValidStore, RowOfStep, Keeps;
    var init, st, fp := steps[..|steps| - 1], steps[|steps| - 1], x.fingerprint(steps[k].pem);
    var mid, n := RunInserts(x, s, init, overwrite).value, RunInserts(x, s, steps, overwrite).value;
    RunInsertsKeeps(x, s, init, overwrite);
    InsertOneKeeps(x, mid, st, overwrite);
    if k < |init| {
      assert init[k] == steps[k];
      StepsRow(x, s, init, overwrite, k);
      LaterStep(x, s, mid, n, st, steps[k], overwrite);
    } else {
      UntouchedSoFar(x, s, init, overwrite, fp);
      OwnStep(x, s, mid, n, st, overwrite);
    }
  }

  lemma {:induction false} LaterStep(x: X509, s: Store, mid: Store, n: Store, st: InsertStep, first: InsertStep, overwrite: bool)
    requires ValidStore(mid) && InsertOne(x, mid, st, overwrite) == Ok(n) && RowOfStep(x, s, mid, first) && Keeps(mid.rows, n.rows, overwrite)
    ensures RowOfStep(x, s, n, first)
  {
    InsertOneFound(x, mid, st, overwrite, x.fingerprint(first.pem));
    var row := FindByFingerprint(mid.rows, x.fingerprint(first.pem)).value;
    hide InsertOne, ValidStore, Keeps;
    if NameInUse(mid, first.name, row.id) { NameStaysInUse(mid, n, first.name, row.id, overwrite); }
  }

  lemma {:induction false} OwnStep(x: X509, s: Store, mid: Store, n: Store, st: InsertStep, overwrite: bool)
    requires ValidStore(mid) && InsertOne(x, mid, st, overwrite) == Ok(n) && Keeps(mid.rows, n.rows, overwrite)
    requires FindByFingerprint(mid.rows, x.fingerprint(st.pem)) == FindByFingerprint(s.rows, x.fingerprint(st.pem))
    ensures RowOfStep(x, s, n, st)
  {
    InsertOneFound(x, mid, st, overwrite, x.fingerprint(st.pem));
    hide InsertOne, ValidStore, Keeps;
    if FindByName(mid.rows, st.name).Some? {
      OldNameInUse(mid, st.name);
      NameStaysInUse(mid, n, st.name, mid.nextId, overwrite);
    }
  }

  /** Steps for other certificates leave the row of `fp` alone. */
  lemma {:induction false} UntouchedSoFar(x: X509, s: Store, steps: seq<InsertStep>, overwrite: bool, fp: string)
    requires ValidStore(s) && RunInserts(x, s, steps, overwrite).Ok?
    requires forall j :: 0 <= j < |steps| ==> x.fingerprint(steps[j].pem) != fp
    ensures FindByFingerprint(RunInserts(x, s, steps, overwrite).value.rows, fp) == FindByFingerprint(s.rows, fp)
  {
    hide InsertOne, ValidStore;
    if steps != [] {
      var init := steps[..|steps| - 1];
      UntouchedSoFar(x, s, init, overwrite, fp);
      RunInsertsKeeps(x, s, init, overwrite);
      InsertOneFound(x, RunInserts(x, s, init, overwrite).value, steps[|steps| - 1], overwrite, fp);
    }
  }

  // ---- the key ----

  /** The key that is in force after the inserts, if the row is there. */
  ghost predicate KeyOutcome(x: X509, s: Store, n: Store, steps: seq<InsertStep>, overwrite: bool, fp: string) {
    var was, found := FindByFingerprint(s.rows, fp), FindByFingerprint(n.rows, fp);
    found.Some? ==>
      && (forall key :: Brings(x, steps, fp, key) ==>
            found.value.keyPem == if was.None? || was.value.keyPem == "" || overwrite then key else was.value.keyPem)
      && ((forall key :: !Brings(x, steps, fp, key)) ==> found.value.keyPem == if was.Some? then was.value.keyPem else "")
  }

  lemma {:induction false} StepsKey(x: X509, s: Store, steps: seq<InsertStep>, overwrite: bool, fp: string)
    requires ValidStore(s) && KeysAgree(x, steps) && RunInserts(x, s, steps, overwrite).Ok?
    ensures KeyOutcome(x, s, RunInserts(x, s, steps, overwrite).value, steps, overwrite, fp)
  {
    hide InsertOne, ValidStore;
    if steps != [] {
      var init, st := steps[..|steps| - 1], steps[|steps| - 1];
      assert KeysAgree(x, init) by { forall i, j | 0 <= i < |init| && 0 <= j < |init| ensures SameKey(x, init[i], init[j]) { assert SameKey(x, steps[i], steps[j]); } }
      StepsKey(x, s, init, overwrite, fp);
      RunInsertsKeeps(x, s, init, overwrite);
      var mid := RunInserts(x, s, init, overwrite).value;
      InsertOneFound(x, mid, st, overwrite, fp);
      if FindByFingerprint(mid.rows, fp).None? { NothingBrought(x, s, init, overwrite, fp); }
      OneMoreKey(x, s, mid, RunInserts(x, s, steps, overwrite).value, steps, overwrite, fp);
    }
  }

  lemma {:induction false} NothingBrought(x: X509, s: Store, steps: seq<InsertStep>, overwrite: bool, fp: string)
    requires ValidStore(s) && RunInserts(x, s, steps, overwrite).Ok?
    requires FindByFingerprint(RunInserts(x, s, steps, overwrite).value.rows, fp).None?
    ensures FindByFingerprint(s.rows, fp).None? && forall i :: 0 <= i < |steps| ==> x.fingerprint(steps[i].pem) != fp
  {
    hide InsertOne, ValidStore;
    if steps != [] {
      var init := steps[..|steps| - 1];
      RunInsertsKeeps(x, s, init, overwrite);
      InsertOneFound(x, RunInserts(x, s, init, overwrite).value, steps[|steps| - 1], overwrite, fp);
      NothingBrought(x, s, init, overwrite, fp);
    }
  }

  ghost predicate BringsNothing(x: X509, steps: seq<InsertStep>, fp: string) {
    forall i :: 0 <= i < |steps| && x.fingerprint(steps[i].pem) == fp ==> steps[i].key.None?
  }

  /** What the step does to the key of the row of `fp`. */
  predicate KeyStep(x: X509, mid: Store, n: Store, st: InsertStep, overwrite: bool, fp: string) {
    var before, found := FindByFingerprint(mid.rows, fp), FindByFingerprint(n.rows, fp);
    if x.fingerprint(st.pem) != fp then found == before
    else
      found.Some? && found.value.keyPem == if st.key.Some? && (before.None? || before.value.keyPem == "" || overwrite) then st.key.value
                                           else if before.Some? then before.value.keyPem else ""
  }

  lemma {:induction false} BringsMore(x: X509, steps: seq<InsertStep>, fp: string, key: string)
    requires steps != []
    ensures var st := steps[|steps| - 1];
            Brings(x, steps, fp, key) <==> Brings(x, steps[..|steps| - 1], fp, key) || (x.fingerprint(st.pem) == fp && st.key == Some(key))
  {
    var init := steps[..|steps| - 1];
    if Brings(x, steps, fp, key) {
      var i :| 0 <= i < |steps| && x.fingerprint(steps[i].pem) == fp && steps[i].key == Some(key);
      if i < |init| { assert init[i] == steps[i]; }
    }
    if Brings(x, init, fp, key) {
      var i :| 0 <= i < |init| && x.fingerprint(init[i].pem) == fp && init[i].key == Some(key);
      assert steps[i] == init[i];
    }
  }

  lemma {:induction false} OneKey(x: X509, steps: seq<InsertStep>, fp: string, k1: string, k2: string)
    requires KeysAgree(x, steps) && Brings(x, steps, fp, k1) && Brings(x, steps, fp, k2)
    ensures k1 == k2
  {
    var i :| 0 <= i < |steps| && x.fingerprint(steps[i].pem) == fp && steps[i].key == Some(k1);
    var j :| 0 <= j < |steps| && x.fingerprint(steps[j].pem) == fp && steps[j].key == Some(k2);
    assert SameKey(x, steps[i], steps[j]);
  }

  lemma {:induction false} OneMoreKey(x: X509, s: Store, mid: Store, n: Store, steps: seq<InsertStep>, overwrite: bool, fp: string)
    requires steps != [] && KeysAgree(x, steps) && KeyOutcome(x, s, mid, steps[..|steps| - 1], overwrite, fp)
    requires FindByFingerprint(mid.rows, fp).None? ==>
               FindByFingerprint(s.rows, fp).None? && BringsNothing(x, steps[..|steps| - 1], fp)
    requires KeyStep(x, mid, n, steps[|steps| - 1], overwrite, fp)
    ensures KeyOutcome(x, s, n, steps, overwrite, fp)
  {
    var init := steps[..|steps| - 1];
    forall key ensures Brings(x, steps, fp, key) <==> Brings(x, init, fp, key) || (x.fingerprint(steps[|steps| - 1].pem) == fp && steps[|steps| - 1].key == Some(key)) {
      BringsMore(x, steps, fp, key);
    }
    forall k1, k2 | Brings(x, steps, fp, k1) && Brings(x, steps, fp, k2) ensures k1 == k2 { OneKey(x, steps, fp, k1, k2); }
    assert BringsNothing(x, init, fp) ==> forall key {:trigger Brings(x, init, fp, key)} :: !Brings(x, init, fp, key);
    hide Brings, KeysAgree, BringsNothing;
  }

  // ---- links ----

  /** The link step gives a new issuer to the row with key `id`. */
  predicate Concerns(t: Table, l: LinkStep, id: nat) {
    Effective(t, l) && FindByFingerprint(t, l.child.value).value.id == id
  }

  lemma {:induction false} LastLinkWins(t: Table, links: seq<LinkStep>, id: nat, k: nat)
    requires k < |links| && Concerns(t, links[k], id) && forall j :: k < j < |links| ==> !Concerns(t, links[j], id)
    ensures LinkTarget(t, links, id) == Some(FindByFingerprint(t, links[k].issuer.value).value.id)
  {
    if k < |links| - 1 {
      assert links[..|links| - 1][k] == links[k];
      LastLinkWins(t, links[..|links| - 1], id, k);
    }
  }

  lemma {:induction false} NoLinkNoTarget(t: Table, links: seq<LinkStep>, id: nat)
    requires forall j :: 0 <= j < |links| ==> !Concerns(t, links[j], id)
    ensures LinkTarget(t, links, id) == None
  {
    if links != [] { NoLinkNoTarget(t, links[..|links| - 1], id); }
  }

  lemma {:induction false} FindMapped(whole: Table, links: seq<LinkStep>, t: Table, n: Table, fp: string)
    requires |n| == |t| && forall i :: 0 <= i < |t| ==> n[i] == Linked(t[i], LinkTarget(whole, links, t[i].id))
    ensures FindByFingerprint(n, fp) ==
            match FindByFingerprint(t, fp) case None => None case Some(r) => Some(Linked(r, LinkTarget(whole, links, r.id)))
  {
    if t != [] { FindMapped(whole, links, t[1..], n[1..], fp); }
  }

  /** The relink pass changes the row that is found by its issuer only. */
  lemma {:induction false} FoundAfterLinks(t: Table, links: seq<LinkStep>, fp: string)
    ensures FindByFingerprint(RunLinks(t, links), fp) ==
            match FindByFingerprint(t, fp) case None => None case Some(r) => Some(Linked(r, LinkTarget(t, links, r.id)))
  {
    RunLinksRows(t, links);
    FindMapped(t, links, t, RunLinks(t, links), fp);
  }

  /** A link for another fingerprint does not concern the row. */
  lemma {:induction false} OtherFingerprint(t: Table, l: LinkStep, fp: string)
    requires UniqueIds(t) && FindByFingerprint(t, fp).Some? && (l.child.Some? ==> l.child.value != fp)
    ensures !Concerns(t, l, FindByFingerprint(t, fp).value.id)
  {
    if Effective(t, l) {
      FindUnique(t, FindByFingerprint(t, l.child.value).value);
      FindUnique(t, FindByFingerprint(t, fp).value);
    }
  }

  // ---- the items of a bundle ----

  ghost predicate IsFirst(items: seq<Item>, role: Role, k: nat) {
    k < |items| && items[k].role == role && forall j :: 0 <= j < k ==> items[j].role != role
  }

  lemma {:induction false} FirstWithIs(items: seq<Item>, role: Role)
    ensures forall k: nat :: IsFirst(items, role, k) ==> FirstWith(items, role) == Some(items[k])
    ensures (forall i :: i in items ==> i.role != role) <==> FirstWith(items, role).None?
  {
    if items != [] {
      FirstWithIs(items[1..], role);
      forall k: nat | IsFirst(items, role, k) ensures FirstWith(items, role) == Some(items[k]) {
        if k > 0 {
          assert IsFirst(items[1..], role, k - 1) by { forall j | 0 <= j < k - 1 ensures items[1..][j].role != role { assert items[1..][j] == items[j + 1]; } }
        }
      }
      assert items[0] in items && forall i :: i in items[1..] ==> i in items;
      assert forall i :: i in items ==> i == items[0] || i in items[1..];
    }
  }

  lemma {:induction false} FirstAt(items: seq<Item>, role: Role) returns (k: nat)
    requires FirstWith(items, role).Some?
    ensures IsFirst(items, role, k)
  {
    if items[0].role == role {
      k := 0;
    } else {
      var rest := FirstAt(items[1..], role);
      k := rest + 1;
      forall j | 0 <= j < k ensures items[j].role != role { if j > 0 { assert items[1..][j - 1] == items[j]; } }
    }
  }

  lemma {:induction false} ItemsWithAre(items: seq<Item>, roles: set<Role>)
    ensures forall i :: i in ItemsWith(items, roles) <==> i in items && i.role in roles
  {
    if items != [] {
      ItemsWithAre(items[..|items| - 1], roles);
      assert items == items[..|items| - 1] + [items[|items| - 1]];
    }
  }

  // ---- leaf and ca bundles ----

  /** No parent item of the bundle is this certificate. */
  ghost predicate NotAParent(x: X509, b: Bundle, fp: string) {
    forall i :: i in b.items && i.role == ParentRole ==> x.fingerprint(i.text) != fp
  }

  /** The issuer that the bundle names for its certificate: the item's own word counts first. */
  function NamedIssuer(b: Bundle, cert: Item): string {
    if cert.meta.issuerFingerprint.Some? then cert.meta.issuerFingerprint.value
    else if b.issuerFingerprint.Some? then b.issuerFingerprint.value else ""
  }

  ghost predicate PrimaryKeyKept(x: X509, s: Store, n: Store, b: Bundle, opts: ImportOptions, cert: Item) {
    var was, found := FindByFingerprint(s.rows, x.fingerprint(cert.text)), FindByFingerprint(n.rows, x.fingerprint(cert.text));
    && found.Some?
    && (forall k: nat :: IsFirst(b.items, KeyRole, k) ==>
          found.value.keyPem == if was.None? || was.value.keyPem == "" || opts.overwriteKey then b.items[k].text else was.value.keyPem)
    && ((forall i :: i in b.items ==> i.role != KeyRole) ==> found.value.keyPem == if was.Some? then was.value.keyPem else "")
  }

  ghost predicate PrimaryRow(x: X509, s: Store, n: Store, b: Bundle, opts: ImportOptions, cert: Item) {
    var was, found := FindByFingerprint(s.rows, x.fingerprint(cert.text)), FindByFingerprint(n.rows, x.fingerprint(cert.text));
    var wanted := if opts.rename.Some? then opts.rename.value else b.name;
    && found.Some?
    && (was.Some? ==> found.value == was.value.(keyPem := found.value.keyPem, issuerId := found.value.issuerId))
    && (was.None? ==>
          && found.value.certPem == cert.text && found.value.revokedAt.None?
          && found.value.kind == (if b.kind == CaBundle then Ca else if cert.meta.kind.Some? then cert.meta.kind.value else ServerCert)
          && Derive(x, cert.text).Some? && WithMeta(found.value, Derive(x, cert.text).value) == found.value
          && (found.value.name == wanted || NameInUse(n, wanted, found.value.id)))
  }

  ghost predicate PrimaryIssuer(x: X509, s: Store, n: Store, b: Bundle, cert: Item) {
    var was, found := FindByFingerprint(s.rows, x.fingerprint(cert.text)), FindByFingerprint(n.rows, x.fingerprint(cert.text));
    var issuer := FindByFingerprint(n.rows, NamedIssuer(b, cert));
    found.Some? &&
    found.value.issuerId ==
      if NamedIssuer(b, cert) != "" && issuer.Some? then Some(issuer.value.id) else if was.Some? then was.value.issuerId else None
  }

  lemma {:induction false} SomeFirstStep(x: X509, steps: seq<InsertStep>, fp: string, i: nat) returns (k: nat)
    requires i < |steps| && x.fingerprint(steps[i].pem) == fp
    ensures FirstStep(x, steps, fp, k) && k <= i
  {
    k := 0;
    while x.fingerprint(steps[k].pem) != fp
      invariant k <= i && forall j :: 0 <= j < k ==> x.fingerprint(steps[j].pem) != fp
      decreases i - k
    {
      k := k + 1;
    }
  }

  /** The steps and links of a leaf or ca bundle whose first cert item is number c. */
  lemma {:induction false} LeafPlanIs(x: X509, b: Bundle, opts: ImportOptions, c: nat)
    requires b.kind != SubtreeBundle && IsFirst(b.items, CertRole, c)
    ensures var parents := ItemsWith(b.items, {ParentRole});
            PlanOf(x, b, opts) == Some(Plan(ParentSteps(parents) + [PrimaryStep(b, opts, b.items[c])],
                                            [PrimaryLink(x, b, b.items[c])] + MetaLinks(parents)))
  {
    FirstWithIs(b.items, CertRole);
    hide PrimaryStep, PrimaryLink, ParentSteps, MetaLinks;
  }

  /** The key item is the only one that brings a key, and it belongs to the certificate. */
  lemma {:induction false} LeafBrings(x: X509, b: Bundle, opts: ImportOptions, cert: Item, parents: seq<Item>, key: string)
    ensures var keyItem := FirstWith(b.items, KeyRole);
            Brings(x, ParentSteps(parents) + [PrimaryStep(b, opts, cert)], x.fingerprint(cert.text), key) <==>
            keyItem.Some? && keyItem.value.text == key
  {
    var steps := ParentSteps(parents) + [PrimaryStep(b, opts, cert)];
    hide FirstWith;
    assert steps[|parents|] == PrimaryStep(b, opts, cert);
    assert forall i :: 0 <= i < |parents| ==> steps[i] == ParentStep(parents[i]);
    assert forall i :: 0 <= i < |parents| ==> steps[i].key.None?;
  }

  lemma {:induction false} LeafKeyKept(x: X509, s: Store, mid: Store, n: Store, b: Bundle, opts: ImportOptions, cert: Item, parents: seq<Item>)
    requires var fp := x.fingerprint(cert.text);
             && KeyOutcome(x, s, mid, ParentSteps(parents) + [PrimaryStep(b, opts, cert)], opts.overwriteKey, fp)
             && FindByFingerprint(mid.rows, fp).Some? && FindByFingerprint(n.rows, fp).Some?
             && FindByFingerprint(n.rows, fp).value.keyPem == FindByFingerprint(mid.rows, fp).value.keyPem
    ensures PrimaryKeyKept(x, s, n, b, opts, cert)
  {
    var fp := x.fingerprint(cert.text);
    var steps := ParentSteps(parents) + [PrimaryStep(b, opts, cert)];
    FirstWithIs(b.items, KeyRole);
    forall key ensures Brings(x, steps, fp, key) <==> FirstWith(b.items, KeyRole).Some? && FirstWith(b.items, KeyRole).value.text == key {
      LeafBrings(x, b, opts, cert, parents, key);
    }
    hide Brings, FirstWith, PrimaryStep, ParentSteps;
    forall k: nat | IsFirst(b.items, KeyRole, k) ensures Brings(x, steps, fp, b.items[k].text) {}
    if forall i :: i in b.items ==> i.role != KeyRole {
      forall key ensures !Brings(x, steps, fp, key) {}
    }
  }

  lemma {:induction false} NameInUseLinked(mid: Store, n: Store, name: string, id: nat)
    requires SameRows(mid.rows, n.rows) && NameInUse(mid, name, id)
    ensures NameInUse(n, name, id)
  {
    var r :| r in mid.rows && r.id != id && r.name == name;
    var i :| 0 <= i < |mid.rows| && mid.rows[i] == r;
    assert n.rows[i] in n.rows;
  }

  lemma {:induction false} LeafRow(x: X509, s: Store, mid: Store, n: Store, b: Bundle, opts: ImportOptions, cert: Item)
    requires RowOfStep(x, s, mid, PrimaryStep(b, opts, cert)) && b.kind != SubtreeBundle && SameRows(mid.rows, n.rows)
    requires var fp := x.fingerprint(cert.text);
             && FindByFingerprint(n.rows, fp).Some?
             && FindByFingerprint(n.rows, fp).value == FindByFingerprint(mid.rows, fp).value.(issuerId := FindByFingerprint(n.rows, fp).value.issuerId)
    ensures PrimaryRow(x, s, n, b, opts, cert)
  {
    var row := FindByFingerprint(mid.rows, x.fingerprint(cert.text)).value;
    var wanted := if opts.rename.Some? then opts.rename.value else b.name;
    hide SameRows, NameInUse;
    if NameInUse(mid, wanted, row.id) { NameInUseLinked(mid, n, wanted, row.id); }
  }

  /** Where the certificate's own link stands in the relink pass. */
  lemma {:induction false} LeafTarget(x: X509, t: Table, b: Bundle, cert: Item, parents: seq<Item>)
    requires UniqueIds(t) && FindByFingerprint(t, x.fingerprint(cert.text)).Some?
    requires forall p :: p in parents && Truthy(p.meta.fingerprint) ==> p.meta.fingerprint.value != x.fingerprint(cert.text)
    ensures var row, issuer := FindByFingerprint(t, x.fingerprint(cert.text)).value, FindByFingerprint(t, NamedIssuer(b, cert));
            LinkTarget(t, [PrimaryLink(x, b, cert)] + MetaLinks(parents), row.id) ==
            if NamedIssuer(b, cert) != "" && issuer.Some? then Some(issuer.value.id) else None
  {
    var fp := x.fingerprint(cert.text);
    var id := FindByFingerprint(t, fp).value.id;
    var links := [PrimaryLink(x, b, cert)] + MetaLinks(parents);
    forall j | 1 <= j < |links| ensures !Concerns(t, links[j], id) {
      assert links[j] == MetaLink(parents[j - 1]) && parents[j - 1] in parents;
      OtherFingerprint(t, links[j], fp);
    }
    hide UniqueIds, FindByFingerprint, MetaLinks;
    if Concerns(t, links[0], id) { LastLinkWins(t, links, id, 0); } else { NoLinkNoTarget(t, links, id); }
  }

  /** After a successful import of a leaf or ca bundle its certificate is in the store, with
      the bundle's key unless another one was there to be kept; a new row is what the bundle
      says; and it hangs under the issuer that the bundle names, if that is in the store. */
  lemma {:induction false} PrimaryImported(x: X509, s: Store, b: Bundle, opts: ImportOptions, c: nat)
    requires ValidStore(s) && b.kind != SubtreeBundle && IsFirst(b.items, CertRole, c) && Import(x, s, b, opts).Ok?
    ensures var n := Import(x, s, b, opts).value;
            && (b.items[c].meta.fingerprint.Some? && b.items[c].meta.fingerprint.value != "" ==>
                  b.items[c].meta.fingerprint.value == x.fingerprint(b.items[c].text))
            && PrimaryKeyKept(x, s, n, b, opts, b.items[c])
            && (NotAParent(x, b, x.fingerprint(b.items[c].text)) ==>
                  PrimaryRow(x, s, n, b, opts, b.items[c]) && PrimaryIssuer(x, s, n, b, b.items[c]))
  {
    var cert := b.items[c];
    var fp, parents := x.fingerprint(cert.text), ItemsWith(b.items, {ParentRole});
    LeafPlanIs(x, b, opts, c);
    var plan := PlanOf(x, b, opts).value;
    var steps := ParentSteps(parents) + [PrimaryStep(b, opts, cert)];
    assert steps[|parents|] == PrimaryStep(b, opts, cert) && x.fingerprint(steps[|parents|].pem) == fp;
    RanIntact(x, s, steps, opts.overwriteKey, |parents|);
    hide PlanOf, RunInserts, RunLinks, ValidStore, PrimaryKeyKept, PrimaryRow, PrimaryIssuer, FirstStep, PrimaryStep, PrimaryLink,
         MetaLinks, FindByFingerprint, RowOfStep, KeyOutcome, SameRows, NotAParent, IsFirst, ItemsWith, KeysAgree;
    var mid, n := RunInserts(x, s, plan.inserts, opts.overwriteKey).value, Import(x, s, b, opts).value;
    PlanKeysAgree(x, s, b, opts, plan);
    StepsKey(x, s, steps, opts.overwriteKey, fp);
    var k := SomeFirstStep(x, steps, fp, |parents|);
    FirstStepRow(x, s, steps, opts.overwriteKey, fp, k);
    FoundAfterLinks(mid.rows, plan.links, fp);
    RunLinksSameRows(mid.rows, plan.links);
    LeafKeyKept(x, s, mid, n, b, opts, cert, parents);
    if NotAParent(x, b, fp) {
      OwnStepFirst(x, b, opts, cert, fp);
      FirstStepRow(x, s, steps, opts.overwriteKey, fp, |parents|);
      LeafRow(x, s, mid, n, b, opts, cert);
      LeafIssuer(x, s, b, opts, c);
    }
  }

  lemma {:induction false} FirstStepRow(x: X509, s: Store, steps: seq<InsertStep>, overwrite: bool, fp: string, k: nat)
    requires ValidStore(s) && RunInserts(x, s, steps, overwrite).Ok? && FirstStep(x, steps, fp, k)
    ensures k < |steps| && RowOfStep(x, s, RunInserts(x, s, steps, overwrite).value, steps[k])
    ensures FindByFingerprint(RunInserts(x, s, steps, overwrite).value.rows, fp).Some?
  {
    hide RunInserts, ValidStore;
    StepsRow(x, s, steps, overwrite, k);
  }

  lemma {:induction false} OwnStepFirst(x: X509, b: Bundle, opts: ImportOptions, cert: Item, fp: string)
    requires NotAParent(x, b, fp) && fp == x.fingerprint(cert.text)
    ensures var parents := ItemsWith(b.items, {ParentRole}); FirstStep(x, ParentSteps(parents) + [PrimaryStep(b, opts, cert)], fp, |parents|)
  {
    var parents := ItemsWith(b.items, {ParentRole});
    ItemsWithAre(b.items, {ParentRole});
    var steps := ParentSteps(parents) + [PrimaryStep(b, opts, cert)];
    forall j | 0 <= j < |parents| ensures x.fingerprint(steps[j].pem) != fp { assert steps[j] == ParentStep(parents[j]) && parents[j] in parents; }
  }

  lemma {:induction false} LeafIssuer(x: X509, s: Store, b: Bundle, opts: ImportOptions, c: nat)
    requires ValidStore(s) && b.kind != SubtreeBundle && IsFirst(b.items, CertRole, c) && Import(x, s, b, opts).Ok?
    requires NotAParent(x, b, x.fingerprint(b.items[c].text))
    ensures PrimaryIssuer(x, s, Import(x, s, b, opts).value, b, b.items[c])
  {
    var cert := b.items[c];
    var fp, parents := x.fingerprint(cert.text), ItemsWith(b.items, {ParentRole});
    LeafPlanIs(x, b, opts, c);
    var plan := PlanOf(x, b, opts).value;
    var steps := ParentSteps(parents) + [PrimaryStep(b, opts, cert)];
    assert steps[|parents|] == PrimaryStep(b, opts, cert) && x.fingerprint(steps[|parents|].pem) == fp;
    OwnStepFirst(x, b, opts, cert, fp);
    hide PlanOf, RunInserts, RunLinks, FirstStep, PrimaryStep, PrimaryLink, MetaLinks, FindByFingerprint, IsFirst, ItemsWith, NamedIssuer, Keeps, UniqueNames;
    var mid, n := RunInserts(x, s, plan.inserts, opts.overwriteKey).value, Import(x, s, b, opts).value;
    RunInsertsKeeps(x, s, steps, opts.overwriteKey);
    FirstStepRow(x, s, steps, opts.overwriteKey, fp, |parents|);
    FoundAfterLinks(mid.rows, plan.links, fp);
    RunLinksSameRows(mid.rows, plan.links);
    SameRowsFind(mid.rows, n.rows, NamedIssuer(b, cert));
    ParentsDiffer(x, s, b, opts, parents, cert);
    LeafTarget(x, mid.rows, b, cert, parents);
  }

  /** Recorded fingerprints of the parents are their own, so none is the certificate's. */
  lemma {:induction false} ParentsDiffer(x: X509, s: Store, b: Bundle, opts: ImportOptions, parents: seq<Item>, cert: Item)
    requires parents == ItemsWith(b.items, {ParentRole}) && NotAParent(x, b, x.fingerprint(cert.text))
    requires RunInserts(x, s, ParentSteps(parents) + [PrimaryStep(b, opts, cert)], opts.overwriteKey).Ok?
    ensures forall p :: p in parents && Truthy(p.meta.fingerprint) ==> p.meta.fingerprint.value != x.fingerprint(cert.text)
  {
    var steps := ParentSteps(parents) + [PrimaryStep(b, opts, cert)];
    ItemsWithAre(b.items, {ParentRole});
    hide RunInserts, ItemsWith;
    forall p | p in parents && Truthy(p.meta.fingerprint) ensures p.meta.fingerprint.value != x.fingerprint(cert.text) {
      var i :| 0 <= i < |parents| && parents[i] == p;
      assert steps[i] == ParentStep(p);
      RanIntact(x, s, steps, opts.overwriteKey, i);
    }
  }

  // ---- parents, and the members of a subtree ----

  /** `ix` are the positions of the items with these roles, in ascending order. */
  ghost predicate PositionsOf(items: seq<Item>, roles: set<Role>, ix: seq<nat>) {
    && |ix| == |ItemsWith(items, roles)|
    && (forall i: nat :: i in ix <==> i < |items| && items[i].role in roles)
    && (forall a, b :: 0 <= a < b < |ix| ==> ix[a] < ix[b])
    && (forall k :: 0 <= k < |ix| ==> ix[k] < |items| && ItemsWith(items, roles)[k] == items[ix[k]])
  }

  lemma {:induction false} ItemsAt(items: seq<Item>, roles: set<Role>) returns (ix: seq<nat>)
    ensures PositionsOf(items, roles, ix)
  {
    if items == [] {
      ix := [];
    } else {
      var init := items[..|items| - 1];
      var before := ItemsAt(init, roles);
      ix := before + if items[|items| - 1].role in roles then [|items| - 1] else [];
      OneMoreItem(items, roles, before);
    }
  }

  lemma {:induction false} OneMoreItem(items: seq<Item>, roles: set<Role>, before: seq<nat>)
    requires items != [] && PositionsOf(items[..|items| - 1], roles, before)
    ensures PositionsOf(items, roles, before + if items[|items| - 1].role in roles then [|items| - 1] else [])
  {
    var n := |items| - 1;
    var listed := ItemsWith(items[..n], roles);
    assert ItemsWith(items, roles) == listed + if items[n].role in roles then [items[n]] else [];
    hide ItemsWith;
    if items[n].role in roles {
      assert forall i :: i in before ==> i < n;
      PositionAdded(before, n);
      forall i: nat ensures i in before + [n] <==> i < |items| && items[i].role in roles {
        assert i < n ==> items[..n][i] == items[i];
      }
    } else {
      assert before + [] == before;
    }
  }

  lemma {:induction false} PositionAdded(before: seq<nat>, n: nat)
    requires (forall a, b :: 0 <= a < b < |before| ==> before[a] < before[b]) && forall i :: i in before ==> i < n
    ensures forall a, b :: 0 <= a < b < |before| + 1 ==> (before + [n])[a] < (before + [n])[b]
    ensures forall i :: i in before + [n] <==> i in before || i == n
  {
    forall a, b | 0 <= a < b < |before| + 1 ensures (before + [n])[a] < (before + [n])[b] {
      assert before[a] in before && (b < |before| ==> (before + [n])[b] == before[b]);
    }
  }

  /** The certificates of a bundle besides the primary one: parents, or all of a subtree. */
  function MemberRoles(b: Bundle): set<Role> {
    if b.kind == SubtreeBundle then {CertRole, ChildRole} else {ParentRole}
  }

  predicate IsMember(b: Bundle, i: nat) {
    i < |b.items| && if b.kind == SubtreeBundle then b.items[i].role == CertRole || b.items[i].role == ChildRole else b.items[i].role == ParentRole
  }

  /** No member before number i is the same certificate. */
  ghost predicate FirstMember(x: X509, b: Bundle, i: nat)
    requires i < |b.items|
  {
    forall j :: 0 <= j < i && IsMember(b, j) ==> x.fingerprint(b.items[j].text) != x.fingerprint(b.items[i].text)
  }

  ghost predicate MemberRow(x: X509, s: Store, n: Store, b: Bundle, it: Item) {
    var was, found := FindByFingerprint(s.rows, x.fingerprint(it.text)), FindByFingerprint(n.rows, x.fingerprint(it.text));
    var subtree := b.kind == SubtreeBundle;
    var wanted := if it.meta.name.Some? then it.meta.name.value else if subtree then "imported" else "imported-ca";
    && found.Some?
    && (was.Some? ==> found.value == was.value.(keyPem := found.value.keyPem, issuerId := found.value.issuerId))
    && (was.None? ==>
          && found.value.certPem == it.text && found.value.revokedAt.None?
          && found.value.kind == (if !subtree then Ca else if it.meta.kind.Some? then it.meta.kind.value else ServerCert)
          && Derive(x, it.text).Some? && WithMeta(found.value, Derive(x, it.text).value) == found.value
          && (found.value.name == wanted || NameInUse(n, wanted, found.value.id)))
  }

  /** The plan has one insert per member, in their order, before any other insert. */
  ghost predicate MembersFirst(x: X509, b: Bundle, opts: ImportOptions, plan: Plan, ix: seq<nat>) {
    && PositionsOf(b.items, MemberRoles(b), ix) && |ix| <= |plan.inserts|
    && forall k :: 0 <= k < |ix| ==> StepOfMember(b, plan.inserts[k], b.items[ix[k]])
  }

  predicate StepOfMember(b: Bundle, st: InsertStep, it: Item) {
    && st.pem == it.text && st.metaFp == it.meta.fingerprint
    && st.name == (if it.meta.name.Some? then it.meta.name.value else if b.kind == SubtreeBundle then "imported" else "imported-ca")
    && st.kind == (if b.kind != SubtreeBundle then Ca else if it.meta.kind.Some? then it.meta.kind.value else ServerCert)
  }

  lemma {:induction false} PlanMembers(x: X509, b: Bundle, opts: ImportOptions, plan: Plan) returns (ix: seq<nat>)
    requires PlanOf(x, b, opts) == Some(plan)
    ensures MembersFirst(x, b, opts, plan, ix)
  {
    ix := ItemsAt(b.items, MemberRoles(b));
    hide PositionsOf, KeysByFp, ItemsWith, PrimaryStep, PrimaryLink, MetaLinks;
    assert |ix| == |ItemsWith(b.items, MemberRoles(b))| && forall k :: 0 <= k < |ix| ==> ix[k] < |b.items| && ItemsWith(b.items, MemberRoles(b))[k] == b.items[ix[k]] by { PositionsMap(b.items, MemberRoles(b), ix); }
  }

  lemma {:induction false} PositionsMap(items: seq<Item>, roles: set<Role>, ix: seq<nat>)
    requires PositionsOf(items, roles, ix)
    ensures |ix| == |ItemsWith(items, roles)| && forall k :: 0 <= k < |ix| ==> ix[k] < |items| && ItemsWith(items, roles)[k] == items[ix[k]]
  {}

  /** Every member's certificate is in the store after a successful import, and a recorded
      fingerprint is its own. The first item for a new certificate says what its row is. */
  lemma {:induction false} MemberImported(x: X509, s: Store, b: Bundle, opts: ImportOptions, i: nat)
    requires ValidStore(s) && IsMember(b, i) && Import(x, s, b, opts).Ok?
    ensures var n, it := Import(x, s, b, opts).value, b.items[i];
            && FindByFingerprint(n.rows, x.fingerprint(it.text)).Some?
            && (it.meta.fingerprint.Some? && it.meta.fingerprint.value != "" ==> it.meta.fingerprint.value == x.fingerprint(it.text))
            && (FirstMember(x, b, i) ==> MemberRow(x, s, n, b, it))
  {
    var plan := PlanOf(x, b, opts).value;
    var ix := PlanMembers(x, b, opts, plan);
    assert i in ix;
    var p :| 0 <= p < |ix| && ix[p] == i;
    assert StepOfMember(b, plan.inserts[p], b.items[i]);
    var fp := x.fingerprint(b.items[i].text);
    if FirstMember(x, b, i) { MemberStepFirst(x, b, opts, plan, ix, p); }
    hide PlanOf, RunInserts, RunLinks, ValidStore, FirstStep, FindByFingerprint, RowOfStep, SameRows, MembersFirst, FirstMember, MemberRow, StepOfMember,
         LinkTarget, Linked;
    var mid, n := RunInserts(x, s, plan.inserts, opts.overwriteKey).value, Import(x, s, b, opts).value;
    RanIntact(x, s, plan.inserts, opts.overwriteKey, p);
    var k := SomeFirstStep(x, plan.inserts, fp, p);
    FirstStepRow(x, s, plan.inserts, opts.overwriteKey, fp, k);
    FoundAfterLinks(mid.rows, plan.links, fp);
    RunLinksSameRows(mid.rows, plan.links);
    if FirstMember(x, b, i) {
      FirstStepRow(x, s, plan.inserts, opts.overwriteKey, fp, p);
      RowOfMember(x, s, mid, n, b, plan.inserts[p], b.items[i]);
    }
  }

  lemma {:induction false} MemberStepFirst(x: X509, b: Bundle, opts: ImportOptions, plan: Plan, ix: seq<nat>, p: nat)
    requires MembersFirst(x, b, opts, plan, ix) && p < |ix| && FirstMember(x, b, ix[p])
    ensures FirstStep(x, plan.inserts, x.fingerprint(b.items[ix[p]].text), p)
  {
    forall j | 0 <= j < p ensures x.fingerprint(plan.inserts[j].pem) != x.fingerprint(b.items[ix[p]].text) {
      assert StepOfMember(b, plan.inserts[j], b.items[ix[j]]);
      assert ix[j] in ix && IsMember(b, ix[j]) && ix[j] < ix[p];
    }
    assert StepOfMember(b, plan.inserts[p], b.items[ix[p]]);
  }

  lemma {:induction false} RowOfMember(x: X509, s: Store, mid: Store, n: Store, b: Bundle, st: InsertStep, it: Item)
    requires RowOfStep(x, s, mid, st) && StepOfMember(b, st, it) && SameRows(mid.rows, n.rows)
    requires var fp := x.fingerprint(it.text);
             && FindByFingerprint(n.rows, fp).Some?
             && FindByFingerprint(n.rows, fp).value == FindByFingerprint(mid.rows, fp).value.(issuerId := FindByFingerprint(n.rows, fp).value.issuerId)
    ensures MemberRow(x, s, n, b, it)
  {
    var row := FindByFingerprint(mid.rows, x.fingerprint(it.text)).value;
    hide SameRows, NameInUse;
    if NameInUse(mid, st.name, row.id) { NameInUseLinked(mid, n, st.name, row.id); }
  }

  // ---- the issuers of members ----

  /** Item number i names an issuer for the certificate that it records, and it is in the store. */
  predicate NamesIssuer(n: Store, b: Bundle, i: nat, fp: string)
    requires i < |b.items|
  {
    var meta := b.items[i].meta;
    && meta.fingerprint == Some(fp) && fp != ""
    && meta.issuerFingerprint.Some? && meta.issuerFingerprint.value != ""
    && FindByFingerprint(n.rows, meta.issuerFingerprint.value).Some?
  }

  /** The last member that names an issuer for its certificate decides. */
  lemma {:induction false} MemberIssuer(x: X509, s: Store, b: Bundle, opts: ImportOptions, i: nat, fp: string)
    requires ValidStore(s) && IsMember(b, i) && Import(x, s, b, opts).Ok?
    requires var n := Import(x, s, b, opts).value;
             NamesIssuer(n, b, i, fp) && forall j :: i < j < |b.items| && IsMember(b, j) ==> !NamesIssuer(n, b, j, fp)
    ensures var n := Import(x, s, b, opts).value;
            && FindByFingerprint(n.rows, fp).Some?
            && FindByFingerprint(n.rows, fp).value.issuerId == Some(FindByFingerprint(n.rows, b.items[i].meta.issuerFingerprint.value).value.id)
  {
    var plan := PlanOf(x, b, opts).value;
    MemberImported(x, s, b, opts, i);
    LinksLast(x, b, opts, plan);
    hide PlanOf, RunInserts, RunLinks, FindByFingerprint, SameRows, MetaLinks, ItemsWith, UniqueNames, Keeps, NamesIssuer;
    var mid, n := RunInserts(x, s, plan.inserts, opts.overwriteKey).value, Import(x, s, b, opts).value;
    RunLinksSameRows(mid.rows, plan.links);
    SameRowsFind(mid.rows, n.rows, fp);
    FoundAfterLinks(mid.rows, plan.links, fp);
    RunInsertsKeeps(x, s, plan.inserts, opts.overwriteKey);
    assert fp == x.fingerprint(b.items[i].text) by { NamesRecorded(n, b, i, fp); }
    MemberTarget(mid, n, b, plan.links, i, fp);
  }

  lemma {:induction false} NamesRecorded(n: Store, b: Bundle, i: nat, fp: string)
    requires i < |b.items| && NamesIssuer(n, b, i, fp)
    ensures b.items[i].meta.fingerprint == Some(fp) && fp != "" && b.items[i].meta.issuerFingerprint.Some?
  {}

  ghost predicate EndsWithLinks(links: seq<LinkStep>, last: seq<LinkStep>) {
    |last| <= |links| && forall j :: 0 <= j < |last| ==> links[|links| - |last| + j] == last[j]
  }

  lemma {:induction false} MemberTarget(mid: Store, n: Store, b: Bundle, links: seq<LinkStep>, i: nat, fp: string)
    requires UniqueIds(mid.rows) && SameRows(mid.rows, n.rows) && IsMember(b, i) && FindByFingerprint(mid.rows, fp).Some?
    requires NamesIssuer(n, b, i, fp) && forall j :: i < j < |b.items| && IsMember(b, j) ==> !NamesIssuer(n, b, j, fp)
    requires EndsWithLinks(links, MetaLinks(ItemsWith(b.items, MemberRoles(b))))
    ensures b.items[i].meta.issuerFingerprint.Some? && FindByFingerprint(n.rows, b.items[i].meta.issuerFingerprint.value).Some?
    ensures LinkTarget(mid.rows, links, FindByFingerprint(mid.rows, fp).value.id) ==
            Some(FindByFingerprint(n.rows, b.items[i].meta.issuerFingerprint.value).value.id)
  {
    var last := MetaLinks(ItemsWith(b.items, MemberRoles(b)));
    var pre := |links| - |last|;
    var id := FindByFingerprint(mid.rows, fp).value.id;
    var p := MemberLink(b, links, i);
    NamesRecorded(n, b, i, fp);
    OwnConcerns(mid, n, b, i, fp);
    SameRowsFind(mid.rows, n.rows, b.items[i].meta.issuerFingerprint.value);
    hide FindByFingerprint, SameRows, ItemsWith, UniqueIds, MetaLinks, NamesIssuer, Concerns, EndsWithLinks;
    forall j | p < j < |links| ensures !Concerns(mid.rows, links[j], id) {
      var k := LinkMember(b, links, i, p, j);
      LaterMember(mid, n, b, k, fp);
    }
    hide *;
    LastLinkWins(mid.rows, links, id, p);
  }

  lemma {:induction false} OwnConcerns(mid: Store, n: Store, b: Bundle, i: nat, fp: string)
    requires SameRows(mid.rows, n.rows) && i < |b.items| && NamesIssuer(n, b, i, fp) && FindByFingerprint(mid.rows, fp).Some?
    ensures Concerns(mid.rows, MetaLink(b.items[i]), FindByFingerprint(mid.rows, fp).value.id)
    ensures FindByFingerprint(n.rows, b.items[i].meta.issuerFingerprint.value).Some?
  {
    hide FindByFingerprint, SameRows;
    SameRowsFind(mid.rows, n.rows, b.items[i].meta.issuerFingerprint.value);
  }

  /** Where the link of member i stands. */
  lemma {:induction false} MemberLink(b: Bundle, links: seq<LinkStep>, i: nat) returns (p: nat)
    requires IsMember(b, i) && EndsWithLinks(links, MetaLinks(ItemsWith(b.items, MemberRoles(b))))
    ensures p < |links| && links[p] == MetaLink(b.items[i])
    ensures forall j :: p < j < |links| ==> IsLaterMember(b, links[j], i)
  {
    var ix := ItemsAt(b.items, MemberRoles(b));
    var last := MetaLinks(ItemsWith(b.items, MemberRoles(b)));
    var pre := |links| - |last|;
    assert i in ix;
    var q :| 0 <= q < |ix| && ix[q] == i;
    p := pre + q;
    assert links[p] == last[q];
    forall j | p < j < |links| ensures IsLaterMember(b, links[j], i) {
      assert links[j] == links[pre + (j - pre)] == last[j - pre] && ix[j - pre] in ix && ix[q] < ix[j - pre];
      assert IsMember(b, ix[j - pre]) && links[j] == MetaLink(b.items[ix[j - pre]]);
    }
  }

  ghost predicate IsLaterMember(b: Bundle, l: LinkStep, i: nat) {
    exists k: nat :: i < k && IsMember(b, k) && l == MetaLink(b.items[k])
  }

  lemma {:induction false} LinkMember(b: Bundle, links: seq<LinkStep>, i: nat, p: nat, j: nat) returns (k: nat)
    requires p < j < |links| && IsLaterMember(b, links[j], i)
    ensures i < k && IsMember(b, k) && links[j] == MetaLink(b.items[k])
  {
    k :| i < k && IsMember(b, k) && links[j] == MetaLink(b.items[k]);
  }

  /** The certificate of a leaf or ca bundle is another one. */
  ghost predicate NotPrimary(x: X509, b: Bundle, fp: string) {
    b.kind != SubtreeBundle ==> forall c: nat :: IsFirst(b.items, CertRole, c) ==> x.fingerprint(b.items[c].text) != fp
  }

  /** Where no item of the bundle names an issuer for a certificate, its issuer stays, and a new
      row has none. */
  lemma {:induction false} IssuerKept(x: X509, s: Store, b: Bundle, opts: ImportOptions, fp: string)
    requires ValidStore(s) && Import(x, s, b, opts).Ok? && fp != "" && NotPrimary(x, b, fp)
    requires var n := Import(x, s, b, opts).value;
             && FindByFingerprint(n.rows, fp).Some?
             && forall j :: 0 <= j < |b.items| && IsMember(b, j) ==> !NamesIssuer(n, b, j, fp)
    ensures var n := Import(x, s, b, opts).value;
            var was := FindByFingerprint(s.rows, fp);
            FindByFingerprint(n.rows, fp).value.issuerId == if was.Some? then was.value.issuerId else None
  {
    var plan := PlanOf(x, b, opts).value;
    LinksLast(x, b, opts, plan);
    hide PlanOf, RunInserts, RunLinks, FindByFingerprint, SameRows, MetaLinks, ItemsWith, UniqueNames, Keeps, NamesIssuer, RowOfStep, FirstStep,
         MembersFirst, Derive, WithMeta, NameInUse, NotPrimary;
    var mid, n := RunInserts(x, s, plan.inserts, opts.overwriteKey).value, Import(x, s, b, opts).value;
    RunLinksSameRows(mid.rows, plan.links);
    SameRowsFind(mid.rows, n.rows, fp);
    FoundAfterLinks(mid.rows, plan.links, fp);
    RunInsertsKeeps(x, s, plan.inserts, opts.overwriteKey);
    NoMemberTarget(x, mid, n, b, opts, plan, fp);
    if p :| 0 <= p < |plan.inserts| && x.fingerprint(plan.inserts[p].pem) == fp {
      var k := SomeFirstStep(x, plan.inserts, fp, p);
      FirstStepRow(x, s, plan.inserts, opts.overwriteKey, fp, k);
      UnlinkedIssuer(x, s, mid, plan.inserts[k], fp);
    } else {
      UntouchedSoFar(x, s, plan.inserts, opts.overwriteKey, fp);
    }
  }

  lemma {:induction false} UnlinkedIssuer(x: X509, s: Store, mid: Store, st: InsertStep, fp: string)
    requires RowOfStep(x, s, mid, st) && fp == x.fingerprint(st.pem)
    ensures var was := FindByFingerprint(s.rows, fp);
            && FindByFingerprint(mid.rows, fp).Some?
            && FindByFingerprint(mid.rows, fp).value.issuerId == if was.Some? then was.value.issuerId else None
  {}

  lemma {:induction false} NoMemberTarget(x: X509, mid: Store, n: Store, b: Bundle, opts: ImportOptions, plan: Plan, fp: string)
    requires UniqueIds(mid.rows) && SameRows(mid.rows, n.rows) && FindByFingerprint(mid.rows, fp).Some? && fp != ""
    requires forall j :: 0 <= j < |b.items| && IsMember(b, j) ==> !NamesIssuer(n, b, j, fp)
    requires PlanOf(x, b, opts) == Some(plan) && NotPrimary(x, b, fp)
    ensures LinkTarget(mid.rows, plan.links, FindByFingerprint(mid.rows, fp).value.id) == None
  {
    var id, links := FindByFingerprint(mid.rows, fp).value.id, plan.links;
    hide FindByFingerprint, SameRows, ItemsWith, UniqueIds, PlanOf, NotPrimary, Concerns, NamesIssuer;
    forall j | 0 <= j < |links| ensures !Concerns(mid.rows, links[j], id) {
      var k := LinkIs(x, b, opts, plan, fp, j);
      if k.Some? { LaterMember(mid, n, b, k.value, fp); } else { OtherFingerprint(mid.rows, links[j], fp); }
    }
    hide *;
    NoLinkNoTarget(mid.rows, links, id);
  }

  /** A link is that of a member, or of the bundle's own certificate. */
  lemma {:induction false} LinkIs(x: X509, b: Bundle, opts: ImportOptions, plan: Plan, fp: string, j: nat) returns (k: Option<nat>)
    requires PlanOf(x, b, opts) == Some(plan) && NotPrimary(x, b, fp) && j < |plan.links|
    ensures if k.Some? then IsMember(b, k.value) && plan.links[j] == MetaLink(b.items[k.value])
            else plan.links[j].child.Some? && plan.links[j].child.value != fp
  {
    var ix := ItemsAt(b.items, MemberRoles(b));
    var last := MetaLinks(ItemsWith(b.items, MemberRoles(b)));
    if b.kind == SubtreeBundle {
      assert plan.links == last && ix[j] in ix;
      k := Some(ix[j]);
    } else {
      var c := FirstAt(b.items, CertRole);
      FirstWithIs(b.items, CertRole);
      assert plan.links == [PrimaryLink(x, b, b.items[c])] + last;
      if j == 0 { k := None; } else {
        assert ix[j - 1] in ix;
        k := Some(ix[j - 1]);
      }
    }
  }

  lemma {:induction false} LaterMember(mid: Store, n: Store, b: Bundle, j: nat, fp: string)
    requires UniqueIds(mid.rows) && SameRows(mid.rows, n.rows) && j < |b.items| && !NamesIssuer(n, b, j, fp) && fp != ""
    requires FindByFingerprint(mid.rows, fp).Some?
    ensures !Concerns(mid.rows, MetaLink(b.items[j]), FindByFingerprint(mid.rows, fp).value.id)
  {
    var l := MetaLink(b.items[j]);
    hide FindByFingerprint, SameRows, UniqueIds;
    if l.child == Some(fp) {
      if l.issuer.Some? { SameRowsFind(mid.rows, n.rows, l.issuer.value); }
    } else {
      OtherFingerprint(mid.rows, l, fp);
    }
  }

  /** The members' links are the last ones. */
  lemma {:induction false} LinksLast(x: X509, b: Bundle, opts: ImportOptions, plan: Plan)
    requires PlanOf(x, b, opts) == Some(plan)
    ensures EndsWithLinks(plan.links, MetaLinks(ItemsWith(b.items, MemberRoles(b))))
  {
    var last := MetaLinks(ItemsWith(b.items, MemberRoles(b)));
    var own := if b.kind == SubtreeBundle then [] else [PrimaryLink(x, b, FirstWith(b.items, CertRole).value)];
    assert plan.links == own + last;
    hide *;
    OwnThenLast(own, last);
  }

  lemma {:induction false} OwnThenLast(own: seq<LinkStep>, last: seq<LinkStep>)
    ensures EndsWithLinks(own + last, last)
  {}

  // ---- the keys of a subtree ----

  /** Key item number k is the last one filed under `fp`. */
  ghost predicate FiledKey(b: Bundle, fp: string, k: nat) {
    && k < |b.items| && IsKeyFor(b, fp, k)
    && forall j :: k < j < |b.items| ==> !IsKeyFor(b, fp, j)
  }

  predicate IsKeyFor(b: Bundle, fp: string, k: nat) {
    k < |b.items| && b.items[k].role == KeyRole && b.items[k].meta.fingerprint == Some(fp) && fp != ""
  }

  /** Some member is this certificate and records its fingerprint. */
  ghost predicate Recorded(x: X509, b: Bundle, fp: string) {
    exists i: nat :: IsMember(b, i) && x.fingerprint(b.items[i].text) == fp && b.items[i].meta.fingerprint == Some(fp)
  }

  ghost predicate SubtreeKeyKept(x: X509, s: Store, n: Store, b: Bundle, opts: ImportOptions, fp: string) {
    var was, found := FindByFingerprint(s.rows, fp), FindByFingerprint(n.rows, fp);
    found.Some? ==>
      && (forall k: nat :: FiledKey(b, fp, k) && Recorded(x, b, fp) ==>
            found.value.keyPem == if was.None? || was.value.keyPem == "" || opts.overwriteKey then b.items[k].text else was.value.keyPem)
      && (!Recorded(x, b, fp) || (forall k: nat :: !IsKeyFor(b, fp, k)) ==>
            found.value.keyPem == if was.Some? then was.value.keyPem else "")
  }

  predicate Files(it: Item, fp: string) {
    it.meta.fingerprint == Some(fp) && fp != ""
  }

  lemma {:induction false} KeysByFpIn(items: seq<Item>, fp: string)
    ensures fp in KeysByFp(items) <==> exists k :: 0 <= k < |items| && Files(items[k], fp)
  {
    if items != [] {
      var init, last := items[..|items| - 1], items[|items| - 1];
      KeysByFpIn(init, fp);
      if fp in KeysByFp(init) {
        var k :| 0 <= k < |init| && Files(init[k], fp);
        assert items[k] == init[k];
      }
      if k :| 0 <= k < |items| && Files(items[k], fp) {
        assert k < |init| ==> init[k] == items[k];
      }
    }
  }

  lemma {:induction false} KeysByFpLast(items: seq<Item>, fp: string, k: nat)
    requires k < |items| && Files(items[k], fp) && forall j :: k < j < |items| ==> !Files(items[j], fp)
    ensures fp in KeysByFp(items) && KeysByFp(items)[fp] == items[k].text
  {
    if k < |items| - 1 {
      var init := items[..|items| - 1];
      assert init[k] == items[k];
      forall j | k < j < |init| ensures !Files(init[j], fp) { assert init[j] == items[j]; }
      KeysByFpLast(init, fp, k);
      assert !Files(items[|items| - 1], fp);
    }
  }

  /** The map of filed keys has, for each fingerprint, the last key item filed under it. */
  lemma {:induction false} FiledKeys(b: Bundle, fp: string)
    ensures var keys := KeysByFp(ItemsWith(b.items, {KeyRole}));
            && (fp in keys <==> exists k: nat :: IsKeyFor(b, fp, k))
            && (forall k: nat :: FiledKey(b, fp, k) ==> fp in keys && keys[fp] == b.items[k].text)
  {
    var ix := ItemsAt(b.items, {KeyRole});
    var items := ItemsWith(b.items, {KeyRole});
    KeysByFpIn(items, fp);
    hide KeysByFp, ItemsWith;
    if fp in KeysByFp(items) {
      var p :| 0 <= p < |items| && Files(items[p], fp);
      assert ix[p] in ix && IsKeyFor(b, fp, ix[p]);
    }
    if k: nat :| IsKeyFor(b, fp, k) {
      assert k in ix;
      var p :| 0 <= p < |ix| && ix[p] == k;
      assert Files(items[p], fp);
    }
    forall k: nat | FiledKey(b, fp, k) ensures fp in KeysByFp(items) && KeysByFp(items)[fp] == b.items[k].text {
      assert k in ix;
      var p :| 0 <= p < |ix| && ix[p] == k;
      forall j | p < j < |items| ensures !Files(items[j], fp) {
        assert ix[j] in ix && ix[p] < ix[j] && !IsKeyFor(b, fp, ix[j]);
      }
      KeysByFpLast(items, fp, p);
    }
  }

  /** With every recorded fingerprint its own, the inserts bring just the filed key of a
      recorded certificate. */
  lemma {:induction false} SubtreeBrings(x: X509, b: Bundle, fp: string, key: string)
    requires b.kind == SubtreeBundle
    requires var steps := SubtreePlan(b).inserts;
             forall p :: 0 <= p < |steps| && Truthy(steps[p].metaFp) ==> steps[p].metaFp.value == x.fingerprint(steps[p].pem)
    ensures var keys := KeysByFp(ItemsWith(b.items, {KeyRole}));
            Brings(x, SubtreePlan(b).inserts, fp, key) <==> fp != "" && Recorded(x, b, fp) && fp in keys && keys[fp] == key
  {
    var keys := KeysByFp(ItemsWith(b.items, {KeyRole}));
    var steps := SubtreePlan(b).inserts;
    var ix := ItemsAt(b.items, {CertRole, ChildRole});
    hide KeysByFp, ItemsWith;
    if fp != "" && Recorded(x, b, fp) && fp in keys && keys[fp] == key {
      var i: nat :| IsMember(b, i) && x.fingerprint(b.items[i].text) == fp && b.items[i].meta.fingerprint == Some(fp);
      assert i in ix;
      var p :| 0 <= p < |ix| && ix[p] == i;
      assert steps[p] == SubtreeStep(keys, b.items[i]);
    }
    if Brings(x, steps, fp, key) {
      var p :| 0 <= p < |steps| && x.fingerprint(steps[p].pem) == fp && steps[p].key == Some(key);
      assert steps[p] == SubtreeStep(keys, b.items[ix[p]]) && ix[p] in ix && IsMember(b, ix[p]);
    }
  }

  /** After a successful import of a subtree each certificate has the key that is filed under
      its recorded fingerprint, unless another one was there to be kept. */
  lemma {:induction false} SubtreeKeysKept(x: X509, s: Store, b: Bundle, opts: ImportOptions, fp: string)
    requires ValidStore(s) && b.kind == SubtreeBundle && Import(x, s, b, opts).Ok?
    ensures SubtreeKeyKept(x, s, Import(x, s, b, opts).value, b, opts, fp)
  {
    var plan := SubtreePlan(b);
    var mid, n := RunInserts(x, s, plan.inserts, opts.overwriteKey).value, Import(x, s, b, opts).value;
    hide RunInserts, RunLinks, KeysByFp, ItemsWith, FindByFingerprint, ValidStore, KeyOutcome, Brings;
    PlanKeysAgree(x, s, b, opts, plan);
    StepsKey(x, s, plan.inserts, opts.overwriteKey, fp);
    FoundAfterLinks(mid.rows, plan.links, fp);
    forall p | 0 <= p < |plan.inserts| && Truthy(plan.inserts[p].metaFp) ensures plan.inserts[p].metaFp.value == x.fingerprint(plan.inserts[p].pem) {
      RanIntact(x, s, plan.inserts, opts.overwriteKey, p);
    }
    forall key ensures Brings(x, plan.inserts, fp, key) <==>
                       fp != "" && Recorded(x, b, fp) && fp in KeysByFp(ItemsWith(b.items, {KeyRole})) && KeysByFp(ItemsWith(b.items, {KeyRole}))[fp] == key {
      SubtreeBrings(x, b, fp, key);
    }
    FiledKeys(b, fp);
    KeyFromOutcome(x, s, mid, n, b, opts, plan.inserts, fp);
  }

  lemma {:induction false} KeyFromOutcome(x: X509, s: Store, mid: Store, n: Store, b: Bundle, opts: ImportOptions, steps: seq<InsertStep>, fp: string)
    requires KeyOutcome(x, s, mid, steps, opts.overwriteKey, fp)
    requires var keys := KeysByFp(ItemsWith(b.items, {KeyRole}));
             && (forall key :: Brings(x, steps, fp, key) <==> fp != "" && Recorded(x, b, fp) && fp in keys && keys[fp] == key)
             && (fp in keys <==> exists k: nat :: IsKeyFor(b, fp, k))
             && (forall k: nat :: FiledKey(b, fp, k) ==> fp in keys && keys[fp] == b.items[k].text)
    requires FindByFingerprint(n.rows, fp).Some? ==>
               FindByFingerprint(mid.rows, fp).Some? && FindByFingerprint(n.rows, fp).value.keyPem == FindByFingerprint(mid.rows, fp).value.keyPem
    ensures SubtreeKeyKept(x, s, n, b, opts, fp)
  {
    var keys := KeysByFp(ItemsWith(b.items, {KeyRole}));
    hide KeysByFp, ItemsWith, FindByFingerprint, Recorded, Brings;
    forall k: nat | FiledKey(b, fp, k) && Recorded(x, b, fp) ensures Brings(x, steps, fp, b.items[k].text) {}
    if !Recorded(x, b, fp) || (forall k: nat :: !IsKeyFor(b, fp, k)) {
      forall key ensures !Brings(x, steps, fp, key) {}
    }
  }

  // ---- failures ----

  /** What is wrong with an item: its recorded fingerprint is not its own, or it is not in the
      store and does not parse. Names that run out are not told apart. */
  ghost predicate IsFaulty(x: X509, s: Store, e: ImportError, text: string, recorded: Option<string>) {
    match e
    case IntegrityFailed => recorded.Some? && recorded.value != "" && recorded.value != x.fingerprint(text)
    case Unparseable => x.parse(text).None? && FindByFingerprint(s.rows, x.fingerprint(text)).None?
    case NoFreeName => true
    case NoCertItem => false
  }

  lemma {:induction false} StepsFault(x: X509, s: Store, steps: seq<InsertStep>, overwrite: bool) returns (k: nat)
    requires ValidStore(s) && RunInserts(x, s, steps, overwrite).Err?
    ensures k < |steps| && IsFaulty(x, s, RunInserts(x, s, steps, overwrite).error, steps[k].pem, steps[k].metaFp)
  {
    hide ValidStore, UniqueName;
    var init, st := steps[..|steps| - 1], steps[|steps| - 1];
    if RunInserts(x, s, init, overwrite).Err? {
      k := StepsFault(x, s, init, overwrite);
      assert init[k] == steps[k];
    } else {
      k := |steps| - 1;
      var fp := x.fingerprint(st.pem);
      if FindByFingerprint(RunInserts(x, s, init, overwrite).value.rows, fp).None? { NothingBrought(x, s, init, overwrite, fp); }
    }
  }

  /** An import that fails has a reason in the bundle: no certificate to import, or an item that
      is to be inserted and is faulty. */
  lemma {:induction false} ImportFailure(x: X509, s: Store, b: Bundle, opts: ImportOptions)
    requires ValidStore(s) && Import(x, s, b, opts).Err?
    ensures var e := Import(x, s, b, opts).error;
            if e == NoCertItem then b.kind != SubtreeBundle && forall i :: i in b.items ==> i.role != CertRole
            else exists i :: i in b.items && i.role != KeyRole && IsFaulty(x, s, e, i.text, i.meta.fingerprint)
  {
    FirstWithIs(b.items, CertRole);
    hide RunInserts, RunLinks, ValidStore, KeysByFp, ItemsWith, FindByFingerprint, IsFaulty;
    if PlanOf(x, b, opts).Some? {
      var plan := PlanOf(x, b, opts).value;
      var k := StepsFault(x, s, plan.inserts, opts.overwriteKey);
      FaultIsReason(x, s, Import(x, s, b, opts).error, plan.inserts[k]);
      var it := StepItem(x, b, opts, plan, k);
      assert IsFaulty(x, s, Import(x, s, b, opts).error, it.text, it.meta.fingerprint);
    }
  }

  lemma {:induction false} FaultIsReason(x: X509, s: Store, e: ImportError, st: InsertStep)
    requires IsFaulty(x, s, e, st.pem, st.metaFp)
    ensures e != NoCertItem
  {}

  lemma {:induction false} StepItem(x: X509, b: Bundle, opts: ImportOptions, plan: Plan, k: nat) returns (it: Item)
    requires PlanOf(x, b, opts) == Some(plan) && k < |plan.inserts|
    ensures it in b.items && it.role != KeyRole && it.text == plan.inserts[k].pem && it.meta.fingerprint == plan.inserts[k].metaFp
  {
    ItemsWithAre(b.items, MemberRoles(b));
    FirstInItems(b.items, CertRole);
    hide KeysByFp, ItemsWith, FirstWith;
    var members := ItemsWith(b.items, MemberRoles(b));
    it := if k < |members| then members[k] else FirstWith(b.items, CertRole).value;
    if k < |members| { assert members[k] in members; }
  }

  lemma {:induction false} FirstInItems(items: seq<Item>, role: Role)
    ensures FirstWith(items, role).Some? ==> FirstWith(items, role).value in items && FirstWith(items, role).value.role == role
  {
    if items != [] { FirstInItems(items[1..], role); }
  }
}
