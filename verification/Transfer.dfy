/** Moving certificates between contexts: src/transfer/repoBridge.ts. */
module Transfer {
  import opened Wrappers
  import opened Names
  import opened Certificates
  import opened IssuerGraph

  // ---- bundles ----

  datatype Role = CertRole | KeyRole | ParentRole | ChildRole

  datatype ItemMeta = ItemMeta(name: Option<string>, kind: Option<CertType>, fingerprint: Option<string>,
                               issuerFingerprint: Option<string>)

  /** `text` is the decoded PEM. An item without meta has None everywhere. */
  datatype Item = Item(role: Role, text: string, meta: ItemMeta)

  datatype BundleKind = LeafBundle | CaBundle | SubtreeBundle

  datatype Bundle = Bundle(kind: BundleKind, name: string, items: seq<Item>, issuerFingerprint: Option<string>)

  datatype ImportOptions = ImportOptions(rename: Option<string>, overwriteKey: bool)

  datatype ImportError = NoCertItem | IntegrityFailed | Unparseable | NoFreeName

  const NO_META := ItemMeta(None, None, None, None)

  function OrElse<T>(o: Option<T>, fallback: T): T {
    if o.Some? then o.value else fallback
  }

  function ItemsWith(items: seq<Item>, roles: set<Role>): (r: seq<Item>) {
    if items == [] then []
    else
      var last := items[|items| - 1];
      ItemsWith(items[..|items| - 1], roles) + (if last.role in roles then [last] else [])
  }

  /** items.find(i => i.role === role) */
  function FirstWith(items: seq<Item>, role: Role): Option<Item> {
    if items == [] then None else if items[0].role == role then Some(items[0]) else FirstWith(items[1..], role)
  }

  // ---- names ----

  function NameFrom(t: Table, suggested: string, i: nat): (r: Option<string>)
    requires i <= 10000
    ensures r.Some? ==> FindByName(t, r.value).None?
    decreases 10000 - i
  {
    if i == 10000 then None
    else if FindByName(t, suggested + "-" + Decimal(i)).None? then Some(suggested + "-" + Decimal(i))
    else NameFrom(t, suggested, i + 1)
  }

  /** The suggested name if it is free, else the first free one of name-2, ..., name-9999. */
  function UniqueName(t: Table, suggested: string): (r: Option<string>)
    ensures r.Some? ==> FindByName(t, r.value).None?
    ensures FindByName(t, suggested).None? ==> r == Some(suggested)
  {
    if FindByName(t, suggested).None? then Some(suggested) else NameFrom(t, suggested, 2)
  }

  method FreeName(repo: CertRepo, suggested: string) returns (r: Option<string>)
    ensures r == UniqueName(repo.rows, suggested)
  {
    if FindByName(repo.rows, suggested).None? { return Some(suggested); }
    var i := 2;
    while i < 10000
      invariant 2 <= i <= 10000
      invariant UniqueName(repo.rows, suggested) == NameFrom(repo.rows, suggested, i)
    {
      var n := suggested + "-" + Decimal(i);
      if FindByName(repo.rows, n).None? { return Some(n); }
      i := i + 1;
    }
    r := None;
  }

  // ---- what an import does, as a sequence of inserts and links ----

  /** One certificate to insert or merge. */
  datatype InsertStep = InsertStep(pem: string, metaFp: Option<string>, name: string, kind: CertType, key: Option<string>)

  /** Make the row with fingerprint `issuer` the issuer of the row with fingerprint `child`. */
  datatype LinkStep = LinkStep(child: Option<string>, issuer: Option<string>)

  datatype Plan = Plan(inserts: seq<InsertStep>, links: seq<LinkStep>)

  function NewRow(id: nat, st: InsertStep, meta: DerivedMeta): CertRow {
    WithMeta(CertRow(id, "", st.kind, "", None, None, "", "", "", None, st.pem, OrElse(st.key, ""), "", None, None), meta)
  }

  function InsertOne(x: X509, s: Store, st: InsertStep, overwrite: bool): Result<Store, ImportError> {
    var fp := x.fingerprint(st.pem);
    if Truthy(st.metaFp) && st.metaFp.value != fp then Err(IntegrityFailed)
    else
      match FindByFingerprint(s.rows, fp)
      case Some(row) =>
        if st.key.Some? && (row.keyPem == "" || overwrite) then Ok(s.(rows := UpdateKey(s.rows, row.id, st.key.value)))
        else Ok(s)
      case None =>
        var meta, name := Derive(x, st.pem), UniqueName(s.rows, st.name);
        if meta.None? then Err(Unparseable)
        else if name.None? then Err(NoFreeName)
        else Ok(Store(s.rows + [NewRow(s.nextId, st, meta.value).(name := name.value)], s.nextId + 1))
  }

  function RunInserts(x: X509, s: Store, steps: seq<InsertStep>, overwrite: bool): Result<Store, ImportError> {
    if steps == [] then Ok(s)
    else
      var r := RunInserts(x, s, steps[..|steps| - 1], overwrite);
      if r.Err? then r else InsertOne(x, r.value, steps[|steps| - 1], overwrite)
  }

  predicate Effective(t: Table, l: LinkStep) {
    && l.child.Some? && Truthy(l.issuer)
    && FindByFingerprint(t, l.child.value).Some? && FindByFingerprint(t, l.issuer.value).Some?
  }

  function LinkOne(t: Table, l: LinkStep): Table {
    if !Effective(t, l) then t
    else RelinkIssuer(t, FindByFingerprint(t, l.child.value).value.id, Some(FindByFingerprint(t, l.issuer.value).value.id))
  }

  function RunLinks(t: Table, links: seq<LinkStep>): Table {
    if links == [] then t else LinkOne(RunLinks(t, links[..|links| - 1]), links[|links| - 1])
  }

  function NonEmpty(s: Option<string>): Option<string> {
    if Truthy(s) then s else None
  }

  function ParentStep(p: Item): InsertStep {
    InsertStep(p.text, p.meta.fingerprint, OrElse(p.meta.name, "imported-ca"), Ca, None)
  }

  function MetaLink(i: Item): LinkStep {
    LinkStep(NonEmpty(i.meta.fingerprint), i.meta.issuerFingerprint)
  }

  function PrimaryStep(b: Bundle, opts: ImportOptions, cert: Item): InsertStep {
    var key := FirstWith(b.items, KeyRole);
    InsertStep(cert.text, cert.meta.fingerprint, OrElse(opts.rename, b.name),
               if b.kind.CaBundle? then Ca else OrElse(cert.meta.kind, ServerCert),
               if key.Some? then Some(key.value.text) else None)
  }

  function PrimaryLink(x: X509, b: Bundle, cert: Item): LinkStep {
    LinkStep(Some(x.fingerprint(cert.text)),
             if cert.meta.issuerFingerprint.Some? then cert.meta.issuerFingerprint else b.issuerFingerprint)
  }

  function ParentSteps(ps: seq<Item>): (r: seq<InsertStep>)
    ensures |r| == |ps| && forall i :: 0 <= i < |ps| ==> r[i] == ParentStep(ps[i])
  {
    seq(|ps|, i requires 0 <= i < |ps| => ParentStep(ps[i]))
  }

  function MetaLinks(items: seq<Item>): (r: seq<LinkStep>)
    ensures |r| == |items| && forall i :: 0 <= i < |items| ==> r[i] == MetaLink(items[i])
  {
    seq(|items|, i requires 0 <= i < |items| => MetaLink(items[i]))
  }

  function LeafPlan(x: X509, b: Bundle, opts: ImportOptions): Option<Plan> {
    match FirstWith(b.items, CertRole)
    case None => None
    case Some(cert) =>
      var parents := ItemsWith(b.items, {ParentRole});
      Some(Plan(ParentSteps(parents) + [PrimaryStep(b, opts, cert)], [PrimaryLink(x, b, cert)] + MetaLinks(parents)))
  }

  /** The last key item of each fingerprint. */
  function KeysByFp(items: seq<Item>): map<string, string> {
    if items == [] then map[]
    else
      var keys, last := KeysByFp(items[..|items| - 1]), items[|items| - 1];
      if Truthy(last.meta.fingerprint) then keys[last.meta.fingerprint.value := last.text] else keys
  }

  function SubtreeStep(keys: map<string, string>, ci: Item): InsertStep {
    var fp := ci.meta.fingerprint;
    InsertStep(ci.text, fp, OrElse(ci.meta.name, "imported"), OrElse(ci.meta.kind, ServerCert),
               if Truthy(fp) && fp.value in keys then Some(keys[fp.value]) else None)
  }

  function SubtreeSteps(keys: map<string, string>, cis: seq<Item>): (r: seq<InsertStep>)
    ensures |r| == |cis| && forall i :: 0 <= i < |cis| ==> r[i] == SubtreeStep(keys, cis[i])
  {
    seq(|cis|, i requires 0 <= i < |cis| => SubtreeStep(keys, cis[i]))
  }

  function SubtreePlan(b: Bundle): Plan {
    var cis := ItemsWith(b.items, {CertRole, ChildRole});
    Plan(SubtreeSteps(KeysByFp(ItemsWith(b.items, {KeyRole})), cis), MetaLinks(cis))
  }

  function PlanOf(x: X509, b: Bundle, opts: ImportOptions): Option<Plan> {
    if b.kind.SubtreeBundle? then Some(SubtreePlan(b)) else LeafPlan(x, b, opts)
  }

  function RunPlan(x: X509, s: Store, p: Plan, overwrite: bool): Result<Store, ImportError> {
    var r := RunInserts(x, s, p.inserts, overwrite);
    if r.Err? then r else Ok(r.value.(rows := RunLinks(r.value.rows, p.links)))
  }

  /** The effect of importBundle on the certificate store. */
  function Import(x: X509, s: Store, b: Bundle, opts: ImportOptions): Result<Store, ImportError> {
    match PlanOf(x, b, opts)
    case None => Err(NoCertItem)
    case Some(plan) => RunPlan(x, s, plan, opts.overwriteKey)
  }

  // ---- the import as it runs ----

  lemma {:induction false} FindAppended(t: Table, row: CertRow, fp: string)
    ensures FindByFingerprint(t + [row], fp) ==
            if FindByFingerprint(t, fp).Some? then FindByFingerprint(t, fp)
            else if row.fingerprint == fp then Some(row) else None
  {
    if t != [] {
      assert (t + [row])[1..] == t[1..] + [row];
      FindAppended(t[1..], row, fp);
    }
  }

  /** insertCertItem: the id of the row that now holds the certificate. */
  method InsertCertItem(x: X509, repo: CertRepo, st: InsertStep, overwrite: bool) returns (r: Result<nat, ImportError>)
    requires repo.Valid()
    modifies repo
    ensures repo.Valid()
    ensures var spec := InsertOne(x, old(StoreOf(repo)), st, overwrite);
            if spec.Err? then r == Err(spec.error) && StoreOf(repo) == old(StoreOf(repo))
            else r.Ok? && StoreOf(repo) == spec.value
    ensures r.Ok? ==> var row := FindByFingerprint(repo.rows, x.fingerprint(st.pem)); row.Some? && row.value.id == r.value
  {
    var fp := x.fingerprint(st.pem);
    if Truthy(st.metaFp) && st.metaFp.value != fp { return Err(IntegrityFailed); }
    var existing := FindByFingerprint(repo.rows, fp);
    if existing.Some? {
      if st.key.Some? && (existing.value.keyPem == "" || overwrite) {
        ghost var before := repo.rows;
        repo.SetKey(existing.value.id, st.key.value);
        FindKept(before, repo.rows, fp);
      }
      return Ok(existing.value.id);
    }
    var meta := Derive(x, st.pem);
    if meta.None? { return Err(Unparseable); }
    var name := FreeName(repo, st.name);
    if name.None? { return Err(NoFreeName); }
    var row := NewRow(repo.nextId, st, meta.value).(name := name.value);
    var id := repo.Insert(row);
    r := Ok(id.value);
  }

  /** Tables that agree on ids and fingerprints find the same row. */
  lemma {:induction false} FindKept(t: Table, n: Table, fp: string)
    requires |n| == |t| && forall i :: 0 <= i < |t| ==> n[i].id == t[i].id && n[i].fingerprint == t[i].fingerprint
    ensures FindByFingerprint(n, fp).Some? <==> FindByFingerprint(t, fp).Some?
    ensures FindByFingerprint(n, fp).Some? ==> FindByFingerprint(n, fp).value.id == FindByFingerprint(t, fp).value.id
  {
    if t != [] { FindKept(t[1..], n[1..], fp); }
  }

  /** A subtree import leaves alone a link that is already as wanted. */
  method Relink(repo: CertRepo, l: LinkStep, onlyIfChanged: bool)
    requires repo.Valid()
    modifies repo
    ensures repo.Valid() && repo.nextId == old(repo.nextId) && repo.rows == LinkOne(old(repo.rows), l)
  {
    if l.child.None? || !Truthy(l.issuer) { return; }
    var child := FindByFingerprint(repo.rows, l.child.value);
    if child.None? { return; }
    var issuer := FindByFingerprint(repo.rows, l.issuer.value);
    if issuer.None? { return; }
    if onlyIfChanged && child.value.issuerId == Some(issuer.value.id) {
      return;
    }
    repo.Relink(child.value.id, Some(issuer.value.id));
  }

  /** A failed insert decides the outcome of the whole sequence. */
  lemma {:induction false} InsertsStep(x: X509, s: Store, steps: seq<InsertStep>, k: nat, overwrite: bool)
    requires k < |steps|
    ensures var r := RunInserts(x, s, steps[..k], overwrite);
            RunInserts(x, s, steps[..k + 1], overwrite) == if r.Err? then r else InsertOne(x, r.value, steps[k], overwrite)
    ensures RunInserts(x, s, steps[..k + 1], overwrite).Err? ==>
              RunInserts(x, s, steps, overwrite) == RunInserts(x, s, steps[..k + 1], overwrite)
    decreases |steps| - k
  {
    hide InsertOne;
    assert steps[..k + 1][..k] == steps[..k];
    if k + 1 < |steps| {
      InsertsStep(x, s, steps, k + 1, overwrite);
    } else {
      assert steps[..k + 1] == steps;
    }
  }

  method InsertAll(x: X509, repo: CertRepo, steps: seq<InsertStep>, overwrite: bool) returns (r: Result<(), ImportError>)
    requires repo.Valid()
    modifies repo
    ensures repo.Valid()
    ensures var spec := RunInserts(x, old(StoreOf(repo)), steps, overwrite);
            if spec.Err? then r == Err(spec.error) else r.Ok? && StoreOf(repo) == spec.value
  {
    hide InsertOne;
    for k := 0 to |steps|
      invariant repo.Valid()
      invariant RunInserts(x, old(StoreOf(repo)), steps[..k], overwrite) == Ok(StoreOf(repo))
    {
      InsertsStep(x, old(StoreOf(repo)), steps, k, overwrite);
      var id := InsertCertItem(x, repo, steps[k], overwrite);
      if id.Err? { return Err(id.error); }
    }
    assert steps[..|steps|] == steps;
    r := Ok(());
  }

  method LinkAll(repo: CertRepo, links: seq<LinkStep>, onlyIfChanged: bool)
    requires repo.Valid()
    modifies repo
    ensures repo.Valid() && repo.nextId == old(repo.nextId) && repo.rows == RunLinks(old(repo.rows), links)
  {
    hide LinkOne;
    for k := 0 to |links|
      invariant repo.Valid() && repo.nextId == old(repo.nextId)
      invariant repo.rows == RunLinks(old(repo.rows), links[..k])
    {
      assert links[..k + 1][..k] == links[..k];
      Relink(repo, links[k], onlyIfChanged);
    }
    assert links[..|links|] == links;
  }

  lemma {:induction false} RunLinksCons(t: Table, l: LinkStep, links: seq<LinkStep>)
    ensures RunLinks(t, [l] + links) == RunLinks(LinkOne(t, l), links)
  {
    hide LinkOne;
    if links == [] {
      assert ([l] + links)[..0] == [];
    } else {
      assert ([l] + links)[..|links|] == [l] + links[..|links| - 1];
      RunLinksCons(t, l, links[..|links| - 1]);
    }
  }

  /** importLeafOrCa: parents first, then the certificate, then the links. */
  method ImportLeafOrCa(x: X509, repo: CertRepo, b: Bundle, opts: ImportOptions) returns (r: Result<(), ImportError>)
    requires repo.Valid()
    modifies repo
    ensures repo.Valid()
    ensures match LeafPlan(x, b, opts)
            case None => r == Err(NoCertItem)
            case Some(plan) =>
              var spec := RunPlan(x, old(StoreOf(repo)), plan, opts.overwriteKey);
              if spec.Err? then r == Err(spec.error) else r.Ok? && StoreOf(repo) == spec.value
  {
    hide InsertOne;
    var cert := FirstWith(b.items, CertRole);
    if cert.None? { return Err(NoCertItem); }
    var parents := ItemsWith(b.items, {ParentRole});
    ghost var plan := LeafPlan(x, b, opts).value;
    assert plan.inserts[..|parents|] == ParentSteps(parents);
    r := InsertAll(x, repo, ParentSteps(parents), opts.overwriteKey);
    if r.Err? { return; }
    var inserted := InsertCertItem(x, repo, PrimaryStep(b, opts, cert.value), opts.overwriteKey);
    if inserted.Err? { return Err(inserted.error); }
    var link := PrimaryLink(x, b, cert.value);
    ghost var rows := repo.rows;
    if Truthy(link.issuer) {
      var issuer := FindByFingerprint(repo.rows, link.issuer.value);
      if issuer.Some? { repo.Relink(inserted.value, Some(issuer.value.id)); }
    }
    assert repo.rows == LinkOne(rows, link);
    LinkAll(repo, MetaLinks(parents), false);
    RunLinksCons(rows, link, MetaLinks(parents));
  }

  /** importSubtree: certificates with their keys first, then the links. */
  method ImportSubtree(x: X509, repo: CertRepo, b: Bundle, opts: ImportOptions) returns (r: Result<(), ImportError>)
    requires repo.Valid()
    modifies repo
    ensures repo.Valid()
    ensures var spec := RunPlan(x, old(StoreOf(repo)), SubtreePlan(b), opts.overwriteKey);
            if spec.Err? then r == Err(spec.error) else r.Ok? && StoreOf(repo) == spec.value
  {
    var certItems := ItemsWith(b.items, {CertRole, ChildRole});
    var keyItems := ItemsWith(b.items, {KeyRole});
    var keysByFp: map<string, string> := map[];
    for k := 0 to |keyItems|
      invariant keysByFp == KeysByFp(keyItems[..k])
    {
      assert keyItems[..k + 1][..k] == keyItems[..k];
      var fp := keyItems[k].meta.fingerprint;
      if Truthy(fp) { keysByFp := keysByFp[fp.value := keyItems[k].text]; }
    }
    assert keyItems[..|keyItems|] == keyItems;
    r := InsertAll(x, repo, SubtreeSteps(keysByFp, certItems), opts.overwriteKey);
    if r.Ok? { LinkAll(repo, MetaLinks(certItems), true); }
  }

  /** importBundle runs in a transaction: when it throws, the store is as it was. */
  method ImportBundle(x: X509, repo: CertRepo, b: Bundle, opts: ImportOptions) returns (r: Result<(), ImportError>)
    requires repo.Valid()
    modifies repo
    ensures repo.Valid()
    ensures var spec := Import(x, old(StoreOf(repo)), b, opts);
            if spec.Err? then r == Err(spec.error) && StoreOf(repo) == old(StoreOf(repo))
            else r.Ok? && StoreOf(repo) == spec.value
  {
    hide RunPlan, LeafPlan, SubtreePlan;
    var rows, nextId := repo.rows, repo.nextId;
    if b.kind.SubtreeBundle? {
      r := ImportSubtree(x, repo, b, opts);
    } else {
      r := ImportLeafOrCa(x, repo, b, opts);
    }
    if r.Err? {
      repo.rows, repo.nextId := rows, nextId;
    }
  }

  // ---- the names that are given ----

  predicate Numbered(t: Table, suggested: string, i: nat) {
    FindByName(t, suggested + "-" + Decimal(i)).Some?
  }

  lemma {:induction false} NameFromIs(t: Table, suggested: string, from: nat, i: nat)
    requires from <= i <= 10000 && (i < 10000 ==> !Numbered(t, suggested, i)) && forall j :: from <= j < i ==> Numbered(t, suggested, j)
    ensures NameFrom(t, suggested, from) == if i < 10000 then Some(suggested + "-" + Decimal(i)) else None
    decreases i - from
  {
    hide Decimal, FindByName;
    if from < i {
      assert Numbered(t, suggested, from);
      NameFromIs(t, suggested, from + 1, i);
    }
  }

  /** The suggested name is taken: the first number from 2 to 9999 that gives a free name is
      appended, and there is no name if there is none. */
  lemma {:induction false} TakenNameNumbered(t: Table, suggested: string, i: nat)
    requires FindByName(t, suggested).Some? && 2 <= i <= 10000
    requires (i < 10000 ==> !Numbered(t, suggested, i)) && forall j :: 2 <= j < i ==> Numbered(t, suggested, j)
    ensures UniqueName(t, suggested) == if i < 10000 then Some(suggested + "-" + Decimal(i)) else None
  {
    NameFromIs(t, suggested, 2, i);
  }
}
