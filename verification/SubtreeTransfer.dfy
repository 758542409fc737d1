/** Exporting a CA subtree and importing it elsewhere: src/transfer/repoBridge.ts. */
module SubtreeTransfer {
  import opened Wrappers
  import opened Certificates
  import opened IssuerGraph
  import opened Transfer
  import opened ImportLaws

  // ---- export ----

  datatype ExportError = NotFound | NotCa

  function IssuerFp(t: Table, m: CertRow): Option<string> {
    if m.issuerId.None? then None
    else
      var issuer := FindById(t, m.issuerId.value);
      if issuer.Some? then Some(issuer.value.fingerprint) else None
  }

  function CertItemOf(t: Table, m: CertRow, root: bool): Item {
    Item(if root then CertRole else ChildRole, m.certPem,
         ItemMeta(Some(m.name), Some(m.kind), Some(m.fingerprint), if root then None else IssuerFp(t, m)))
  }

  function KeyItemsOf(m: CertRow): seq<Item> {
    if m.keyPem == "" then [] else [Item(KeyRole, m.keyPem, NO_META.(fingerprint := Some(m.fingerprint)))]
  }

  /** Each member's certificate item, then its key item if it has a key; the root comes first. */
  function SubtreeItems(t: Table, members: seq<CertRow>): seq<Item> {
    if members == [] then []
    else
      var last := members[|members| - 1];
      SubtreeItems(t, members[..|members| - 1]) + ([CertItemOf(t, last, |members| == 1)] + KeyItemsOf(last))
  }

  function SubtreeBundleOf(t: Table, members: seq<CertRow>): Bundle
    requires members != []
  {
    Bundle(SubtreeBundle, members[0].name, SubtreeItems(t, members), None)
  }

  /** The root followed by everything below it, each once. */
  ghost predicate IsSubtree(t: Table, members: seq<CertRow>, rootId: nat) {
    && members != [] && members[0].id == rootId
    && (forall r :: r in members <==> r in t && (r.id == rootId || Below(t, r, rootId)))
    && forall i, j :: 0 <= i < j < |members| ==> members[i].id != members[j].id
  }

  /** The items: the root's, then those of each descendant. */
  method CollectItems(t: Table, root: CertRow, below: seq<CertRow>) returns (items: seq<Item>)
    ensures items == SubtreeItems(t, [root] + below)
  {
    ghost var members := [root] + below;
    items := [CertItemOf(t, root, true)];
    if root.keyPem != "" { items := items + KeyItemsOf(root); }
    assert members[..1][..0] == [] && members[..1][0] == root;
    assert SubtreeItems(t, members[..1]) == [] + ([CertItemOf(t, root, true)] + KeyItemsOf(root));
    hide CertItemOf;
    for k := 0 to |below|
      invariant items == SubtreeItems(t, members[..k + 1])
    {
      assert members[..k + 2][..k + 1] == members[..k + 1] && members[..k + 2][k + 1] == below[k];
      ghost var before := items;
      items := items + [CertItemOf(t, below[k], false)];
      if below[k].keyPem != "" { items := items + KeyItemsOf(below[k]); }
      assert items == before + ([CertItemOf(t, below[k], false)] + KeyItemsOf(below[k]));
    }
    assert members[..|below| + 1] == members;
  }

  method ExportCertSubtree(t: Table, caId: nat) returns (r: Result<Bundle, ExportError>, ghost members: seq<CertRow>)
    requires UniqueIds(t)
    ensures var root := FindById(t, caId);
            if root.None? then r == Err(NotFound)
            else if root.value.kind != Ca then r == Err(NotCa)
            else members != [] && IsSubtree(t, members, caId) && r == Ok(SubtreeBundleOf(t, members))
    ensures r.Ok? ==> r.value.kind == SubtreeBundle && FindById(t, caId).Some? && r.value.name == FindById(t, caId).value.name
  {
    hide IsSubtree, SubtreeItems, Below;
    members := [];
    var root := FindById(t, caId);
    if root.None? { return Err(NotFound), []; }
    if root.value.kind != Ca { return Err(NotCa), []; }
    var below := DescendantsOf(t, caId);
    var items := CollectItems(t, root.value, below);
    members := [root.value] + below;
    SubtreeFound(t, root.value, below);
    r := Ok(Bundle(SubtreeBundle, root.value.name, items, None));
  }

  lemma {:induction false} SubtreeFound(t: Table, root: CertRow, below: seq<CertRow>)
    requires UniqueIds(t) && FindById(t, root.id) == Some(root)
    requires forall d :: d in below <==> d in t && d.id != root.id && Below(t, d, root.id)
    requires forall i, j :: 0 <= i < j < |below| ==> below[i].id != below[j].id
    ensures IsSubtree(t, [root] + below, root.id)
  {}

  // ---- the items of an exported bundle ----

  /** The certificate item of a member. The root's has the role of the bundle's own certificate
      and names no issuer; the others give the fingerprint of theirs, if it is in the store. */
  ghost predicate IsCertItemOf(t: Table, m: CertRow, root: bool, it: Item) {
    && it.role == (if root then CertRole else ChildRole) && it.text == m.certPem
    && it.meta.name == Some(m.name) && it.meta.kind == Some(m.kind) && it.meta.fingerprint == Some(m.fingerprint)
    && (root || (forall issuer :: issuer in t ==> m.issuerId != Some(issuer.id)) ==> it.meta.issuerFingerprint.None?)
    && (forall issuer :: issuer in t && !root && m.issuerId == Some(issuer.id) ==> it.meta.issuerFingerprint == Some(issuer.fingerprint))
  }

  predicate IsKeyItemOf(m: CertRow, it: Item) {
    m.keyPem != "" && it.role == KeyRole && it.text == m.keyPem && it.meta.fingerprint == Some(m.fingerprint)
  }

  ghost predicate IsItemOf(t: Table, members: seq<CertRow>, i: nat, it: Item) {
    i < |members| && (IsCertItemOf(t, members[i], i == 0, it) || IsKeyItemOf(members[i], it))
  }

  /** Every member's certificate and, if it has one, its key. */
  ghost predicate HasItems(t: Table, members: seq<CertRow>, i: nat, items: seq<Item>)
    requires i < |members|
  {
    && (exists it :: it in items && IsCertItemOf(t, members[i], i == 0, it))
    && (members[i].keyPem != "" ==> exists it :: it in items && IsKeyItemOf(members[i], it))
  }

  lemma {:induction false} OwnItems(t: Table, m: CertRow, root: bool)
    requires UniqueIds(t)
    ensures IsCertItemOf(t, m, root, CertItemOf(t, m, root))
    ensures if m.keyPem == "" then KeyItemsOf(m) == [] else |KeyItemsOf(m)| == 1 && IsKeyItemOf(m, KeyItemsOf(m)[0])
  {
    forall issuer | issuer in t && m.issuerId == Some(issuer.id) ensures FindById(t, issuer.id) == Some(issuer) { FindUnique(t, issuer); }
  }

  /** A bundle begins with the root's certificate, has the certificate and the key of every
      member, and nothing else. */
  lemma {:induction false} ExportedItems(t: Table, members: seq<CertRow>)
    requires UniqueIds(t) && members != []
    ensures var items := SubtreeBundleOf(t, members).items;
            && items != [] && IsCertItemOf(t, members[0], true, items[0])
            && (forall it :: it in items ==> exists i :: IsItemOf(t, members, i, it))
            && (forall i: nat :: i < |members| ==> HasItems(t, members, i, items))
  {
    var init, last := members[..|members| - 1], members[|members| - 1];
    var own, key := CertItemOf(t, last, |members| == 1), KeyItemsOf(last);
    var before, items := SubtreeItems(t, init), SubtreeItems(t, members);
    OwnItems(t, last, |members| == 1);
    assert items == before + ([own] + key);
    assert own in items && forall it :: it in key ==> it in items;
    hide CertItemOf, KeyItemsOf, SubtreeItems, IsCertItemOf, IsKeyItemOf, UniqueIds;
    if init != [] { ExportedItems(t, init); } else { assert before == [] by { assert init == []; } }
    forall it | it in items ensures exists i :: IsItemOf(t, members, i, it) {
      if it in before {
        var i :| IsItemOf(t, init, i, it);
        assert IsItemOf(t, members, i, it);
      } else {
        assert IsItemOf(t, members, |members| - 1, it);
      }
    }
    forall i: nat | i < |members| ensures HasItems(t, members, i, items) {
      if i < |init| {
        assert HasItems(t, init, i, before) && init[i] == members[i];
        HasMore(t, init, members, i, before, [own] + key);
      } else if last.keyPem != "" { assert key[0] in key; }
    }
  }

  lemma {:induction false} HasMore(t: Table, init: seq<CertRow>, members: seq<CertRow>, i: nat, before: seq<Item>, more: seq<Item>)
    requires i < |init| <= |members| && init[i] == members[i] && HasItems(t, init, i, before)
    ensures HasItems(t, members, i, before + more)
  {
    hide IsCertItemOf, IsKeyItemOf;
    var it :| it in before && IsCertItemOf(t, init[i], i == 0, it);
    assert it in before + more;
    if members[i].keyPem != "" {
      var key :| key in before && IsKeyItemOf(init[i], key);
      assert key in before + more;
    }
  }

  // ---- the plan of an exported subtree ----

  lemma {:induction false} ItemsWithConcat(a: seq<Item>, b: seq<Item>, roles: set<Role>)
    ensures ItemsWith(a + b, roles) == ItemsWith(a, roles) + ItemsWith(b, roles)
  {
    if b == [] {
      assert a + b == a;
    } else {
      assert (a + b)[..|a + b| - 1] == a + b[..|b| - 1];
      ItemsWithConcat(a, b[..|b| - 1], roles);
    }
  }

  function CertItemsOf(t: Table, members: seq<CertRow>): (r: seq<Item>)
    ensures |r| == |members|
    ensures forall i :: 0 <= i < |members| ==> r[i] == CertItemOf(t, members[i], i == 0)
  {
    seq(|members|, i requires 0 <= i < |members| => CertItemOf(t, members[i], i == 0))
  }

  lemma {:induction false} MemberItems(t: Table, m: CertRow, root: bool)
    ensures ItemsWith([CertItemOf(t, m, root)] + KeyItemsOf(m), {CertRole, ChildRole}) == [CertItemOf(t, m, root)]
    ensures ItemsWith([CertItemOf(t, m, root)] + KeyItemsOf(m), {KeyRole}) == KeyItemsOf(m)
  {
    ItemsWithConcat([CertItemOf(t, m, root)], KeyItemsOf(m), {CertRole, ChildRole});
    ItemsWithConcat([CertItemOf(t, m, root)], KeyItemsOf(m), {KeyRole});
  }

  lemma {:induction false} SubtreeCertItems(t: Table, members: seq<CertRow>)
    ensures ItemsWith(SubtreeItems(t, members), {CertRole, ChildRole}) == CertItemsOf(t, members)
  {
    hide CertItemOf, KeyItemsOf;
    if members != [] {
      hide ItemsWith;
      var init, last := members[..|members| - 1], members[|members| - 1];
      SubtreeCertItems(t, init);
      MemberItems(t, last, |members| == 1);
      ItemsWithConcat(SubtreeItems(t, init), [CertItemOf(t, last, |members| == 1)] + KeyItemsOf(last), {CertRole, ChildRole});
      assert CertItemsOf(t, members) == CertItemsOf(t, init) + [CertItemOf(t, last, |members| == 1)];
    }
  }

  ghost predicate DistinctFps(members: seq<CertRow>) {
    && (forall i, j :: 0 <= i < j < |members| ==> members[i].fingerprint != members[j].fingerprint)
    && forall i :: 0 <= i < |members| ==> members[i].fingerprint != ""
  }

  /** `keys` holds the keys of the members that have one. */
  ghost predicate KeysFiled(keys: map<string, string>, members: seq<CertRow>) {
    && (forall fp :: fp in keys ==> exists i :: 0 <= i < |members| && members[i].fingerprint == fp)
    && forall i :: 0 <= i < |members| ==> KeyFiled(keys, members[i])
  }

  predicate KeyFiled(keys: map<string, string>, m: CertRow) {
    if m.keyPem == "" then m.fingerprint !in keys
    else m.fingerprint in keys && keys[m.fingerprint] == m.keyPem
  }

  lemma {:induction false} KeyFiledNext(keys: map<string, string>, members: seq<CertRow>)
    requires members != [] && DistinctFps(members) && KeysFiled(keys, members[..|members| - 1])
    ensures var last := members[|members| - 1];
            KeysFiled(if last.keyPem == "" then keys else keys[last.fingerprint := last.keyPem], members)
  {}

  lemma {:induction false} KeysOfOneMore(items: seq<Item>, m: CertRow)
    requires m.fingerprint != ""
    ensures KeysByFp(items + KeyItemsOf(m)) ==
            if m.keyPem == "" then KeysByFp(items) else KeysByFp(items)[m.fingerprint := m.keyPem]
  {
    if m.keyPem == "" {
      assert items + KeyItemsOf(m) == items;
    } else {
      assert (items + KeyItemsOf(m))[..|items|] == items;
    }
  }

  /** The keys that arrive are those of the members that have one. */
  lemma {:induction false} SubtreeKeys(t: Table, members: seq<CertRow>)
    requires DistinctFps(members)
    ensures KeysFiled(KeysByFp(ItemsWith(SubtreeItems(t, members), {KeyRole})), members)
  {
    if members != [] {
      var init, last := members[..|members| - 1], members[|members| - 1];
      var first := ItemsWith(SubtreeItems(t, init), {KeyRole});
      SubtreeKeys(t, init);
      MemberItems(t, last, |members| == 1);
      ItemsWithConcat(SubtreeItems(t, init), [CertItemOf(t, last, |members| == 1)] + KeyItemsOf(last), {KeyRole});
      assert ItemsWith(SubtreeItems(t, members), {KeyRole}) == first + KeyItemsOf(last);
      hide KeysFiled, KeysByFp, ItemsWith, SubtreeItems, KeyItemsOf;
      KeysOfOneMore(first, last);
      KeyFiledNext(KeysByFp(first), members);
    }
  }

  function MemberStep(m: CertRow): InsertStep {
    InsertStep(m.certPem, Some(m.fingerprint), m.name, m.kind, if m.keyPem == "" then None else Some(m.keyPem))
  }

  function MemberSteps(members: seq<CertRow>): (r: seq<InsertStep>)
    ensures |r| == |members| && forall i :: 0 <= i < |members| ==> r[i] == MemberStep(members[i])
  {
    seq(|members|, i requires 0 <= i < |members| => MemberStep(members[i]))
  }

  /** Members as the theorem needs them: distinct, hashed correctly, parseable. */
  ghost predicate Portable(x: X509, members: seq<CertRow>) {
    && (forall i, j :: 0 <= i < j < |members| ==>
          members[i].fingerprint != members[j].fingerprint && members[i].name != members[j].name && members[i].id != members[j].id)
    && forall i :: 0 <= i < |members| ==>
         members[i].fingerprint == x.fingerprint(members[i].certPem) && members[i].fingerprint != "" && x.parse(members[i].certPem).Some?
  }

  /** Any subtree of a context whose columns repeat what the PEMs say meets these needs. */
  lemma {:induction false} ContextIsPortable(x: X509, t: Table, members: seq<CertRow>, rootId: nat)
    requires UniqueIds(t) && UniqueNames(t) && UniqueFingerprints(t) && IsSubtree(t, members, rootId)
    requires forall r :: r in t ==>
               r.fingerprint == x.fingerprint(r.certPem) && r.fingerprint != "" && x.parse(r.certPem).Some?
    ensures Portable(x, members)
  {
    forall i | 0 <= i < |members| ensures members[i] in t { assert members[i] in members; }
    forall i, j | 0 <= i < j < |members|
      ensures members[i].fingerprint != members[j].fingerprint && members[i].name != members[j].name
    {
      var a :| 0 <= a < |t| && t[a] == members[i];
      var b :| 0 <= b < |t| && t[b] == members[j];
      assert a != b;
    }
  }

  lemma {:induction false} SubtreePlanIs(x: X509, t: Table, members: seq<CertRow>)
    requires members != [] && Portable(x, members)
    ensures SubtreePlan(SubtreeBundleOf(t, members)) == Plan(MemberSteps(members), MetaLinks(CertItemsOf(t, members)))
  {
    var b := SubtreeBundleOf(t, members);
    var keys := KeysByFp(ItemsWith(b.items, {KeyRole}));
    SubtreeCertItems(t, members);
    SubtreeKeys(t, members);
    hide KeysByFp, ItemsWith, SubtreeItems;
    var steps := SubtreeSteps(keys, CertItemsOf(t, members));
    forall i | 0 <= i < |members| ensures steps[i] == MemberSteps(members)[i] {
      assert KeyFiled(keys, members[i]);
    }
    assert steps == MemberSteps(members);
  }

  // ---- the inserts ----

  function ImportedRow(x: X509, m: CertRow, id: nat): CertRow
    requires Derive(x, m.certPem).Some?
  {
    NewRow(id, MemberStep(m), Derive(x, m.certPem).value).(name := m.name)
  }

  ghost predicate Parses(x: X509, members: seq<CertRow>) {
    forall i :: 0 <= i < |members| ==> Derive(x, members[i].certPem).Some?
  }

  function ImportedRows(x: X509, members: seq<CertRow>, next: nat): (r: Table)
    requires Parses(x, members)
    ensures |r| == |members| && forall i :: 0 <= i < |members| ==> r[i] == ImportedRow(x, members[i], next + i)
  {
    seq(|members|, i requires 0 <= i < |members| => ImportedRow(x, members[i], next + i))
  }

  lemma {:induction false} PortableParts(x: X509, members: seq<CertRow>)
    requires Portable(x, members)
    ensures Parses(x, members)
    ensures members != [] ==> Portable(x, members[..|members| - 1])
  {}

  lemma {:induction false} RunInsertsSnoc(x: X509, s: Store, steps: seq<InsertStep>, st: InsertStep, overwrite: bool)
    ensures RunInserts(x, s, steps + [st], overwrite) ==
            var r := RunInserts(x, s, steps, overwrite); if r.Err? then r else InsertOne(x, r.value, st, overwrite)
  {}

  lemma {:induction false} LastMember(x: X509, members: seq<CertRow>, next: nat)
    requires members != [] && Parses(x, members)
    ensures var init, last := members[..|members| - 1], members[|members| - 1];
            && MemberSteps(members) == MemberSteps(init) + [MemberStep(last)]
            && ImportedRows(x, members, next) == ImportedRows(x, init, next) + [ImportedRow(x, last, next + |init|)]
  {}

  lemma {:induction false} MembersInserted(x: X509, members: seq<CertRow>, next: nat, overwrite: bool)
    requires Portable(x, members)
    ensures Parses(x, members)
    ensures RunInserts(x, Store([], next), MemberSteps(members), overwrite) ==
            Ok(Store(ImportedRows(x, members, next), next + |members|))
  {
    hide Portable, InsertOne, ImportedRow, MemberStep, RunInserts, ImportedRows, MemberSteps;
    PortableParts(x, members);
    if members == [] {
      NoMembers(x, members, next, overwrite);
    } else {
      var init, last := members[..|members| - 1], members[|members| - 1];
      MembersInserted(x, init, next, overwrite);
      NoClash(x, members, next);
      LastParts(x, members);
      LastMember(x, members, next);
      assert Derive(x, last.certPem).Some?;
      MemberInserted(x, Store(ImportedRows(x, init, next), next + |init|), last, overwrite);
      RunInsertsSnoc(x, Store([], next), MemberSteps(init), MemberStep(last), overwrite);
    }
  }

  lemma {:induction false} NoMembers(x: X509, members: seq<CertRow>, next: nat, overwrite: bool)
    requires members == [] && Parses(x, members)
    ensures RunInserts(x, Store([], next), MemberSteps(members), overwrite) == Ok(Store(ImportedRows(x, members, next), next))
  {}

  lemma {:induction false} LastParts(x: X509, members: seq<CertRow>)
    requires Portable(x, members) && members != []
    ensures var last := members[|members| - 1]; last.fingerprint == x.fingerprint(last.certPem)
  {}

  lemma {:induction false} NoClash(x: X509, members: seq<CertRow>, next: nat)
    requires Portable(x, members) && members != []
    requires Parses(x, members[..|members| - 1])
    ensures var last := members[|members| - 1];
            forall r :: r in ImportedRows(x, members[..|members| - 1], next) ==> r.fingerprint != last.fingerprint && r.name != last.name
  {}

  lemma {:induction false} MemberInserted(x: X509, s: Store, m: CertRow, overwrite: bool)
    requires m.fingerprint == x.fingerprint(m.certPem) && Derive(x, m.certPem).Some?
    requires forall r :: r in s.rows ==> r.fingerprint != m.fingerprint && r.name != m.name
    ensures InsertOne(x, s, MemberStep(m), overwrite) == Ok(Store(s.rows + [ImportedRow(x, m, s.nextId)], s.nextId + 1))
  {}

  // ---- the links ----

  /** Where in the subtree a member's issuer is. */
  lemma {:induction false} ParentIndex(t: Table, members: seq<CertRow>, rootId: nat, i: nat) returns (j: nat)
    requires UniqueIds(t) && IsSubtree(t, members, rootId) && 0 < i < |members|
    ensures j < |members| && members[i].issuerId == Some(members[j].id) && IssuerFp(t, members[i]) == Some(members[j].fingerprint)
    ensures j == 0 || Below(t, members[j], rootId)
  {
    var m := members[i];
    assert m in members && members[0] in members;
    assert m.id != members[0].id;
    var p :| LeadsTo(t, p, m, rootId);
    var parent: CertRow;
    if |p| == 1 {
      FindUnique(t, members[0]);
      parent := members[0];
    } else {
      ChainIn(t, p, 1);
      ChainSuffix(t, p, 1);
      assert LeadsTo(t, p[1..], p[1], rootId);
      parent := p[1];
    }
    assert FindById(t, m.issuerId.value) == Some(parent) && parent in members;
    j :| 0 <= j < |members| && members[j] == parent;
  }

  predicate IsTarget(members: seq<CertRow>, n: Table, i: nat, target: Option<nat>, j: nat)
    requires i < |n| == |members|
  {
    j < |n| && target == Some(n[j].id) && members[i].issuerId == Some(members[j].id)
  }

  ghost predicate HasTarget(members: seq<CertRow>, n: Table, i: nat, target: Option<nat>)
    requires i < |n| == |members|
  {
    exists j :: IsTarget(members, n, i, target, j)
  }

  /** While the links are processed, each one settles its own row. */
  lemma {:induction false} MemberTarget(x: X509, t: Table, members: seq<CertRow>, rootId: nat, n: Table, k: nat, i: nat)
    requires UniqueIds(t) && IsSubtree(t, members, rootId) && Portable(x, members)
    requires |n| == |members| && forall a :: 0 <= a < |n| ==> n[a].fingerprint == members[a].fingerprint
    requires UniqueIds(n) && UniqueFingerprints(n)
    requires k <= |members| && i < |members|
    ensures var target := LinkTarget(n, MetaLinks(CertItemsOf(t, members))[..k], n[i].id);
            if i == 0 || i >= k then target.None?
            else HasTarget(members, n, i, target)
  {
    hide IsSubtree, Portable, LinkTarget, Effective, UniqueFingerprints, CertItemsOf, MetaLinks, HasTarget, FindByFingerprint;
    var links := MetaLinks(CertItemsOf(t, members));
    if k == 0 {
      NoTarget(n, links, n[i].id);
    } else {
      MemberTarget(x, t, members, rootId, n, k - 1, i);
      TargetStep(n, links, k, n[i].id);
      if k == 1 {
        RootLink(t, members, n);
      } else {
        var j := MemberLink(x, t, members, rootId, n, k - 1);
        if k - 1 == i {
          TargetFound(members, n, i, j);
        } else {
          assert n[k - 1].id != n[i].id;
        }
      }
    }
  }

  lemma {:induction false} TargetFound(members: seq<CertRow>, n: Table, i: nat, j: nat)
    requires i < |n| == |members| && j < |n| && members[i].issuerId == Some(members[j].id)
    ensures HasTarget(members, n, i, Some(n[j].id))
  {
    assert IsTarget(members, n, i, Some(n[j].id), j);
  }

  lemma {:induction false} NoTarget(n: Table, links: seq<LinkStep>, id: nat)
    ensures LinkTarget(n, links[..0], id).None?
  {}

  lemma {:induction false} TargetStep(n: Table, links: seq<LinkStep>, k: nat, id: nat)
    requires 0 < k <= |links|
    ensures var l := links[k - 1];
            LinkTarget(n, links[..k], id) ==
            if Effective(n, l) && FindByFingerprint(n, l.child.value).value.id == id
            then Some(FindByFingerprint(n, l.issuer.value).value.id)
            else LinkTarget(n, links[..k - 1], id)
  {
    assert links[..k][..k - 1] == links[..k - 1];
  }

  lemma {:induction false} RootLink(t: Table, members: seq<CertRow>, n: Table)
    requires members != []
    ensures !Effective(n, MetaLinks(CertItemsOf(t, members))[0])
  {}

  /** The link step of a member below the root. */
  lemma {:induction false} MemberLink(x: X509, t: Table, members: seq<CertRow>, rootId: nat, n: Table, i: nat) returns (j: nat)
    requires UniqueIds(t) && IsSubtree(t, members, rootId) && Portable(x, members)
    requires |n| == |members| && forall a :: 0 <= a < |n| ==> n[a].fingerprint == members[a].fingerprint
    requires UniqueFingerprints(n) && 0 < i < |members|
    ensures j < |n| && members[i].issuerId == Some(members[j].id)
    ensures var l := MetaLinks(CertItemsOf(t, members))[i];
            && Effective(n, l)
            && FindByFingerprint(n, l.child.value) == Some(n[i]) && FindByFingerprint(n, l.issuer.value) == Some(n[j])
  {
    j := ParentIndex(t, members, rootId, i);
    hide IsSubtree, UniqueIds, UniqueFingerprints, FindByFingerprint;
    assert members[i].fingerprint != "" && members[j].fingerprint != "";
  }

  // ---- the round trip ----

  /** The same certificates under the same names with the same keys, linked the same way
      except that the root has no issuer. */
  ghost predicate Isomorphic(members: seq<CertRow>, n: Table) {
    && SameColumns(members, n)
    && (forall i :: 0 < i < |n| ==> SameIssuer(members, n, i))
    && (|n| > 0 ==> n[0].issuerId.None?)
  }

  ghost predicate SameColumns(members: seq<CertRow>, n: Table) {
    && |n| == |members|
    && forall i :: 0 <= i < |n| ==>
         && n[i].fingerprint == members[i].fingerprint && n[i].certPem == members[i].certPem
         && n[i].name == members[i].name && n[i].kind == members[i].kind && n[i].keyPem == members[i].keyPem
  }

  /** Row i is issued by the row that stands for the issuer of member i. */
  ghost predicate SameIssuer(members: seq<CertRow>, n: Table, i: nat)
    requires i < |n| == |members|
  {
    && (exists j :: 0 <= j < |n| && n[i].issuerId == Some(n[j].id))
    && forall j :: 0 <= j < |n| ==> (n[i].issuerId == Some(n[j].id) <==> members[i].issuerId == Some(members[j].id))
  }

  /** What the import of an exported subtree into an empty context runs. */
  lemma {:induction false} SubtreeImport(x: X509, t: Table, members: seq<CertRow>, next: nat, opts: ImportOptions)
    requires members != [] && Portable(x, members)
    ensures Import(x, Store([], next), SubtreeBundleOf(t, members), opts) ==
            Ok(Store(RunLinks(MembersAsRows(x, members, next), MetaLinks(CertItemsOf(t, members))), next + |members|))
  {
    hide SubtreePlan, RunInserts, RunLinks, SubtreeItems, ImportedRows, MemberSteps, MetaLinks, CertItemsOf, Portable, Derive;
    SubtreePlanIs(x, t, members);
    MembersInserted(x, members, next, opts.overwriteKey);
    assert PlanOf(x, SubtreeBundleOf(t, members), opts) ==
           Some(Plan(MemberSteps(members), MetaLinks(CertItemsOf(t, members))));
  }

  function MembersAsRows(x: X509, members: seq<CertRow>, next: nat): Table
    requires Portable(x, members)
  {
    PortableParts(x, members);
    ImportedRows(x, members, next)
  }

  lemma {:induction false} MembersAsRowsParts(x: X509, members: seq<CertRow>, next: nat)
    requires Portable(x, members)
    ensures var n := MembersAsRows(x, members, next);
            SameColumns(members, n) && UniqueIds(n) && UniqueFingerprints(n) && forall r :: r in n ==> r.issuerId.None?
  {}

  /** Exporting a CA subtree and importing it into an empty context gives an isomorphic
      store. */
  lemma {:induction false} SubtreeRoundTrip(x: X509, t: Table, members: seq<CertRow>, rootId: nat, next: nat, opts: ImportOptions)
    requires UniqueIds(t) && members != [] && IsSubtree(t, members, rootId) && Portable(x, members)
    ensures var r := Import(x, Store([], next), SubtreeBundleOf(t, members), opts);
            r.Ok? && Isomorphic(members, r.value.rows) && UniqueIds(r.value.rows)
  {
    SubtreeImport(x, t, members, next, opts);
    MembersAsRowsParts(x, members, next);
    hide Import, MembersAsRows;
    MembersLinked(x, t, members, rootId, MembersAsRows(x, members, next));
  }

  lemma {:induction false} MembersLinked(x: X509, t: Table, members: seq<CertRow>, rootId: nat, n: Table)
    requires UniqueIds(t) && members != [] && IsSubtree(t, members, rootId) && Portable(x, members)
    requires SameColumns(members, n) && UniqueIds(n) && UniqueFingerprints(n) && forall r :: r in n ==> r.issuerId.None?
    ensures var rows := RunLinks(n, MetaLinks(CertItemsOf(t, members)));
            Isomorphic(members, rows) && UniqueIds(rows)
  {
    var links := MetaLinks(CertItemsOf(t, members));
    var rows := RunLinks(n, links);
    RunLinksRows(n, links);
    assert links[..|members|] == links;
    hide RunLinks, LinkTarget, MetaLinks, IsSubtree, Portable, UniqueFingerprints, CertItemsOf, SameIssuer;
    ColumnsKept(members, n, rows);
    forall i | 0 < i < |members| ensures SameIssuer(members, rows, i) {
      MemberTarget(x, t, members, rootId, n, |members|, i);
      var j :| IsTarget(members, n, i, LinkTarget(n, links, n[i].id), j);
      OneIssuer(x, members, rows, i, j);
    }
    MemberTarget(x, t, members, rootId, n, |members|, 0);
    assert n[0] in n;
  }

  lemma {:induction false} ColumnsKept(members: seq<CertRow>, n: Table, rows: Table)
    requires SameColumns(members, n) && UniqueIds(n)
    requires |rows| == |n| && forall i :: 0 <= i < |n| ==> rows[i] == n[i].(issuerId := rows[i].issuerId)
    ensures SameColumns(members, rows) && UniqueIds(rows)
  {}

  lemma {:induction false} OneIssuer(x: X509, members: seq<CertRow>, rows: Table, i: nat, j: nat)
    requires Portable(x, members) && UniqueIds(rows) && i < |members| == |rows| && j < |rows|
    requires rows[i].issuerId == Some(rows[j].id) && members[i].issuerId == Some(members[j].id)
    ensures SameIssuer(members, rows, i)
  {}

  /** The imported rows form a tree: every row's issuer links lead to the imported root,
      also when the source's issuer links run in a circle through the exported CA. */
  lemma {:induction false} ImportedTree(t: Table, members: seq<CertRow>, rootId: nat, n: Table, i: nat, p: seq<CertRow>)
    requires UniqueIds(t) && IsSubtree(t, members, rootId) && Isomorphic(members, n) && UniqueIds(n)
    requires 0 < i < |members| && LeadsTo(t, p, members[i], rootId)
    ensures Below(n, n[i], n[0].id)
    decreases |p|
  {
    var j := ParentIndex(t, members, rootId, i);
    assert SameIssuer(members, n, i);
    assert n[i].issuerId == Some(n[j].id);
    if j == 0 {
      ChildIsBelow(n, n[i], n[0].id);
    } else {
      assert members[0] in members && members[j] in members;
      FindUnique(t, members[0]);
      FindUnique(t, members[j]);
      assert members[j].id != rootId;
      assert |p| > 1 && p[1] == members[j];
      ChainSuffix(t, p, 1);
      assert LeadsTo(t, p[1..], members[j], rootId);
      ImportedTree(t, members, rootId, n, j, p[1..]);
      FindUnique(n, n[j]);
      BelowParent(n, n[i], n[j], n[0].id);
    }
  }

  lemma {:induction false} RoundTripIsTree(x: X509, t: Table, members: seq<CertRow>, rootId: nat, next: nat, opts: ImportOptions)
    requires UniqueIds(t) && members != [] && IsSubtree(t, members, rootId) && Portable(x, members)
    ensures var r := Import(x, Store([], next), SubtreeBundleOf(t, members), opts);
            && r.Ok? && r.value.rows != [] && r.value.rows[0].issuerId.None?
            && forall i :: 0 < i < |r.value.rows| ==> Below(r.value.rows, r.value.rows[i], r.value.rows[0].id)
  {
    SubtreeRoundTrip(x, t, members, rootId, next, opts);
    var n := Import(x, Store([], next), SubtreeBundleOf(t, members), opts).value.rows;
    hide Import, SubtreeBundleOf, Portable;
    forall i | 0 < i < |n| ensures Below(n, n[i], n[0].id) {
      assert members[i] in members && members[i].id != rootId;
      var p :| LeadsTo(t, p, members[i], rootId);
      ImportedTree(t, members, rootId, n, i, p);
    }
  }
}
