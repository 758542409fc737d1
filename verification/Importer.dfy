/** Certificates from a PEM or PKCS#12 file: src/certs/importer.ts. */
module Importer {
  import opened Wrappers
  import opened Names
  import opened Certificates
  import opened IssuerGraph

  /** A parsed certificate. `subject` and `issuer` are the DNs as JSON text. */
  datatype ImportedCert = ImportedCert(pem: string, subject: string, issuer: string, meta: DerivedMeta)

  function Fp(c: ImportedCert): string {
    c.meta.fingerprint
  }

  function Fps(certs: seq<ImportedCert>): set<string> {
    set c | c in certs :: Fp(c)
  }

  ghost predicate DistinctFps(certs: seq<ImportedCert>) {
    forall i, j :: 0 <= i < j < |certs| ==> Fp(certs[i]) != Fp(certs[j])
  }

  ghost predicate DistinctSubjects(certs: seq<ImportedCert>) {
    forall i, j :: 0 <= i < j < |certs| ==> certs[i].subject != certs[j].subject
  }

  // ---- orderChain ----

  /** bySubject: the last certificate with this subject. */
  function BySubject(certs: seq<ImportedCert>, subject: string): (r: Option<ImportedCert>)
    ensures r.Some? ==> r.value in certs && r.value.subject == subject
    ensures r.None? ==> forall c :: c in certs ==> c.subject != subject
  {
    if certs == [] then None
    else if certs[|certs| - 1].subject == subject then Some(certs[|certs| - 1])
    else BySubject(certs[..|certs| - 1], subject)
  }

  /** No other certificate of the file names certs[i] as its issuer. */
  predicate IsLeaf(certs: seq<ImportedCert>, i: nat)
    requires i < |certs|
  {
    forall j :: 0 <= j < |certs| && j != i ==> certs[j].issuer != certs[i].subject
  }

  function LeafIndex(certs: seq<ImportedCert>, k: nat): (r: Option<nat>)
    requires k <= |certs|
    ensures r.Some? ==> k <= r.value < |certs| && IsLeaf(certs, r.value) && forall i :: k <= i < r.value ==> !IsLeaf(certs, i)
    ensures r.None? ==> forall i :: k <= i < |certs| ==> !IsLeaf(certs, i)
    decreases |certs| - k
  {
    if k == |certs| then None else if IsLeaf(certs, k) then Some(k) else LeafIndex(certs, k + 1)
  }

  /** The issuers above `cur`, until one is missing or was met before. */
  function Climb(certs: seq<ImportedCert>, cur: ImportedCert, seen: set<string>): seq<ImportedCert>
    decreases Fps(certs) - seen
  {
    var issuer := BySubject(certs, cur.issuer);
    if issuer.None? || Fp(issuer.value) in seen then []
    else [issuer.value] + Climb(certs, issuer.value, seen + {Fp(issuer.value)})
  }

  function Unseen(certs: seq<ImportedCert>, seen: set<string>): seq<ImportedCert> {
    if certs == [] then []
    else
      var last := certs[|certs| - 1];
      Unseen(certs[..|certs| - 1], seen) + (if Fp(last) in seen then [] else [last])
  }

  function Leaf(certs: seq<ImportedCert>): ImportedCert
    requires certs != []
  {
    var leaf := LeafIndex(certs, 0);
    if leaf.Some? then certs[leaf.value] else certs[0]
  }

  function Ordered(certs: seq<ImportedCert>): seq<ImportedCert> {
    if |certs| <= 1 then certs
    else
      var leaf := Leaf(certs);
      var chain := [leaf] + Climb(certs, leaf, {Fp(leaf)});
      chain + Unseen(certs, Fps(chain))
  }

  method FindLeaf(certs: seq<ImportedCert>) returns (leaf: ImportedCert)
    requires certs != []
    ensures leaf == Leaf(certs)
  {
    var i := 0;
    while i < |certs|
      invariant i <= |certs| && LeafIndex(certs, 0) == LeafIndex(certs, i)
    {
      if IsLeaf(certs, i) { return certs[i]; }
      i := i + 1;
    }
    leaf := certs[0];
  }

  method IndexBySubject(certs: seq<ImportedCert>) returns (bySubject: map<string, ImportedCert>)
    ensures forall s :: (s in bySubject <==> BySubject(certs, s).Some?)
    ensures forall s :: s in bySubject ==> BySubject(certs, s) == Some(bySubject[s])
  {
    bySubject := map[];
    for k := 0 to |certs|
      invariant forall s :: (s in bySubject <==> BySubject(certs[..k], s).Some?)
      invariant forall s :: s in bySubject ==> BySubject(certs[..k], s) == Some(bySubject[s])
    {
      assert certs[..k + 1][..k] == certs[..k];
      bySubject := bySubject[certs[k].subject := certs[k]];
    }
    assert certs[..|certs|] == certs;
  }

  /** orderChain terminates on every input, also on issuer cycles. */
  method OrderChain(certs: seq<ImportedCert>) returns (ordered: seq<ImportedCert>)
    ensures ordered == Ordered(certs)
  {
    if |certs| <= 1 { return certs; }
    var bySubject := IndexBySubject(certs);
    var leaf := FindLeaf(certs);
    ordered := [leaf];
    var cur := leaf;
    var seen := {Fp(leaf)};
    assert Fps(ordered) == seen;
    hide Fps, BySubject, LeafIndex, Unseen;
    while true
      invariant seen == Fps(ordered)
      invariant [leaf] + Climb(certs, leaf, {Fp(leaf)}) == ordered + Climb(certs, cur, seen)
      decreases Fps(certs) - seen
    {
      if cur.issuer !in bySubject { break; }
      var issuer := bySubject[cur.issuer];
      if Fp(issuer) in seen { break; }
      FpsHas(certs, issuer);
      assert ordered + ([issuer] + Climb(certs, issuer, seen + {Fp(issuer)})) ==
             (ordered + [issuer]) + Climb(certs, issuer, seen + {Fp(issuer)});
      FpsSnoc(ordered, issuer);
      ordered := ordered + [issuer];
      seen := seen + {Fp(issuer)};
      cur := issuer;
    }
    ghost var chain := ordered;
    hide Climb;
    for k := 0 to |certs|
      invariant ordered == chain + Unseen(certs[..k], seen)
    {
      UnseenNext(certs, k, seen);
      if Fp(certs[k]) !in seen { ordered := ordered + [certs[k]]; }
    }
    assert certs[..|certs|] == certs;
  }

  lemma {:induction false} UnseenNext(certs: seq<ImportedCert>, k: nat, seen: set<string>)
    requires k < |certs|
    ensures Unseen(certs[..k + 1], seen) == Unseen(certs[..k], seen) + if Fp(certs[k]) in seen then [] else [certs[k]]
  {
    assert certs[..k + 1][..k] == certs[..k];
  }

  lemma {:induction false} FpsHas(certs: seq<ImportedCert>, c: ImportedCert)
    requires c in certs
    ensures Fp(c) in Fps(certs)
  {}

  lemma {:induction false} FpsSnoc(certs: seq<ImportedCert>, c: ImportedCert)
    ensures Fps(certs + [c]) == Fps(certs) + {Fp(c)}
  {}

  // ---- it is a permutation ----

  lemma {:induction false} ClimbFacts(certs: seq<ImportedCert>, cur: ImportedCert, seen: set<string>)
    ensures var up := Climb(certs, cur, seen);
            && DistinctFps(up)
            && forall c :: c in up ==> c in certs && Fp(c) !in seen
    decreases Fps(certs) - seen
  {
    var issuer := BySubject(certs, cur.issuer);
    if issuer.Some? && Fp(issuer.value) !in seen {
      ClimbFacts(certs, issuer.value, seen + {Fp(issuer.value)});
      var rest := Climb(certs, issuer.value, seen + {Fp(issuer.value)});
      forall c | c in [issuer.value] + rest ensures c in certs && Fp(c) !in seen {}
      forall j | 0 <= j < |rest| ensures Fp(rest[j]) != Fp(issuer.value) { assert rest[j] in rest; }
    }
  }

  lemma {:induction false} UnseenFacts(certs: seq<ImportedCert>, seen: set<string>)
    ensures forall c :: c in Unseen(certs, seen) <==> c in certs && Fp(c) !in seen
    ensures DistinctFps(certs) ==> DistinctFps(Unseen(certs, seen))
  {
    if certs != [] {
      var init, last := certs[..|certs| - 1], certs[|certs| - 1];
      UnseenFacts(init, seen);
      if DistinctFps(certs) { DistinctInit(certs); }
      assert certs == init + [last];
      var rest := Unseen(init, seen);
      assert Unseen(certs, seen) == rest + if Fp(last) in seen then [] else [last];
      hide Unseen, Fps, Fp;
      hide DistinctFps;
      assert forall c :: c in rest ==> c in init;
      if DistinctFps(certs) && Fp(last) !in seen { DistinctSnoc(rest, last); }
    }
  }

  lemma {:induction false} DistinctInit(certs: seq<ImportedCert>)
    requires certs != [] && DistinctFps(certs)
    ensures DistinctFps(certs[..|certs| - 1]) && forall c :: c in certs[..|certs| - 1] ==> Fp(c) != Fp(certs[|certs| - 1])
  {}

  lemma {:induction false} DistinctSnoc(rest: seq<ImportedCert>, last: ImportedCert)
    requires DistinctFps(rest) && forall c :: c in rest ==> Fp(c) != Fp(last)
    ensures DistinctFps(rest + [last])
  {}

  lemma {:induction false} DistinctConcat(a: seq<ImportedCert>, b: seq<ImportedCert>)
    requires DistinctFps(a) && DistinctFps(b) && forall c :: c in b ==> Fp(c) !in Fps(a)
    ensures DistinctFps(a + b)
  {}

  lemma {:induction false} DistinctCounts(certs: seq<ImportedCert>, c: ImportedCert)
    requires DistinctFps(certs)
    ensures multiset(certs)[c] == if c in certs then 1 else 0
  {
    if certs != [] {
      var init, last := certs[..|certs| - 1], certs[|certs| - 1];
      assert certs == init + [last];
      DistinctCounts(init, c);
      LastIsNew(certs);
    }
  }

  lemma {:induction false} LastIsNew(certs: seq<ImportedCert>)
    requires DistinctFps(certs) && certs != []
    ensures certs[|certs| - 1] !in certs[..|certs| - 1]
  {}

  /** The result holds the same certificates, whatever their issuers look like. */
  lemma {:induction false} OrderedIsPermutation(certs: seq<ImportedCert>)
    requires DistinctFps(certs)
    ensures multiset(Ordered(certs)) == multiset(certs)
  {
    if |certs| > 1 {
      var leaf := Leaf(certs);
      var up := Climb(certs, leaf, {Fp(leaf)});
      var chain := [leaf] + up;
      ClimbFacts(certs, leaf, {Fp(leaf)});
      DistinctConcat([leaf], up);
      UnseenFacts(certs, Fps(chain));
      DistinctConcat(chain, Unseen(certs, Fps(chain)));
      forall c ensures c in Ordered(certs) <==> c in certs {
        if c in certs && Fp(c) in Fps(chain) { SameFp(certs, chain, c); }
      }
      forall c ensures multiset(Ordered(certs))[c] == multiset(certs)[c] {
        DistinctCounts(certs, c);
        DistinctCounts(Ordered(certs), c);
      }
    }
  }

  lemma {:induction false} SameFp(certs: seq<ImportedCert>, chain: seq<ImportedCert>, c: ImportedCert)
    requires DistinctFps(certs) && c in certs && Fp(c) in Fps(chain) && forall d :: d in chain ==> d in certs
    ensures c in chain
  {}

  // ---- linear chains come out leaf first ----

  /** Leaf to root: each certificate is issued by the next; the last one is self-signed or
      its issuer is not in the file. */
  ghost predicate Linear(chain: seq<ImportedCert>) {
    && chain != [] && DistinctSubjects(chain) && DistinctFps(chain)
    && (forall i :: 0 <= i < |chain| - 1 ==> chain[i].issuer == chain[i + 1].subject)
    && var top := chain[|chain| - 1];
       top.issuer == top.subject || forall c :: c in chain ==> c.subject != top.issuer
  }

  lemma {:induction false} SubjectUnique(chain: seq<ImportedCert>, c: ImportedCert, d: ImportedCert)
    requires DistinctSubjects(chain) && c in chain && d in chain && c.subject == d.subject
    ensures c == d
  {}

  /** The only certificate that nobody else names as issuer is the first. */
  lemma {:induction false} LinearLeaf(certs: seq<ImportedCert>, chain: seq<ImportedCert>)
    requires Linear(chain) && |chain| > 1 && certs != []
    requires forall c :: c in certs <==> c in chain
    requires DistinctFps(certs)
    ensures Leaf(certs) == chain[0]
  {
    assert chain[0] in chain;
    var k :| 0 <= k < |certs| && certs[k] == chain[0];
    forall j | 0 <= j < |certs| && j != k ensures certs[j].issuer != certs[k].subject {
      assert certs[j] in chain;
      NotIssuedByFirst(chain, certs[j]);
    }
    assert IsLeaf(certs, k);
    forall i | 0 <= i < |certs| && i != k ensures !IsLeaf(certs, i) {
      assert certs[i] in chain && Fp(certs[i]) != Fp(certs[k]);
      var m :| 0 <= m < |chain| && chain[m] == certs[i];
      assert m > 0 && chain[m - 1] in chain;
      var j :| 0 <= j < |certs| && certs[j] == chain[m - 1];
      assert Fp(chain[m - 1]) != Fp(chain[m]);
      assert j != i && certs[j].issuer == certs[i].subject;
    }
  }

  lemma {:induction false} NotIssuedByFirst(chain: seq<ImportedCert>, c: ImportedCert)
    requires Linear(chain) && |chain| > 1 && c in chain
    ensures c.issuer != chain[0].subject
  {
    var i :| 0 <= i < |chain| && chain[i] == c;
    assert chain[0] in chain;
    if i < |chain| - 1 {
      assert chain[0].subject != chain[i + 1].subject;
    } else {
      assert chain[0].subject != chain[|chain| - 1].subject;
    }
  }

  lemma {:induction false} LinearClimb(certs: seq<ImportedCert>, chain: seq<ImportedCert>, k: nat)
    requires Linear(chain) && k < |chain| && forall c :: c in certs <==> c in chain
    ensures Climb(certs, chain[k], Fps(chain[..k + 1])) == chain[k + 1..]
    decreases |chain| - k
  {
    var seen := Fps(chain[..k + 1]);
    var issuer := BySubject(certs, chain[k].issuer);
    assert chain[k] in chain[..k + 1];
    if k < |chain| - 1 {
      assert chain[k + 1] in chain;
      SubjectUnique(chain, issuer.value, chain[k + 1]);
      assert chain[..k + 2] == chain[..k + 1] + [chain[k + 1]];
      FpsSnoc(chain[..k + 1], chain[k + 1]);
      LinearClimb(certs, chain, k + 1);
      assert chain[k + 1..] == [chain[k + 1]] + chain[k + 2..];
    } else if issuer.Some? {
      assert chain[k] in chain;
      SubjectUnique(chain, issuer.value, chain[k]);
    }
  }

  lemma {:induction false} Permuted(certs: seq<ImportedCert>, chain: seq<ImportedCert>)
    requires multiset(certs) == multiset(chain)
    ensures |certs| == |chain| && forall c :: c in certs <==> c in chain
  {
    assert |certs| == |multiset(certs)| && |chain| == |multiset(chain)|;
    forall c ensures c in certs <==> c in chain {
      assert c in certs <==> c in multiset(certs);
      assert c in chain <==> c in multiset(chain);
    }
  }

  /** In whatever order a linear chain is given, it comes out from leaf to root. */
  lemma {:induction false} OrderedLinear(certs: seq<ImportedCert>, chain: seq<ImportedCert>)
    requires Linear(chain) && multiset(certs) == multiset(chain)
    ensures Ordered(certs) == chain
  {
    Permuted(certs, chain);
    if |chain| == 1 {
      assert certs[0] in certs;
      assert certs[0] == chain[0];
    } else {
      PermutedFps(certs, chain);
      LinearLeaf(certs, chain);
      LinearOrder(certs, chain);
    }
  }

  lemma {:induction false} LinearOrder(certs: seq<ImportedCert>, chain: seq<ImportedCert>)
    requires Linear(chain) && |certs| > 1 && forall c :: c in certs <==> c in chain
    requires Leaf(certs) == chain[0]
    ensures Ordered(certs) == chain
  {
    LinearClimb(certs, chain, 0);
    assert chain[..1] == [chain[0]] && Fps(chain[..1]) == {Fp(chain[0])};
    assert chain == [chain[0]] + chain[1..];
    hide Linear, Climb, Leaf, Unseen, Fps, BySubject;
    forall c | c in certs ensures Fp(c) in Fps(chain) { FpsHas(chain, c); }
    NothingUnseen(certs, Fps(chain));
  }

  lemma {:induction false} NothingUnseen(certs: seq<ImportedCert>, seen: set<string>)
    requires forall c :: c in certs ==> Fp(c) in seen
    ensures Unseen(certs, seen) == []
  {
    if certs != [] { NothingUnseen(certs[..|certs| - 1], seen); }
  }

  lemma {:induction false} PermutedFps(certs: seq<ImportedCert>, chain: seq<ImportedCert>)
    requires multiset(certs) == multiset(chain) && Linear(chain)
    requires forall c :: c in certs <==> c in chain
    ensures DistinctFps(certs)
  {
    forall i, j | 0 <= i < j < |certs| ensures Fp(certs[i]) != Fp(certs[j]) {
      assert certs[i] in certs && certs[j] in certs;
      DistinctCounts(chain, certs[i]);
      if certs[i] == certs[j] {
        Twice(certs, i, j);
      } else if Fp(certs[i]) == Fp(certs[j]) {
        SameFpInChain(chain, certs[i], certs[j]);
      }
    }
  }

  lemma {:induction false} SameFpInChain(chain: seq<ImportedCert>, c: ImportedCert, d: ImportedCert)
    requires DistinctFps(chain) && c in chain && d in chain && Fp(c) == Fp(d)
    ensures c == d
  {}

  lemma {:induction false} Twice(certs: seq<ImportedCert>, i: nat, j: nat)
    requires i < j < |certs| && certs[i] == certs[j]
    ensures multiset(certs)[certs[i]] >= 2
  {
    assert certs == certs[..j] + [certs[j]] + certs[j + 1..];
    assert certs[..j][i] == certs[i] && certs[i] in certs[..j];
  }

  // ---- any file ----

  /** The last certificate of the file with this subject is number k. */
  ghost predicate LastNamed(certs: seq<ImportedCert>, subject: string, k: nat) {
    && k < |certs| && certs[k].subject == subject
    && forall j :: k < j < |certs| ==> certs[j].subject != subject
  }

  lemma {:induction false} BySubjectIs(certs: seq<ImportedCert>, subject: string)
    ensures forall k: nat :: LastNamed(certs, subject, k) ==> BySubject(certs, subject) == Some(certs[k])
  {
    if certs != [] {
      var init := certs[..|certs| - 1];
      BySubjectIs(init, subject);
      forall k: nat | LastNamed(certs, subject, k) ensures BySubject(certs, subject) == Some(certs[k]) {
        if k < |init| { assert LastNamed(init, subject, k); }
      }
    }
  }

  /** The first certificate that no other one names as its issuer; the first one of the file if
      every certificate is named. */
  ghost predicate IsStart(certs: seq<ImportedCert>, c: ImportedCert)
    requires certs != []
  {
    if exists i: nat :: FirstUnnamed(certs, i) then exists i: nat :: FirstUnnamed(certs, i) && c == certs[i] else c == certs[0]
  }

  ghost predicate FirstUnnamed(certs: seq<ImportedCert>, i: nat) {
    && i < |certs| && Unnamed(certs, i)
    && forall k :: 0 <= k < i ==> !Unnamed(certs, k)
  }

  ghost predicate Unnamed(certs: seq<ImportedCert>, i: nat)
    requires i < |certs|
  {
    forall j :: 0 <= j < |certs| && j != i ==> certs[j].issuer != certs[i].subject
  }

  /** Each certificate of the chain is followed by the last one of the file that has its
      issuer's name; the chain ends where there is none, or one that it has already. */
  ghost predicate FollowsIssuers(certs: seq<ImportedCert>, chain: seq<ImportedCert>, met: set<string>) {
    && chain != []
    && (forall i :: 1 <= i < |chain| ==> FollowsAt(certs, chain, met, i))
    && var top := chain[|chain| - 1];
       (forall c :: c in certs ==> c.subject != top.issuer) ||
       (BySubject(certs, top.issuer).Some? && Fp(BySubject(certs, top.issuer).value) in met + Fps(chain))
  }

  ghost predicate FollowsAt(certs: seq<ImportedCert>, chain: seq<ImportedCert>, met: set<string>, i: nat)
    requires 1 <= i < |chain|
  {
    BySubject(certs, chain[i - 1].issuer) == Some(chain[i]) && Fp(chain[i]) !in met + Fps(chain[..i])
  }

  lemma {:induction false} ClimbFollows(certs: seq<ImportedCert>, cur: ImportedCert, met: set<string>)
    ensures FollowsIssuers(certs, [cur] + Climb(certs, cur, met + {Fp(cur)}), met)
    decreases Fps(certs) - met - {Fp(cur)}
  {
    var issuer := BySubject(certs, cur.issuer);
    var seen := met + {Fp(cur)};
    var chain := [cur] + Climb(certs, cur, seen);
    assert chain[..1] == [cur] && Fps([cur]) == {Fp(cur)};
    if issuer.Some? && Fp(issuer.value) !in seen {
      assert Fp(issuer.value) in Fps(certs);
      ClimbFollows(certs, issuer.value, seen);
      var rest := [issuer.value] + Climb(certs, issuer.value, seen + {Fp(issuer.value)});
      assert chain == [cur] + rest;
      PrependCert(certs, cur, rest, met);
    }
  }

  lemma {:induction false} PrependCert(certs: seq<ImportedCert>, cur: ImportedCert, rest: seq<ImportedCert>, met: set<string>)
    requires FollowsIssuers(certs, rest, met + {Fp(cur)})
    requires BySubject(certs, cur.issuer) == Some(rest[0]) && Fp(rest[0]) !in met + {Fp(cur)}
    ensures FollowsIssuers(certs, [cur] + rest, met)
  {
    var chain := [cur] + rest;
    forall i | 1 <= i < |chain| ensures FollowsAt(certs, chain, met, i) {
      if i == 1 {
        assert chain[..1] == [cur];
      } else {
        assert FollowsAt(certs, rest, met + {Fp(cur)}, i - 1);
        assert chain[..i] == [cur] + rest[..i - 1];
        assert Fps(chain[..i]) == {Fp(cur)} + Fps(rest[..i - 1]);
      }
    }
    assert Fps(chain) == {Fp(cur)} + Fps(rest);
  }

  /** The certificates that are left over stand in the order of the file. */
  ghost predicate LeftOver(certs: seq<ImportedCert>, chain: seq<ImportedCert>, rest: seq<ImportedCert>, ix: seq<nat>) {
    && |ix| == |rest| && (forall k :: 0 <= k < |ix| ==> ix[k] < |certs| && rest[k] == certs[ix[k]])
    && (forall i: nat :: i in ix <==> i < |certs| && Fp(certs[i]) !in Fps(chain))
    && (forall a, b :: 0 <= a < b < |ix| ==> ix[a] < ix[b])
  }

  lemma {:induction false} UnseenAre(certs: seq<ImportedCert>, chain: seq<ImportedCert>) returns (ix: seq<nat>)
    ensures LeftOver(certs, chain, Unseen(certs, Fps(chain)), ix)
  {
    if certs == [] {
      ix := [];
    } else {
      var init := certs[..|certs| - 1];
      var before := UnseenAre(init, chain);
      ix := before + if Fp(certs[|certs| - 1]) in Fps(chain) then [] else [|certs| - 1];
      OneMoreLeft(certs, chain, Unseen(init, Fps(chain)), before);
    }
  }

  lemma {:induction false} OneMoreLeft(certs: seq<ImportedCert>, chain: seq<ImportedCert>, rest: seq<ImportedCert>, before: seq<nat>)
    requires certs != [] && LeftOver(certs[..|certs| - 1], chain, rest, before)
    ensures var n := |certs| - 1;
            LeftOver(certs, chain, rest + (if Fp(certs[n]) in Fps(chain) then [] else [certs[n]]),
                     before + if Fp(certs[n]) in Fps(chain) then [] else [n])
  {
    var n := |certs| - 1;
    var ix := before + if Fp(certs[n]) in Fps(chain) then [] else [n];
    hide Fps;
    forall i: nat ensures i in ix <==> i < |certs| && Fp(certs[i]) !in Fps(chain) {
      assert i in ix <==> i in before || (i == n && Fp(certs[n]) !in Fps(chain));
    }
    forall a, b | 0 <= a < b < |ix| ensures ix[a] < ix[b] { assert ix[a] in before; }
  }

  /** What orderChain makes of any file of two or more certificates: the chain from its start,
      issuer by issuer, and then everything else as it stood. */
  lemma {:induction false} OrderedIs(certs: seq<ImportedCert>) returns (chain: seq<ImportedCert>, rest: seq<ImportedCert>, ix: seq<nat>)
    requires |certs| > 1
    ensures Ordered(certs) == chain + rest && chain != [] && IsStart(certs, chain[0])
    ensures FollowsIssuers(certs, chain, {}) && LeftOver(certs, chain, rest, ix)
  {
    var leaf := Leaf(certs);
    chain := [leaf] + Climb(certs, leaf, {Fp(leaf)});
    rest := Unseen(certs, Fps(chain));
    ClimbFollows(certs, leaf, {});
    assert {} + {Fp(leaf)} == {Fp(leaf)};
    ix := UnseenAre(certs, chain);
    hide Climb, Unseen, FollowsIssuers, LeftOver;
    LeafIsStart(certs);
  }

  lemma {:induction false} LeafIsStart(certs: seq<ImportedCert>)
    requires certs != []
    ensures IsStart(certs, Leaf(certs))
  {
    var leaf := LeafIndex(certs, 0);
    forall i: nat | i < |certs| ensures IsLeaf(certs, i) <==> Unnamed(certs, i) {}
    hide IsLeaf, Unnamed;
    if leaf.Some? {
      assert FirstUnnamed(certs, leaf.value);
      forall i: nat | FirstUnnamed(certs, i) ensures i == leaf.value {}
    }
  }
}
