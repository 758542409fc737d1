/** src/certs/verify.ts: chain verification, and how revocation spreads through it. */
module Verify {
  import opened Wrappers
  import opened Names
  import opened Certificates
  import opened IssuerGraph

  datatype Reason =
    | MissingIssuer(id: nat)
    | BadLink(index: nat)
    | NotRooted
    | Revoked
    | IssuerRevoked(name: string)
    | Expired
    | NotYetValid
    | SniMismatch

  /** `failure` is None when the certificate is ok. */
  datatype VerifyResult = VerifyResult(failure: Option<Reason>, chain: seq<string>, expired: bool, notYetValid: bool,
                                       revoked: bool, revokedAncestor: Option<string>, sni: Option<bool>)

  // ---- host names ----

  /** Index of the first dot, or the length. */
  function FirstDot(s: string): (i: nat)
    ensures i <= |s| && '.' !in s[..i] && (i < |s| ==> s[i] == '.')
  {
    if s == "" || s[0] == '.' then 0
    else
      var i := 1 + FirstDot(s[1..]);
      assert s[..i] == [s[0]] + s[1..][..i - 1];
      i
  }

  function MatchHost(pattern: string, host: string): bool {
    if pattern == "" || host == "" then false
    else
      var p, h := Lower(pattern), Lower(host);
      p == h || (IsWildcard(p) && LabelBefore(h, p[1..]))
  }

  /** `host` is `first`, a non-empty dot-free label, in front of `base`. */
  ghost predicate IsUnder(host: string, first: string, base: string) {
    first != "" && '.' !in first && host == first + "." + base
  }

  lemma {:induction false} FirstDotAfter(first: string, rest: string)
    requires '.' !in first
    ensures FirstDot(first + "." + rest) == |first|
  {
    if first != "" {
      assert (first + "." + rest)[1..] == first[1..] + "." + rest;
      FirstDotAfter(first[1..], rest);
    }
  }

  predicate LabelBefore(h: string, suffix: string) {
    0 < FirstDot(h) < |h| && h[FirstDot(h)..] == suffix
  }

  lemma {:induction false} LabelBeforeIff(h: string, base: string)
    ensures LabelBefore(h, "." + base) <==> exists first :: IsUnder(h, first, base)
  {
    if LabelBefore(h, "." + base) {
      var first := h[..FirstDot(h)];
      assert h == first + h[FirstDot(h)..];
      assert first + ("." + base) == first + "." + base;
      assert IsUnder(h, first, base);
    }
    if first :| IsUnder(h, first, base) {
      FirstDotAfter(first, base);
      assert h[|first|..] == "." + base;
    }
  }

  /** A wildcard pattern matches exactly one extra, non-empty, dot-free label. */
  lemma {:induction false} WildcardMatchesOneLabel(base: string, host: string)
    requires Lower(host) != "*." + Lower(base)
    ensures MatchHost("*." + base, host) <==> exists first :: IsUnder(Lower(host), first, Lower(base))
  {
    LowerConcat("*.", base);
    assert Lower("*." + base)[1..] == "." + Lower(base);
    LabelBeforeIff(Lower(host), Lower(base));
    hide FirstDot, IsUnder;
    assert host == "" ==> Lower(host) == "" && !LabelBefore(Lower(host), "." + Lower(base));
  }

  predicate SniMatches(info: CertInfo, sni: string) {
    || (info.commonName.Some? && MatchHost(info.commonName.value, sni))
    || exists s :: s in info.sans && MatchHost(s, sni)
  }

  // ---- verifyCert ----

  predicate IsTrusted(x: X509, p: seq<CertRow>) {
    forall i :: 0 <= i < |p| - 1 ==> x.signs(p[i + 1].certPem, p[i].certPem)
  }

  /** The first link from `i` on that does not verify, or the length of the chain. */
  function FirstBadLink(x: X509, p: seq<CertRow>, i: nat): (r: nat)
    requires i <= |p|
    ensures i <= r <= |p|
    ensures forall k :: i <= k < r && k < |p| - 1 ==> x.signs(p[k + 1].certPem, p[k].certPem)
    ensures r < |p| ==> r < |p| - 1 && !x.signs(p[r + 1].certPem, p[r].certPem)
    decreases |p| - i
  {
    if i + 1 >= |p| then |p|
    else if !x.signs(p[i + 1].certPem, p[i].certPem) then i
    else FirstBadLink(x, p, i + 1)
  }

  /** A revoked row that verifyCert notices above another: the name it remembers is not empty. */
  predicate IsNoticed(row: CertRow) {
    IsRevoked(row) && row.commonName != ""
  }

  /** The variable revokedAncestor after the rows above the first: the name of the nearest
      revoked row that has one, else the empty name of a revoked row, else undefined. */
  function RevokedAbove(p: seq<CertRow>): (r: Option<string>)
    requires p != []
    ensures Truthy(r) <==> exists i :: 1 <= i < |p| && IsNoticed(p[i])
  {
    if |p| == 1 then None
    else
      var last := |p| - 1;
      var before := RevokedAbove(p[..last]);
      if IsRevoked(p[last]) && !Truthy(before) then Some(p[last].commonName) else before
  }

  function NamesOf(p: seq<CertRow>): seq<string> {
    seq(|p|, i requires 0 <= i < |p| => p[i].commonName)
  }

  predicate Asked(sni: Option<string>) {
    Truthy(sni)
  }

  /** The outcome of verifyCert, given the walk; None when the row's own PEM does not parse. */
  function Outcome(x: X509, w: Walk, row: CertRow, now: int, sni: Option<string>): Option<VerifyResult>
    requires w.chain != []
  {
    var parsed := x.parse(row.certPem);
    if parsed.None? then None
    else
      var info := parsed.value;
      var expired, early := now > info.notAfter, now < info.notBefore;
      var above := RevokedAbove(w.chain);
      var partial := VerifyResult(None, NamesOf(w.chain), expired, early, IsRevoked(row), above, None);
      if w.end.Dangling? then
        Some(partial.(failure := Some(MissingIssuer(w.end.id)), revokedAncestor := None))
      else if (row.kind != Ca || row.issuerId.Some?) && FirstBadLink(x, w.chain, 0) < |w.chain| then
        Some(partial.(failure := Some(BadLink(FirstBadLink(x, w.chain, 0)))))
      else if (row.kind != Ca || row.issuerId.Some?) && w.chain[|w.chain| - 1].issuerId.Some? then
        Some(partial.(failure := Some(NotRooted)))
      else
        var matched := if Asked(sni) then Some(SniMatches(info, sni.value)) else None;
        var full := partial.(sni := matched);
        Some(full.(failure :=
               if IsRevoked(row) then Some(Revoked)
               else if Truthy(above) then Some(IssuerRevoked(above.value))
               else if expired then Some(Expired)
               else if early then Some(NotYetValid)
               else if matched == Some(false) then Some(SniMismatch)
               else None))
  }

  function Verdict(x: X509, t: Table, row: CertRow, now: int, sni: Option<string>): Option<VerifyResult> {
    Outcome(x, WalkUp(t, row, {}), row, now, sni)
  }

  /** verifyCert's first loop: names, rows and the nearest revoked issuer. */
  method CollectChain(t: Table, row: CertRow)
    returns (chainNames: seq<string>, chainRows: seq<CertRow>, revokedAncestor: Option<string>, missing: Option<nat>)
    ensures chainRows == WalkUp(t, row, {}).chain && chainNames == NamesOf(chainRows)
    ensures revokedAncestor == RevokedAbove(chainRows)
    ensures var end := WalkUp(t, row, {}).end; missing == if end.Dangling? then Some(end.id) else None
  {
    assert WalkUp(t, row, {}).chain == [row] + Above(t, row, {});
    hide WalkUp, Above, NamesOf, RevokedAbove;
    chainNames, chainRows, revokedAncestor, missing := [row.commonName], [row], None, None;
    var cur := row;
    var safety: set<nat> := {};
    while cur.issuerId.Some? && cur.issuerId.value !in safety
      invariant chainRows != []
      invariant [row] + Above(t, row, {}) == chainRows + Above(t, cur, safety)
      invariant WalkUp(t, row, {}).end == WalkUp(t, cur, safety).end
      invariant chainNames == NamesOf(chainRows) && revokedAncestor == RevokedAbove(chainRows)
      decreases Ids(t) - safety
    {
      var id := cur.issuerId.value;
      var parent := FindById(t, id);
      if parent.None? {
        missing := Some(id);
        break;
      }
      assert id in Ids(t);
      AboveStep(t, cur, parent.value, safety);
      ghost var rest := Above(t, parent.value, safety + {id});
      assert chainRows + ([parent.value] + rest) == (chainRows + [parent.value]) + rest;
      RowAppended(chainRows, parent.value);
      safety := safety + {id};
      chainNames := chainNames + [parent.value.commonName];
      if IsRevoked(parent.value) && !Truthy(revokedAncestor) {
        revokedAncestor := Some(parent.value.commonName);
      }
      chainRows := chainRows + [parent.value];
      cur := parent.value;
    }
    AboveStop(t, cur, safety);
    assert chainRows + [] == chainRows;
  }

  lemma {:induction false} RowAppended(p: seq<CertRow>, row: CertRow)
    requires p != []
    ensures NamesOf(p + [row]) == NamesOf(p) + [row.commonName]
    ensures RevokedAbove(p + [row]) ==
            if IsRevoked(row) && !Truthy(RevokedAbove(p)) then Some(row.commonName) else RevokedAbove(p)
  {
    assert (p + [row])[..|p|] == p;
  }

  /** verifyCert's second loop: the first link that does not verify. */
  method CheckLinks(x: X509, chain: seq<CertRow>) returns (i: nat)
    requires chain != []
    ensures i == FirstBadLink(x, chain, 0)
  {
    i := 0;
    while i < |chain| - 1
      invariant i <= |chain| - 1
      invariant FirstBadLink(x, chain, 0) == FirstBadLink(x, chain, i)
    {
      if !x.signs(chain[i + 1].certPem, chain[i].certPem) { return; }
      i := i + 1;
    }
    i := |chain|;
  }

  method VerifyCert(x: X509, t: Table, row: CertRow, now: int, sni: Option<string>) returns (r: Option<VerifyResult>)
    ensures r == Verdict(x, t, row, now, sni)
  {
    hide WalkUp, RevokedAbove, FirstBadLink;
    var parsed := x.parse(row.certPem);
    if parsed.None? { return None; }
    var info := parsed.value;
    var expired, early := now > info.notAfter, now < info.notBefore;
    var names, rows, ancestor, missing := CollectChain(t, row);
    var partial := VerifyResult(None, names, expired, early, IsRevoked(row), ancestor, None);
    if missing.Some? {
      return Some(partial.(failure := Some(MissingIssuer(missing.value)), revokedAncestor := None));
    }
    if row.kind != Ca || row.issuerId.Some? {
      var bad := CheckLinks(x, rows);
      if bad < |rows| { return Some(partial.(failure := Some(BadLink(bad)))); }
      if rows[|rows| - 1].issuerId.Some? { return Some(partial.(failure := Some(NotRooted))); }
    }
    var matched := if Asked(sni) then Some(SniMatches(info, sni.value)) else None;
    var full := partial.(sni := matched);
    if IsRevoked(row) { return Some(full.(failure := Some(Revoked))); }
    if Truthy(ancestor) { return Some(full.(failure := Some(IssuerRevoked(ancestor.value)))); }
    if expired { return Some(full.(failure := Some(Expired))); }
    if early { return Some(full.(failure := Some(NotYetValid))); }
    if matched == Some(false) { return Some(full.(failure := Some(SniMismatch))); }
    r := Some(full);
  }

  // ---- what an ok verdict means ----

  predicate IsOk(r: Option<VerifyResult>) {
    r.Some? && r.value.failure.None?
  }

  /** A chain of verified rows from `row`, which is not revoked, to a row without issuer;
      revoked rows above it have no common name. */
  ghost predicate HasTrustedRoot(x: X509, t: Table, row: CertRow) {
    exists p :: RootChain(t, p, row) && IsTrusted(x, p) && NoneNoticed(p)
  }

  predicate NoneNoticed(p: seq<CertRow>)
    requires p != []
  {
    !IsRevoked(p[0]) && forall i :: 1 <= i < |p| ==> !IsNoticed(p[i])
  }

  predicate InWindow(info: CertInfo, now: int) {
    info.notBefore <= now <= info.notAfter
  }

  /** verifyCert answers ok exactly for the rows that are not revoked, have a verified chain
      to a root without a revoked issuer that has a common name, are inside their validity
      and match the requested name. */
  lemma {:induction false} OkIff(x: X509, t: Table, row: CertRow, now: int, sni: Option<string>)
    requires UniqueIds(t) && row in t
    ensures IsOk(Verdict(x, t, row, now, sni)) <==>
            && x.parse(row.certPem).Some?
            && HasTrustedRoot(x, t, row)
            && InWindow(x.parse(row.certPem).value, now)
            && (Asked(sni) ==> SniMatches(x.parse(row.certPem).value, sni.value))
  {
    var w := WalkUp(t, row, {});
    WalkIsChain(t, row, {});
    TrustedWalk(x, t, row);
    hide HasTrustedRoot, RootChain, IsChain, UniqueIds;
    assert NoneNoticed(w.chain) <==> !IsRevoked(row) && !Truthy(RevokedAbove(w.chain));
  }

  lemma {:induction false} TrustedWalk(x: X509, t: Table, row: CertRow)
    requires UniqueIds(t) && row in t
    ensures HasTrustedRoot(x, t, row) <==>
            var w := WalkUp(t, row, {}); w.end.Rooted? && IsTrusted(x, w.chain) && NoneNoticed(w.chain)
  {
    var w := WalkUp(t, row, {});
    WalkIsChain(t, row, {});
    RootedIffRootExists(t, row);
    if p :| RootChain(t, p, row) && IsTrusted(x, p) && NoneNoticed(p) {
      RootChainUnique(t, p, w.chain, row);
    }
  }

  lemma {:induction false} RootChainUnique(t: Table, p: seq<CertRow>, q: seq<CertRow>, row: CertRow)
    requires RootChain(t, p, row) && RootChain(t, q, row)
    ensures p == q
  {
    forall i | 0 <= i < |p| && i < |q| ensures p[i] == q[i] { ChainsAgree(t, p, q, i); }
  }

  /** A correctly signed certificate below a root that is revoked but has no common name. */
  ghost predicate BelowNamelessRoot(x: X509, t: Table, leaf: CertRow, root: CertRow) {
    && UniqueIds(t) && leaf in t && root in t && leaf.issuerId == Some(root.id) && root.issuerId.None?
    && x.signs(root.certPem, leaf.certPem) && !IsRevoked(leaf)
    && IsRevoked(root) && root.commonName == ""
  }

  /** verifyCert answers ok for it though its only issuer is revoked. */
  lemma {:induction false} NamelessIssuerUnnoticed(x: X509, t: Table, leaf: CertRow, root: CertRow, now: int)
    requires BelowNamelessRoot(x, t, leaf, root)
    requires x.parse(leaf.certPem).Some? && InWindow(x.parse(leaf.certPem).value, now)
    ensures IsOk(Verdict(x, t, leaf, now, None)) && Below(t, leaf, root.id)
  {
    FindUnique(t, root);
    ChildIsBelow(t, leaf, root.id);
    var p := [leaf, root];
    assert RootChain(t, p, leaf) && IsTrusted(x, p) && NoneNoticed(p);
    OkIff(x, t, leaf, now, None);
  }

  // ---- host names, in full ----

  /** A pattern matches its own name in any case; "*.base" also matches one more non-empty
      label without a dot in front of base. An empty pattern or host matches nothing. */
  lemma {:induction false} MatchHostIff(pattern: string, host: string)
    ensures MatchHost(pattern, host) <==>
            && pattern != "" && host != ""
            && (Lower(pattern) == Lower(host) ||
                exists first: string, base: string :: Lower(pattern) == "*." + base && IsUnder(Lower(host), first, base))
  {
    var p, h := Lower(pattern), Lower(host);
    hide Lower;
    if IsWildcard(p) {
      assert p == "*." + p[2..] && p[1..] == "." + p[2..];
      LabelBeforeIff(h, p[2..]);
      forall base: string | p == "*." + base ensures base == p[2..] {}
    } else {
      forall base: string ensures p != "*." + base { assert ("*." + base)[..2] == "*."; }
    }
  }

  // ---- every verdict ----

  /** Row i is the nearest one above the first that is revoked and has a common name. */
  ghost predicate NearestNoticed(p: seq<CertRow>, i: nat) {
    && 1 <= i < |p| && Truthy(p[i].revokedAt) && p[i].commonName != ""
    && forall k :: 1 <= k < i ==> !(Truthy(p[k].revokedAt) && p[k].commonName != "")
  }

  /** Some row above the first is revoked, all such rows without a common name. */
  ghost predicate OnlyNamelessRevoked(p: seq<CertRow>) {
    && (exists k :: 1 <= k < |p| && Truthy(p[k].revokedAt))
    && forall k :: 1 <= k < |p| && Truthy(p[k].revokedAt) ==> p[k].commonName == ""
  }

  /** A certificate is for the names of its extension and for its common name. */
  lemma {:induction false} SniMatchesIff(info: CertInfo, sni: string)
    ensures SniMatches(info, sni) <==> exists name :: (name in info.sans || info.commonName == Some(name)) && MatchHost(name, sni)
  {
    hide MatchHost;
  }

  lemma {:induction false} RevokedAboveIs(p: seq<CertRow>)
    requires p != []
    ensures forall i: nat :: NearestNoticed(p, i) ==> RevokedAbove(p) == Some(p[i].commonName)
    ensures OnlyNamelessRevoked(p) ==> RevokedAbove(p) == Some("")
    ensures (forall k :: 1 <= k < |p| ==> !Truthy(p[k].revokedAt)) ==> RevokedAbove(p) == None
  {
    if |p| > 1 {
      var init := p[..|p| - 1];
      RevokedAboveIs(init);
      forall i: nat | NearestNoticed(p, i) ensures RevokedAbove(p) == Some(p[i].commonName) {
        if i < |init| {
          assert NearestNoticed(init, i);
        } else {
          assert forall k :: 1 <= k < |init| ==> !IsNoticed(init[k]);
        }
      }
      if OnlyNamelessRevoked(p) && exists k :: 1 <= k < |init| && Truthy(init[k].revokedAt) { assert OnlyNamelessRevoked(init); }
    }
  }

  /** Link i of the chain is the first one whose signature does not verify. */
  ghost predicate FirstBad(x: X509, p: seq<CertRow>, i: nat) {
    && i < |p| - 1 && !x.signs(p[i + 1].certPem, p[i].certPem)
    && forall k :: 0 <= k < i ==> x.signs(p[k + 1].certPem, p[k].certPem)
  }

  lemma {:induction false} FirstBadIs(x: X509, p: seq<CertRow>, i: nat, from: nat)
    requires FirstBad(x, p, i) && from <= i
    ensures FirstBadLink(x, p, from) == i
    decreases i - from
  {
    if from < i { FirstBadIs(x, p, i, from + 1); }
  }

  /** The reason of the answer, with the checks in their order. A CA without an issuer link
      needs neither links nor a root. */
  ghost predicate ReasonIs(x: X509, w: Walk, row: CertRow, info: CertInfo, now: int, sni: Option<string>, failure: Option<Reason>)
    requires w.chain != []
  {
    var anchored := row.kind == Ca && row.issuerId.None?;
    var top := w.chain[|w.chain| - 1];
    if w.end.Dangling? then failure == Some(MissingIssuer(w.end.id))
    else if !anchored && exists i: nat :: FirstBad(x, w.chain, i) then exists i: nat :: FirstBad(x, w.chain, i) && failure == Some(BadLink(i))
    else if !anchored && top.issuerId.Some? then failure == Some(NotRooted)
    else if Truthy(row.revokedAt) then failure == Some(Revoked)
    else if exists i: nat :: NearestNoticed(w.chain, i) then
      exists i: nat :: NearestNoticed(w.chain, i) && failure == Some(IssuerRevoked(w.chain[i].commonName))
    else if now > info.notAfter then failure == Some(Expired)
    else if now < info.notBefore then failure == Some(NotYetValid)
    else if sni.Some? && sni.value != "" && !SniMatches(info, sni.value) then failure == Some(SniMismatch)
    else failure == None
  }

  lemma {:induction false} NoticedSomewhere(p: seq<CertRow>, k: nat) returns (i: nat)
    requires 1 <= k < |p| && IsNoticed(p[k])
    ensures NearestNoticed(p, i)
  {
    i := 1;
    while !IsNoticed(p[i])
      invariant 1 <= i <= k && forall j :: 1 <= j < i ==> !IsNoticed(p[j])
      decreases k - i
    {
      i := i + 1;
    }
  }

  lemma {:induction false} BadLinkIff(x: X509, p: seq<CertRow>)
    ensures FirstBadLink(x, p, 0) < |p| ==> FirstBad(x, p, FirstBadLink(x, p, 0))
    ensures forall i: nat :: FirstBad(x, p, i) ==> FirstBadLink(x, p, 0) == i
  {
    forall i: nat | FirstBad(x, p, i) ensures FirstBadLink(x, p, 0) == i { FirstBadIs(x, p, i, 0); }
  }

  lemma {:induction false} NoticedIff(p: seq<CertRow>)
    requires p != []
    ensures Truthy(RevokedAbove(p)) <==> exists i: nat :: NearestNoticed(p, i)
    ensures forall i: nat :: NearestNoticed(p, i) ==> RevokedAbove(p) == Some(p[i].commonName)
  {
    RevokedAboveIs(p);
    if Truthy(RevokedAbove(p)) {
      var k :| 1 <= k < |p| && IsNoticed(p[k]);
      var i := NoticedSomewhere(p, k);
    }
  }

  lemma {:induction false} OutcomeReason(x: X509, w: Walk, row: CertRow, now: int, sni: Option<string>)
    requires w.chain != [] && x.parse(row.certPem).Some?
    ensures ReasonIs(x, w, row, x.parse(row.certPem).value, now, sni, Outcome(x, w, row, now, sni).value.failure)
  {
    BadLinkIff(x, w.chain);
    NoticedIff(w.chain);
    assert forall i: nat :: FirstBad(x, w.chain, i) ==> i < |w.chain|;
    assert forall i: nat :: NearestNoticed(w.chain, i) ==> i < |w.chain| && w.chain[i].commonName != "";
    hide FirstBadLink, RevokedAbove, FirstBad, NearestNoticed, SniMatches, NamesOf;
  }

  /** What verifyCert answers about a certificate that parses: the names of the chain, the
      flags, and the reason. A missing issuer hides the revoked ancestor, and the requested
      name is looked at only when the chain is accepted. */
  ghost predicate AnswerIs(x: X509, w: Walk, row: CertRow, now: int, sni: Option<string>, r: VerifyResult)
    requires w.chain != [] && x.parse(row.certPem).Some?
  {
    var info := x.parse(row.certPem).value;
    && ReasonIs(x, w, row, info, now, sni, r.failure)
    && |r.chain| == |w.chain| && (forall i :: 0 <= i < |w.chain| ==> r.chain[i] == w.chain[i].commonName)
    && (r.expired <==> now > info.notAfter) && (r.notYetValid <==> now < info.notBefore)
    && (r.revoked <==> Truthy(row.revokedAt))
    && (if w.end.Dangling? then r.revokedAncestor == None
        else
          && ((forall k :: 1 <= k < |w.chain| ==> !Truthy(w.chain[k].revokedAt)) ==> r.revokedAncestor == None)
          && (OnlyNamelessRevoked(w.chain) ==> r.revokedAncestor == Some(""))
          && (forall i: nat :: NearestNoticed(w.chain, i) ==> r.revokedAncestor == Some(w.chain[i].commonName)))
    && r.sni == (if ChainRefused(r.failure) || sni.None? || sni.value == "" then None else Some(SniMatches(info, sni.value)))
  }

  predicate ChainRefused(failure: Option<Reason>) {
    failure.Some? && (failure.value.MissingIssuer? || failure.value.BadLink? || failure.value.NotRooted?)
  }

  lemma {:induction false} OutcomeFlags(x: X509, w: Walk, row: CertRow, now: int, sni: Option<string>)
    requires w.chain != [] && x.parse(row.certPem).Some?
    ensures var info, r := x.parse(row.certPem).value, Outcome(x, w, row, now, sni).value;
            && Outcome(x, w, row, now, sni).Some?
            && r.chain == NamesOf(w.chain)
            && (r.expired <==> now > info.notAfter) && (r.notYetValid <==> now < info.notBefore)
            && (r.revoked <==> Truthy(row.revokedAt))
            && r.revokedAncestor == (if w.end.Dangling? then None else RevokedAbove(w.chain))
            && r.sni == (if ChainRefused(r.failure) || sni.None? || sni.value == "" then None else Some(SniMatches(info, sni.value)))
  {
    hide SniMatches, FirstBadLink, RevokedAbove, NamesOf;
  }

  lemma {:induction false} VerdictIs(x: X509, t: Table, row: CertRow, now: int, sni: Option<string>)
    requires x.parse(row.certPem).Some?
    ensures Verdict(x, t, row, now, sni).Some? && AnswerIs(x, WalkUp(t, row, {}), row, now, sni, Verdict(x, t, row, now, sni).value)
  {
    var w := WalkUp(t, row, {});
    OutcomeReason(x, w, row, now, sni);
    RevokedAboveIs(w.chain);
    OutcomeFlags(x, w, row, now, sni);
    hide Outcome, WalkUp, SniMatches, RevokedAbove, OnlyNamelessRevoked, NearestNoticed, ReasonIs;
  }

  /** A certificate that does not parse makes verifyCert throw. */
  lemma {:induction false} VerdictNoneIff(x: X509, t: Table, row: CertRow, now: int, sni: Option<string>)
    ensures Verdict(x, t, row, now, sni).None? <==> x.parse(row.certPem).None?
  {
    if x.parse(row.certPem).Some? { VerdictIs(x, t, row, now, sni); }
  }
}
