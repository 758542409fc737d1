/** Revoking a certificate (src/storage/repos.ts) and what verifyCert then says about
    every other certificate of the context. */
module Revocation {
  import opened Wrappers
  import opened Certificates
  import opened IssuerGraph
  import opened Verify

  /** The row as SetRevocation leaves it. */
  function Marked(row: CertRow, x: nat, at: Option<string>, reason: Option<string>): CertRow {
    if row.id == x then row.(revokedAt := at, revocationReason := reason) else row
  }

  function MarkedAll(p: seq<CertRow>, x: nat, at: Option<string>, reason: Option<string>): (r: seq<CertRow>)
    ensures |r| == |p|
  {
    seq(|p|, i requires 0 <= i < |p| => Marked(p[i], x, at, reason))
  }

  lemma {:induction false} FindMarked(t: Table, id: nat, x: nat, at: Option<string>, reason: Option<string>)
    ensures FindById(SetRevocation(t, x, at, reason), id) ==
            match FindById(t, id) case None => None case Some(row) => Some(Marked(row, x, at, reason))
  {
    if t != [] {
      assert SetRevocation(t, x, at, reason)[1..] == SetRevocation(t[1..], x, at, reason);
      FindMarked(t[1..], id, x, at, reason);
    }
  }

  lemma {:induction false} WalkUnfolds(t: Table, cur: CertRow, parent: CertRow, seen: set<nat>)
    requires cur.issuerId == Some(parent.id) && parent.id !in seen && FindById(t, parent.id) == Some(parent)
    ensures var w := WalkUp(t, parent, seen + {parent.id}); WalkUp(t, cur, seen) == Walk([cur] + w.chain, w.end)
  {}

  lemma {:induction false} WalkStops(t: Table, cur: CertRow, seen: set<nat>)
    requires cur.issuerId.Some? ==> cur.issuerId.value in seen || FindById(t, cur.issuerId.value).None?
    ensures WalkUp(t, cur, seen) ==
            Walk([cur], if cur.issuerId.None? then Rooted
                        else if cur.issuerId.value in seen then Cyclic else Dangling(cur.issuerId.value))
  {}

  /** Revocation changes no walk, only the rows met on it. */
  lemma {:induction false} WalkMarked(t: Table, cur: CertRow, seen: set<nat>, x: nat, at: Option<string>, reason: Option<string>)
    ensures var w := WalkUp(t, cur, seen);
            WalkUp(SetRevocation(t, x, at, reason), Marked(cur, x, at, reason), seen) ==
            Walk(MarkedAll(w.chain, x, at, reason), w.end)
    decreases Ids(t) - seen
  {
    hide SetRevocation, WalkUp;
    var n, cur' := SetRevocation(t, x, at, reason), Marked(cur, x, at, reason);
    if cur.issuerId.Some? { FindMarked(t, cur.issuerId.value, x, at, reason); }
    if cur.issuerId.Some? && cur.issuerId.value !in seen && FindById(t, cur.issuerId.value).Some? {
      var parent := FindById(t, cur.issuerId.value).value;
      WalkUnfolds(t, cur, parent, seen);
      WalkUnfolds(n, cur', Marked(parent, x, at, reason), seen);
      WalkMarked(t, parent, seen + {parent.id}, x, at, reason);
      var rest := WalkUp(t, parent, seen + {parent.id}).chain;
      assert MarkedAll([cur] + rest, x, at, reason) == [cur'] + MarkedAll(rest, x, at, reason);
    } else {
      WalkStops(t, cur, seen);
      WalkStops(n, cur', seen);
      assert MarkedAll([cur], x, at, reason) == [cur'];
    }
  }

  /** `x` is the row's own id or the id of an ancestor. */
  ghost predicate OnWalk(t: Table, d: CertRow, x: nat) {
    d.id == x || Below(t, d, x)
  }

  lemma {:induction false} OffWalkUntouched(t: Table, d: CertRow, x: nat, at: Option<string>, reason: Option<string>)
    requires d in t && !OnWalk(t, d, x)
    ensures MarkedAll(WalkUp(t, d, {}).chain, x, at, reason) == WalkUp(t, d, {}).chain
  {
    var chain := WalkUp(t, d, {}).chain;
    WalkIsChain(t, d, {});
    forall i | 0 <= i < |chain| ensures chain[i].id != x {
      if i > 0 { LaterRowIsAncestor(t, chain, i); }
    }
  }

  lemma {:induction false} OnWalkMet(t: Table, d: CertRow, x: nat) returns (i: nat)
    requires UniqueIds(t) && d in t && OnWalk(t, d, x) && WalkUp(t, d, {}).end.Rooted?
    ensures var chain := WalkUp(t, d, {}).chain; i < |chain| && chain[i].id == x
  {
    var chain := WalkUp(t, d, {}).chain;
    WalkIsChain(t, d, {});
    if d.id == x {
      i := 0;
    } else {
      var p :| LeadsTo(t, p, d, x);
      i := |p|;
      if |p| <= |chain| {
        ChainsAgree(t, p, chain, |p| - 1);
      } else {
        ChainsAgree(t, p, chain, |chain| - 1);
      }
    }
  }

  /** Revoking `x` is seen by `d`: it is d itself, or an ancestor that has a common name. */
  ghost predicate Cuts(t: Table, d: CertRow, x: nat) {
    d.id == x || (Below(t, d, x) && HasName(t, x))
  }

  predicate HasName(t: Table, x: nat) {
    FindById(t, x).Some? && FindById(t, x).value.commonName != ""
  }

  /** The same result, except that revokedAncestor may have become the empty name. */
  predicate SameButNoName(before: Option<VerifyResult>, after: Option<VerifyResult>) {
    || after == before
    || (before.Some? && before.value.revokedAncestor.None? && after == Some(before.value.(revokedAncestor := Some(""))))
  }

  /** Rows of a chain with id `x` are the row of the table. */
  lemma {:induction false} ChainRowNamed(t: Table, p: seq<CertRow>, i: nat, x: nat)
    requires UniqueIds(t) && IsChain(t, p) && i < |p| && p[i].id == x
    ensures FindById(t, x) == Some(p[i])
  {
    ChainIn(t, p, i);
    FindUnique(t, p[i]);
  }

  ghost predicate Nameless(p: seq<CertRow>, x: nat) {
    forall i :: 0 <= i < |p| && p[i].id == x ==> p[i].commonName == ""
  }

  lemma {:induction false} NamelessAbove(p: seq<CertRow>, x: nat, at: string, reason: Option<string>)
    requires p != [] && at != "" && Nameless(p, x)
    ensures var before, after := RevokedAbove(p), RevokedAbove(MarkedAll(p, x, Some(at), reason));
            after == before || (before.None? && after == Some(""))
  {
    if |p| > 1 {
      var init := p[..|p| - 1];
      assert MarkedAll(p, x, Some(at), reason)[..|p| - 1] == MarkedAll(init, x, Some(at), reason);
      NamelessAbove(init, x, at, reason);
    }
  }

  ghost predicate SamePems(p: seq<CertRow>, q: seq<CertRow>) {
    |q| == |p| && forall i :: 0 <= i < |p| ==> q[i].certPem == p[i].certPem
  }

  lemma {:induction false} SameLinks(lib: X509, p: seq<CertRow>, q: seq<CertRow>, i: nat)
    requires i <= |p| && SamePems(p, q)
    ensures FirstBadLink(lib, q, i) == FirstBadLink(lib, p, i)
    decreases |p| - i
  {
    if i + 1 < |p| {
      assert q[i].certPem == p[i].certPem && q[i + 1].certPem == p[i + 1].certPem;
      hide SamePems;
      SameLinks(lib, p, q, i + 1);
    }
  }

  /** The outcome depends on the walk through its names, links, end and revokedAncestor. */
  lemma {:induction false} SameOutcome(lib: X509, w: Walk, v: Walk, row: CertRow, now: int, sni: Option<string>)
    requires w.chain != [] && v.chain != [] && v.end == w.end && |v.chain| == |w.chain|
    requires NamesOf(v.chain) == NamesOf(w.chain) && FirstBadLink(lib, v.chain, 0) == FirstBadLink(lib, w.chain, 0)
    requires v.chain[|v.chain| - 1].issuerId == w.chain[|w.chain| - 1].issuerId
    requires RevokedAbove(v.chain) == RevokedAbove(w.chain) || (RevokedAbove(w.chain).None? && RevokedAbove(v.chain) == Some(""))
    ensures SameButNoName(Outcome(lib, w, row, now, sni), Outcome(lib, v, row, now, sni))
  {
    hide RevokedAbove, FirstBadLink, SniMatches, NamesOf;
  }

  /** Revoking an ancestor without a name leaves the result of `d` as it was. */
  lemma {:induction false} NamelessRevocation(lib: X509, t: Table, d: CertRow, x: nat, at: string, reason: Option<string>,
                                              now: int, sni: Option<string>)
    requires UniqueIds(t) && d in t && at != "" && d.id != x && !HasName(t, x)
    ensures SameButNoName(Verdict(lib, t, d, now, sni), Verdict(lib, SetRevocation(t, x, Some(at), reason), d, now, sni))
  {
    hide SetRevocation, WalkUp, MarkedAll, NamesOf, Outcome, RevokedAbove, FirstBadLink, SameButNoName, IsChain, UniqueIds;
    var w := WalkUp(t, d, {});
    WalkMarked(t, d, {}, x, Some(at), reason);
    WalkNameless(t, d, x);
    NamelessAbove(w.chain, x, at, reason);
    MarkedColumns(lib, w.chain, x, Some(at), reason);
    SameOutcome(lib, w, Walk(MarkedAll(w.chain, x, Some(at), reason), w.end), d, now, sni);
  }

  lemma {:induction false} WalkNameless(t: Table, d: CertRow, x: nat)
    requires UniqueIds(t) && d in t && !HasName(t, x)
    ensures Nameless(WalkUp(t, d, {}).chain, x)
  {
    var chain := WalkUp(t, d, {}).chain;
    WalkIsChain(t, d, {});
    hide IsChain, UniqueIds, WalkUp;
    forall i | 0 <= i < |chain| && chain[i].id == x ensures chain[i].commonName == "" { ChainRowNamed(t, chain, i, x); }
  }

  lemma {:induction false} MarkedColumns(lib: X509, p: seq<CertRow>, x: nat, at: Option<string>, reason: Option<string>)
    requires p != []
    ensures var q := MarkedAll(p, x, at, reason);
            && NamesOf(q) == NamesOf(p) && FirstBadLink(lib, q, 0) == FirstBadLink(lib, p, 0)
            && q[|q| - 1].issuerId == p[|p| - 1].issuerId
  {
    var q := MarkedAll(p, x, at, reason);
    MarkedPems(p, x, at, reason);
    hide MarkedAll, FirstBadLink;
    SameLinks(lib, p, q, 0);
  }

  lemma {:induction false} MarkedPems(p: seq<CertRow>, x: nat, at: Option<string>, reason: Option<string>)
    requires p != []
    ensures var q := MarkedAll(p, x, at, reason);
            SamePems(p, q) && NamesOf(q) == NamesOf(p) && q[|q| - 1].issuerId == p[|p| - 1].issuerId
  {}

  /** Revoking `x` turns an ok verdict into a failure exactly for x itself and, if x has a
      common name, for the certificates below it. Every certificate off x's subtree keeps its
      full result, and below a nameless x at most the empty name is reported besides. */
  lemma {:induction false} RevocationCascades(lib: X509, t: Table, d: CertRow, x: nat, at: string, reason: Option<string>,
                           now: int, sni: Option<string>)
    requires UniqueIds(t) && d in t && at != ""
    ensures var before := Verdict(lib, t, d, now, sni);
            var after := Verdict(lib, SetRevocation(t, x, Some(at), reason), Marked(d, x, Some(at), reason), now, sni);
            && (IsOk(after) <==> IsOk(before) && !Cuts(t, d, x))
            && (!Cuts(t, d, x) ==> SameButNoName(before, after))
            && (!OnWalk(t, d, x) ==> after == before)
  {
    var mark := Some(at);
    var n := SetRevocation(t, x, mark, reason);
    var w := WalkUp(t, d, {});
    if !OnWalk(t, d, x) {
      WalkMarked(t, d, {}, x, mark, reason);
      OffWalkUntouched(t, d, x, mark, reason);
    } else if !Cuts(t, d, x) {
      NamelessRevocation(lib, t, d, x, at, reason, now, sni);
    } else {
      CutFails(lib, t, d, x, at, reason, now, sni);
    }
  }

  lemma {:induction false} CutFails(lib: X509, t: Table, d: CertRow, x: nat, at: string, reason: Option<string>,
                                    now: int, sni: Option<string>)
    requires UniqueIds(t) && d in t && at != "" && Cuts(t, d, x)
    ensures !IsOk(Verdict(lib, SetRevocation(t, x, Some(at), reason), Marked(d, x, Some(at), reason), now, sni))
  {
    var mark := Some(at);
    var n, d', w := SetRevocation(t, x, mark, reason), Marked(d, x, mark, reason), WalkUp(t, d, {});
    WalkMarked(t, d, {}, x, mark, reason);
    WalkIsChain(t, d, {});
    assert WalkUp(n, d', {}).chain == MarkedAll(w.chain, x, mark, reason);
    OkIff(lib, n, d', now, sni);
    TrustedWalk(lib, n, d');
    if w.end.Rooted? {
      var i := OnWalkMet(t, d, x);
      ChainRowNamed(t, w.chain, i, x);
      assert !NoneNoticed(MarkedAll(w.chain, x, mark, reason)) by {
        assert IsRevoked(MarkedAll(w.chain, x, mark, reason)[i]);
      }
    }
  }

  /** unrevoke undoes revoke on a row that was not revoked before. */
  lemma {:induction false} UnrevokeUndoesRevoke(t: Table, x: nat, at: string, reason: Option<string>)
    ensures SetRevocation(SetRevocation(t, x, Some(at), reason), x, None, None) == t <==>
            forall r :: r in t && r.id == x ==> r.revokedAt.None? && r.revocationReason.None?
  {
    var n := SetRevocation(SetRevocation(t, x, Some(at), reason), x, None, None);
    assert |n| == |t|;
    forall i | 0 <= i < |t| ensures n[i] == Marked(t[i], x, None, None) {}
    if n == t {
      forall r | r in t && r.id == x ensures r.revokedAt.None? && r.revocationReason.None? {
        var i :| 0 <= i < |t| && t[i] == r;
        assert n[i] == r;
      }
    } else if forall r :: r in t && r.id == x ==> r.revokedAt.None? && r.revocationReason.None? {
      forall i | 0 <= i < |t| ensures n[i] == t[i] { assert t[i] in t; }
    }
  }
}
