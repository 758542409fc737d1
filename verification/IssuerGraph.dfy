/** The issuer links form a functional graph that may contain cycles and dangling links.
    Upward and downward walks over it: src/transfer/repoBridge.ts and
    src/certs/generator.ts. */
module IssuerGraph {
  import opened Wrappers
  import opened Certificates

  // ---- chains ----

  /** Each row is followed by the row its issuer link names. */
  ghost predicate IsChain(t: Table, p: seq<CertRow>) {
    && p != [] && p[0] in t
    && forall i :: 0 <= i < |p| - 1 ==> p[i].issuerId.Some? && FindById(t, p[i].issuerId.value) == Some(p[i + 1])
  }

  /** Following issuer links from `d` meets the id `x`: x is a proper ancestor of d. */
  ghost predicate Below(t: Table, d: CertRow, x: nat) {
    exists p :: LeadsTo(t, p, d, x)
  }

  ghost predicate LeadsTo(t: Table, p: seq<CertRow>, d: CertRow, x: nat) {
    IsChain(t, p) && p[0] == d && p[|p| - 1].issuerId == Some(x)
  }

  /** A chain from `row` to a row without an issuer link. */
  ghost predicate RootChain(t: Table, p: seq<CertRow>, row: CertRow) {
    IsChain(t, p) && p[0] == row && p[|p| - 1].issuerId.None?
  }

  lemma {:induction false} ChainIn(t: Table, p: seq<CertRow>, i: nat)
    requires IsChain(t, p) && i < |p|
    ensures p[i] in t
  {
    if i > 0 { assert FindById(t, p[i - 1].issuerId.value) == Some(p[i]); }
  }

  lemma {:induction false} ChainsAgree(t: Table, p: seq<CertRow>, q: seq<CertRow>, i: nat)
    requires IsChain(t, p) && IsChain(t, q) && p[0] == q[0] && i < |p| && i < |q|
    ensures p[i] == q[i]
  {
    if i > 0 { ChainsAgree(t, p, q, i - 1); }
  }

  lemma {:induction false} ChainPrefix(t: Table, p: seq<CertRow>, n: nat)
    requires IsChain(t, p) && 0 < n <= |p|
    ensures IsChain(t, p[..n])
  {}

  lemma {:induction false} ChainSuffix(t: Table, p: seq<CertRow>, n: nat)
    requires IsChain(t, p) && n < |p|
    ensures IsChain(t, p[n..])
  {
    ChainIn(t, p, n);
  }

  /** A chain that visits the row with id `x` after its start makes x an ancestor. */
  lemma {:induction false} LaterRowIsAncestor(t: Table, p: seq<CertRow>, i: nat)
    requires IsChain(t, p) && 0 < i < |p|
    ensures Below(t, p[0], p[i].id)
  {
    ChainPrefix(t, p, i);
    assert LeadsTo(t, p[..i], p[0], p[i].id);
  }

  lemma {:induction false} ChildIsBelow(t: Table, d: CertRow, x: nat)
    requires d in t && d.issuerId == Some(x)
    ensures Below(t, d, x)
  {
    assert LeadsTo(t, [d], d, x);
  }

  lemma {:induction false} BelowParent(t: Table, d: CertRow, parent: CertRow, x: nat)
    requires d in t && d.issuerId.Some? && FindById(t, d.issuerId.value) == Some(parent) && Below(t, parent, x)
    ensures Below(t, d, x)
  {
    var p :| LeadsTo(t, p, parent, x);
    assert LeadsTo(t, [d] + p, d, x);
  }

  /** A set of ids that contains every child of its rows contains everything below them. */
  lemma {:induction false} ClosedUnderChildren(t: Table, s: set<nat>, p: seq<CertRow>)
    requires UniqueIds(t) && IsChain(t, p)
    requires forall c :: c in t && c.issuerId.Some? && c.issuerId.value in s ==> c.id in s
    requires p[|p| - 1].issuerId.Some? && p[|p| - 1].issuerId.value in s
    ensures p[0].id in s
    decreases |p|
  {
    var last := |p| - 1;
    ChainIn(t, p, last);
    assert p[last].id in s;
    if last > 0 {
      ChainPrefix(t, p, last);
      assert p[..last][last - 1] == p[last - 1];
      ClosedUnderChildren(t, s, p[..last]);
    }
  }

  // ---- the upward walk ----

  datatype WalkEnd = Rooted | Dangling(id: nat) | Cyclic

  datatype Walk = Walk(chain: seq<CertRow>, end: WalkEnd)

  /** Issuer links from `cur` on, stopping at a null link, a missing row or an id in `seen`. */
  function WalkUp(t: Table, cur: CertRow, seen: set<nat>): (w: Walk)
    ensures |w.chain| >= 1 && w.chain[0] == cur
    decreases Ids(t) - seen
  {
    if cur.issuerId.None? then Walk([cur], Rooted)
    else
      var id := cur.issuerId.value;
      if id in seen then Walk([cur], Cyclic)
      else
        match FindById(t, id)
        case None => Walk([cur], Dangling(id))
        case Some(parent) =>
          var w := WalkUp(t, parent, seen + {id});
          Walk([cur] + w.chain, w.end)
  }

  lemma {:induction false} WalkIsChain(t: Table, cur: CertRow, seen: set<nat>)
    requires cur in t
    ensures var w := WalkUp(t, cur, seen);
            && IsChain(t, w.chain)
            && var top := w.chain[|w.chain| - 1];
               && (w.end.Rooted? ==> top.issuerId.None?)
               && (w.end.Dangling? ==> top.issuerId == Some(w.end.id) && w.end.id !in Ids(t))
               && (w.end.Cyclic? ==> top.issuerId.Some?)
    decreases Ids(t) - seen
  {
    if cur.issuerId.Some? && cur.issuerId.value !in seen {
      var id := cur.issuerId.value;
      match FindById(t, id)
      case None =>
      case Some(parent) =>
        WalkIsChain(t, parent, seen + {id});
    }
  }

  /** A walk that stops on an id it has seen has gone round a cycle. */
  lemma {:induction false} CyclicWalk(t: Table, cur: CertRow, seen: set<nat>)
    requires cur in t && UniqueIds(t) && WalkUp(t, cur, seen).end.Cyclic?
    ensures var w := WalkUp(t, cur, seen);
            var top := w.chain[|w.chain| - 1];
            && top.issuerId.Some?
            && (top.issuerId.value in seen || exists i :: 0 < i < |w.chain| && w.chain[i].id == top.issuerId.value)
    decreases Ids(t) - seen
  {
    var w := WalkUp(t, cur, seen);
    WalkIsChain(t, cur, seen);
    var id := cur.issuerId.value;
    if id !in seen {
      var parent := FindById(t, id).value;
      CyclicWalk(t, parent, seen + {id});
      WalkIsChain(t, parent, seen + {id});
      var rest := WalkUp(t, parent, seen + {id});
      assert w.chain == [cur] + rest.chain;
      var again := rest.chain[|rest.chain| - 1].issuerId.value;
      assert w.chain[|w.chain| - 1].issuerId.value == again;
      if again == id {
        assert w.chain[1].id == again;
      } else if again !in seen {
        var i :| 0 < i < |rest.chain| && rest.chain[i].id == again;
        assert w.chain[i + 1].id == again;
      }
    }
  }

  /** Only walks that end at a null link have a root. */
  lemma {:induction false} RootedIffRootExists(t: Table, row: CertRow)
    requires row in t && UniqueIds(t)
    ensures WalkUp(t, row, {}).end.Rooted? <==>
            exists p :: RootChain(t, p, row)
  {
    var w := WalkUp(t, row, {});
    WalkIsChain(t, row, {});
    if !w.end.Rooted? {
      WalkCloses(t, row, {});
      forall p: seq<CertRow> | IsChain(t, p) && p[0] == row ensures p[|p| - 1].issuerId.Some? {
        StaysInside(t, w.chain, p, |p| - 1);
        var k :| 0 <= k < |w.chain| && w.chain[k] == p[|p| - 1];
        if k < |w.chain| - 1 { assert w.chain[k].issuerId.Some?; }
      }
    } else {
      assert RootChain(t, w.chain, row);
    }
  }

  /** The chain cannot be prolonged by a row it does not have: its top is a root, dangling,
      or links back into it. */
  ghost predicate Closing(t: Table, c: seq<CertRow>)
    requires c != []
  {
    var top := c[|c| - 1];
    top.issuerId.Some? ==> top.issuerId.value !in Ids(t) || exists k :: 0 <= k < |c| && c[k].id == top.issuerId.value
  }

  lemma {:induction false} NextInside(t: Table, c: seq<CertRow>, row: CertRow, next: CertRow)
    requires UniqueIds(t) && IsChain(t, c) && Closing(t, c) && row in c
    requires row.issuerId.Some? && FindById(t, row.issuerId.value) == Some(next)
    ensures next in c
  {
    var k :| 0 <= k < |c| && c[k] == row;
    if k < |c| - 1 {
      assert next == c[k + 1];
    } else {
      var j :| 0 <= j < |c| && c[j].id == c[|c| - 1].issuerId.value;
      ChainIn(t, c, j);
      FindUnique(t, c[j]);
      assert next == c[j];
    }
  }

  /** Every chain from the same row stays inside such a chain. */
  lemma {:induction false} StaysInside(t: Table, c: seq<CertRow>, p: seq<CertRow>, i: nat)
    requires UniqueIds(t) && IsChain(t, c) && Closing(t, c) && IsChain(t, p) && p[0] == c[0] && i < |p|
    ensures p[i] in c
  {
    if i > 0 {
      StaysInside(t, c, p, i - 1);
      NextInside(t, c, p[i - 1], p[i]);
    }
  }

  lemma {:induction false} WalkCloses(t: Table, row: CertRow, seen: set<nat>)
    requires row in t && UniqueIds(t) && seen <= {row.id}
    ensures IsChain(t, WalkUp(t, row, seen).chain) && Closing(t, WalkUp(t, row, seen).chain)
  {
    var w := WalkUp(t, row, seen);
    WalkIsChain(t, row, seen);
    if w.end.Cyclic? {
      CyclicWalk(t, row, seen);
      assert w.chain[0].id == row.id;
    }
  }

  function Above(t: Table, cur: CertRow, seen: set<nat>): seq<CertRow> {
    WalkUp(t, cur, seen).chain[1..]
  }

  lemma {:induction false} AboveStep(t: Table, cur: CertRow, parent: CertRow, seen: set<nat>)
    requires cur.issuerId == Some(parent.id) && FindById(t, parent.id) == Some(parent) && parent.id !in seen
    ensures Above(t, cur, seen) == [parent] + Above(t, parent, seen + {parent.id})
    ensures WalkUp(t, cur, seen).end == WalkUp(t, parent, seen + {parent.id}).end
  {}

  lemma {:induction false} AboveStop(t: Table, cur: CertRow, seen: set<nat>)
    requires cur.issuerId.Some? ==> cur.issuerId.value in seen || FindById(t, cur.issuerId.value).None?
    ensures Above(t, cur, seen) == []
    ensures WalkUp(t, cur, seen).end ==
            if cur.issuerId.None? then Rooted
            else if cur.issuerId.value in seen then Cyclic else Dangling(cur.issuerId.value)
  {}

  /** The walk from a row meets exactly its proper ancestors. */
  lemma {:induction false} AboveIsAncestors(t: Table, row: CertRow, d: CertRow)
    requires UniqueIds(t) && row in t
    ensures d in Above(t, row, {row.id}) && d.id != row.id <==> d in t && d.id != row.id && Below(t, row, d.id)
  {
    var c := WalkUp(t, row, {row.id}).chain;
    WalkCloses(t, row, {row.id});
    if d in c[1..] {
      var i :| 0 < i < |c| && c[i] == d;
      ChainIn(t, c, i);
      LaterRowIsAncestor(t, c, i);
    }
    if d in t && d.id != row.id && Below(t, row, d.id) {
      var p :| LeadsTo(t, p, row, d.id);
      StaysInside(t, c, p, |p| - 1);
      FindUnique(t, d);
      NextInside(t, c, p[|p| - 1], d);
      assert d != c[0];
    }
  }

  /** parentsOf: the rows above `row`, stopping before any row is met twice. */
  method ParentsOf(t: Table, row: CertRow) returns (chain: seq<CertRow>)
    ensures chain == Above(t, row, {row.id})
    ensures UniqueIds(t) && row in t ==> forall d :: d in chain <==> d in t && d.id != row.id && Below(t, row, d.id)
    ensures forall i :: 0 <= i < |chain| ==> chain[i].id != row.id
    ensures forall i, j :: 0 <= i < j < |chain| ==> chain[i].id != chain[j].id
  {
    hide Above, WalkUp, UniqueIds, Below;
    chain := [];
    var cur := row;
    var seen := {row.id};
    while cur.issuerId.Some?
      invariant row.id in seen
      invariant Above(t, row, {row.id}) == chain + Above(t, cur, seen)
      invariant forall i :: 0 <= i < |chain| ==> chain[i].id in seen && chain[i].id != row.id
      invariant forall i, j :: 0 <= i < j < |chain| ==> chain[i].id != chain[j].id
      decreases Ids(t) - seen
    {
      var parent := FindById(t, cur.issuerId.value);
      if parent.None? || parent.value.id in seen { break; }
      assert parent.value.id in Ids(t);
      AboveStep(t, cur, parent.value, seen);
      chain := chain + [parent.value];
      seen := seen + {parent.value.id};
      cur := parent.value;
    }
    AboveStop(t, cur, seen);
    if UniqueIds(t) && row in t {
      forall d ensures d in chain <==> d in t && d.id != row.id && Below(t, row, d.id) { AboveIsAncestors(t, row, d); }
    }
  }

  // ---- the downward walks ----

  function Members(ids: seq<nat>): set<nat> {
    set x | x in ids
  }

  /** Rows of `out` are distinct members strictly below the root, and `seen` is their ids. */
  ghost predicate Found(t: Table, rootId: nat, out: seq<CertRow>, seen: set<nat>) {
    && seen == {rootId} + (set d | d in out :: d.id)
    && (forall d :: d in out ==> d in t && d.id != rootId && Below(t, d, rootId))
    && (forall i, j :: 0 <= i < j < |out| ==> out[i].id != out[j].id)
  }

  /** Every child of a seen id is seen, except possibly children of ids in `open`. */
  ghost predicate ExploredExcept(t: Table, seen: set<nat>, open: set<nat>) {
    forall c :: c in t && c.issuerId.Some? && c.issuerId.value in seen - open ==> c.id in seen
  }

  lemma {:induction false} FoundOneMore(t: Table, rootId: nat, out: seq<CertRow>, seen: set<nat>, kid: CertRow, cur: nat)
    requires UniqueIds(t) && Found(t, rootId, out, seen) && cur in seen
    requires kid in t && kid.issuerId == Some(cur) && kid.id !in seen
    ensures Found(t, rootId, out + [kid], seen + {kid.id})
  {
    if cur == rootId {
      ChildIsBelow(t, kid, rootId);
    } else {
      var parent :| parent in out && parent.id == cur;
      FindUnique(t, parent);
      BelowParent(t, kid, parent, rootId);
    }
  }

  lemma {:induction false} FoundAll(t: Table, rootId: nat, out: seq<CertRow>, seen: set<nat>)
    requires UniqueIds(t) && Found(t, rootId, out, seen) && ExploredExcept(t, seen, {})
    ensures forall d :: d in out <==> d in t && d.id != rootId && Below(t, d, rootId)
  {
    forall d | d in t && d.id != rootId && Below(t, d, rootId) ensures d in out {
      var p :| LeadsTo(t, p, d, rootId);
      ClosedUnderChildren(t, seen, p);
      var e :| e in out && e.id == d.id;
      FindUnique(t, e);
      FindUnique(t, d);
    }
  }

  /** The body of descendantsOf's outer loop: rows issued by `cur` that are new. */
  method VisitKids(t: Table, rootId: nat, cur: nat, out0: seq<CertRow>, stack0: seq<nat>, seen0: set<nat>)
    returns (out: seq<CertRow>, stack: seq<nat>, seen: set<nat>)
    requires UniqueIds(t) && Found(t, rootId, out0, seen0) && cur in seen0
    requires forall s :: s in stack0 ==> s in seen0
    requires ExploredExcept(t, seen0, Members(stack0) + {cur})
    ensures Found(t, rootId, out, seen)
    ensures forall s :: s in stack ==> s in seen
    ensures ExploredExcept(t, seen, Members(stack))
    ensures (seen == seen0 && stack == stack0) || Ids(t) - seen < Ids(t) - seen0
  {
    hide Found, ExploredExcept;
    out, stack, seen := out0, stack0, seen0;
    var kids := IssuedBy(t, cur);
    for k := 0 to |kids|
      invariant Found(t, rootId, out, seen)
      invariant cur in seen && forall s :: s in stack ==> s in seen
      invariant ExploredExcept(t, seen, Members(stack) + {cur})
      invariant forall j :: 0 <= j < k ==> kids[j].id in seen
      invariant (seen == seen0 && stack == stack0) || Ids(t) - seen < Ids(t) - seen0
    {
      assert kids[k] in kids;
      if kids[k].id !in seen {
        FoundOneMore(t, rootId, out, seen, kids[k], cur);
        ExploredGrows(t, seen, stack, cur, kids[k].id);
        assert kids[k].id in Ids(t);
        seen := seen + {kids[k].id};
        out := out + [kids[k]];
        stack := stack + [kids[k].id];
      }
    }
    KidsExplored(t, seen, Members(stack), cur, kids);
  }

  /** descendantsOf: an explicit stack and a set of seen ids. */
  method DescendantsOf(t: Table, rootId: nat) returns (out: seq<CertRow>)
    requires UniqueIds(t)
    ensures forall d :: d in out <==> d in t && d.id != rootId && Below(t, d, rootId)
    ensures forall i, j :: 0 <= i < j < |out| ==> out[i].id != out[j].id
  {
    out := [];
    var stack := [rootId];
    var seen := {rootId};
    assert Found(t, rootId, out, seen);
    assert rootId in stack && ExploredExcept(t, seen, Members(stack));
    hide Found, ExploredExcept;
    while stack != []
      invariant Found(t, rootId, out, seen)
      invariant forall s :: s in stack ==> s in seen
      invariant ExploredExcept(t, seen, Members(stack))
      decreases Ids(t) - seen, |stack|
    {
      var cur := stack[|stack| - 1];
      assert cur in stack;
      assert stack == stack[..|stack| - 1] + [cur];
      assert Members(stack) == Members(stack[..|stack| - 1]) + {cur};
      stack := stack[..|stack| - 1];
      out, stack, seen := VisitKids(t, rootId, cur, out, stack, seen);
    }
    assert Members(stack) == {};
    FoundAll(t, rootId, out, seen);
    FoundDistinct(t, rootId, out, seen);
  }

  lemma {:induction false} FoundDistinct(t: Table, rootId: nat, out: seq<CertRow>, seen: set<nat>)
    requires Found(t, rootId, out, seen)
    ensures forall i, j :: 0 <= i < j < |out| ==> out[i].id != out[j].id
  {}

  lemma {:induction false} ExploredGrows(t: Table, seen: set<nat>, stack: seq<nat>, cur: nat, id: nat)
    requires ExploredExcept(t, seen, Members(stack) + {cur})
    ensures ExploredExcept(t, seen + {id}, Members(stack + [id]) + {cur})
  {}

  lemma {:induction false} KidsExplored(t: Table, seen: set<nat>, open: set<nat>, cur: nat, kids: seq<CertRow>)
    requires ExploredExcept(t, seen, open + {cur}) && kids == IssuedBy(t, cur)
    requires forall j :: 0 <= j < |kids| ==> kids[j].id in seen
    ensures ExploredExcept(t, seen, open)
  {
    forall c | c in t && c.issuerId.Some? && c.issuerId.value in seen - open ensures c.id in seen {
      if c.issuerId.value == cur { assert c in kids; }
    }
  }

  // ---- collectSubtreePems ----

  /** Rows of `rows` are distinct, and `seen` holds their ids and ids of missing rows. */
  ghost predicate Collected(t: Table, rows: seq<CertRow>, seen: set<nat>) {
    && (forall r :: r in rows ==> r in t && r.id in seen)
    && (forall r :: r in t && r.id in seen ==> r in rows)
    && (forall i, j :: 0 <= i < j < |rows| ==> rows[i].id != rows[j].id)
  }

  function PemsOf(rows: seq<CertRow>): (r: seq<string>)
    ensures |r| == |rows|
  {
    seq(|rows|, i requires 0 <= i < |rows| => rows[i].certPem)
  }

  ghost predicate ChildOf(t: Table, c: CertRow, ids: set<nat>) {
    c in t && c.issuerId.Some? && c.issuerId.value in ids && c.issuerId.value in Ids(t)
  }

  /** Every child of a row that was newly visited (other than `pending`) is visited too. */
  ghost predicate Closed(t: Table, seen0: set<nat>, seen: set<nat>, pending: set<nat>) {
    forall c :: ChildOf(t, c, seen - seen0 - pending) ==> c.id in seen
  }

  /** Newly visited rows are `id`'s own or lie below it. */
  ghost predicate Reached(t: Table, seen0: set<nat>, seen: set<nat>, id: nat) {
    forall r :: r in t && r.id in seen - seen0 ==> r.id == id || Below(t, r, id)
  }

  lemma {:induction false} BelowTransitive(t: Table, d: CertRow, mid: CertRow, x: nat)
    requires FindById(t, mid.id) == Some(mid) && Below(t, d, mid.id) && mid.issuerId == Some(x)
    ensures Below(t, d, x)
  {
    var p :| LeadsTo(t, p, d, mid.id);
    assert LeadsTo(t, p + [mid], d, x);
  }

  lemma {:induction false} ReachedThroughKid(t: Table, seen0: set<nat>, s1: set<nat>, s2: set<nat>, kid: CertRow, id: nat)
    requires UniqueIds(t) && kid in t && kid.issuerId == Some(id) && s1 <= s2
    requires Reached(t, seen0, s1, id) && Reached(t, s1, s2, kid.id)
    ensures Reached(t, seen0, s2, id)
  {
    FindUnique(t, kid);
    forall r | r in t && r.id in s2 - seen0 ensures r.id == id || Below(t, r, id) {
      if r.id !in s1 {
        if r.id == kid.id {
          FindUnique(t, r);
          ChildIsBelow(t, kid, id);
        } else {
          BelowTransitive(t, r, kid, id);
        }
      }
    }
  }

  lemma {:induction false} ClosedThroughKid(t: Table, seen0: set<nat>, s1: set<nat>, s2: set<nat>, id: nat)
    requires s1 <= s2 && Closed(t, seen0, s1, {id}) && Closed(t, s1, s2, {})
    ensures Closed(t, seen0, s2, {id})
  {
    forall c | ChildOf(t, c, s2 - seen0 - {id}) ensures c.id in s2 {
      if c.issuerId.value in s1 {
        assert ChildOf(t, c, s1 - seen0 - {id});
      } else {
        assert ChildOf(t, c, s2 - s1 - {});
      }
    }
  }

  lemma {:induction false} ThroughKid(t: Table, seen0: set<nat>, s1: set<nat>, s2: set<nat>, kid: CertRow, id: nat)
    requires UniqueIds(t) && kid in t && kid.issuerId == Some(id) && s1 <= s2
    requires Closed(t, seen0, s1, {id}) && Closed(t, s1, s2, {})
    requires Reached(t, seen0, s1, id) && Reached(t, s1, s2, kid.id)
    ensures Closed(t, seen0, s2, {id}) && Reached(t, seen0, s2, id)
  {
    hide *;
    ClosedThroughKid(t, seen0, s1, s2, id);
    ReachedThroughKid(t, seen0, s1, s2, kid, id);
  }

  lemma {:induction false} KidsClose(t: Table, seen0: set<nat>, seen: set<nat>, id: nat)
    requires Closed(t, seen0, seen, {id})
    requires forall c :: c in IssuedBy(t, id) ==> c.id in seen
    ensures Closed(t, seen0, seen, {})
  {
    forall c | ChildOf(t, c, seen - seen0 - {}) ensures c.id in seen {
      if c.issuerId.value == id {
        assert c in IssuedBy(t, id);
      } else {
        assert ChildOf(t, c, seen - seen0 - {id});
      }
    }
  }

  lemma {:induction false} CollectedOneMore(t: Table, rows: seq<CertRow>, seen: set<nat>, row: CertRow)
    requires UniqueIds(t) && Collected(t, rows, seen) && row in t && row.id !in seen
    ensures Collected(t, rows + [row], seen + {row.id})
  {
    forall r | r in t && r.id in seen + {row.id} ensures r in rows + [row] {
      if r.id == row.id { FindUnique(t, r); FindUnique(t, row); }
    }
  }

  lemma {:induction false} JustVisited(t: Table, seen0: set<nat>, id: nat)
    ensures Closed(t, seen0, seen0 + {id}, {id}) && Reached(t, seen0, seen0 + {id}, id)
  {}

  /** The recursive `walk` of collectSubtreePems; `rows` are those whose PEM was pushed. */
  method CollectFrom(t: Table, id: nat, rows0: seq<CertRow>, seen0: set<nat>)
    returns (rows: seq<CertRow>, seen: set<nat>)
    requires UniqueIds(t) && Collected(t, rows0, seen0)
    ensures Collected(t, rows, seen) && seen0 <= seen && id in seen && rows0 <= rows
    ensures id !in Ids(t) ==> rows == rows0
    ensures Closed(t, seen0, seen, {}) && Reached(t, seen0, seen, id)
    decreases Ids(t) - seen0
  {
    rows, seen := rows0, seen0;
    if id in seen { return; }
    seen := seen + {id};
    var row := FindById(t, id);
    if row.None? { return; }
    assert id in Ids(t);
    CollectedOneMore(t, rows, seen0, row.value);
    rows := rows + [row.value];
    JustVisited(t, seen0, id);
    hide *;
    var kids := IssuedBy(t, id);
    for k := 0 to |kids|
      invariant Collected(t, rows, seen) && seen0 + {id} <= seen && rows0 <= rows
      invariant Closed(t, seen0, seen, {id}) && Reached(t, seen0, seen, id)
      invariant forall j :: 0 <= j < k ==> kids[j].id in seen
    {
      assert kids[k] in kids;
      ghost var s1 := seen;
      assert Ids(t) - seen < Ids(t) - seen0;
      rows, seen := CollectFrom(t, kids[k].id, rows, seen);
      ThroughKid(t, seen0, s1, seen, kids[k], id);
    }
    KidsClose(t, seen0, seen, id);
  }

  /** collectSubtreePems: the PEMs of the root (if it exists) and of everything below it. */
  method CollectSubtreePems(t: Table, rootId: nat) returns (pems: seq<string>, ghost rows: seq<CertRow>)
    requires UniqueIds(t)
    ensures pems == PemsOf(rows)
    ensures forall r :: r in rows <==> InSubtree(t, r, rootId)
    ensures forall i, j :: 0 <= i < j < |rows| ==> rows[i].id != rows[j].id
  {
    var found, seen := CollectFrom(t, rootId, [], {});
    SubtreeCollected(t, found, seen, rootId);
    rows := found;
    pems := PemsOf(found);
  }

  ghost predicate InSubtree(t: Table, r: CertRow, rootId: nat) {
    r in t && rootId in Ids(t) && (r.id == rootId || Below(t, r, rootId))
  }

  lemma {:induction false} SubtreeCollected(t: Table, rows: seq<CertRow>, seen: set<nat>, rootId: nat)
    requires UniqueIds(t) && Collected(t, rows, seen) && rootId in seen
    requires Closed(t, {}, seen, {}) && Reached(t, {}, seen, rootId)
    requires rootId !in Ids(t) ==> rows == []
    ensures forall r :: r in rows <==> InSubtree(t, r, rootId)
  {
    forall c | c in t && c.issuerId.Some? && c.issuerId.value in seen * Ids(t) ensures c.id in seen * Ids(t) {
      assert ChildOf(t, c, seen - {} - {});
    }
    forall r | InSubtree(t, r, rootId) ensures r in rows {
      if r.id != rootId {
        var p :| LeadsTo(t, p, r, rootId);
        ClosedUnderChildren(t, seen * Ids(t), p);
      }
    }
  }
}
