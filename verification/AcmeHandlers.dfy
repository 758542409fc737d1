/** What each request and the expiry tick do to the rows, told from the request and the rows
    it finds, for every state that a run can reach. */
module AcmeHandlers {
  import opened Wrappers
  import opened Names
  import opened DnsDispatch
  import opened AcmeModel
  import opened AcmeIssuance

  // ---- finalize ----

  /** Lower-cased, the CSR names exactly the order's identifiers: by its alternative names or,
      without any, by its common name alone. */
  predicate SameNames(order: Order, csr: Csr) {
    var named := if csr.sans != [] then csr.sans
                 else if csr.commonName.Some? && csr.commonName.value != "" then [csr.commonName.value]
                 else [];
    (set i | i in order.identifiers && i.kind == "dns" :: Lower(i.value)) == (set n | n in named :: Lower(n))
  }

  /** The account asks for its own ready order, with a CSR that parses and names the same. */
  predicate MayFinalize(db: Db, account: Id, o: Id, csr: Option<Csr>) {
    && o in db.orders && db.orders[o].account == account && db.orders[o].status == Ready
    && csr.Some? && SameNames(db.orders[o], csr.value)
  }

  ghost predicate IssuesCert(db: Db, n: Db) {
    exists x :: x in n.certs && x !in db.certs
  }

  /** A certificate is issued exactly for such a request if signing succeeds; a failed
      signature makes the order invalid, and any other request changes nothing. */
  lemma {:induction false} FinalizeIssuesIff(cfg: Config, actions: seq<Action>, account: Id, o: Id, csr: Option<Csr>, signed: bool)
    ensures var s := Run(cfg, Initial, actions);
            var n := Step(cfg, s, DoFinalize(account, o, csr, signed));
            && (IssuesCert(s.db, n.db) <==> MayFinalize(s.db, account, o, csr) && signed)
            && (MayFinalize(s.db, account, o, csr) && !signed ==>
                  n == s.(db := s.db.(orders := s.db.orders[o := s.db.orders[o].(status := Invalid)])))
            && (!MayFinalize(s.db, account, o, csr) ==> n == s)
  {
    RunInv(cfg, actions);
    var s := Run(cfg, Initial, actions);
    var n := Step(cfg, s, DoFinalize(account, o, csr, signed));
    assert s.db.nextId !in s.db.certs;
    MayFinalizeIff(s.db, account, o, csr);
    hide Run, Inv, Lower, SubjectOf, FirstExpected, ExpectedSans, MayFinalize, FinalizeProblem;
    if MayFinalize(s.db, account, o, csr) {
      assert o in s.db.orders && csr.Some? by { MayFinalizeOrder(s.db, account, o, csr); }
      if signed { assert s.db.nextId in n.db.certs; }
    }
  }

  lemma {:induction false} MayFinalizeOrder(db: Db, account: Id, o: Id, csr: Option<Csr>)
    requires MayFinalize(db, account, o, csr)
    ensures o in db.orders && csr.Some?
  {}

  lemma {:induction false} MayFinalizeIff(db: Db, account: Id, o: Id, csr: Option<Csr>)
    ensures MayFinalize(db, account, o, csr) <==> FinalizeProblem(db, account, o, csr).None?
  {
    hide SameNames, LowerAll, ExpectedSans, NamesOfCsr;
    if o in db.orders && csr.Some? { SameNamesIff(db.orders[o], csr.value); }
  }

  lemma {:induction false} SameNamesIff(order: Order, csr: Csr)
    ensures SameNames(order, csr) <==> ExpectedSans(order.identifiers) == LowerAll(NamesOfCsr(csr))
  {
    hide Lower;
  }

  /** What a successful finalize writes: one certificate row for the order, its account and
      its names, and the order that names it, becomes valid and keeps the CSR. */
  lemma {:induction false} FinalizeWrites(cfg: Config, s: State, account: Id, o: Id, csr: Csr)
    requires MayFinalize(s.db, account, o, Some(csr))
    ensures var n := Step(cfg, s, DoFinalize(account, o, Some(csr), true));
            var x := s.db.nextId;
            && n.db.certs.Keys == s.db.certs.Keys + {x}
            && (forall y :: y in s.db.certs && y != x ==> n.db.certs[y] == s.db.certs[y])
            && n.db.certs[x].order == o && n.db.certs[x].account == account
            && n.db.certs[x].sans == (set i | i in s.db.orders[o].identifiers && i.kind == "dns" :: Lower(i.value))
            && n.db.orders == s.db.orders[o := s.db.orders[o].(status := Valid, cert := Some(x), csr := Some(csr))]
            && n == s.(db := s.db.(orders := n.db.orders, certs := n.db.certs, nextId := x + 1))
  {
    SameNamesIff(s.db.orders[o], csr);
    hide Lower, SubjectOf, FirstExpected;
  }

  // ---- newAccount ----

  /** A new account has its key's thumbprint and an id of its own; nothing else changes. */
  lemma {:induction false} AccountAdded(cfg: Config, actions: seq<Action>, thumbprint: string)
    ensures var s := Run(cfg, Initial, actions);
            var n := Step(cfg, s, DoNewAccount(thumbprint));
            && s.db.nextId !in s.db.accounts
            && n == s.(db := s.db.(accounts := s.db.accounts[s.db.nextId := thumbprint], nextId := s.db.nextId + 1))
  {
    RunInv(cfg, actions);
    hide Run;
  }

  // ---- challenge ----

  /** The account may trigger a challenge of an authorization of its own order. */
  predicate OwnsChallenge(db: Db, account: Id, c: Id) {
    && c in db.challenges && db.challenges[c].authz in db.authzs
    && db.authzs[db.challenges[c].authz].order in db.orders
    && db.orders[db.authzs[db.challenges[c].authz].order].account == account
  }

  /** Only the owner's request queues a challenge, and only a pending one; it is due at once. */
  lemma {:induction false} ChallengeQueuedIff(cfg: Config, s: State, account: Id, c: Id, now: int)
    ensures var n := Step(cfg, s, DoChall(account, c, now));
            if OwnsChallenge(s.db, account, c) && s.db.challenges[c].status == ChPending
            then n == s.(db := s.db.(challenges := s.db.challenges[c := s.db.challenges[c].(status := ChProcessing, nextCheck := Some(now))]))
            else n == s
  {}

  // ---- expiry ----

  /** Exactly the orders that are pending, ready or processing and the authorizations that are
      pending, each with its own time in the past, become expired. */
  lemma {:induction false} ExpiredIff(cfg: Config, s: State, now: int)
    ensures var n := Step(cfg, s, DoExpire(now));
            && n.db.orders.Keys == s.db.orders.Keys && n.db.authzs.Keys == s.db.authzs.Keys
            && (forall o :: o in s.db.orders ==>
                  n.db.orders[o] ==
                  if s.db.orders[o].expires < now && (s.db.orders[o].status == Pending || s.db.orders[o].status == Ready
                                                      || s.db.orders[o].status == Processing)
                  then s.db.orders[o].(status := Expired) else s.db.orders[o])
            && (forall a :: a in s.db.authzs ==>
                  n.db.authzs[a] ==
                  if s.db.authzs[a].expires < now && s.db.authzs[a].status == AuthzPending
                  then s.db.authzs[a].(status := AuthzExpired) else s.db.authzs[a])
            && n == s.(db := s.db.(orders := n.db.orders, authzs := n.db.authzs))
  {}

  // ---- newOrder: which requests are accepted ----

  /** A pattern allows its own name; "*.base" also allows base and every name under it. */
  ghost predicate Allows(pattern: string, name: string) {
    name == pattern || exists base: string :: pattern == "*." + base && IsAtOrUnder(name, base)
  }

  lemma {:induction false} AllowsIff(pattern: string, name: string)
    ensures PassesPattern(name, pattern) <==> Allows(pattern, name)
  {
    hide IsAtOrUnder;
    if IsWildcard(pattern) {
      assert pattern == "*." + pattern[2..];
      EndsIff(name, pattern[2..]);
      forall base: string | pattern == "*." + base ensures base == pattern[2..] {}
    } else {
      forall base: string ensures pattern != "*." + base { assert ("*." + base)[..2] == "*."; }
    }
  }

  /** The allow-list is empty, or one of its patterns allows the name, in any case. */
  lemma {:induction false} AllowListIff(cfg: Config, name: string)
    ensures PassesAllowList(cfg, name) <==> cfg.allow == [] || exists p :: p in cfg.allow && Allows(Lower(p), Lower(name))
  {
    hide PassesPattern, Allows, Lower;
    forall p | p in cfg.allow ensures PassesPattern(Lower(name), Lower(p)) <==> Allows(Lower(p), Lower(name)) {
      AllowsIff(Lower(p), Lower(name));
    }
  }

  /** Identifier k is of another type than DNS or not allowed, and the ones before it are fine. */
  ghost predicate FirstOffends(cfg: Config, ids: seq<Identifier>, k: nat) {
    && k < |ids| && Offends(cfg, ids[k])
    && forall j :: 0 <= j < k ==> !Offends(cfg, ids[j])
  }

  predicate Offends(cfg: Config, id: Identifier) {
    id.kind != "dns" || !PassesAllowList(cfg, id.value)
  }

  /** The first offending identifier decides, and its type is looked at before its name. */
  lemma {:induction false} IdentifierProblemIs(cfg: Config, ids: seq<Identifier>, k: nat)
    requires FirstOffends(cfg, ids, k)
    ensures IdentifierProblem(cfg, ids) == Some(if ids[k].kind != "dns" then UnsupportedIdentifier else RejectedIdentifier)
  {
    hide PassesAllowList;
    if k > 0 {
      assert !Offends(cfg, ids[0]);
      assert FirstOffends(cfg, ids[1..], k - 1) by {
        forall j | 0 <= j < k - 1 ensures !Offends(cfg, ids[1..][j]) { assert ids[1..][j] == ids[j + 1]; }
      }
      IdentifierProblemIs(cfg, ids[1..], k - 1);
    }
  }

  /** The account exists, there are identifiers and all of them may be ordered; a
      server-managed order also needs dns-01 and a provider for every identifier. */
  ghost predicate MayOrder(cfg: Config, db: Db, account: Id, ids: seq<Identifier>, managed: bool) {
    && account in db.accounts && ids != []
    && (forall i :: i in ids ==> i.kind == "dns" && (cfg.allow == [] || exists p :: p in cfg.allow && Allows(Lower(p), Lower(i.value))))
    && (managed ==> cfg.dns01 && cfg.rules.Some? && forall i :: i in ids ==> HasProvider(cfg.rules.value, i.value))
  }

  /** Some zone of some rule matches the name. */
  ghost predicate HasProvider(rules: seq<Rule>, name: string) {
    exists i, s :: Matches(LookupName(name), rules, i, s)
  }

  lemma {:induction false} NoProblemIff(cfg: Config, ids: seq<Identifier>)
    ensures IdentifierProblem(cfg, ids).None? <==> forall i :: i in ids ==> !Offends(cfg, i)
  {
    hide PassesAllowList;
    if ids != [] {
      NoProblemIff(cfg, ids[1..]);
      assert ids[0] in ids && forall i :: i in ids[1..] ==> i in ids;
      if !Offends(cfg, ids[0]) && IdentifierProblem(cfg, ids[1..]).None? {
        forall i | i in ids ensures !Offends(cfg, i) { assert i == ids[0] || i in ids[1..]; }
      }
    }
  }

  /** A request makes a new order exactly when it may, and otherwise changes nothing. */
  lemma {:induction false} NewOrderIff(cfg: Config, s: State, account: Id, ids: seq<Identifier>, managed: bool, tokens: seq<string>, now: int)
    requires |tokens| == 2 * |ids| && FreshTokens(s.db, tokens)
    ensures var n := Step(cfg, s, DoNewOrder(account, ids, managed, tokens, now));
            if MayOrder(cfg, s.db, account, ids, managed)
            then s.db.nextId in n.db.orders
                 && n.db.orders == s.db.orders[s.db.nextId := Order(account, Pending, ids, now + cfg.ttl, managed, None, None)]
            else n == s
  {
    MayOrderIff(cfg, s.db, account, ids, managed);
    hide MayOrder, NewOrderProblem, FreshTokens, InsertIdentifiers;
    var db1 := InsertOrder(s.db, account, ids, managed, now + cfg.ttl);
    RoundsKeepOrders(cfg, db1, s.db.nextId, ids, managed, tokens, now, |ids|);
  }

  lemma {:induction false} ProviderIff(rules: seq<Rule>, name: string)
    ensures Pick(name, rules).Some? <==> HasProvider(rules, name)
  {
    PickIsFirstMostSpecific(name, rules);
  }

  // ---- newOrder: the rows it makes ----

  ghost predicate RowsBelow(d: Db) {
    && (forall a :: a in d.authzs ==> a < d.nextId)
    && (forall c :: c in d.challenges ==> c < d.nextId && d.challenges[c].authz < d.nextId)
  }

  function ChallengesOf(d: Db, a: Id): set<Challenge> {
    set c | c in d.challenges && d.challenges[c].authz == a :: d.challenges[c]
  }

  /** The authorization: the posted name without "*.", which is remembered. */
  function AuthzFor(cfg: Config, o: Id, posted: string, now: int): Authz {
    var wildcard := |posted| >= 2 && posted[0] == '*' && posted[1] == '.';
    Authz(o, if wildcard then posted[2..] else posted, wildcard, AuthzPending, now + cfg.ttl)
  }

  /** dns-01 if it is enabled, queued at once if the server manages it; http-01 if it is
      enabled, for client-placed orders and names without a wildcard only. */
  function ChallengesFor(cfg: Config, a: Id, posted: string, managed: bool, dnsToken: string, httpToken: string, now: int): set<Challenge> {
    var wildcard := |posted| >= 2 && posted[0] == '*' && posted[1] == '.';
    (if !cfg.dns01 then {}
     else if managed then {Challenge(a, Dns01, dnsToken, ChProcessing, 0, Some(now))}
     else {Challenge(a, Dns01, dnsToken, ChPending, 0, None)}) +
    if managed || wildcard || !cfg.http01 then {} else {Challenge(a, Http01, httpToken, ChPending, 0, None)}
  }

  lemma {:induction false} WildcardIff(posted: string)
    ensures IsWildcard(posted) <==> |posted| >= 2 && posted[0] == '*' && posted[1] == '.'
  {
    if |posted| >= 2 { assert posted[..2] == [posted[0], posted[1]]; }
  }

  lemma {:induction false} RoundCreates(cfg: Config, d: Db, o: Id, posted: string, managed: bool, t1: string, t2: string, now: int)
    requires RowsBelow(d)
    ensures var e := InsertIdentifier(cfg, d, o, posted, managed, t1, t2, now);
            && RowsBelow(e) && d.nextId < e.nextId
            && e.authzs == d.authzs[d.nextId := AuthzFor(cfg, o, posted, now)]
            && ChallengesOf(e, d.nextId) == ChallengesFor(cfg, d.nextId, posted, managed, t1, t2, now)
            && forall b :: b != d.nextId ==> ChallengesOf(e, b) == ChallengesOf(d, b)
  {
    var a := d.nextId;
    var d1 := InsertAuthz(d, o, posted, now + cfg.ttl);
    WildcardIff(posted);
    assert RowsBelow(d1) by { AuthzBelow(d, o, posted, now + cfg.ttl); }
    var d2 := DnsRound(cfg, d, d1, a, managed, t1, now);
    var http := !managed && cfg.http01 && !IsWildcard(posted);
    var e := InsertIdentifier(cfg, d, o, posted, managed, t1, t2, now);
    assert e == if http then InsertChallenge(d2, a, Http01, t2) else d2;
    assert d1.authzs == d.authzs[a := AuthzFor(cfg, o, posted, now)];
    hide ChallengesOf, RowsBelow, QueueChallenge, InsertIdentifier, InsertAuthz, InsertChallenge, AuthzFor, StoredValue;
    if http { var f := ChallengeInserted(d2, a, Http01, t2, false, now); }
  }

  lemma {:induction false} AuthzBelow(d: Db, o: Id, posted: string, expires: int)
    requires RowsBelow(d)
    ensures RowsBelow(InsertAuthz(d, o, posted, expires))
  {}

  /** The dns-01 half of a round. */
  lemma {:induction false} DnsRound(cfg: Config, d: Db, d1: Db, a: Id, managed: bool, t1: string, now: int) returns (d2: Db)
    requires RowsBelow(d) && a == d.nextId && d1.nextId == a + 1 && d1.challenges == d.challenges
    requires RowsBelow(d1)
    ensures d2 == if !cfg.dns01 then d1
                  else var i := InsertChallenge(d1, a, Dns01, t1); if managed then QueueChallenge(i, d1.nextId, now) else i
    ensures RowsBelow(d2) && d2.authzs == d1.authzs && a < d2.nextId
    ensures ChallengesOf(d2, a) == if !cfg.dns01 then {}
                                   else {Challenge(a, Dns01, t1, if managed then ChProcessing else ChPending, 0, if managed then Some(now) else None)}
    ensures forall b :: b != a ==> ChallengesOf(d2, b) == ChallengesOf(d, b)
  {
    d2 := d1;
    SameChallenges(d, d1, a);
    hide ChallengesOf;
    if cfg.dns01 { d2 := ChallengeInserted(d1, a, Dns01, t1, managed, now); }
  }

  lemma {:induction false} ChallengeInserted(d: Db, a: Id, kind: ChallengeKind, token: string, queue: bool, now: int) returns (e: Db)
    requires RowsBelow(d) && a < d.nextId
    ensures e == var i := InsertChallenge(d, a, kind, token); if queue then QueueChallenge(i, d.nextId, now) else i
    ensures RowsBelow(e) && e.authzs == d.authzs && e.nextId == d.nextId + 1
    ensures forall b :: ChallengesOf(e, b) ==
              ChallengesOf(d, b) +
              if b == a then {Challenge(a, kind, token, if queue then ChProcessing else ChPending, 0, if queue then Some(now) else None)} else {}
  {
    e := InsertChallenge(d, a, kind, token);
    if queue { e := QueueChallenge(e, d.nextId, now); }
    assert e.challenges == d.challenges[d.nextId := e.challenges[d.nextId]];
    hide ChallengesOf;
    OneMoreChallenge(d, e, d.nextId);
  }

  lemma {:induction false} SameChallenges(d: Db, e: Db, a: Id)
    requires RowsBelow(d) && e.challenges == d.challenges && a == d.nextId
    ensures ChallengesOf(e, a) == {} && forall b :: ChallengesOf(e, b) == ChallengesOf(d, b)
  {}

  lemma {:induction false} OneMoreChallenge(d: Db, e: Db, c: Id)
    requires c !in d.challenges && c in e.challenges && e.challenges == d.challenges[c := e.challenges[c]]
    ensures forall b :: ChallengesOf(e, b) == ChallengesOf(d, b) + if b == e.challenges[c].authz then {e.challenges[c]} else {}
  {
    forall b ensures ChallengesOf(e, b) == ChallengesOf(d, b) + if b == e.challenges[c].authz then {e.challenges[c]} else {} {
      forall x ensures x in ChallengesOf(e, b) <==> x in ChallengesOf(d, b) || (b == e.challenges[c].authz && x == e.challenges[c]) {
        if x in ChallengesOf(d, b) {
          var y :| y in d.challenges && d.challenges[y].authz == b && d.challenges[y] == x;
          assert e.challenges[y] == x;
        }
        if b == e.challenges[c].authz && x == e.challenges[c] { assert x in ChallengesOf(e, b); }
      }
    }
  }

  /** The first `n` identifiers have their rows: made[k] is the authorization of ids[k]. */
  ghost predicate Made(cfg: Config, db: Db, d: Db, o: Id, ids: seq<Identifier>, managed: bool, tokens: seq<string>, now: int, made: seq<Id>)
    requires |made| <= |ids| && |tokens| == 2 * |ids|
  {
    && d.authzs.Keys == db.authzs.Keys + (set a | a in made)
    && (forall a :: a in db.authzs ==> d.authzs[a] == db.authzs[a])
    && (forall j, k :: 0 <= j < k < |made| ==> made[j] < made[k])
    && (forall k :: 0 <= k < |made| ==> MadeFor(cfg, d, o, ids[k].value, managed, tokens[2 * k], tokens[2 * k + 1], now, made[k]))
    && (forall b :: b !in made ==> ChallengesOf(d, b) == ChallengesOf(db, b))
  }

  ghost predicate MadeFor(cfg: Config, d: Db, o: Id, posted: string, managed: bool, t1: string, t2: string, now: int, a: Id) {
    && a in d.authzs && d.authzs[a] == AuthzFor(cfg, o, posted, now)
    && ChallengesOf(d, a) == ChallengesFor(cfg, a, posted, managed, t1, t2, now)
  }

  lemma {:induction false} RoundsCreate(cfg: Config, db: Db, o: Id, ids: seq<Identifier>, managed: bool, tokens: seq<string>, now: int, n: nat)
    returns (made: seq<Id>)
    requires n <= |ids| && |tokens| == 2 * |ids| && RowsBelow(db)
    ensures |made| == n
    ensures var d := InsertIdentifiers(cfg, db, o, ids, managed, tokens, now, n);
            RowsBelow(d) && Made(cfg, db, d, o, ids, managed, tokens, now, made)
  {
    hide InsertIdentifier, AuthzFor, ChallengesFor, ChallengesOf, Made, RowsBelow;
    if n == 0 {
      made := [];
      assert Made(cfg, db, db, o, ids, managed, tokens, now, []) by { NothingMade(cfg, db, o, ids, managed, tokens, now); }
    } else {
      var before := RoundsCreate(cfg, db, o, ids, managed, tokens, now, n - 1);
      var d := InsertIdentifiers(cfg, db, o, ids, managed, tokens, now, n - 1);
      var e := InsertIdentifiers(cfg, db, o, ids, managed, tokens, now, n);
      RoundCreates(cfg, d, o, ids[n - 1].value, managed, tokens[2 * n - 2], tokens[2 * n - 1], now);
      made := before + [d.nextId];
      RoundMade(cfg, db, d, e, o, ids, managed, tokens, now, before);
    }
  }

  lemma {:induction false} NothingMade(cfg: Config, db: Db, o: Id, ids: seq<Identifier>, managed: bool, tokens: seq<string>, now: int)
    requires |tokens| == 2 * |ids|
    ensures Made(cfg, db, db, o, ids, managed, tokens, now, [])
  {}

  lemma {:induction false} RoundMade(cfg: Config, db: Db, d: Db, e: Db, o: Id, ids: seq<Identifier>, managed: bool, tokens: seq<string>, now: int, before: seq<Id>)
    requires |before| < |ids| && |tokens| == 2 * |ids| && RowsBelow(d) && Made(cfg, db, d, o, ids, managed, tokens, now, before)
    requires var k := |before|;
             && e.authzs == d.authzs[d.nextId := AuthzFor(cfg, o, ids[k].value, now)]
             && ChallengesOf(e, d.nextId) == ChallengesFor(cfg, d.nextId, ids[k].value, managed, tokens[2 * k], tokens[2 * k + 1], now)
             && forall b :: b != d.nextId ==> ChallengesOf(e, b) == ChallengesOf(d, b)
    ensures Made(cfg, db, e, o, ids, managed, tokens, now, before + [d.nextId])
  {
    hide AuthzFor, ChallengesFor, ChallengesOf, MadeFor;
    var made := before + [d.nextId];
    assert forall a :: a in before ==> a in d.authzs;
    forall k | 0 <= k < |made| ensures MadeFor(cfg, e, o, ids[k].value, managed, tokens[2 * k], tokens[2 * k + 1], now, made[k]) {
      if k < |before| {
        assert before[k] in d.authzs && MadeFor(cfg, d, o, ids[k].value, managed, tokens[2 * k], tokens[2 * k + 1], now, before[k]);
        MadeForKept(cfg, d, e, o, ids[k].value, managed, tokens[2 * k], tokens[2 * k + 1], now, before[k]);
      } else {
        MadeForNew(cfg, e, o, ids[k].value, managed, tokens[2 * k], tokens[2 * k + 1], now, d.nextId);
      }
    }
    assert forall j :: 0 <= j < |before| ==> before[j] in d.authzs;
  }

  lemma {:induction false} MadeForKept(cfg: Config, d: Db, e: Db, o: Id, posted: string, managed: bool, t1: string, t2: string, now: int, a: Id)
    requires MadeFor(cfg, d, o, posted, managed, t1, t2, now, a)
    requires a in e.authzs && e.authzs[a] == d.authzs[a] && ChallengesOf(e, a) == ChallengesOf(d, a)
    ensures MadeFor(cfg, e, o, posted, managed, t1, t2, now, a)
  {}

  lemma {:induction false} MadeForNew(cfg: Config, e: Db, o: Id, posted: string, managed: bool, t1: string, t2: string, now: int, a: Id)
    requires a in e.authzs && e.authzs[a] == AuthzFor(cfg, o, posted, now)
    requires ChallengesOf(e, a) == ChallengesFor(cfg, a, posted, managed, t1, t2, now)
    ensures MadeFor(cfg, e, o, posted, managed, t1, t2, now, a)
  {}

  /** For every run: an accepted request makes one authorization per identifier, in order, each
      with exactly the challenges its kind of order and its name allow. */
  lemma {:induction false} NewOrderCreates(cfg: Config, actions: seq<Action>, account: Id, ids: seq<Identifier>, managed: bool,
                                           tokens: seq<string>, now: int) returns (made: seq<Id>)
    requires var db := Run(cfg, Initial, actions).db;
             |tokens| == 2 * |ids| && FreshTokens(db, tokens) && MayOrder(cfg, db, account, ids, managed)
    ensures var s := Run(cfg, Initial, actions);
            var n := Step(cfg, s, DoNewOrder(account, ids, managed, tokens, now));
            && |made| == |ids| && Made(cfg, s.db, n.db, s.db.nextId, ids, managed, tokens, now, made)
            && n == s.(db := n.db)
  {
    RunInv(cfg, actions);
    var s := Run(cfg, Initial, actions);
    assert RowsBelow(s.db);
    hide Run, Inv, MayOrder, Made, FreshTokens, NewOrderProblem, RowsBelow;
    NewOrderIff(cfg, s, account, ids, managed, tokens, now);
    var n := Step(cfg, s, DoNewOrder(account, ids, managed, tokens, now));
    var db1 := InsertOrder(s.db, account, ids, managed, now + cfg.ttl);
    assert n.db == InsertIdentifiers(cfg, db1, s.db.nextId, ids, managed, tokens, now, |ids|) by { NewOrderRuns(cfg, s, account, ids, managed, tokens, now); }
    assert RowsBelow(db1) by { OrderBelow(s.db, db1); }
    made := RoundsCreate(cfg, db1, s.db.nextId, ids, managed, tokens, now, |ids|);
    MadeSame(cfg, s.db, db1, n.db, s.db.nextId, ids, managed, tokens, now, made);
  }

  lemma {:induction false} NewOrderRuns(cfg: Config, s: State, account: Id, ids: seq<Identifier>, managed: bool, tokens: seq<string>, now: int)
    requires |tokens| == 2 * |ids| && Step(cfg, s, DoNewOrder(account, ids, managed, tokens, now)) != s
    ensures Step(cfg, s, DoNewOrder(account, ids, managed, tokens, now)).db == NewOrder(cfg, s.db, account, ids, managed, tokens, now)
  {}

  lemma {:induction false} OrderBelow(db: Db, db1: Db)
    requires RowsBelow(db) && db1.authzs == db.authzs && db1.challenges == db.challenges && db.nextId <= db1.nextId
    ensures RowsBelow(db1)
  {}

  lemma {:induction false} MadeSame(cfg: Config, db: Db, db1: Db, d: Db, o: Id, ids: seq<Identifier>, managed: bool, tokens: seq<string>, now: int, made: seq<Id>)
    requires |made| <= |ids| && |tokens| == 2 * |ids| && db1.authzs == db.authzs && db1.challenges == db.challenges
    requires Made(cfg, db1, d, o, ids, managed, tokens, now, made)
    ensures Made(cfg, db, d, o, ids, managed, tokens, now, made)
  {
    assert forall b :: ChallengesOf(db1, b) == ChallengesOf(db, b);
  }

  /** What newOrder answers: the checks in their order, the identifiers one by one. */
  lemma {:induction false} NewOrderAnswer(cfg: Config, db: Db, account: Id, ids: seq<Identifier>, managed: bool)
    ensures var problem := NewOrderProblem(cfg, db, account, ids, managed);
            && (account !in db.accounts ==> problem == Some(Unauthorized))
            && (account in db.accounts && ids == [] ==> problem == Some(Malformed))
            && (forall k: nat :: account in db.accounts && FirstOffends(cfg, ids, k) ==>
                  problem == Some(if ids[k].kind != "dns" then UnsupportedIdentifier else RejectedIdentifier))
            && (account in db.accounts && ids != [] && (forall i :: i in ids ==> !Offends(cfg, i)) ==>
                  problem == if MayOrder(cfg, db, account, ids, managed) then None else Some(RejectedIdentifier))
            && (problem.None? <==> MayOrder(cfg, db, account, ids, managed))
  {
    MayOrderIff(cfg, db, account, ids, managed);
    hide PassesAllowList, MayOrder, Pick;
    NoProblemIff(cfg, ids);
    forall k: nat | account in db.accounts && FirstOffends(cfg, ids, k)
      ensures NewOrderProblem(cfg, db, account, ids, managed) == Some(if ids[k].kind != "dns" then UnsupportedIdentifier else RejectedIdentifier)
    {
      IdentifierProblemIs(cfg, ids, k);
    }
  }

  lemma {:induction false} MayOrderIff(cfg: Config, db: Db, account: Id, ids: seq<Identifier>, managed: bool)
    ensures MayOrder(cfg, db, account, ids, managed) <==> NewOrderProblem(cfg, db, account, ids, managed).None?
  {
    hide PassesAllowList, Allows, Lower, Pick, HasProvider;
    NoProblemIff(cfg, ids);
    forall i: Identifier ensures !Offends(cfg, i) <==> i.kind == "dns" && (cfg.allow == [] || exists p :: p in cfg.allow && Allows(Lower(p), Lower(i.value))) {
      AllowListIff(cfg, i.value);
    }
    if cfg.rules.Some? {
      forall i: Identifier ensures Pick(i.value, cfg.rules.value).Some? <==> HasProvider(cfg.rules.value, i.value) {
        ProviderIff(cfg.rules.value, i.value);
      }
    }
    hide Offends;
  }
}
