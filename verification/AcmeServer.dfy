/** The ACME server as it runs: tables, zone and suspended workers changed in place. Every
    method performs one statement or one atomic step and is proved to have exactly the
    effect that AcmeModel.dfy gives it, so the results about runs apply to it. */
module AcmeServer {
  import opened Wrappers
  import opened Names
  import opened DnsDispatch
  import opened AcmeModel
  import H = AcmeHandlers

  // ---- acme-server/src/server/routes.ts: expectedSans and compareSans ----

  /** The set, and the name that was added to it first. */
  method CollectExpectedSans(identifiers: seq<Identifier>) returns (s: set<string>, first: Option<string>)
    ensures s == ExpectedSans(identifiers) && first == FirstExpected(identifiers)
  {
    s, first := {}, None;
    for k := 0 to |identifiers|
      invariant s == ExpectedSans(identifiers[..k]) && first == FirstExpected(identifiers[..k])
    {
      assert identifiers[..k + 1] == identifiers[..k] + [identifiers[k]];
      assert identifiers[..k + 1][..k] == identifiers[..k];
      if identifiers[k].kind == "dns" {
        s := s + {Lower(identifiers[k].value)};
        if first.None? { first := Some(Lower(identifiers[k].value)); }
      }
    }
    assert identifiers[..|identifiers|] == identifiers;
  }

  method CompareSans(want: set<string>, got: seq<string>) returns (ok: bool)
    ensures ok <==> want == LowerAll(got)
  {
    var have: set<string> := {};
    for k := 0 to |got|
      invariant have == LowerAll(got[..k])
    {
      assert got[..k + 1] == got[..k] + [got[k]];
      have := have + {Lower(got[k])};
    }
    assert got[..|got|] == got;
    if |have| != |want| {
      return false;
    }
    var rest := want;
    while rest != {}
      invariant rest <= want
      invariant want - rest <= have
      decreases |rest|
    {
      var w :| w in rest;
      if w !in have { return false; }
      rest := rest - {w};
    }
    SameSizeSubset(want, have);
    ok := true;
  }

  lemma {:induction false} SameSizeSubset(a: set<string>, b: set<string>)
    requires a <= b && |a| == |b|
    ensures a == b
  {
    assert b == a + (b - a) && |b| == |a| + |b - a|;
    assert b - a == {};
  }

  class Server {
    const cfg: Config
    // tables
    var accounts: map<Id, string>
    var orders: map<Id, Order>
    var authzs: map<Id, Authz>
    var challenges: map<Id, Challenge>
    var certs: map<Id, Cert>
    var placements: map<Id, Placement>
    var nextId: Id
    // what the DNS providers publish, outside the program
    ghost var zone: set<Record>
    // suspended continuations of the worker and of the startup sweep
    var worker: WorkerPc
    var sweep: SweepPc
    ghost var history: History

    function Rows(): Db
      reads this
    {
      Db(accounts, orders, authzs, challenges, certs, placements, nextId)
    }

    ghost function View(): State
      reads this
    {
      State(Rows(), zone, worker, sweep, history)
    }

    constructor (cfg: Config)
      ensures View() == Initial && this.cfg == cfg
    {
      this.cfg := cfg;
      accounts, orders, authzs, challenges, certs, placements, nextId := map[], map[], map[], map[], map[], map[], 0;
      zone, worker, sweep := {}, Idle, SweepDone;
      history := History(map[], {}, {});
    }

    // ---- acme-server/src/server/repos.ts: single statements ----

    method UpdateOrderStatus(id: Id, status: OrderStatus)
      modifies this
      ensures View() == old(View()).(db := SetOrderStatus(old(Rows()), id, status))
    {
      if id in orders { orders := orders[id := orders[id].(status := status)]; }
    }

    method AttachCertToOrder(id: Id, cert: Id, csr: Csr)
      modifies this
      ensures View() == old(View()).(db := AttachCert(old(Rows()), id, cert, csr))
    {
      if id in orders {
        orders := orders[id := orders[id].(cert := Some(cert), csr := Some(csr), status := OrderStatus.Valid)];
      }
    }

    method AddCert(cert: Cert) returns (id: Id)
      modifies this
      ensures id == old(nextId)
      ensures View() == old(View()).(db := InsertCert(old(Rows()), cert))
    {
      id := nextId;
      certs, nextId := certs[id := cert], nextId + 1;
    }

    method UpdateAuthzStatus(id: Id, status: AuthzStatus)
      modifies this
      ensures View() == old(View()).(db := SetAuthzStatus(old(Rows()), id, status))
    {
      if id in authzs { authzs := authzs[id := authzs[id].(status := status)]; }
    }

    method UpdateChallengeResult(id: Id, status: ChallengeStatus, next: Option<int>, attempts: nat)
      modifies this
      ensures View() == old(View()).(db := SetChallengeResult(old(Rows()), id, status, next, attempts))
    {
      if id in challenges {
        challenges := challenges[id := challenges[id].(status := status, nextCheck := next, attempts := attempts)];
      }
    }

    method Queue(id: Id, now: int)
      modifies this
      ensures View() == old(View()).(db := QueueChallenge(old(Rows()), id, now))
    {
      if id in challenges && challenges[id].status == ChPending {
        challenges := challenges[id := challenges[id].(status := ChProcessing, nextCheck := Some(now))];
      }
    }

    method AddChallenge(authz: Id, kind: ChallengeKind, token: string) returns (id: Id)
      modifies this
      ensures id == old(nextId)
      ensures View() == old(View()).(db := InsertChallenge(old(Rows()), authz, kind, token))
    {
      id := nextId;
      challenges, nextId := challenges[id := Challenge(authz, kind, token, ChPending, 0, None)], nextId + 1;
    }

    method AddAuthz(order: Id, posted: string, expires: int) returns (id: Id)
      modifies this
      ensures id == old(nextId)
      ensures View() == old(View()).(db := InsertAuthz(old(Rows()), order, posted, expires))
    {
      id := nextId;
      var wildcard := IsWildcard(posted);
      var value := if wildcard then posted[2..] else posted;
      authzs, nextId := authzs[id := Authz(order, value, wildcard, AuthzPending, expires)], nextId + 1;
    }

    method AddOrder(account: Id, identifiers: seq<Identifier>, managed: bool, expires: int) returns (id: Id)
      modifies this
      ensures id == old(nextId)
      ensures View() == old(View()).(db := InsertOrder(old(Rows()), account, identifiers, managed, expires))
    {
      id := nextId;
      orders, nextId := orders[id := Order(account, Pending, identifiers, expires, managed, None, None)], nextId + 1;
    }

    method AddPlacement(p: Placement)
      modifies this
      ensures View() == old(View()).(db := InsertPlacement(old(Rows()), p))
    {
      placements, nextId := placements[nextId := p], nextId + 1;
    }

    // ---- acme-server/src/server/expireWorker.ts ----

    method ExpireTick(now: int)
      modifies this
      ensures View() == Step(cfg, old(View()), DoExpire(now))
    {
      orders := map id | id in orders :: ExpireOrder(orders[id], now);
      authzs := map id | id in authzs :: ExpireAuthz(authzs[id], now);
    }

    // ---- acme-server/src/server/routes.ts: handlers ----

    method CheckIdentifiers(ids: seq<Identifier>) returns (problem: Option<Problem>)
      ensures problem == IdentifierProblem(cfg, ids)
    {
      for k := 0 to |ids|
        invariant IdentifierProblem(cfg, ids) == IdentifierProblem(cfg, ids[k..])
      {
        assert ids[k..][0] == ids[k] && ids[k..][1..] == ids[k + 1..];
        if ids[k].kind != "dns" { return Some(UnsupportedIdentifier); }
        if !PassesAllowList(cfg, ids[k].value) { return Some(RejectedIdentifier); }
      }
      problem := None;
    }

    method CheckProviders(ids: seq<Identifier>, rules: seq<Rule>) returns (ok: bool)
      ensures ok <==> forall i :: i in ids ==> Pick(i.value, rules).Some?
    {
      hide Pick;
      for k := 0 to |ids|
        invariant forall j :: 0 <= j < k ==> Pick(ids[j].value, rules).Some?
      {
        var rule := MatchRule(ids[k].value, rules);
        if rule.None? {
          assert ids[k] in ids;
          return false;
        }
      }
      ok := true;
    }

    method CheckNewOrder(account: Id, ids: seq<Identifier>, managed: bool) returns (problem: Option<Problem>)
      ensures problem == NewOrderProblem(cfg, Rows(), account, ids, managed)
    {
      if account !in accounts { return Some(Unauthorized); }
      if |ids| == 0 { return Some(Malformed); }
      problem := CheckIdentifiers(ids);
      if problem.Some? { return; }
      if managed {
        if cfg.rules.None? { return Some(RejectedIdentifier); }
        var ok := CheckProviders(ids, cfg.rules.value);
        if !ok || !cfg.dns01 { return Some(RejectedIdentifier); }
      }
    }

    method PostNewOrder(account: Id, ids: seq<Identifier>, managed: bool, tokens: seq<string>, now: int)
      returns (r: Result<Id, Problem>)
      requires |tokens| == 2 * |ids| && FreshTokens(Rows(), tokens)
      modifies this
      ensures View() == Step(cfg, old(View()), DoNewOrder(account, ids, managed, tokens, now))
      ensures r == match NewOrderProblem(cfg, old(Rows()), account, ids, managed)
                   case Some(problem) => Err(problem)
                   case None => Ok(old(nextId))
      ensures r.Ok? <==> H.MayOrder(cfg, old(Rows()), account, ids, managed)
    {
      H.MayOrderIff(cfg, Rows(), account, ids, managed);
      hide H.MayOrder;
      hide NewOrderProblem, InsertIdentifiers, InsertOrder, IdentifierProblem;
      var problem := CheckNewOrder(account, ids, managed);
      if problem.Some? { return Err(problem.value); }
      var order := AddOrder(account, ids, managed, now + cfg.ttl);
      AddIdentifiers(order, ids, managed, tokens, now);
      r := Ok(order);
    }

    method AddIdentifiers(order: Id, ids: seq<Identifier>, managed: bool, tokens: seq<string>, now: int)
      requires |tokens| == 2 * |ids|
      modifies this
      ensures View() == old(View()).(db := InsertIdentifiers(cfg, old(Rows()), order, ids, managed, tokens, now, |ids|))
    {
      for k := 0 to |ids|
        invariant View() == old(View()).(db := InsertIdentifiers(cfg, old(Rows()), order, ids, managed, tokens, now, k))
      {
        AddIdentifier(order, ids[k].value, managed, tokens[2 * k], tokens[2 * k + 1], now);
      }
    }

    /** One round of newOrder's loop. */
    method AddIdentifier(order: Id, posted: string, managed: bool, dnsToken: string, httpToken: string, now: int)
      modifies this
      ensures View() == old(View()).(db := InsertIdentifier(cfg, old(Rows()), order, posted, managed, dnsToken, httpToken, now))
    {
      var authz := AddAuthz(order, posted, now + cfg.ttl);
      if cfg.dns01 {
        var challenge := AddChallenge(authz, Dns01, dnsToken);
        if managed { Queue(challenge, now); }
      }
      if !managed && cfg.http01 && !authzs[authz].wildcard {
        var _ := AddChallenge(authz, Http01, httpToken);
      }
    }

    method PostChallenge(account: Id, challenge: Id, now: int) returns (problem: Option<Problem>)
      modifies this
      ensures View() == Step(cfg, old(View()), DoChall(account, challenge, now))
      ensures problem == ChallProblem(old(Rows()), account, challenge)
      ensures problem == if challenge !in old(challenges) then Some(Malformed)
                         else if H.OwnsChallenge(old(Rows()), account, challenge) then None else Some(Unauthorized)
    {
      if challenge !in challenges { return Some(Malformed); }
      var a := challenges[challenge].authz;
      if a !in authzs || authzs[a].order !in orders || orders[authzs[a].order].account != account {
        return Some(Unauthorized);
      }
      Queue(challenge, now);
      problem := None;
    }

    method PostFinalize(account: Id, order: Id, csr: Option<Csr>, signed: bool) returns (r: Result<Id, Problem>)
      modifies this
      ensures View() == Step(cfg, old(View()), DoFinalize(account, order, csr, signed))
      ensures r == match FinalizeProblem(old(Rows()), account, order, csr)
                   case Some(problem) => Err(problem)
                   case None => if signed then Ok(old(nextId)) else Err(ServerInternal)
      ensures r == if order !in old(orders) then Err(Malformed)
                   else if old(orders)[order].account != account then Err(Unauthorized)
                   else if old(orders)[order].status != Ready then Err(OrderNotReady)
                   else if csr.None? || !H.SameNames(old(orders)[order], csr.value) then Err(BadCsr)
                   else if !signed then Err(ServerInternal) else Ok(old(nextId))
    {
      if order in orders && csr.Some? { H.SameNamesIff(orders[order], csr.value); }
      hide H.SameNames;
      if order !in orders { return Err(Malformed); }
      if orders[order].account != account { return Err(Unauthorized); }
      if orders[order].status != Ready { return Err(OrderNotReady); }
      if csr.None? { return Err(BadCsr); }
      var want, first := CollectExpectedSans(orders[order].identifiers);
      var same := CompareSans(want, NamesOfCsr(csr.value));
      if !same { return Err(BadCsr); }
      var commonName := SubjectOf(csr.value, first);
      UpdateOrderStatus(order, Processing);
      if !signed {
        UpdateOrderStatus(order, OrderStatus.Invalid);
        return Err(ServerInternal);
      }
      var cert := AddCert(Cert(order, orders[order].account, commonName, want));
      AttachCertToOrder(order, cert, csr.value);
      r := Ok(cert);
    }

    // ---- acme-server/src/server/worker.ts ----

    method MarkJobInvalid(job: Job)
      modifies this
      ensures View() == old(View()).(db := MarkInvalid(old(Rows()), job))
    {
      UpdateChallengeResult(job.challenge, ChInvalid, None, MAX_ATTEMPTS);
      UpdateAuthzStatus(job.row.authz, AuthzInvalid);
      UpdateOrderStatus(job.authz.order, OrderStatus.Invalid);
    }

    method PromoteIfComplete(order: Id)
      modifies this
      ensures View() == old(View()).(db := MaybePromote(old(Rows()), order))
    {
      if AllAuthzValid(Rows(), order) && order in orders && orders[order].status == Pending {
        UpdateOrderStatus(order, Ready);
      }
    }

    /** The loop of cleanupPlacementsFor and of the sweep up to its next await: placements
        without a provider are skipped, the first other one is withdrawn. */
    method WithdrawNext(todo: seq<Id>) returns (k: nat)
      modifies this
      ensures k == NextToClean(cfg, old(Rows()), todo)
      ensures View() == if k == |todo| then old(View()) else Withdraw(cfg, old(View()), todo[k])
    {
      k := 0;
      while k < |todo|
        invariant k <= |todo|
        invariant NextToClean(cfg, Rows(), todo) == k + NextToClean(cfg, Rows(), todo[k..])
        invariant View() == old(View())
      {
        var p := todo[k];
        if p in placements && cfg.rules.Some? {
          var rule := MatchRule(StripAcmePrefix(placements[p].name), cfg.rules.value);
          if rule.Some? {
            zone := zone - {Record(Home(cfg.rules.value, rule.value), placements[p].name, placements[p].value)};
            history := history.(withdrawn := history.withdrawn + {p}, orphans := OrphansAfter(cfg, old(View()), p));
            return;
          }
        }
        assert todo[k..][1..] == todo[k + 1..];
        k := k + 1;
      }
    }

    method ContinueCleanup(job: Job, todo: seq<Id>, promote: bool)
      modifies this
      ensures View() == CleanNext(cfg, old(View()), job, todo, promote)
    {
      var k := WithdrawNext(todo);
      worker := if k == |todo| then Cleaned(job, promote) else Cleaning(job, todo[k], todo[k + 1..], promote);
    }

    method ContinueSweep(todo: seq<Id>)
      modifies this
      ensures View() == SweepNext(cfg, old(View()), todo)
    {
      var k := WithdrawNext(todo);
      sweep := if k == |todo| then SweepDone else Sweeping(todo[k], todo[k + 1..]);
    }

    /** A place that did not return has published its record or not. */
    ghost method LosePlacement(published: bool)
      requires worker.Placing?
      modifies this
      ensures View() == CutOff(old(View()), published)
    {
      var c, record := worker.job.challenge, worker.record;
      if published || c in history.orphans {
        history := history.(orphans := history.orphans + {c});
      } else {
        zone := zone - {record};
      }
    }

    /** The row is marked whether or not cleanup threw, and whether or not it left the record. */
    method FinishCleanup(p: Id, ghost left: bool)
      modifies this
      ensures View() == CleanupReturned(cfg, old(View()), p, left)
    {
      if left && Directed(cfg, Rows(), p) {
        zone := zone + {RecordOf(cfg, Rows(), p)};
        history := history.(orphans := history.orphans + {placements[p].challenge});
      }
      if p in placements { placements := placements[p := placements[p].(cleaned := true)]; }
      history := history.(withdrawn := history.withdrawn - {p});
    }

    /** listPlacementsForChallenge and listOpenPlacements. */
    method ListOpen(challenge: Option<Id>) returns (open: seq<Id>)
      ensures open == OpenBelow(Rows(), challenge, nextId)
    {
      open := [];
      for p := 0 to nextId
        invariant open == OpenBelow(Rows(), challenge, p)
      {
        if Open(Rows(), p) && ConcernsChallenge(Rows(), p, challenge) { open := open + [p]; }
      }
    }

    method StartRunOne(id: Id)
      modifies this
      ensures View() == Step(cfg, old(View()), DoRunOne(id))
    {
      if worker != Idle || !Runnable(Rows(), id) { return; }
      var c := challenges[id];
      var a := authzs[c.authz];
      var job := Job(id, c, a, orders[a.order].managed && c.kind == Dns01 && cfg.rules.Some?);
      if job.managed {
        var already := ListOpen(Some(id));
        if |already| == 0 {
          var value := cfg.txt(KeyAuthorization(c.token, accounts[orders[a.order].account]));
          var name := BuildChallengeName(a.value, a.wildcard);
          var rule := MatchRule(a.value, cfg.rules.value);
          if rule.None? {
            MarkJobInvalid(job);
            return;
          }
          var record := Record(Home(cfg.rules.value, rule.value), name, value);
          zone := zone + {record};
          worker := Placing(job, record);
          return;
        }
      }
      worker := Validating(job);
    }

    method ResumeAfterPlace(ok: bool, ghost published: bool)
      modifies this
      ensures View() == Step(cfg, old(View()), DoAfterPlace(ok, published))
    {
      if !worker.Placing? { return; }
      var job, record := worker.job, worker.record;
      if ok {
        AddPlacement(Placement(job.challenge, record.name, record.value, false));
        history := history.(orphans := history.orphans - {job.challenge});
        worker := Validating(job);
      } else {
        LosePlacement(published);
        MarkJobInvalid(job);
        worker := Idle;
      }
    }

    method ResumeAfterValidate(ok: bool, now: int)
      modifies this
      ensures View() == Step(cfg, old(View()), DoAfterValidate(ok, now))
    {
      hide CleanNext, MaybePromote, OpenBelow;
      if !worker.Validating? { return; }
      var job := worker.job;
      var attempts := job.row.attempts + 1;
      worker := Idle;
      history := history.(validations := history.validations[job.challenge := Validations(history, job.challenge) + 1]);
      if ok {
        UpdateChallengeResult(job.challenge, ChValid, None, attempts);
        UpdateAuthzStatus(job.row.authz, AuthzValid);
        if job.managed {
          var todo := ListOpen(Some(job.challenge));
          ContinueCleanup(job, todo, true);
        } else {
          PromoteIfComplete(job.authz.order);
        }
      } else if attempts >= MAX_ATTEMPTS {
        MarkJobInvalid(job);
        if job.managed {
          var todo := ListOpen(Some(job.challenge));
          ContinueCleanup(job, todo, false);
        }
      } else {
        UpdateChallengeResult(job.challenge, ChProcessing, Some(now + RETRY_DELAYS_MS[attempts - 1]), attempts);
      }
    }

    method ResumeAfterCleanup(ghost left: bool)
      modifies this
      ensures View() == Step(cfg, old(View()), DoAfterCleanup(left))
    {
      if !worker.Cleaning? { return; }
      var job, rest, promote := worker.job, worker.rest, worker.promote;
      FinishCleanup(worker.current, left);
      ContinueCleanup(job, rest, promote);
    }

    method ResumeAfterCleaned()
      modifies this
      ensures View() == Step(cfg, old(View()), DoAfterCleaned)
    {
      if !worker.Cleaned? { return; }
      var job, promote := worker.job, worker.promote;
      worker := Idle;
      if promote { PromoteIfComplete(job.authz.order); }
    }

    method ResumeSweep(ghost left: bool)
      modifies this
      ensures View() == Step(cfg, old(View()), DoSweepStep(left))
    {
      if !sweep.Sweeping? { return; }
      var rest := sweep.rest;
      FinishCleanup(sweep.current, left);
      ContinueSweep(rest);
    }

    /** A new process finds the rows and the zone as they were left. */
    method Start(ghost published: bool)
      modifies this
      ensures View() == Step(cfg, old(View()), DoRestart(published))
    {
      if worker.Placing? { LosePlacement(published); }
      worker, sweep := Idle, SweepDone;
      if cfg.rules.None? { return; }
      var open := ListOpen(None);
      ContinueSweep(open);
    }
  }
}
