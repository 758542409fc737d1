/** A run of the ACME server whose order stays pending though all its authorizations are valid. */
module AcmeStuck {
  import opened Wrappers
  import opened Names
  import opened DnsDispatch
  import opened AcmeModel
  import opened AcmeIssuance
  import opened AcmePromotion

  const POSTED: seq<Identifier> := [Identifier("dns", "ok.example")]
  const RULES: seq<Rule> := [Rule(["*"], Memory, "memory")]

  function Conf(txt: string -> string): Config {
    Config(Some(RULES), true, false, [], 0, txt)
  }

  /** A server-managed order, its one challenge up to the validator's answer, and a restart
      before the cleanup has returned. */
  const ACTIONS: seq<Action> := [
    DoNewAccount("thumbprint"),
    DoNewOrder(0, POSTED, true, ["t", "u"], 0),
    DoRunOne(3),
    DoAfterPlace(true, true),
    DoAfterValidate(true, 0),
    DoRestart(true)]

  const QUEUED := Challenge(2, Dns01, "t", ChProcessing, 0, Some(0))

  function Rows(authz: AuthzStatus, challenge: Challenge, placements: map<Id, Placement>, next: nat): Db {
    Db(map[0 := "thumbprint"], map[1 := Order(0, Pending, POSTED, 0, true, None, None)],
       map[2 := Authz(1, "ok.example", false, authz, 0)], map[3 := challenge], map[], placements, next)
  }

  lemma {:induction false} PickSome()
    ensures Pick("ok.example", RULES).Some?
  {
    assert RULES[0].zones[0] == "*" && Lower("*") == "*";
    PickExists("ok.example", RULES, 0, "*");
  }

  lemma {:induction false} RowsInserted(cfg: Config, db: Db)
    requires cfg == Conf(cfg.txt) && db == AddAccount(EmptyDb, "thumbprint")
    ensures NewOrder(cfg, db, 0, POSTED, true, ["t", "u"], 0) == Rows(AuthzPending, QUEUED, map[], 4)
  {
    assert "ok.example"[..2][0] == 'o';
    assert !IsWildcard("ok.example");
    var db1 := InsertOrder(db, 0, POSTED, true, 0);
    var db2 := InsertAuthz(db1, 1, "ok.example", 0);
    assert QueueChallenge(InsertChallenge(db2, 2, Dns01, "t"), 3, 0) == Rows(AuthzPending, QUEUED, map[], 4);
    assert InsertIdentifier(cfg, db1, 1, "ok.example", true, "t", "u", 0) == Rows(AuthzPending, QUEUED, map[], 4);
    assert InsertIdentifiers(cfg, db1, 1, POSTED, true, ["t", "u"], 0, 0) == db1;
  }

  lemma {:induction false} OrderAccepted(cfg: Config, db: Db)
    requires cfg == Conf(cfg.txt) && db == AddAccount(EmptyDb, "thumbprint")
    ensures NewOrderProblem(cfg, db, 0, POSTED, true).None? && FreshTokens(db, ["t", "u"])
  {
    PickSome();
    hide Pick;
    assert IdentifierProblem(cfg, POSTED[1..]).None?;
  }

  lemma {:induction false} NoPlacementYet(db: Db, challenge: Option<Id>, n: nat)
    requires db.placements == map[]
    ensures OpenBelow(db, challenge, n) == []
  {
    if n > 0 { NoPlacementYet(db, challenge, n - 1); }
  }

  /** The challenge is picked up and its record placed. */
  lemma {:induction false} RecordPlaced(cfg: Config, s: State) returns (job: Job)
    requires cfg == Conf(cfg.txt) && s == Initial.(db := Rows(AuthzPending, QUEUED, map[], 4))
    ensures job == Job(3, QUEUED, s.db.authzs[2], true)
    ensures var n := Step(cfg, Step(cfg, s, ACTIONS[2]), ACTIONS[3]);
            && n.worker == Validating(job)
            && n.db.orders == s.db.orders && n.db.authzs == s.db.authzs && n.db.challenges == s.db.challenges
  {
    PickSome();
    hide Pick, OpenBelow;
    job := Job(3, QUEUED, s.db.authzs[2], true);
    NoPlacementYet(s.db, Some(3), s.db.nextId);
    var s1 := Step(cfg, s, ACTIONS[2]);
    assert s1.worker.Placing? && s1.worker.job == job && s1.db == s.db;
  }

  /** The validator answers, and the worker waits for the cleanup. */
  lemma {:induction false} ChallengeConfirmed(cfg: Config, s: State, job: Job)
    requires var first := Rows(AuthzPending, QUEUED, map[], 4);
             && job == Job(3, QUEUED, first.authzs[2], true) && s.worker == Validating(job)
             && s.db.orders == first.orders && s.db.authzs == first.authzs && s.db.challenges == first.challenges
    ensures var n := Step(cfg, s, ACTIONS[4]); PromotionDue(n.worker, 1) && Complete(n.db, 1)
  {
    hide CleanNext, OpenBelow;
    var v := Verdict(s, Validated(s.db, job), 3);
    CleanNextShape(cfg, v, job, OpenPlacementsOf(v.db, 3), true);
    CleanNextPromote(cfg, v, job, OpenPlacementsOf(v.db, 3), true);
  }

  /** The restart loses the promotion: the order is left pending with every authorization
      valid and nobody working on it, and no later step makes it ready. */
  lemma {:induction false} OrderIsStuck(cfg: Config, later: seq<Action>)
    requires cfg == Conf(cfg.txt)
    ensures var db := Run(cfg, Initial, ACTIONS + later).db;
            1 in db.orders && db.orders[1].status in {Pending, Expired} && AllAuthzValid(db, 1)
  {
    assert Run(cfg, Initial, ACTIONS[..0]) == Initial;
    RunNext(cfg, ACTIONS, 0);
    RunNext(cfg, ACTIONS, 1);
    RunNext(cfg, ACTIONS, 2);
    RunNext(cfg, ACTIONS, 3);
    RunNext(cfg, ACTIONS, 4);
    hide Run, AllAuthzValid, Complete, PromotionDue;
    var s := Initial.(db := AddAccount(EmptyDb, "thumbprint"));
    assert Step(cfg, Initial, ACTIONS[0]) == s;
    assert Step(cfg, s, ACTIONS[1]) == s.(db := Rows(AuthzPending, QUEUED, map[], 4)) by {
      hide NewOrder, NewOrderProblem, FreshTokens, Rows;
      RowsInserted(cfg, s.db);
      OrderAccepted(cfg, s.db);
    }
    hide Step;
    var job := RecordPlaced(cfg, Run(cfg, Initial, ACTIONS[..2]));
    ChallengeConfirmed(cfg, Run(cfg, Initial, ACTIONS[..4]), job);
    assert (ACTIONS + later)[..5] == ACTIONS[..5] && (ACTIONS + later)[5] == ACTIONS[5];
    assert LosesPromotion(Run(cfg, Initial, (ACTIONS + later)[..5]), (ACTIONS + later)[5], 1);
    LostOrderNeverReady(cfg, ACTIONS + later, 1);
  }
}
