/** A run of the ACME server that signs a subject nobody validated and the allow-list excludes. */
module AcmeSubject {
  import opened Wrappers
  import opened Names
  import opened DnsDispatch
  import opened AcmeModel

  const ALLOWED := "ok.example"
  const REFUSED := "evil.example"
  const POSTED: seq<Identifier> := [Identifier("dns", ALLOWED)]
  const REQUEST := Csr(Some(REFUSED), [ALLOWED])

  /** Only DNS challenges, and only one allowed name. */
  function Conf(txt: string -> string): Config {
    Config(None, true, false, [ALLOWED], 0, txt)
  }

  /** An account posts an order for the allowed name and answers its challenge; the CSR
      repeats that name and carries another one as its common name. */
  const ACTIONS: seq<Action> := [
    DoNewAccount("thumbprint"),
    DoNewOrder(0, POSTED, false, ["t", "u"], 0),
    DoChall(0, 3, 0),
    DoRunOne(3),
    DoAfterValidate(true, 0),
    DoFinalize(0, 1, Some(REQUEST), true)]

  function Rows(account: map<Id, string>, order: Order, authz: AuthzStatus, challenge: Challenge): Db {
    Db(account, map[1 := order], map[2 := Authz(1, ALLOWED, false, authz, 0)], map[3 := challenge], map[], map[], 4)
  }

  function Posted(status: OrderStatus): Order {
    Order(0, status, POSTED, 0, false, None, None)
  }

  const AWAITED := Challenge(2, Dns01, "t", ChPending, 0, None)

  lemma {:induction false} RowsInserted(cfg: Config, db: Db)
    requires cfg == Conf(cfg.txt) && db == AddAccount(EmptyDb, "thumbprint")
    ensures NewOrder(cfg, db, 0, POSTED, false, ["t", "u"], 0) == Rows(db.accounts, Posted(Pending), AuthzPending, AWAITED)
  {
    assert ALLOWED[..2][0] == 'o';
    assert !IsWildcard(ALLOWED);
    var db1 := InsertOrder(db, 0, POSTED, false, 0);
    var db2 := InsertAuthz(db1, 1, ALLOWED, 0);
    assert InsertChallenge(db2, 2, Dns01, "t") == Rows(db.accounts, Posted(Pending), AuthzPending, AWAITED);
    assert InsertIdentifier(cfg, db1, 1, ALLOWED, false, "t", "u", 0) == InsertChallenge(db2, 2, Dns01, "t");
    assert InsertIdentifiers(cfg, db1, 1, POSTED, false, ["t", "u"], 0, 0) == db1;
  }

  lemma {:induction false} OrderAccepted(cfg: Config, db: Db)
    requires cfg == Conf(cfg.txt) && db == AddAccount(EmptyDb, "thumbprint")
    ensures NewOrderProblem(cfg, db, 0, POSTED, false).None? && FreshTokens(db, ["t", "u"])
  {
    assert PassesPattern(Lower(ALLOWED), Lower(ALLOWED));
    assert IdentifierProblem(cfg, POSTED[1..]).None?;
  }

  lemma {:induction false} OrderPosted(cfg: Config, s: State)
    requires cfg == Conf(cfg.txt) && s == Initial.(db := AddAccount(EmptyDb, "thumbprint"))
    ensures Step(cfg, s, ACTIONS[1]) == s.(db := Rows(s.db.accounts, Posted(Pending), AuthzPending, AWAITED))
  {
    hide NewOrder, NewOrderProblem, FreshTokens, Rows;
    RowsInserted(cfg, s.db);
    OrderAccepted(cfg, s.db);
  }

  /** The challenge is answered, picked up by the worker and found in place. */
  lemma {:induction false} ChallengeAnswered(cfg: Config, s: State)
    requires cfg == Conf(cfg.txt) && s.worker == Idle
    requires s.db == Rows(map[0 := "thumbprint"], Posted(Pending), AuthzPending, AWAITED)
    ensures var s1 := Step(cfg, s, ACTIONS[2]);
            var s2 := Step(cfg, s1, ACTIONS[3]);
            Step(cfg, s2, ACTIONS[4]).db == Rows(s.db.accounts, Posted(Ready), AuthzValid, AWAITED.(status := ChValid, attempts := 1))
  {
    var s1 := s.(db := QueueChallenge(s.db, 3, 0));
    var job := Job(3, s1.db.challenges[3], s1.db.authzs[2], false);
    assert Step(cfg, s, ACTIONS[2]) == s1;
    assert Step(cfg, s1, ACTIONS[3]) == s1.(worker := Validating(job));
    assert MaybePromote(Validated(s1.db, job), 1) == Rows(s.db.accounts, Posted(Ready), AuthzValid, AWAITED.(status := ChValid, attempts := 1));
  }

  /** Up to the validator's answer. */
  lemma {:induction false} ReadyAfterFive(cfg: Config)
    requires cfg == Conf(cfg.txt)
    ensures Run(cfg, Initial, ACTIONS[..5]).db
            == Rows(map[0 := "thumbprint"], Posted(Ready), AuthzValid, AWAITED.(status := ChValid, attempts := 1))
  {
    assert Run(cfg, Initial, ACTIONS[..0]) == Initial;
    RunNext(cfg, ACTIONS, 0);
    RunNext(cfg, ACTIONS, 1);
    RunNext(cfg, ACTIONS, 2);
    RunNext(cfg, ACTIONS, 3);
    RunNext(cfg, ACTIONS, 4);
    hide Run;
    assert Step(cfg, Initial, ACTIONS[0]) == Initial.(db := AddAccount(EmptyDb, "thumbprint"));
    hide Step;
    OrderPosted(cfg, Run(cfg, Initial, ACTIONS[..1]));
    ChallengeAnswered(cfg, Run(cfg, Initial, ACTIONS[..2]));
  }

  /** The certificate of that run carries a subject outside the allow-list, which is neither
      an identifier of the order nor one of the certificate's alternative names. */
  lemma {:induction false} RefusedSubjectIsSigned(cfg: Config)
    requires cfg == Conf(cfg.txt)
    ensures var db := Run(cfg, Initial, ACTIONS).db;
            && 4 in db.certs && db.certs[4].commonName == REFUSED && db.certs[4].sans == {ALLOWED}
            && db.certs[4].order in db.orders && db.orders[db.certs[4].order].identifiers == POSTED
            && !PassesAllowList(cfg, db.certs[4].commonName)
  {
    assert ACTIONS[..6] == ACTIONS;
    RunNext(cfg, ACTIONS, 5);
    ReadyAfterFive(cfg);
    hide Run;
    assert Lower(ALLOWED) == ALLOWED;
    assert ExpectedSans(POSTED) == {ALLOWED};
    assert LowerAll(NamesOfCsr(REQUEST)) == {ALLOWED};
    assert Lower(REFUSED)[0] == 'e' && Lower(ALLOWED)[0] == 'o';
  }
}
