/** What every run of the ACME server guarantees about orders, certificates and challenges. */
module AcmeProtocol {
  import opened Wrappers
  import opened Names
  import opened DnsDispatch
  import opened AcmeModel
  import opened AcmeIssuance

  // ---- what is issued ----

  /** finalize compared the CSR's common name with the order: it has none, or it is the only
      name, or it is repeated among the alternative names. */
  predicate SubjectCompared(csr: Csr) {
    !HasCommonName(csr) || csr.sans == [] || Lower(csr.commonName.value) in LowerAll(csr.sans)
  }

  predicate SubjectChecked(db: Db, x: Id)
    requires x in db.certs
  {
    var o := db.certs[x].order;
    o in db.orders && db.orders[o].csr.Some? && SubjectCompared(db.orders[o].csr.value)
  }

  /** The certificate's alternative names, and its subject if that was compared too. */
  function ComparedNames(db: Db, x: Id): set<string>
    requires x in db.certs
  {
    db.certs[x].sans + if SubjectChecked(db, x) then {Lower(db.certs[x].commonName)} else {}
  }

  /** The subject of a certificate is one of the order's names if and only if finalize
      compared the CSR's common name; otherwise it is whatever the CSR asked for. */
  lemma {:induction false} SubjectListedIff(cfg: Config, actions: seq<Action>, x: Id)
    requires x in Run(cfg, Initial, actions).db.certs
    ensures var db := Run(cfg, Initial, actions).db;
            var o := db.certs[x].order;
            && o in db.orders && db.orders[o].csr.Some?
            && (Lower(db.certs[x].commonName) in ExpectedSans(db.orders[o].identifiers) <==> SubjectCompared(db.orders[o].csr.value))
            && (Lower(db.certs[x].commonName) in db.certs[x].sans <==> SubjectCompared(db.orders[o].csr.value))
  {
    RunInv(cfg, actions);
    RunAllowed(cfg, actions);
    var db := Run(cfg, Initial, actions).db;
    assert Justified(db, x);
    var o := db.certs[x].order;
    var csr, ids := db.orders[o].csr.value, db.orders[o].identifiers;
    assert AllAllowed(cfg, ids);
    hide Run, Inv, Justified, PassesAllowList;
    FirstIsExpected(ids);
    SubjectCases(csr, ids);
  }

  /** A list of DNS identifiers has a first expected name, and that is expected. */
  lemma {:induction false} FirstIsExpected(ids: seq<Identifier>)
    requires ids != [] && forall i :: i in ids ==> i.kind == "dns"
    ensures FirstExpected(ids) == Some(Lower(ids[0].value))
    ensures Lower(ids[0].value) in ExpectedSans(ids)
  {
    assert ids[0] in ids;
    if |ids| > 1 {
      FirstIsExpected(ids[..|ids| - 1]);
    } else {
      assert ids[..0] == [];
    }
  }

  lemma {:induction false} SubjectCases(csr: Csr, ids: seq<Identifier>)
    requires ids != [] && FirstExpected(ids) == Some(Lower(ids[0].value)) && Lower(ids[0].value) in ExpectedSans(ids)
    requires ExpectedSans(ids) == LowerAll(NamesOfCsr(csr))
    ensures Lower(SubjectOf(csr, FirstExpected(ids))) in ExpectedSans(ids) <==> SubjectCompared(csr)
  {
    LowerTwice(ids[0].value);
    if HasCommonName(csr) && csr.sans == [] {
      assert csr.commonName.value in NamesOfCsr(csr);
    }
  }

  lemma {:induction false} LowerTwice(s: string)
    ensures Lower(Lower(s)) == Lower(s)
  {}

  /** Every alternative name of an issued certificate, and its subject where finalize compared
      it, was posted in the certificate's order; that identifier has an authorization there,
      and the authorization owns a challenge that a validator confirmed. */
  lemma {:induction false} IssuedNameWasValidated(cfg: Config, actions: seq<Action>, x: Id, name: string)
    returns (posted: Identifier, a: Id, c: Id)
    requires x in Run(cfg, Initial, actions).db.certs
    requires name in ComparedNames(Run(cfg, Initial, actions).db, x)
    ensures var db := Run(cfg, Initial, actions).db;
            && db.certs[x].order in db.orders
            && posted in db.orders[db.certs[x].order].identifiers && posted.kind == "dns" && Lower(posted.value) == name
            && Authorizes(db, a, db.certs[x].order, posted.value)
            && c in db.challenges && db.challenges[c].authz == a && db.challenges[c].status == ChValid
  {
    RunInv(cfg, actions);
    SubjectListedIff(cfg, actions, x);
    var db := Run(cfg, Initial, actions).db;
    assert Justified(db, x);
    var o := db.certs[x].order;
    assert Covered(db, o);
    hide Run, Inv, Lower;
    posted :| posted in db.orders[o].identifiers && posted.kind == "dns" && Lower(posted.value) == name;
    assert IsCovered(db, o, posted.value);
    a :| Authorizes(db, a, o, posted.value);
    assert Proven(db, a);
    c :| c in db.challenges && db.challenges[c].authz == a && db.challenges[c].status == ChValid;
  }

  /** The alternative names are exactly the order's DNS identifiers and exactly the names of
      the CSR that was attached, both lower-cased; the subject is the CSR's common name or,
      without one, the first identifier. */
  lemma {:induction false} IssuedNamesMatchOrderAndCsr(cfg: Config, actions: seq<Action>, x: Id)
    requires x in Run(cfg, Initial, actions).db.certs
    ensures var db := Run(cfg, Initial, actions).db;
            var o := db.certs[x].order;
            && o in db.orders && db.orders[o].csr.Some? && db.orders[o].identifiers != []
            && db.certs[x].account == db.orders[o].account
            && db.certs[x].sans == ExpectedSans(db.orders[o].identifiers)
            && db.certs[x].sans == LowerAll(NamesOfCsr(db.orders[o].csr.value))
            && db.certs[x].commonName == (if HasCommonName(db.orders[o].csr.value) then db.orders[o].csr.value.commonName.value
                                          else Lower(db.orders[o].identifiers[0].value))
  {
    RunInv(cfg, actions);
    RunAllowed(cfg, actions);
    var db := Run(cfg, Initial, actions).db;
    assert Justified(db, x);
    assert AllAllowed(cfg, db.orders[db.certs[x].order].identifiers);
    hide Run, Inv, PassesAllowList;
    FirstIsExpected(db.orders[db.certs[x].order].identifiers);
  }

  function Values(ids: seq<Identifier>): (r: seq<string>)
    ensures |r| == |ids| && forall i :: 0 <= i < |ids| ==> r[i] == ids[i].value
  {
    seq(|ids|, i requires 0 <= i < |ids| => ids[i].value)
  }

  lemma {:induction false} ValuesAreExpected(ids: seq<Identifier>)
    requires forall i :: i in ids ==> i.kind == "dns"
    ensures LowerAll(Values(ids)) == ExpectedSans(ids)
  {
    hide Lower;
    forall n ensures n in LowerAll(Values(ids)) <==> n in ExpectedSans(ids) {
      if n in LowerAll(Values(ids)) {
        var k :| 0 <= k < |ids| && Lower(Values(ids)[k]) == n;
        assert ids[k] in ids;
      }
      if n in ExpectedSans(ids) {
        var k :| 0 <= k < |ids| && Lower(ids[k].value) == n;
        assert Values(ids)[k] in Values(ids);
      }
    }
  }

  /** Every ready order can be turned into a certificate with any subject at all: the client
      repeats the order's names in its CSR and adds the common name it likes. */
  lemma {:induction false} AnySubjectIsSigned(cfg: Config, actions: seq<Action>, o: Id, commonName: string)
    returns (csr: Csr, x: Id)
    requires var db := Run(cfg, Initial, actions).db; o in db.orders && db.orders[o].status == Ready
    requires commonName != ""
    ensures var s := Run(cfg, Initial, actions);
            var n := Run(cfg, Initial, actions + [DoFinalize(s.db.orders[o].account, o, Some(csr), true)]);
            && x in n.db.certs && n.db.certs[x].order == o && n.db.certs[x].commonName == commonName
            && n.db.certs[x].sans == ExpectedSans(s.db.orders[o].identifiers)
  {
    RunAllowed(cfg, actions);
    var s := Run(cfg, Initial, actions);
    var ids := s.db.orders[o].identifiers;
    assert AllAllowed(cfg, ids);
    csr, x := Csr(Some(commonName), Values(ids)), s.db.nextId;
    var a := DoFinalize(s.db.orders[o].account, o, Some(csr), true);
    assert (actions + [a])[..|actions|] == actions;
    assert Run(cfg, Initial, actions + [a]) == Step(cfg, s, a);
    hide Run, PassesAllowList;
    ValuesAreExpected(ids);
  }

  /** An order that is ready has only valid authorizations, each with a validated challenge. */
  lemma {:induction false} ReadyOrderIsAuthorized(cfg: Config, actions: seq<Action>, o: Id, a: Id) returns (c: Id)
    requires var db := Run(cfg, Initial, actions).db;
             o in db.orders && db.orders[o].status == Ready && a in db.authzs && db.authzs[a].order == o
    ensures var db := Run(cfg, Initial, actions).db;
            && db.authzs[a].status == AuthzValid
            && c in db.challenges && db.challenges[c].authz == a && db.challenges[c].status == ChValid
  {
    RunInv(cfg, actions);
    var db := Run(cfg, Initial, actions).db;
    assert AllAuthzValid(db, o);
    assert Proven(db, a);
    c :| c in db.challenges && db.challenges[c].authz == a && db.challenges[c].status == ChValid;
  }

  /** At most one certificate is issued per order. */
  lemma {:induction false} OneCertificatePerOrder(cfg: Config, actions: seq<Action>, x: Id, y: Id)
    requires var db := Run(cfg, Initial, actions).db;
             x in db.certs && y in db.certs && db.certs[x].order == db.certs[y].order
    ensures x == y
  {
    RunInv(cfg, actions);
    var db := Run(cfg, Initial, actions).db;
    assert Justified(db, x) && Justified(db, y);
  }

  /** An order names a certificate exactly when one was issued for it, and is then valid
      or (after a later challenge failure) invalid. */
  lemma {:induction false} CertificateIdIsOwn(cfg: Config, actions: seq<Action>, o: Id)
    requires o in Run(cfg, Initial, actions).db.orders
    ensures var db := Run(cfg, Initial, actions).db;
            && (db.orders[o].cert.Some? <==> exists x :: x in db.certs && db.certs[x].order == o)
            && (db.orders[o].cert.Some? ==>
                  && db.orders[o].cert.value in db.certs && db.certs[db.orders[o].cert.value].order == o
                  && db.orders[o].status in {Valid, Invalid})
  {
    RunInv(cfg, actions);
    var db := Run(cfg, Initial, actions).db;
    if db.orders[o].cert.Some? {
      assert Justified(db, db.orders[o].cert.value);
    }
    forall x | x in db.certs && db.certs[x].order == o ensures db.orders[o].cert == Some(x) {
      assert Justified(db, x);
    }
  }

  // ---- the allow-list ----

  ghost predicate AllAllowed(cfg: Config, ids: seq<Identifier>) {
    ids != [] && forall i :: i in ids ==> i.kind == "dns" && PassesAllowList(cfg, i.value)
  }

  lemma {:induction false} AcceptedAreAllowed(cfg: Config, ids: seq<Identifier>)
    ensures IdentifierProblem(cfg, ids).None? <==> ids == [] || AllAllowed(cfg, ids)
  {
    hide PassesAllowList;
    if ids != [] {
      AcceptedAreAllowed(cfg, ids[1..]);
      assert ids == [ids[0]] + ids[1..];
    }
  }

  ghost predicate OrdersAllowed(cfg: Config, orders: map<Id, Order>) {
    forall o :: o in orders ==> AllAllowed(cfg, orders[o].identifiers)
  }

  /** Only newOrder makes orders, and only with identifiers it has checked. */
  lemma {:induction false} StepAllowed(cfg: Config, s: State, a: Action)
    requires Inv(cfg, s) && OrdersAllowed(cfg, s.db.orders)
    ensures OrdersAllowed(cfg, Step(cfg, s, a).db.orders)
  {
    hide DbInv, WorkerInv, AttemptsOk, AllAllowed;
    StepInv(cfg, s, a);
    var n := Step(cfg, s, a);
    if a.DoNewOrder? && n != s {
      var db1 := InsertOrder(s.db, a.account, a.ids, a.managed, a.now + cfg.ttl);
      RoundsKeepOrders(cfg, db1, s.db.nextId, a.ids, a.managed, a.tokens, a.now, |a.ids|);
      AcceptedAreAllowed(cfg, a.ids);
    } else {
      assert n.db.orders.Keys == s.db.orders.Keys by { if !a.DoNewOrder? { OnlyNewOrderInserts(cfg, s, a); } }
      forall o | o in n.db.orders ensures AllAllowed(cfg, n.db.orders[o].identifiers) {
        assert OrderMoves(s.db.orders[o], n.db.orders[o]);
      }
    }
  }

  lemma {:induction false} RunAllowed(cfg: Config, actions: seq<Action>)
    ensures OrdersAllowed(cfg, Run(cfg, Initial, actions).db.orders)
  {
    if actions != [] {
      var init := actions[..|actions| - 1];
      hide Inv, OrdersAllowed, Step;
      RunAllowed(cfg, init);
      RunInv(cfg, init);
      StepAllowed(cfg, Run(cfg, Initial, init), actions[|actions| - 1]);
    } else {
      assert Initial.db.orders == map[];
    }
  }

  /** No certificate is issued for an alternative name, or for a subject that was compared,
      outside the allow-list. */
  lemma {:induction false} IssuedNameIsAllowed(cfg: Config, actions: seq<Action>, x: Id, name: string)
    requires x in Run(cfg, Initial, actions).db.certs
    requires name in ComparedNames(Run(cfg, Initial, actions).db, x)
    ensures PassesAllowList(cfg, name)
  {
    hide Inv, Run, PassesPattern;
    RunAllowed(cfg, actions);
    var posted, a, c := IssuedNameWasValidated(cfg, actions, x, name);
    assert AllAllowed(cfg, Run(cfg, Initial, actions).db.orders[Run(cfg, Initial, actions).db.certs[x].order].identifiers);
    LowerTwice(posted.value);
  }

  // ---- how statuses move ----

  lemma {:induction false} RunExtends(cfg: Config, actions: seq<Action>, k: nat)
    requires k <= |actions|
    ensures Extends(Run(cfg, Initial, actions[..k]).db, Run(cfg, Initial, actions).db)
    decreases |actions|
  {
    if k == |actions| {
      assert actions[..k] == actions;
      ExtendsReflexive(Run(cfg, Initial, actions).db);
    } else {
      var init := actions[..|actions| - 1];
      assert init[..k] == actions[..k];
      RunExtends(cfg, init, k);
      RunInv(cfg, init);
      StepInv(cfg, Run(cfg, Initial, init), actions[|actions| - 1]);
      ExtendsTransitive(Run(cfg, Initial, actions[..k]).db, Run(cfg, Initial, init).db, Run(cfg, Initial, actions).db);
    }
  }

  /** At any later point of a run an order's status is the same or of higher rank. */
  lemma {:induction false} OrderStatusClimbs(cfg: Config, actions: seq<Action>, k: nat, o: Id)
    requires k <= |actions| && o in Run(cfg, Initial, actions[..k]).db.orders
    ensures var early, late := Run(cfg, Initial, actions[..k]).db, Run(cfg, Initial, actions).db;
            && o in late.orders && OrderMoves(early.orders[o], late.orders[o])
            && (early.orders[o].status == Invalid ==> late.orders[o].status == Invalid)
  {
    RunExtends(cfg, actions, k);
  }

  /** How often the status of order `o` was rewritten to something else; a completed
      finalize writes it twice. */
  function StatusChanges(cfg: Config, actions: seq<Action>, o: Id): nat {
    if actions == [] then 0
    else
      var s := Run(cfg, Initial, actions[..|actions| - 1]);
      var n := Run(cfg, Initial, actions);
      StatusChanges(cfg, actions[..|actions| - 1], o) +
      if o !in s.db.orders || o !in n.db.orders || n.db.orders[o].status == s.db.orders[o].status then 0
      else if actions[|actions| - 1].DoFinalize? then 2
      else 1
  }

  /** Every rewrite of an order's status raises its rank, so there are at most four. */
  lemma {:induction false} AtMostFourStatusChanges(cfg: Config, actions: seq<Action>, o: Id)
    ensures StatusChanges(cfg, actions, o) <= 4
    ensures o in Run(cfg, Initial, actions).db.orders ==>
              StatusChanges(cfg, actions, o) <= Rank(Run(cfg, Initial, actions).db.orders[o].status)
    ensures o !in Run(cfg, Initial, actions).db.orders ==> StatusChanges(cfg, actions, o) == 0
  {
    hide Inv, Extends, Step;
    if actions != [] {
      var init, last := actions[..|actions| - 1], actions[|actions| - 1];
      AtMostFourStatusChanges(cfg, init, o);
      RunInv(cfg, init);
      StatusStep(cfg, Run(cfg, Initial, init), last, o);
    }
  }

  ghost predicate StatusStepOk(db: Db, n: Db, o: Id, writes: nat) {
    o in db.orders ==> (o in n.orders && (n.orders[o].status == db.orders[o].status ||
                                          Rank(db.orders[o].status) + writes <= Rank(n.orders[o].status)))
  }

  lemma {:induction false} StatusStep(cfg: Config, s: State, a: Action, o: Id)
    requires Inv(cfg, s)
    ensures StatusStepOk(s.db, Step(cfg, s, a).db, o, if a.DoFinalize? then 2 else 1)
  {
    hide DbInv, WorkerInv, AttemptsOk, Step;
    StepInv(cfg, s, a);
    if a.DoFinalize? {
      FinalizeStatusStep(cfg, s, a, o);
    } else if o in s.db.orders {
      assert OrderMoves(s.db.orders[o], Step(cfg, s, a).db.orders[o]);
    }
  }

  lemma {:induction false} FinalizeStatusStep(cfg: Config, s: State, a: Action, o: Id)
    requires a.DoFinalize?
    ensures StatusStepOk(s.db, Step(cfg, s, a).db, o, 2)
  {}

  // ---- challenges ----

  /** The missing-row returns of runOne are never taken: it starts work exactly on the
      challenges that are being processed. */
  lemma {:induction false} EarlyReturnsUnreachable(cfg: Config, actions: seq<Action>, c: Id)
    ensures var db := Run(cfg, Initial, actions).db;
            Runnable(db, c) <==> c in db.challenges && db.challenges[c].status == ChProcessing
  {
    RunInv(cfg, actions);
  }

  /** A finished challenge never changes again. */
  lemma {:induction false} TerminalChallengeIsFinal(cfg: Config, actions: seq<Action>, k: nat, c: Id)
    requires k <= |actions| && c in Run(cfg, Initial, actions[..k]).db.challenges
    requires Terminal(Run(cfg, Initial, actions[..k]).db.challenges[c].status)
    ensures var early, late := Run(cfg, Initial, actions[..k]).db, Run(cfg, Initial, actions).db;
            c in late.challenges && late.challenges[c] == early.challenges[c]
  {
    RunExtends(cfg, actions, k);
  }

  /** However the actors interleave and however often the process restarts, a challenge
      is validated to completion at most six times. */
  lemma {:induction false} AtMostSixValidations(cfg: Config, actions: seq<Action>, c: Id)
    ensures Validations(Run(cfg, Initial, actions).history, c) <= MAX_ATTEMPTS
  {
    RunInv(cfg, actions);
    var s := Run(cfg, Initial, actions);
    if c in s.history.validations {
      assert Counted(s.db.challenges, s.history.validations, c);
    }
  }

  /** A runOne is still on its way to a result for challenge `c`. */
  predicate Undecided(worker: WorkerPc, c: Id) {
    (worker.Placing? || worker.Validating?) && worker.job.challenge == c
  }

  /** Action `a` starts or continues a runOne that has no result for `c` yet. */
  predicate WorksOn(s: State, a: Action, c: Id) {
    || (s.worker == Idle && a == DoRunOne(c) && Runnable(s.db, c))
    || (Undecided(s.worker, c) && !a.DoRestart?)
  }

  /** The challenge was accepted, has failed for good, or used up one attempt and is due
      again after the delay of the table. Only a validator's answer leaves it a next attempt. */
  ghost predicate Decides(c: Challenge, n: Challenge, a: Action) {
    && c.status == ChProcessing && c.attempts < MAX_ATTEMPTS
    && c.attempts < n.attempts <= MAX_ATTEMPTS
    && (if a.DoAfterValidate? && a.ok then n.status == ChValid && n.attempts == c.attempts + 1
        else if a.DoAfterValidate? && c.attempts < MAX_ATTEMPTS - 1
        then n.status == ChProcessing && n.attempts == c.attempts + 1 && n.nextCheck == Some(a.now + RETRY_DELAYS_MS[c.attempts])
        else n.status == ChInvalid && n.attempts == MAX_ATTEMPTS)
  }

  /** A runOne never ends without a result, whichever way it ends: no provider, a failing
      one, or a verdict. Until then its challenge is untouched. */
  lemma {:induction false} RunOneDecides(cfg: Config, actions: seq<Action>, a: Action, c: Id)
    requires WorksOn(Run(cfg, Initial, actions), a, c)
    ensures var s := Run(cfg, Initial, actions);
            var n := Step(cfg, s, a);
            && c in s.db.challenges && c in n.db.challenges
            && (if Undecided(n.worker, c) then n.db.challenges[c] == s.db.challenges[c]
                else Decides(s.db.challenges[c], n.db.challenges[c], a))
  {
    hide Run, Inv, Step, WorksOn, Decides, Undecided;
    var s := Run(cfg, Initial, actions);
    RunInv(cfg, actions);
    StepInv(cfg, s, a);
    StepDecides(cfg, s, a, c);
  }

  lemma {:induction false} StepDecides(cfg: Config, s: State, a: Action, c: Id)
    requires Inv(cfg, s) && WorksOn(s, a, c)
    ensures var n := Step(cfg, s, a);
            && c in s.db.challenges && c in n.db.challenges
            && if Undecided(n.worker, c) then n.db.challenges[c] == s.db.challenges[c]
               else Decides(s.db.challenges[c], n.db.challenges[c], a)
  {
    hide RunOne, AfterPlace, AfterValidate, CleanNext, SweepNext, Decides, Sound, AttemptsOk;
    match a
    case DoNewOrder(account, ids, managed, tokens, now) =>
      if Step(cfg, s, a) != s { NewOrderLeavesProcessing(cfg, s.db, account, ids, managed, tokens, now, s.history.validations); }
    case DoRunOne(id) => if s.worker == Idle { StartDecides(cfg, s, c); } else { assert RunOne(cfg, s, id) == s by { BusyRefuses(cfg, s, id); } }
    case DoAfterPlace(ok, published) => PlaceDecides(cfg, s, ok, published);
    case DoAfterValidate(ok, now) => ValidateDecides(cfg, s, ok, now);
    case DoSweepStep(left) =>
      if s.sweep.Sweeping? { SweepNextShape(cfg, CleanupReturned(cfg, s, s.sweep.current, left), s.sweep.rest); }
    case _ =>
  }

  lemma {:induction false} BusyRefuses(cfg: Config, s: State, id: Id)
    requires s.worker != Idle
    ensures RunOne(cfg, s, id) == s
  {}

  lemma {:induction false} StartDecides(cfg: Config, s: State, c: Id)
    requires AttemptsOk(s.db.challenges, s.history.validations) && s.worker == Idle && Runnable(s.db, c)
    ensures var n := RunOne(cfg, s, c);
            && c in n.db.challenges
            && if Undecided(n.worker, c) then n.db.challenges[c] == s.db.challenges[c]
               else Decides(s.db.challenges[c], n.db.challenges[c], DoRunOne(c))
  {
    hide Pick, OpenPlacementsOf;
    assert AttemptOk(s.db.challenges[c]);
  }

  lemma {:induction false} PlaceDecides(cfg: Config, s: State, ok: bool, published: bool)
    requires WorkerInv(cfg, s.db, s.worker) && AttemptsOk(s.db.challenges, s.history.validations)
    requires s.worker.Placing? || s.worker.Validating?
    ensures var c := s.worker.job.challenge;
            var n := AfterPlace(s, ok, published);
            && c in s.db.challenges && c in n.db.challenges
            && if Undecided(n.worker, c) then n.db.challenges[c] == s.db.challenges[c]
               else Decides(s.db.challenges[c], n.db.challenges[c], DoAfterPlace(ok, published))
  {
    assert AttemptOk(s.db.challenges[s.worker.job.challenge]);
  }

  lemma {:induction false} ValidateDecides(cfg: Config, s: State, ok: bool, now: int)
    requires WorkerInv(cfg, s.db, s.worker) && AttemptsOk(s.db.challenges, s.history.validations)
    requires s.worker.Placing? || s.worker.Validating?
    ensures var c := s.worker.job.challenge;
            var n := AfterValidate(cfg, s, ok, now);
            && c in s.db.challenges && c in n.db.challenges
            && if Undecided(n.worker, c) then n.db.challenges[c] == s.db.challenges[c]
               else Decides(s.db.challenges[c], n.db.challenges[c], DoAfterValidate(ok, now))
  {
    hide CleanNext, OpenPlacementsOf;
    var job := s.worker.job;
    assert AttemptOk(s.db.challenges[job.challenge]);
    var v, w := Verdict(s, Validated(s.db, job), job.challenge), Verdict(s, MarkInvalid(s.db, job), job.challenge);
    CleanNextShape(cfg, v, job, OpenPlacementsOf(v.db, job.challenge), true);
    CleanNextShape(cfg, w, job, OpenPlacementsOf(w.db, job.challenge), false);
  }

  // ---- the rows above the challenge ----

  predicate IsWorkerStep(a: Action) {
    a.DoRunOne? || a.DoAfterPlace? || a.DoAfterValidate?
  }

  /** The order is pending and the step left it no authorization that is not valid. */
  predicate NowComplete(s: State, n: State, o: Id) {
    && o in s.db.orders && s.db.orders[o].status == Pending
    && forall y :: y in n.db.authzs && n.db.authzs[y].order == o ==> n.db.authzs[y].status == AuthzValid
  }

  /** The worker publishes the record of challenge `c` itself, so it cleans up before it promotes. */
  predicate ServerManaged(cfg: Config, db: Db, c: Id, o: Id)
    requires c in db.challenges && o in db.orders
  {
    db.orders[o].managed && db.challenges[c].kind == Dns01 && cfg.rules.Some?
  }

  /** A failed challenge fails its authorization and its order, an accepted one makes its
      authorization valid and, without a cleanup to wait for, a completed order ready; until
      then, and on a retry, both stay as they are. No other row changes. */
  ghost predicate RowsFollow(cfg: Config, s: State, n: State, c: Id) {
    && c in s.db.challenges && c in n.db.challenges
    && var x := s.db.challenges[c].authz;
       && x in s.db.authzs && s.db.authzs[x].order in s.db.orders
       && var o := s.db.authzs[x].order;
          && n.db.challenges == s.db.challenges[c := n.db.challenges[c]]
          && n.db.accounts == s.db.accounts && n.db.certs == s.db.certs
          && (if n.db.challenges[c].status == ChInvalid then
                n.db.authzs == s.db.authzs[x := s.db.authzs[x].(status := AuthzInvalid)] &&
                n.db.orders == s.db.orders[o := s.db.orders[o].(status := Invalid)]
              else if n.db.challenges[c].status == ChValid then
                n.db.authzs == s.db.authzs[x := s.db.authzs[x].(status := AuthzValid)] &&
                n.db.orders == (if !ServerManaged(cfg, s.db, c, o) && NowComplete(s, n, o)
                                then s.db.orders[o := s.db.orders[o].(status := Ready)] else s.db.orders)
              else n.db.authzs == s.db.authzs && n.db.orders == s.db.orders)
  }

  lemma {:induction false} RunOneRows(cfg: Config, actions: seq<Action>, a: Action, c: Id)
    requires WorksOn(Run(cfg, Initial, actions), a, c) && IsWorkerStep(a)
    ensures RowsFollow(cfg, Run(cfg, Initial, actions), Step(cfg, Run(cfg, Initial, actions), a), c)
  {
    hide Run, RowsFollow, RunOne, AfterPlace, AfterValidate;
    RunInv(cfg, actions);
    var s := Run(cfg, Initial, actions);
    match a
    case DoRunOne(id) => StartRows(cfg, s, id, c);
    case DoAfterPlace(ok, published) => PlaceRows(cfg, s, ok, published, c);
    case DoAfterValidate(ok, now) => ValidateRows(cfg, s, ok, now, c);
  }

  lemma {:induction false} OpenJobRows(cfg: Config, db: Db, job: Job)
    requires OpenJob(cfg, db, job)
    ensures var c := job.challenge;
            && c in db.challenges && db.challenges[c].status == ChProcessing && db.challenges[c].authz == job.row.authz
            && job.row.authz in db.authzs && db.authzs[job.row.authz].order == job.authz.order && job.authz.order in db.orders
            && job.managed == ServerManaged(cfg, db, c, job.authz.order)
  {}

  lemma {:induction false} FailedRows(cfg: Config, s: State, n: State, job: Job)
    requires OpenJob(cfg, s.db, job) && n.db == MarkInvalid(s.db, job)
    ensures RowsFollow(cfg, s, n, job.challenge)
  {
    OpenJobRows(cfg, s.db, job);
    hide OpenJob, ServerManaged, NowComplete;
  }

  lemma {:induction false} UntouchedRows(cfg: Config, s: State, n: State, job: Job)
    requires OpenJob(cfg, s.db, job)
    requires n.db.orders == s.db.orders && n.db.authzs == s.db.authzs && n.db.accounts == s.db.accounts && n.db.certs == s.db.certs
    requires job.challenge in n.db.challenges && n.db.challenges[job.challenge].status == ChProcessing
    requires n.db.challenges == s.db.challenges[job.challenge := n.db.challenges[job.challenge]]
    ensures RowsFollow(cfg, s, n, job.challenge)
  {
    OpenJobRows(cfg, s.db, job);
    hide OpenJob, ServerManaged, NowComplete;
  }

  lemma {:induction false} StartRows(cfg: Config, s: State, id: Id, c: Id)
    requires Inv(cfg, s) && WorksOn(s, DoRunOne(id), c)
    ensures RowsFollow(cfg, s, RunOne(cfg, s, id), c)
  {
    hide RowsFollow, Pick, OpenBelow, Sound, AttemptsOk, MarkInvalid, Refs;
    if s.worker == Idle {
      var job := JobFor(cfg, s.db, c);
      assert OpenJob(cfg, s.db, job);
      if RunOne(cfg, s, c).db != s.db { FailedRows(cfg, s, RunOne(cfg, s, c), job); } else { UntouchedRows(cfg, s, RunOne(cfg, s, c), job); }
    } else {
      UntouchedRows(cfg, s, s, s.worker.job);
    }
  }

  lemma {:induction false} PlaceRows(cfg: Config, s: State, ok: bool, published: bool, c: Id)
    requires WorkerInv(cfg, s.db, s.worker) && Undecided(s.worker, c)
    ensures RowsFollow(cfg, s, AfterPlace(s, ok, published), c)
  {
    hide RowsFollow, MarkInvalid;
    if s.worker.Placing? && !ok {
      FailedRows(cfg, s, AfterPlace(s, ok, published), s.worker.job);
    } else {
      UntouchedRows(cfg, s, AfterPlace(s, ok, published), s.worker.job);
    }
  }

  lemma {:induction false} ValidateRows(cfg: Config, s: State, ok: bool, now: int, c: Id)
    requires WorkerInv(cfg, s.db, s.worker) && Undecided(s.worker, c)
    ensures RowsFollow(cfg, s, AfterValidate(cfg, s, ok, now), c)
  {
    hide RowsFollow, MarkInvalid, CleanNext, OpenBelow;
    var job := s.worker.job;
    var n := AfterValidate(cfg, s, ok, now);
    if !s.worker.Validating? {
      UntouchedRows(cfg, s, n, job);
    } else if ok {
      var v := Verdict(s, Validated(s.db, job), c);
      CleanNextShape(cfg, v, job, OpenPlacementsOf(v.db, c), true);
      AcceptedRows(cfg, s, n, job);
    } else if job.row.attempts + 1 >= MAX_ATTEMPTS {
      var w := Verdict(s, MarkInvalid(s.db, job), c);
      CleanNextShape(cfg, w, job, OpenPlacementsOf(w.db, c), false);
      FailedRows(cfg, s, n, job);
    } else {
      UntouchedRows(cfg, s, n, job);
    }
  }

  lemma {:induction false} AcceptedRows(cfg: Config, s: State, n: State, job: Job)
    requires OpenJob(cfg, s.db, job)
    requires var v := Validated(s.db, job); n.db == if job.managed then v else MaybePromote(v, job.authz.order)
    ensures RowsFollow(cfg, s, n, job.challenge)
  {
    OpenJobRows(cfg, s.db, job);
    hide OpenJob, ServerManaged;
    var v := Validated(s.db, job);
    assert AllAuthzValid(v, job.authz.order) <==> forall y :: y in n.db.authzs && n.db.authzs[y].order == job.authz.order ==> n.db.authzs[y].status == AuthzValid;
    assert v.orders == s.db.orders;
  }

  /** The end of a runOne that waited for its cleanup: the order is promoted exactly if the
      challenge was accepted, the order is pending and all its authorizations are valid. */
  lemma {:induction false} CleanedPromotesIff(cfg: Config, s: State)
    requires s.worker.Cleaned?
    ensures var o := s.worker.job.authz.order;
            var n := Step(cfg, s, DoAfterCleaned);
            && n.worker == Idle
            && n.db == if s.worker.promote && NowComplete(s, s, o)
                       then s.db.(orders := s.db.orders[o := s.db.orders[o].(status := Ready)]) else s.db
  {}

  // ---- runOne from await to await ----

  /** A cleanup is in flight or over, for this job and with this ending. */
  predicate CleansUp(worker: WorkerPc, job: Job, promote: bool) {
    match worker
    case Cleaning(j, _, _, p) => j == job && p == promote
    case Cleaned(j, p) => j == job && p == promote
    case _ => false
  }

  /** What comes after an await: a place leads to the validation if it returns and to the end if
      it throws; a verdict leads to the cleanup if the server manages the challenge, and to the
      end otherwise or on a retry; a cleanup takes up at least one placement at a time. */
  lemma {:induction false} RunOneMovesOn(cfg: Config, s: State, ok: bool, flag: bool, now: int)
    ensures s.worker.Placing? ==>
              Step(cfg, s, DoAfterPlace(ok, flag)).worker == if ok then Validating(s.worker.job) else Idle
    ensures s.worker.Validating? ==>
              var n, job := Step(cfg, s, DoAfterValidate(ok, now)), s.worker.job;
              if job.managed && (ok || MAX_ATTEMPTS <= job.row.attempts + 1) then CleansUp(n.worker, job, ok) else n.worker == Idle
    ensures s.worker.Cleaning? ==>
              var n := Step(cfg, s, DoAfterCleanup(flag));
              && CleansUp(n.worker, s.worker.job, s.worker.promote)
              && (n.worker.Cleaning? ==> |n.worker.rest| < |s.worker.rest| && n.worker.current in s.worker.rest)
    ensures s.worker.Cleaned? ==> Step(cfg, s, DoAfterCleaned).worker == Idle
  {
    hide OpenBelow, CleanupRule, Directed, OrphansAfter, MarkInvalid, Validated, MaybePromote;
  }

  // ---- calls that throw ----

  /** A place that throws, or is cut off by a restart, leaves its record published exactly if it
      got that far, or an earlier one of the same challenge had; nothing else in the zone changes
      but by the sweep that a restart starts. */
  lemma {:induction false} PlaceThrows(cfg: Config, s: State, published: bool)
    requires s.worker.Placing?
    ensures var n := Step(cfg, s, DoAfterPlace(false, published));
            && n.zone == (if published || s.worker.job.challenge in s.history.orphans then s.zone else s.zone - {s.worker.record})
            && (cfg.rules.None? ==> Step(cfg, s, DoRestart(published)).zone == n.zone)
            && Step(cfg, s, DoRestart(published)).zone <= n.zone
            && n.db.placements == s.db.placements
  {
    hide OpenBelow, CleanupRule, OrphansAfter;
  }

  /** A cleanup that throws and leaves its record behind marks the row all the same. */
  lemma {:induction false} CleanupThrows(cfg: Config, s: State, p: Id)
    requires Directed(cfg, s.db, p)
    ensures var kept, gone := CleanupReturned(cfg, s, p, true), CleanupReturned(cfg, s, p, false);
            && kept.zone == s.zone + {RecordOf(cfg, s.db, p)} && gone.zone == s.zone
            && kept.db == gone.db == s.db.(placements := s.db.placements[p := s.db.placements[p].(cleaned := true)])
  {
    hide Pick, RecordFor;
  }

  // ---- what runOne publishes ----

  /** Nothing is published for the challenge yet, as far as the rows say. */
  ghost predicate NoOpenRow(db: Db, c: Id) {
    forall p :: p in db.placements && db.placements[p].challenge == c ==> db.placements[p].cleaned
  }

  /** The name of the record: the identifier under "_acme-challenge.", without "*." if the
      identifier was a wildcard and still starts with one. */
  function RecordName(authz: Authz): string {
    "_acme-challenge." + if authz.wildcard && |authz.value| >= 2 && authz.value[0] == '*' && authz.value[1] == '.' then authz.value[2..]
                         else authz.value
  }

  /** A due challenge of a server-managed order without an open row gets its record published,
      the digest of its token, a dot and the account's thumbprint, by the first most specific
      provider of its name, or fails for lack of one; any other one goes to the validator. */
  lemma {:induction false} RunOneStarts(cfg: Config, actions: seq<Action>, c: Id)
    requires var s := Run(cfg, Initial, actions); s.worker == Idle && Runnable(s.db, c)
    ensures var s := Run(cfg, Initial, actions);
            var n := Step(cfg, s, DoRunOne(c));
            var authz := s.db.authzs[s.db.challenges[c].authz];
            var order := s.db.orders[authz.order];
            if ServerManaged(cfg, s.db, c, authz.order) && NoOpenRow(s.db, c) then
              if Pick(authz.value, cfg.rules.value).None? then n.worker == Idle && n.zone == s.zone && n.db.challenges[c].status == ChInvalid
              else n.worker.Placing? && n.worker.job.challenge == c && n.db == s.db && n.zone == s.zone + {n.worker.record}
                   && n.worker.record == Record(Home(cfg.rules.value, Pick(authz.value, cfg.rules.value).value), RecordName(authz),
                                                cfg.txt(s.db.challenges[c].token + "." + s.db.accounts[order.account]))
            else n.worker.Validating? && n.worker.job.challenge == c && n.db == s.db && n.zone == s.zone
  {
    RunInv(cfg, actions);
    var s := Run(cfg, Initial, actions);
    hide Run;
    var open := OpenPlacementsOf(s.db, c);
    assert PlacementRefs(s.db);
    assert NoOpenRow(s.db, c) <==> open == [] by { NoOpenRowIff(s.db, c); }
    var value := s.db.authzs[s.db.challenges[c].authz].value;
    if |value| >= 2 { assert value[..2] == [value[0], value[1]]; }
    hide Inv, Pick, Home, OpenBelow, NoOpenRow;
  }

  lemma {:induction false} NoOpenRowIff(db: Db, c: Id)
    requires PlacementRefs(db)
    ensures NoOpenRow(db, c) <==> OpenPlacementsOf(db, c) == []
  {
    var open := OpenPlacementsOf(db, c);
    if open != [] {
      assert open[0] in open;
    } else {
      forall p | p in db.placements && db.placements[p].challenge == c ensures db.placements[p].cleaned { assert p !in open; }
    }
  }
}
