/** Which orders stay `pending` though every authorization is valid: the worker promotes an
    order only at the end of runOne, after an awaited cleanup. */
module AcmePromotion {
  import opened Wrappers
  import opened Names
  import opened DnsDispatch
  import opened AcmeModel
  import opened AcmeIssuance

  // ---- the invariant behind it ----

  /** An authorization of a server-managed order owns one challenge. */
  ghost predicate OneChallengeEach(db: Db) {
    forall c, d :: c in db.challenges && d in db.challenges && ManagedAuthz(db, db.challenges[c].authz) ==>
      db.challenges[c].authz == db.challenges[d].authz ==> c == d
  }

  predicate ManagedAuthz(db: Db, a: Id) {
    a in db.authzs && db.authzs[a].order in db.orders && db.orders[db.authzs[a].order].managed
  }

  /** Only jobs of server-managed orders wait for a cleanup. */
  predicate CleansManaged(worker: WorkerPc) {
    worker.Cleaning? || worker.Cleaned? ==> worker.job.managed
  }

  // ---- the stuck order ----

  /** The worker has yet to come back to runOne for a challenge of order `o`. */
  predicate InFlight(worker: WorkerPc, o: Id) {
    !worker.Idle? && worker.job.authz.order == o
  }

  /** Only the promotion of order `o` is left to do, and runOne waits for a cleanup before it. */
  predicate PromotionDue(worker: WorkerPc, o: Id) {
    (worker.Cleaning? || worker.Cleaned?) && worker.promote && worker.job.authz.order == o
  }

  predicate Complete(db: Db, o: Id) {
    o in db.orders && db.orders[o].status == Pending && AllAuthzValid(db, o)
  }

  /** The step is a restart that finds the promotion of `o` due and nothing else missing. */
  predicate LosesPromotion(s: State, a: Action, o: Id) {
    a.DoRestart? && PromotionDue(s.worker, o) && Complete(s.db, o)
  }

  ghost predicate PromotionLost(cfg: Config, actions: seq<Action>, o: Id) {
    exists k: nat :: k < |actions| && LosesPromotion(Run(cfg, Initial, actions[..k]), actions[k], o)
  }

  /** All its authorizations are valid, and no runOne will ever touch it again. */
  ghost predicate Dead(s: State, o: Id) {
    && o in s.db.orders && s.db.orders[o].managed && s.db.orders[o].status in {Pending, Expired}
    && AllAuthzValid(s.db, o) && !InFlight(s.worker, o)
  }

  // ---- one challenge each ----

  lemma {:induction false} OneChallengeKept(db: Db, n: Db)
    requires Refs(db) && Extends(db, n) && SameIds(db, n) && OneChallengeEach(db)
    ensures OneChallengeEach(n)
  {}

  /** Challenges that `d` has and `db` has not belong to different authorizations. */
  ghost predicate NewOnesDiffer(db: Db, d: Db) {
    && (forall c :: c in d.challenges ==> d.challenges[c].authz < d.nextId && c < d.nextId)
    && forall c, e :: c in d.challenges && e in d.challenges && c !in db.challenges && e !in db.challenges ==>
         d.challenges[c].authz == d.challenges[e].authz ==> c == e
  }

  lemma {:induction false} RoundDiffers(cfg: Config, db: Db, d: Db, order: Id, posted: string, t1: string, t2: string, now: int)
    requires NewOnesDiffer(db, d)
    ensures NewOnesDiffer(db, InsertIdentifier(cfg, d, order, posted, true, t1, t2, now))
  {}

  lemma {:induction false} RoundsDiffer(cfg: Config, db: Db, order: Id, ids: seq<Identifier>, tokens: seq<string>, now: int, n: nat)
    requires n <= |ids| && |tokens| == 2 * |ids| && NewOnesDiffer(db, db)
    ensures NewOnesDiffer(db, InsertIdentifiers(cfg, db, order, ids, true, tokens, now, n))
  {
    hide NewOnesDiffer, InsertIdentifier;
    if n > 0 {
      RoundsDiffer(cfg, db, order, ids, tokens, now, n - 1);
      var d := InsertIdentifiers(cfg, db, order, ids, true, tokens, now, n - 1);
      RoundDiffers(cfg, db, d, order, ids[n - 1].value, tokens[2 * n - 2], tokens[2 * n - 1], now);
    }
  }

  lemma {:induction false} NewOrderOneChallenge(cfg: Config, db: Db, account: Id, ids: seq<Identifier>, managed: bool,
                                                tokens: seq<string>, now: int)
    requires Refs(db) && account in db.accounts && |tokens| == 2 * |ids| && OneChallengeEach(db)
    ensures OneChallengeEach(NewOrder(cfg, db, account, ids, managed, tokens, now))
  {
    hide InsertIdentifiers;
    var db1 := InsertOrder(db, account, ids, managed, now + cfg.ttl);
    var n := NewOrder(cfg, db, account, ids, managed, tokens, now);
    InsertOrderRefs(db, account, ids, managed, now + cfg.ttl);
    InsertIdentifiersInserts(cfg, db1, db.nextId, ids, managed, tokens, now, |ids|);
    if managed { RoundsDiffer(cfg, db1, db.nextId, ids, tokens, now, |ids|); }
    InsertedOneChallenge(db, db1, n, db.nextId, managed);
  }

  lemma {:induction false} InsertedOneChallenge(db: Db, db1: Db, n: Db, o: Id, managed: bool)
    requires Refs(db) && OneChallengeEach(db) && WithNewOrder(db, db1, o) && InsertedRows(db1, n, o)
    requires db1.orders[o].managed == managed && (managed ==> NewOnesDiffer(db1, n))
    ensures OneChallengeEach(n)
  {}

  /** newOrder leaves the new order with an authorization that is not valid yet. */
  lemma {:induction false} NewOrderIncomplete(cfg: Config, db: Db, account: Id, ids: seq<Identifier>, managed: bool,
                                              tokens: seq<string>, now: int, o: Id)
    requires Refs(db) && account in db.accounts && |tokens| == 2 * |ids| && ids != []
    ensures var n := NewOrder(cfg, db, account, ids, managed, tokens, now);
            && (Complete(n, o) ==> Complete(db, o))
            && (o in db.orders && AllAuthzValid(db, o) ==> AllAuthzValid(n, o))
  {
    hide InsertIdentifiers;
    var db1 := InsertOrder(db, account, ids, managed, now + cfg.ttl);
    var n := NewOrder(cfg, db, account, ids, managed, tokens, now);
    InsertOrderRefs(db, account, ids, managed, now + cfg.ttl);
    InsertIdentifiersInserts(cfg, db1, db.nextId, ids, managed, tokens, now, |ids|);
    assert IsCovered(n, db.nextId, ids[0].value);
    var a :| Authorizes(n, a, db.nextId, ids[0].value);
    assert a !in db.authzs;
    assert n.authzs[a].status == AuthzPending;
  }

  // ---- one step ----

  ghost predicate PromotionInv(s: State) {
    OneChallengeEach(s.db) && CleansManaged(s.worker)
  }

  lemma {:induction false} StepPromotionInv(cfg: Config, s: State, a: Action)
    requires Inv(cfg, s) && PromotionInv(s)
    ensures PromotionInv(Step(cfg, s, a))
  {
    hide Sound, WorkerInv, AttemptsOk;
    StepInv(cfg, s, a);
    if a.DoNewOrder? {
      if Step(cfg, s, a) != s { NewOrderOneChallenge(cfg, s.db, a.account, a.ids, a.managed, a.tokens, a.now); }
    } else {
      OnlyNewOrderInserts(cfg, s, a);
      OneChallengeKept(s.db, Step(cfg, s, a).db);
      hide OneChallengeEach;
      StepCleansManaged(cfg, s, a);
    }
  }

  lemma {:induction false} StepCleansManaged(cfg: Config, s: State, a: Action)
    requires CleansManaged(s.worker)
    ensures CleansManaged(Step(cfg, s, a).worker)
  {
    hide NewOrder, CleanNext, SweepNext, OpenBelow, Pick;
    match a
    case DoAfterValidate(ok, now) =>
      if s.worker.Validating? {
        var job := s.worker.job;
        var v, w := Verdict(s, Validated(s.db, job), job.challenge), Verdict(s, MarkInvalid(s.db, job), job.challenge);
        CleanNextShape(cfg, v, job, OpenPlacementsOf(v.db, job.challenge), true);
        CleanNextShape(cfg, w, job, OpenPlacementsOf(w.db, job.challenge), false);
      }
    case DoAfterCleanup(left) =>
      if s.worker.Cleaning? {
        CleanNextShape(cfg, CleanupReturned(cfg, s, s.worker.current, left), s.worker.job, s.worker.rest, s.worker.promote);
      }
    case DoSweepStep(left) =>
      if s.sweep.Sweeping? { SweepNextShape(cfg, CleanupReturned(cfg, s, s.sweep.current, left), s.sweep.rest); }
    case DoRestart(published) => SweepNextShape(cfg, Restarted(s, published), OpenPlacements(s.db));
    case _ =>
  }

  /** The job's rows say which order it works for. */
  lemma {:induction false} JobOrder(cfg: Config, db: Db, job: Job)
    requires JobInv(cfg, db, job)
    ensures job.row.authz in db.authzs && db.authzs[job.row.authz].order == job.authz.order && job.authz.order in db.orders
    ensures job.managed ==> db.orders[job.authz.order].managed
  {}

  /** The authorizations of `o` are the same rows before and after. */
  ghost predicate SameAuthzs(db: Db, n: Db, o: Id) {
    && (forall a :: a in db.authzs && db.authzs[a].order == o ==> a in n.authzs && n.authzs[a] == db.authzs[a])
    && (forall a :: a in n.authzs && n.authzs[a].order == o ==> a in db.authzs && db.authzs[a].order == o)
  }

  lemma {:induction false} SameComplete(db: Db, n: Db, o: Id)
    requires SameAuthzs(db, n, o)
    ensures AllAuthzValid(n, o) <==> AllAuthzValid(db, o)
  {}

  /** A job writes to its own authorization and order only. */
  lemma {:induction false} OtherOrderSame(cfg: Config, db: Db, job: Job, o: Id)
    requires JobInv(cfg, db, job) && o != job.authz.order
    ensures SameAuthzs(db, MarkInvalid(db, job), o) && SameAuthzs(db, Validated(db, job), o)
    ensures o in db.orders ==> MarkInvalid(db, job).orders[o] == db.orders[o]
  {
    JobOrder(cfg, db, job);
  }

  lemma {:induction false} FailedOrder(cfg: Config, db: Db, job: Job)
    requires JobInv(cfg, db, job)
    ensures !Complete(MarkInvalid(db, job), job.authz.order)
  {
    JobOrder(cfg, db, job);
  }

  lemma {:induction false} PromotedOrder(db: Db, o: Id)
    ensures !Complete(MaybePromote(db, o), o)
    ensures forall p :: Complete(MaybePromote(db, o), p) ==> Complete(db, p)
  {}

  /** Once everything is valid an order is promoted, unless a restart comes in between. */
  lemma {:induction false} StepOwed(cfg: Config, s: State, a: Action, o: Id)
    requires Inv(cfg, s) && Complete(Step(cfg, s, a).db, o) && !PromotionDue(Step(cfg, s, a).worker, o)
    ensures Complete(s.db, o) && (PromotionDue(s.worker, o) ==> a.DoRestart?)
  {
    hide Sound, AttemptsOk, CleanNext, SweepNext, NewOrder, RunOne, AfterPlace, AfterValidate, OpenBelow, AllAuthzValid, MaybePromote, Refs;
    match a
    case DoNewOrder(account, ids, managed, tokens, now) =>
      if Step(cfg, s, a) != s { NewOrderIncomplete(cfg, s.db, account, ids, managed, tokens, now, o); }
    case DoFinalize(account, order, csr, signed) => FinalizeOwed(cfg, s, account, order, csr, signed, o);
    case DoExpire(now) => ExpireOwed(s.db, now, o);
    case DoRunOne(id) => RunOneOwed(cfg, s, id, o);
    case DoAfterPlace(ok, published) => PlaceOwed(cfg, s, ok, published, o);
    case DoAfterValidate(ok, now) => ValidateOwed(cfg, s, ok, now, o);
    case DoAfterCleanup(left) =>
      if s.worker.Cleaning? {
        var m := CleanupReturned(cfg, s, s.worker.current, left);
        CleanNextShape(cfg, m, s.worker.job, s.worker.rest, s.worker.promote);
        CleanNextPromote(cfg, m, s.worker.job, s.worker.rest, s.worker.promote);
        SameRowsComplete(s.db, m.db, o);
      }
    case DoAfterCleaned => if s.worker.Cleaned? { PromotedOrder(s.db, s.worker.job.authz.order); }
    case DoSweepStep(left) =>
      if s.sweep.Sweeping? {
        var m := CleanupReturned(cfg, s, s.sweep.current, left);
        SweepNextShape(cfg, m, s.sweep.rest);
        SameRowsComplete(s.db, m.db, o);
      }
    case DoRestart(published) => SweepNextShape(cfg, Restarted(s, published), OpenPlacements(s.db));
    case _ => SameRowsComplete(s.db, Step(cfg, s, a).db, o);
  }

  lemma {:induction false} SameRowsComplete(db: Db, n: Db, o: Id)
    requires n.orders == db.orders && n.authzs == db.authzs
    ensures Complete(n, o) <==> Complete(db, o)
    ensures AllAuthzValid(n, o) <==> AllAuthzValid(db, o)
  {}

  lemma {:induction false} CleanNextPromote(cfg: Config, s: State, job: Job, todo: seq<Id>, promote: bool)
    ensures CleanNext(cfg, s, job, todo, promote).worker.promote == promote
  {}

  lemma {:induction false} FinalizeOwed(cfg: Config, s: State, account: Id, order: Id, csr: Option<Csr>, signed: bool, o: Id)
    ensures var n := Step(cfg, s, DoFinalize(account, order, csr, signed));
            (Complete(n.db, o) ==> Complete(s.db, o)) && n.worker == s.worker && n.db.authzs == s.db.authzs
  {
    hide FinalizeProblem;
  }

  lemma {:induction false} ExpireOwed(db: Db, now: int, o: Id)
    ensures Complete(Expire(db, now), o) ==> Complete(db, o)
    ensures AllAuthzValid(db, o) ==> AllAuthzValid(Expire(db, now), o)
  {
    var n := Expire(db, now);
    if Complete(n, o) {
      forall a | a in db.authzs && db.authzs[a].order == o ensures db.authzs[a].status == AuthzValid {
        assert n.authzs[a] == ExpireAuthz(db.authzs[a], now) && n.authzs[a].order == o;
      }
    }
  }

  lemma {:induction false} RunOneOwed(cfg: Config, s: State, id: Id, o: Id)
    requires Inv(cfg, s)
    ensures Complete(RunOne(cfg, s, id).db, o) ==> Complete(s.db, o)
    ensures s.worker != Idle ==> RunOne(cfg, s, id) == s
  {
    hide Pick, OpenBelow, Sound, AttemptsOk, AllAuthzValid, MarkInvalid;
    if s.worker == Idle && Runnable(s.db, id) {
      var job := JobFor(cfg, s.db, id);
      assert JobInv(cfg, s.db, job);
      if o == job.authz.order {
        FailedOrder(cfg, s.db, job);
      } else {
        OtherOrderSame(cfg, s.db, job, o);
        SameComplete(s.db, MarkInvalid(s.db, job), o);
        assert MarkInvalid(s.db, job).orders.Keys == s.db.orders.Keys by { FailKeepsIds(s.db, job); }
      }
    }
  }

  lemma {:induction false} FailKeepsIds(db: Db, job: Job)
    ensures MarkInvalid(db, job).orders.Keys == db.orders.Keys
  {
    var d := SetChallengeResult(db, job.challenge, ChInvalid, None, MAX_ATTEMPTS);
    assert d.orders == db.orders;
    var e := SetAuthzStatus(d, job.row.authz, AuthzInvalid);
    assert e.orders == d.orders;
    hide SetChallengeResult, SetAuthzStatus;
    assert MarkInvalid(db, job) == SetOrderStatus(e, job.authz.order, Invalid);
  }

  lemma {:induction false} FailOwed(cfg: Config, db: Db, job: Job, o: Id)
    requires JobInv(cfg, db, job)
    ensures Complete(MarkInvalid(db, job), o) ==> Complete(db, o)
  {
    hide AllAuthzValid, MarkInvalid, JobInv;
    if o == job.authz.order {
      FailedOrder(cfg, db, job);
    } else {
      OtherOrderSame(cfg, db, job, o);
      SameComplete(db, MarkInvalid(db, job), o);
      FailKeepsIds(db, job);
    }
  }

  lemma {:induction false} PlaceOwed(cfg: Config, s: State, ok: bool, published: bool, o: Id)
    requires WorkerInv(cfg, s.db, s.worker)
    ensures Complete(AfterPlace(s, ok, published).db, o) ==> Complete(s.db, o)
    ensures PromotionDue(s.worker, o) ==> AfterPlace(s, ok, published) == s
  {
    hide AllAuthzValid, MarkInvalid;
    if s.worker.Placing? {
      FailOwed(cfg, s.db, s.worker.job, o);
      SameRowsComplete(s.db, InsertPlacement(s.db, Placement(s.worker.job.challenge, s.worker.record.name, s.worker.record.value, false)), o);
    }
  }

  lemma {:induction false} ValidateOwed(cfg: Config, s: State, ok: bool, now: int, o: Id)
    requires WorkerInv(cfg, s.db, s.worker)
    requires Complete(AfterValidate(cfg, s, ok, now).db, o) && !PromotionDue(AfterValidate(cfg, s, ok, now).worker, o)
    ensures Complete(s.db, o) && (PromotionDue(s.worker, o) ==> AfterValidate(cfg, s, ok, now) == s)
  {
    hide AllAuthzValid, MarkInvalid, Validated, MaybePromote, CleanNext, OpenBelow;
    if s.worker.Validating? {
      var job := s.worker.job;
      var v, w := Verdict(s, Validated(s.db, job), job.challenge), Verdict(s, MarkInvalid(s.db, job), job.challenge);
      CleanNextShape(cfg, v, job, OpenPlacementsOf(v.db, job.challenge), true);
      CleanNextPromote(cfg, v, job, OpenPlacementsOf(v.db, job.challenge), true);
      CleanNextShape(cfg, w, job, OpenPlacementsOf(w.db, job.challenge), false);
      FailOwed(cfg, s.db, job, o);
      PromotedOrder(v.db, job.authz.order);
      if o != job.authz.order { ValidOwed(cfg, s.db, job, o); }
      RetryOwed(s, job, now, o);
    }
  }

  lemma {:induction false} ValidOwed(cfg: Config, db: Db, job: Job, o: Id)
    requires JobInv(cfg, db, job) && o != job.authz.order
    ensures Complete(Validated(db, job), o) ==> Complete(db, o)
  {
    OtherOrderSame(cfg, db, job, o);
    SameComplete(db, Validated(db, job), o);
  }

  lemma {:induction false} RetryOwed(s: State, job: Job, now: int, o: Id)
    ensures job.row.attempts < |RETRY_DELAYS_MS| ==> Complete(Retry(s, job, now).db, o) ==> Complete(s.db, o)
  {}

  // ---- dead orders ----

  /** Every challenge of a managed order whose authorizations are valid is decided. */
  lemma {:induction false} NothingToRun(db: Db, o: Id, c: Id)
    requires Refs(db) && ValidProven(db) && OneChallengeEach(db) && AllAuthzValid(db, o)
    requires o in db.orders && db.orders[o].managed
    requires c in db.challenges && db.authzs[db.challenges[c].authz].order == o
    ensures db.challenges[c].status == ChValid
  {
    var a := db.challenges[c].authz;
    assert Proven(db, a);
    var d :| d in db.challenges && db.challenges[d].authz == a && db.challenges[d].status == ChValid;
    assert ManagedAuthz(db, a);
    assert c == d;
  }

  lemma {:induction false} InvParts(cfg: Config, s: State)
    requires Inv(cfg, s)
    ensures Refs(s.db) && ValidProven(s.db) && WorkerInv(cfg, s.db, s.worker)
  {}

  /** What the rows of a step have to do with a dead order. */
  ghost predicate LeavesDead(db: Db, n: Db, o: Id)
    requires o in db.orders
  {
    && o in n.orders && n.orders[o].managed == db.orders[o].managed && n.orders[o].status in {db.orders[o].status, Expired}
    && (AllAuthzValid(db, o) ==> AllAuthzValid(n, o))
  }

  lemma {:induction false} RowsLeaveDead(db: Db, n: Db, o: Id)
    requires o in db.orders && n.authzs == db.authzs && o in n.orders && n.orders[o] == db.orders[o]
    ensures LeavesDead(db, n, o)
  {}

  lemma {:induction false} JobLeavesDead(cfg: Config, db: Db, job: Job, o: Id)
    requires JobInv(cfg, db, job) && o != job.authz.order && o in db.orders
    ensures LeavesDead(db, MarkInvalid(db, job), o) && LeavesDead(db, Validated(db, job), o)
    ensures LeavesDead(db, MaybePromote(Validated(db, job), job.authz.order), o)
  {
    OtherOrderSame(cfg, db, job, o);
    SameComplete(db, MarkInvalid(db, job), o);
    SameComplete(db, Validated(db, job), o);
    FailKeepsIds(db, job);
    assert Validated(db, job).orders == db.orders;
    hide AllAuthzValid, Validated, MarkInvalid, JobInv;
    PromoteOther(Validated(db, job), job.authz.order, o);
  }

  lemma {:induction false} PromoteOther(db: Db, p: Id, o: Id)
    requires o != p && o in db.orders
    ensures LeavesDead(db, MaybePromote(db, p), o)
  {}

  /** No step brings a dead order back, or takes it further than `expired`. */
  lemma {:induction false} StepDead(cfg: Config, s: State, a: Action, o: Id)
    requires Inv(cfg, s) && OneChallengeEach(s.db) && Dead(s, o)
    ensures Dead(Step(cfg, s, a), o)
  {
    var n := Step(cfg, s, a);
    InvParts(cfg, s);
    assert LeavesDead(s.db, n.db, o) && !InFlight(n.worker, o) by {
      hide Inv, CleanNext, SweepNext, NewOrder, RunOne, AfterPlace, AfterValidate, OpenBelow, AllAuthzValid, MaybePromote, ValidProven,
           OneChallengeEach, LeavesDead, Finalize, Expire, AfterCleanup, SweepStep, Restart, WorkerInv, Refs, FinalizeProblem;
      match a
      case DoNewOrder(account, ids, managed, tokens, now) =>
        if n != s { NewOrderLeavesDead(cfg, s.db, account, ids, managed, tokens, now, o); } else { RowsLeaveDead(s.db, n.db, o); }
      case DoFinalize(account, order, csr, signed) => FinalizeLeavesDead(cfg, s, account, order, csr, signed, o);
      case DoExpire(now) => ExpireLeavesDead(s.db, now, o);
      case DoRunOne(id) => RunOneLeavesDead(cfg, s, id, o);
      case DoAfterPlace(ok, published) => PlaceLeavesDead(cfg, s, ok, published, o);
      case DoAfterValidate(ok, now) => ValidateLeavesDead(cfg, s, ok, now, o);
      case DoAfterCleanup(left) =>
        CleanupRows(cfg, s, left);
        RowsLeaveDead(s.db, n.db, o);
      case DoAfterCleaned => if s.worker.Cleaned? { PromoteOther(s.db, s.worker.job.authz.order, o); } RowsLeaveDead(s.db, s.db, o);
      case DoSweepStep(left) =>
        SweepRows(cfg, s, left);
        RowsLeaveDead(s.db, n.db, o);
      case DoRestart(published) =>
        RestartRows(cfg, s, published);
        RowsLeaveDead(s.db, n.db, o);
      case _ => RowsLeaveDead(s.db, n.db, o);
    }
  }

  lemma {:induction false} CleanupRows(cfg: Config, s: State, left: bool)
    ensures var n := AfterCleanup(cfg, s, left);
            && n.db.orders == s.db.orders && n.db.authzs == s.db.authzs
            && (n.worker.Idle? <==> s.worker.Idle?) && (!n.worker.Idle? ==> n.worker.job == s.worker.job)
  {
    hide CleanNext;
    if s.worker.Cleaning? {
      CleanNextShape(cfg, CleanupReturned(cfg, s, s.worker.current, left), s.worker.job, s.worker.rest, s.worker.promote);
    }
  }

  lemma {:induction false} RestartRows(cfg: Config, s: State, published: bool)
    ensures var n := Restart(cfg, s, published);
            n.db.orders == s.db.orders && n.db.authzs == s.db.authzs && n.worker.Idle?
  {
    SweepNextShape(cfg, Restarted(s, published), OpenPlacements(s.db));
  }

  lemma {:induction false} SweepRows(cfg: Config, s: State, left: bool)
    ensures var n := SweepStep(cfg, s, left);
            n.db.orders == s.db.orders && n.db.authzs == s.db.authzs && n.worker == s.worker
  {
    hide SweepNext;
    if s.sweep.Sweeping? { SweepNextShape(cfg, CleanupReturned(cfg, s, s.sweep.current, left), s.sweep.rest); }
  }

  lemma {:induction false} NewOrderLeavesDead(cfg: Config, db: Db, account: Id, ids: seq<Identifier>, managed: bool,
                                              tokens: seq<string>, now: int, o: Id)
    requires Refs(db) && account in db.accounts && |tokens| == 2 * |ids| && ids != [] && o in db.orders
    ensures LeavesDead(db, NewOrder(cfg, db, account, ids, managed, tokens, now), o)
  {
    hide InsertIdentifiers;
    var db1 := InsertOrder(db, account, ids, managed, now + cfg.ttl);
    NewOrderIncomplete(cfg, db, account, ids, managed, tokens, now, o);
    InsertOrderRefs(db, account, ids, managed, now + cfg.ttl);
    InsertIdentifiersInserts(cfg, db1, db.nextId, ids, managed, tokens, now, |ids|);
    hide AllAuthzValid;
  }

  lemma {:induction false} FinalizeLeavesDead(cfg: Config, s: State, account: Id, order: Id, csr: Option<Csr>, signed: bool, o: Id)
    requires o in s.db.orders && s.db.orders[o].status in {Pending, Expired}
    ensures var n := Step(cfg, s, DoFinalize(account, order, csr, signed)); LeavesDead(s.db, n.db, o) && n.worker == s.worker
  {
    hide ExpectedSans, LowerAll, AllAuthzValid;
    var n := Step(cfg, s, DoFinalize(account, order, csr, signed));
    assert n.db.authzs == s.db.authzs && n.db.orders[o] == s.db.orders[o];
    RowsLeaveDead(s.db, n.db, o);
  }

  lemma {:induction false} ExpireLeavesDead(db: Db, now: int, o: Id)
    requires o in db.orders
    ensures LeavesDead(db, Expire(db, now), o)
  {
    ExpireOwed(db, now, o);
    hide AllAuthzValid;
  }

  lemma {:induction false} RunOneLeavesDead(cfg: Config, s: State, id: Id, o: Id)
    requires Refs(s.db) && ValidProven(s.db) && OneChallengeEach(s.db) && Dead(s, o)
    ensures LeavesDead(s.db, RunOne(cfg, s, id).db, o) && !InFlight(RunOne(cfg, s, id).worker, o)
  {
    hide Pick, OpenBelow, LeavesDead, MarkInvalid, ValidProven, OneChallengeEach;
    RowsLeaveDead(s.db, s.db, o);
    if s.worker == Idle && Runnable(s.db, id) {
      var job := JobFor(cfg, s.db, id);
      if job.authz.order == o { NothingToRun(s.db, o, id); }
      assert job.authz.order != o;
      assert JobInv(cfg, s.db, job);
      JobLeavesDead(cfg, s.db, job, o);
    }
  }

  lemma {:induction false} PlaceLeavesDead(cfg: Config, s: State, ok: bool, published: bool, o: Id)
    requires WorkerInv(cfg, s.db, s.worker) && o in s.db.orders && !InFlight(s.worker, o)
    ensures LeavesDead(s.db, AfterPlace(s, ok, published).db, o) && !InFlight(AfterPlace(s, ok, published).worker, o)
  {
    hide LeavesDead, MarkInvalid;
    RowsLeaveDead(s.db, s.db, o);
    if s.worker.Placing? {
      var p := Placement(s.worker.job.challenge, s.worker.record.name, s.worker.record.value, false);
      RowsLeaveDead(s.db, InsertPlacement(s.db, p), o);
      JobLeavesDead(cfg, s.db, s.worker.job, o);
    }
  }

  lemma {:induction false} ValidateLeavesDead(cfg: Config, s: State, ok: bool, now: int, o: Id)
    requires WorkerInv(cfg, s.db, s.worker) && o in s.db.orders && !InFlight(s.worker, o)
    ensures LeavesDead(s.db, AfterValidate(cfg, s, ok, now).db, o) && !InFlight(AfterValidate(cfg, s, ok, now).worker, o)
  {
    hide LeavesDead, MarkInvalid, Validated, MaybePromote, CleanNext, OpenBelow;
    RowsLeaveDead(s.db, s.db, o);
    if s.worker.Validating? {
      var job := s.worker.job;
      var v, w := Verdict(s, Validated(s.db, job), job.challenge), Verdict(s, MarkInvalid(s.db, job), job.challenge);
      CleanNextShape(cfg, v, job, OpenPlacementsOf(v.db, job.challenge), true);
      CleanNextShape(cfg, w, job, OpenPlacementsOf(w.db, job.challenge), false);
      JobLeavesDead(cfg, s.db, job, o);
      RetryLeavesDead(s, job, now, o);
    }
  }

  lemma {:induction false} RetryLeavesDead(s: State, job: Job, now: int, o: Id)
    requires o in s.db.orders
    ensures job.row.attempts < |RETRY_DELAYS_MS| ==> LeavesDead(s.db, Retry(s, job, now).db, o)
  {}

  // ---- every run ----

  lemma {:induction false} RunPromotionInv(cfg: Config, actions: seq<Action>)
    ensures PromotionInv(Run(cfg, Initial, actions))
  {
    if actions != [] {
      hide PromotionInv, Inv, Step;
      RunPromotionInv(cfg, actions[..|actions| - 1]);
      RunInv(cfg, actions[..|actions| - 1]);
      StepPromotionInv(cfg, Run(cfg, Initial, actions[..|actions| - 1]), actions[|actions| - 1]);
    }
  }

  lemma {:induction false} LostBefore(cfg: Config, actions: seq<Action>, o: Id)
    requires actions != [] && PromotionLost(cfg, actions[..|actions| - 1], o)
    ensures PromotionLost(cfg, actions, o)
  {
    hide LosesPromotion;
    var init := actions[..|actions| - 1];
    var k: nat :| k < |init| && LosesPromotion(Run(cfg, Initial, init[..k]), init[k], o);
    assert init[..k] == actions[..k] && init[k] == actions[k];
  }

  /** A complete order is about to be promoted or has lost its promotion. */
  lemma {:induction false} CompleteIsOwed(cfg: Config, actions: seq<Action>, o: Id)
    requires Complete(Run(cfg, Initial, actions).db, o)
    ensures PromotionDue(Run(cfg, Initial, actions).worker, o) || PromotionLost(cfg, actions, o)
  {
    hide Complete, PromotionDue, Inv, Step;
    if actions == [] {
      NothingComplete(o);
    } else if !PromotionDue(Run(cfg, Initial, actions).worker, o) {
      var last := |actions| - 1;
      var init := actions[..last];
      var s := Run(cfg, Initial, init);
      RunInv(cfg, init);
      StepOwed(cfg, s, actions[last], o);
      CompleteIsOwed(cfg, init, o);
      if PromotionDue(s.worker, o) {
        assert LosesPromotion(Run(cfg, Initial, actions[..last]), actions[last], o);
      } else {
        LostBefore(cfg, actions, o);
      }
    }
  }

  lemma {:induction false} NothingComplete(o: Id)
    ensures !Complete(Initial.db, o)
  {}

  /** The restart that loses the promotion leaves the order dead. */
  lemma {:induction false} LostIsDead(cfg: Config, s: State, a: Action, o: Id)
    requires Inv(cfg, s) && CleansManaged(s.worker) && LosesPromotion(s, a, o)
    ensures Dead(Step(cfg, s, a), o)
  {
    InvParts(cfg, s);
    var published := a.published;
    SweepNextShape(cfg, Restarted(s, published), OpenPlacements(s.db));
    JobOrder(cfg, s.db, s.worker.job);
    SameRowsComplete(s.db, Step(cfg, s, a).db, o);
    hide Inv, SweepNext, OpenBelow, AllAuthzValid, JobInv, WorkerInv;
  }

  lemma {:induction false} LostStaysDead(cfg: Config, actions: seq<Action>, k: nat, o: Id)
    requires k < |actions| && LosesPromotion(Run(cfg, Initial, actions[..k]), actions[k], o)
    ensures Dead(Run(cfg, Initial, actions), o)
  {
    hide Dead, Inv, Step, LosesPromotion, OneChallengeEach;
    var last := |actions| - 1;
    var init := actions[..last];
    RunInv(cfg, init);
    RunPromotionInv(cfg, init);
    if k < last {
      assert init[..k] == actions[..k] && init[k] == actions[k];
      LostStaysDead(cfg, init, k, o);
      StepDead(cfg, Run(cfg, Initial, init), actions[last], o);
    } else {
      assert actions[..k] == init;
      LostIsDead(cfg, Run(cfg, Initial, init), actions[last], o);
    }
  }

  /** In every run a pending order has all its authorizations valid and no runOne in flight
      if and only if a restart hit the worker between the last authorization's success and
      the promotion. */
  lemma {:induction false} StuckIffPromotionLost(cfg: Config, actions: seq<Action>, o: Id)
    requires var db := Run(cfg, Initial, actions).db; o in db.orders && db.orders[o].status == Pending
    ensures var s := Run(cfg, Initial, actions);
            AllAuthzValid(s.db, o) && !InFlight(s.worker, o) <==> PromotionLost(cfg, actions, o)
  {
    var s := Run(cfg, Initial, actions);
    hide Run, LosesPromotion, AllAuthzValid;
    if AllAuthzValid(s.db, o) && !InFlight(s.worker, o) { CompleteIsOwed(cfg, actions, o); }
    if PromotionLost(cfg, actions, o) {
      var k: nat :| k < |actions| && LosesPromotion(Run(cfg, Initial, actions[..k]), actions[k], o);
      LostStaysDead(cfg, actions, k, o);
    }
  }

  /** Such an order never becomes ready: it stays pending until it expires. */
  lemma {:induction false} LostOrderNeverReady(cfg: Config, actions: seq<Action>, o: Id)
    requires PromotionLost(cfg, actions, o)
    ensures var db := Run(cfg, Initial, actions).db;
            o in db.orders && db.orders[o].status in {Pending, Expired} && AllAuthzValid(db, o)
  {
    hide Run, LosesPromotion, AllAuthzValid;
    var k: nat :| k < |actions| && LosesPromotion(Run(cfg, Initial, actions[..k]), actions[k], o);
    LostStaysDead(cfg, actions, k, o);
  }
}
