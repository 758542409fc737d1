/** The startup sweep (acme-server/src/server/worker.ts) reaches every placement that a
    restart found open, whatever else goes on meanwhile. */
module AcmeSweep {
  import opened Wrappers
  import opened DnsDispatch
  import opened AcmeModel
  import opened AcmeIssuance
  import opened AcmeDns
  import opened AcmeZone

  /** Some rule serves the name of the placement. */
  predicate Cleanable(cfg: Config, db: Db, p: Id) {
    p in db.placements && cfg.rules.Some? && Pick(StripAcmePrefix(db.placements[p].name), cfg.rules.value).Some?
  }

  /** A cleanup of placement `p` is in flight. */
  predicate BeingCleaned(s: State, p: Id) {
    (s.worker.Cleaning? && s.worker.current == p) || (s.sweep.Sweeping? && s.sweep.current == p)
  }

  /** Since the restart that found `p` open: it is marked or still on the sweep's list if it
      can be cleaned up, and untouched if not. */
  predicate OnItsWay(cfg: Config, s: State, p: Id) {
    && p in s.db.placements
    && if Cleanable(cfg, s.db, p) then s.db.placements[p].cleaned || p in SweepList(s)
       else !s.db.placements[p].cleaned && !BeingCleaned(s, p)
  }

  lemma {:induction false} SweepNextLists(cfg: Config, s: State, todo: seq<Id>, p: Id)
    ensures var n := SweepNext(cfg, s, todo);
            && n.db == s.db && n.worker == s.worker
            && (p in todo && Cleanable(cfg, s.db, p) ==> p in SweepList(n))
            && (n.sweep.Sweeping? && n.sweep.current == p ==> Cleanable(cfg, s.db, p))
  {
    hide Pick, OrphansAfter;
    var k := NextToClean(cfg, s.db, todo);
    if p in todo && Cleanable(cfg, s.db, p) {
      var j :| 0 <= j < |todo| && todo[j] == p;
      assert k <= j;
      if j > k { assert todo[k + 1..][j - k - 1] == p; }
    }
  }

  lemma {:induction false} CleanNextTakes(cfg: Config, s: State, job: Job, todo: seq<Id>, promote: bool, p: Id)
    ensures var n := CleanNext(cfg, s, job, todo, promote);
            && n.db == s.db && n.sweep == s.sweep
            && (n.worker.Cleaning? && n.worker.current == p ==> Cleanable(cfg, s.db, p))
  {
    hide Pick, OrphansAfter;
  }

  lemma {:induction false} RestartLists(cfg: Config, s: State, published: bool, p: Id)
    requires PlacementRefs(s.db) && Open(s.db, p)
    ensures OnItsWay(cfg, Restart(cfg, s, published), p)
    ensures Cleanable(cfg, Restart(cfg, s, published).db, p) <==> Cleanable(cfg, s.db, p)
  {
    hide Pick;
    assert p in OpenPlacements(s.db);
    SweepNextLists(cfg, Restarted(s, published), OpenPlacements(s.db), p);
    hide SweepNext, OpenBelow;
  }

  lemma {:induction false} ReturnedMarks(cfg: Config, s: State, q: Id, left: bool, p: Id)
    requires p in s.db.placements
    ensures var n := CleanupReturned(cfg, s, q, left);
            && n.worker == s.worker && n.sweep == s.sweep
            && p in n.db.placements && n.db.placements[p] == if p == q then s.db.placements[p].(cleaned := true) else s.db.placements[p]
  {
    hide Directed, CleanupRule;
  }

  lemma {:induction false} StepKeepsOnItsWay(cfg: Config, s: State, a: Action, p: Id)
    requires PlacementRefs(s.db) && OnItsWay(cfg, s, p) && !a.DoRestart?
    ensures OnItsWay(cfg, Step(cfg, s, a), p)
    ensures Cleanable(cfg, Step(cfg, s, a).db, p) <==> Cleanable(cfg, s.db, p)
  {
    hide Pick, CleanNext, SweepNext, CleanupReturned, OpenBelow, RunOne, AfterValidate, NewOrder, MarkInvalid, MaybePromote, Withdraw, PlacementRefs;
    match a
    case DoNewOrder(account, ids, managed, tokens, now) =>
      if |tokens| == 2 * |ids| {
        NewOrderPlacements(cfg, s.db, account, ids, managed, tokens, now);
      }
    case DoRunOne(id) => RunOneTakes(cfg, s, id, p);
    case DoAfterPlace(ok, published) =>
      OldPlacement(s.db, p);
      PlaceLeaves(s, ok, published, p);
    case DoAfterValidate(ok, now) => ValidateTakes(cfg, s, ok, now, p);
    case DoAfterCleanup(left) =>
      if s.worker.Cleaning? {
        var m := CleanupReturned(cfg, s, s.worker.current, left);
        ReturnedMarks(cfg, s, s.worker.current, left, p);
        CleanNextTakes(cfg, m, s.worker.job, s.worker.rest, s.worker.promote, p);
      }
    case DoAfterCleaned => CleanedLeaves(s);
    case DoSweepStep(left) =>
      if s.sweep.Sweeping? {
        var m := CleanupReturned(cfg, s, s.sweep.current, left);
        ReturnedMarks(cfg, s, s.sweep.current, left, p);
        SweepNextLists(cfg, m, s.sweep.rest, p);
      }
    case _ =>
  }

  lemma {:induction false} NewOrderPlacements(cfg: Config, db: Db, account: Id, ids: seq<Identifier>, managed: bool, tokens: seq<string>, now: int)
    requires |tokens| == 2 * |ids|
    ensures NewOrder(cfg, db, account, ids, managed, tokens, now).placements == db.placements
  {
    RoundsKeepPlacements(cfg, InsertOrder(db, account, ids, managed, now + cfg.ttl), db.nextId, ids, managed, tokens, now, |ids|);
  }

  lemma {:induction false} OldPlacement(db: Db, p: Id)
    requires PlacementRefs(db) && p in db.placements
    ensures p < db.nextId
  {}

  lemma {:induction false} PlaceLeaves(s: State, ok: bool, published: bool, p: Id)
    requires p in s.db.placements && p < s.db.nextId
    ensures var n := AfterPlace(s, ok, published);
            && p in n.db.placements && n.db.placements[p] == s.db.placements[p] && n.sweep == s.sweep
            && (n.worker == s.worker || !n.worker.Cleaning?)
  {}

  lemma {:induction false} CleanedLeaves(s: State)
    ensures AfterCleaned(s).db.placements == s.db.placements && AfterCleaned(s).sweep == s.sweep
    ensures AfterCleaned(s).worker == s.worker || AfterCleaned(s).worker == Idle
  {}

  lemma {:induction false} RunOneTakes(cfg: Config, s: State, id: Id, p: Id)
    ensures var n := RunOne(cfg, s, id);
            && n.db.placements == s.db.placements && n.sweep == s.sweep
            && (n.worker == s.worker || !n.worker.Cleaning?)
  {
    hide Pick, OpenBelow;
  }

  lemma {:induction false} ValidateTakes(cfg: Config, s: State, ok: bool, now: int, p: Id)
    ensures var n := AfterValidate(cfg, s, ok, now);
            && n.db.placements == s.db.placements && n.sweep == s.sweep
            && (n.worker.Cleaning? && n.worker.current == p ==> n.worker == s.worker || Cleanable(cfg, s.db, p))
  {
    hide CleanNext, OpenBelow, Pick;
    if s.worker.Validating? {
      var job := s.worker.job;
      var v, w := Verdict(s, Validated(s.db, job), job.challenge), Verdict(s, MarkInvalid(s.db, job), job.challenge);
      CleanNextTakes(cfg, v, job, OpenPlacementsOf(v.db, job.challenge), true, p);
      CleanNextTakes(cfg, w, job, OpenPlacementsOf(w.db, job.challenge), false, p);
    }
  }

  /** Step r is the last restart of the run. */
  ghost predicate LastRestart(actions: seq<Action>, r: nat) {
    && r < |actions| && actions[r].DoRestart?
    && forall j :: r < j < |actions| ==> !actions[j].DoRestart?
  }

  lemma {:induction false} RunKeepsOnItsWay(cfg: Config, actions: seq<Action>, r: nat, p: Id)
    requires LastRestart(actions, r) && Open(Run(cfg, Initial, actions[..r]).db, p)
    ensures OnItsWay(cfg, Run(cfg, Initial, actions), p)
    ensures Cleanable(cfg, Run(cfg, Initial, actions).db, p) <==> Cleanable(cfg, Run(cfg, Initial, actions[..r]).db, p)
  {
    var init, last := actions[..|actions| - 1], actions[|actions| - 1];
    RunInv(cfg, init);
    var s := Run(cfg, Initial, init);
    assert PlacementRefs(s.db);
    hide Inv, Step, OnItsWay, Cleanable, PlacementRefs;
    if r == |actions| - 1 {
      assert Step(cfg, s, last) == Restart(cfg, s, last.published) by { RestartStep(cfg, s, last); }
      RestartLists(cfg, s, last.published, p);
    } else {
      assert init[..r] == actions[..r];
      RunKeepsOnItsWay(cfg, init, r, p);
      StepKeepsOnItsWay(cfg, s, last, p);
    }
  }

  lemma {:induction false} RestartStep(cfg: Config, s: State, a: Action)
    requires a.DoRestart?
    ensures Step(cfg, s, a) == Restart(cfg, s, a.published)
  {}

  /** Of the placements that the last restart found open, exactly those that some rule serves
      are marked when the sweep is done, in whatever order the other actors took their steps. */
  lemma {:induction false} SweepCleansAll(cfg: Config, actions: seq<Action>, r: nat, p: Id)
    requires LastRestart(actions, r) && Open(Run(cfg, Initial, actions[..r]).db, p)
    requires Run(cfg, Initial, actions).sweep.SweepDone?
    ensures var s, n := Run(cfg, Initial, actions[..r]), Run(cfg, Initial, actions);
            p in n.db.placements && (n.db.placements[p].cleaned <==> Cleanable(cfg, s.db, p))
  {
    RunKeepsOnItsWay(cfg, actions, r, p);
    hide Run, Cleanable, LastRestart;
  }

  /** A step of the sweep marks the placement it was at and shortens the list. */
  lemma {:induction false} SweepMovesOn(cfg: Config, s: State, left: bool)
    requires s.sweep.Sweeping? && s.sweep.current in s.db.placements
    ensures var n := Step(cfg, s, DoSweepStep(left));
            && |SweepList(n)| < |SweepList(s)|
            && n.db == s.db.(placements := s.db.placements[s.sweep.current := s.db.placements[s.sweep.current].(cleaned := true)])
  {
    hide OpenBelow, CleanupRule, Directed, OrphansAfter;
  }
}
