/** The zone invariant of AcmeDns.dfy holds after every step, hence over every run. */
module AcmeZone {
  import opened Wrappers
  import opened Names
  import opened DnsDispatch
  import opened AcmeModel
  import opened AcmeIssuance
  import opened AcmeDns

  // ---- newOrder: tokens and wildcards of the new rows ----

  /** `d` is `db` plus challenges that carry some of the first `m` tokens. */
  ghost predicate TokensUsed(db: Db, d: Db, tokens: seq<string>, m: nat)
    requires m <= |tokens|
  {
    && TokensDistinct(d)
    && (forall c :: c in d.challenges ==> c < d.nextId)
    && (forall c :: c in d.challenges && c !in db.challenges ==> d.challenges[c].token in tokens[..m])
    && (forall c :: c in db.challenges ==> c in d.challenges && d.challenges[c] == db.challenges[c])
  }

  lemma {:induction false} TokensUsedSameChallenges(db: Db, d: Db, e: Db, tokens: seq<string>, m: nat)
    requires m <= |tokens| && TokensUsed(db, d, tokens, m) && e.challenges == d.challenges && d.nextId <= e.nextId
    ensures TokensUsed(db, e, tokens, m)
  {}

  ghost predicate OldIds(db: Db, limit: nat) {
    forall c :: c in db.challenges ==> c < limit
  }

  lemma {:induction false} OneTokenUsed(db: Db, d: Db, tokens: seq<string>, m: nat, authz: Id, kind: ChallengeKind)
    requires m < |tokens| && FreshTokens(db, tokens) && TokensUsed(db, d, tokens, m) && OldIds(db, d.nextId)
    ensures TokensUsed(db, InsertChallenge(d, authz, kind, tokens[m]), tokens, m + 1)
  {}

  lemma {:induction false} TokenQueued(db: Db, d: Db, tokens: seq<string>, m: nat, c: Id, now: int)
    requires m <= |tokens| && TokensUsed(db, d, tokens, m) && c !in db.challenges
    ensures TokensUsed(db, QueueChallenge(d, c, now), tokens, m)
  {}

  lemma {:induction false} TokensUsedMore(db: Db, d: Db, tokens: seq<string>, m: nat, k: nat)
    requires m <= k <= |tokens| && TokensUsed(db, d, tokens, m)
    ensures TokensUsed(db, d, tokens, k)
  {}

  lemma {:induction false} OldIdsGrow(db: Db, m: nat, n: nat)
    requires OldIds(db, m) && m <= n
    ensures OldIds(db, n)
  {}

  lemma {:induction false} NewIdUnused(db: Db, id: nat)
    requires OldIds(db, id)
    ensures id !in db.challenges
  {}

  lemma {:induction false} RoundTokens(cfg: Config, db: Db, d: Db, e: Db, order: Id, posted: string, managed: bool, tokens: seq<string>,
                    now: int, n: nat)
    requires 2 * n + 2 <= |tokens| && FreshTokens(db, tokens) && TokensUsed(db, d, tokens, 2 * n)
    requires OldIds(db, d.nextId)
    requires e == InsertIdentifier(cfg, d, order, posted, managed, tokens[2 * n], tokens[2 * n + 1], now)
    ensures TokensUsed(db, e, tokens, 2 * n + 2) && d.nextId <= e.nextId
  {
    hide TokensUsed, FreshTokens, OldIds;
    var d1 := InsertAuthz(d, order, posted, now + cfg.ttl);
    TokensUsedSameChallenges(db, d, d1, tokens, 2 * n);
    OldIdsGrow(db, d.nextId, d1.nextId);
    OldIdsGrow(db, d.nextId, d1.nextId + 1);
    var d2 := d1;
    if cfg.dns01 {
      OneTokenUsed(db, d1, tokens, 2 * n, d.nextId, Dns01);
      d2 := InsertChallenge(d1, d.nextId, Dns01, tokens[2 * n]);
      if managed {
        assert d1.nextId !in db.challenges by { NewIdUnused(db, d1.nextId); }
        TokenQueued(db, d2, tokens, 2 * n + 1, d1.nextId, now);
        d2 := QueueChallenge(d2, d1.nextId, now);
      }
    }
    TokensUsedMore(db, d2, tokens, if cfg.dns01 then 2 * n + 1 else 2 * n, 2 * n + 1);
    if !managed && cfg.http01 && !IsWildcard(posted) {
      OneTokenUsed(db, d2, tokens, 2 * n + 1, d.nextId, Http01);
    } else {
      TokensUsedMore(db, d2, tokens, 2 * n + 1, 2 * n + 2);
    }
  }

  lemma {:induction false} NoTokenUsed(db: Db, tokens: seq<string>)
    requires TokensDistinct(db) && OldIds(db, db.nextId)
    ensures TokensUsed(db, db, tokens, 0)
  {}

  lemma {:induction false} RoundsTokens(cfg: Config, db: Db, order: Id, ids: seq<Identifier>, managed: bool,
                                        tokens: seq<string>, now: int, n: nat)
    requires n <= |ids| && |tokens| == 2 * |ids| && FreshTokens(db, tokens)
    requires TokensDistinct(db) && OldIds(db, db.nextId)
    ensures var d := InsertIdentifiers(cfg, db, order, ids, managed, tokens, now, n);
            TokensUsed(db, d, tokens, 2 * n) && db.nextId <= d.nextId
  {
    hide TokensUsed, FreshTokens, OldIds, TokensDistinct;
    if n == 0 {
      NoTokenUsed(db, tokens);
    } else {
      RoundsTokens(cfg, db, order, ids, managed, tokens, now, n - 1);
      var d := InsertIdentifiers(cfg, db, order, ids, managed, tokens, now, n - 1);
      OldIdsGrow(db, db.nextId, d.nextId);
      hide InsertIdentifier;
      var e := InsertIdentifiers(cfg, db, order, ids, managed, tokens, now, n);
      RoundTokens(cfg, db, d, e, order, ids[n - 1].value, managed, tokens, now, n - 1);
    }
  }

  lemma {:induction false} NewOrderDns(cfg: Config, s: State, account: Id, ids: seq<Identifier>, managed: bool, tokens: seq<string>, now: int)
    requires Inv(cfg, s) && DnsInv(cfg, s) && account in s.db.accounts
    requires |tokens| == 2 * |ids| && FreshTokens(s.db, tokens)
    ensures DnsInv(cfg, s.(db := NewOrder(cfg, s.db, account, ids, managed, tokens, now)))
  {
    hide Sound, WorkerInv, AttemptsOk, Actors, ZoneOk;
    var n := NewOrder(cfg, s.db, account, ids, managed, tokens, now);
    NewOrderInv(cfg, s, account, ids, managed, tokens, now);
    NewOrderRows(cfg, s.db, account, ids, managed, tokens, now);
    RowsDns(cfg, s, s.(db := n));
  }

  lemma {:induction false} NewOrderRows(cfg: Config, db: Db, account: Id, ids: seq<Identifier>, managed: bool, tokens: seq<string>, now: int)
    requires Refs(db) && account in db.accounts && TokensDistinct(db)
    requires |tokens| == 2 * |ids| && FreshTokens(db, tokens)
    ensures var n := NewOrder(cfg, db, account, ids, managed, tokens, now);
            && TokensDistinct(n) && n.placements == db.placements
            && DecidesNothing(db.challenges, n.challenges)
  {
    hide FreshTokens, TokensDistinct, InsertIdentifiers;
    var db1 := InsertOrder(db, account, ids, managed, now + cfg.ttl);
    var n := NewOrder(cfg, db, account, ids, managed, tokens, now);
    assert TokensDistinct(db1) && FreshTokens(db1, tokens) by { TokensOfChallenges(db, db1, tokens); }
    RoundsTokens(cfg, db1, db.nextId, ids, managed, tokens, now, |ids|);
    InsertOrderRefs(db, account, ids, managed, now + cfg.ttl);
    InsertIdentifiersInserts(cfg, db1, db.nextId, ids, managed, tokens, now, |ids|);
  }

  lemma {:induction false} TokensOfChallenges(db: Db, n: Db, tokens: seq<string>)
    requires n.challenges == db.challenges
    ensures TokensDistinct(db) ==> TokensDistinct(n)
    ensures FreshTokens(db, tokens) ==> FreshTokens(n, tokens)
  {}

  /** A step that adds no row keeps the tokens. */
  lemma {:induction false} TokensKept(db: Db, n: Db)
    requires Extends(db, n) && TokensDistinct(db) && n.challenges.Keys == db.challenges.Keys
    ensures TokensDistinct(n)
  {}

  // ---- a verdict on one challenge ----

  /** Only challenge `c` was decided. */
  ghost predicate DecidesOnly(m: map<Id, Challenge>, n: map<Id, Challenge>, c: Id) {
    && c in m && c in n && Terminal(n[c].status)
    && (forall x :: x in m && x != c ==> x in n && n[x] == m[x])
  }

  /** Open rows that need cleaning are in hand, except those of challenge `c`. */
  ghost predicate NothingElseForgotten(cfg: Config, s: State, c: Id) {
    forall p :: Open(s.db, p) && NeedsCleaning(cfg, s, p) && s.db.placements[p].challenge != c ==> InHand(s, p)
  }

  /** The zone invariant right after the verdict on `c`, before its cleanup starts. */
  ghost predicate DecidedDns(cfg: Config, s: State, c: Id) {
    && DnsDb(cfg, s.db) && ZoneOk(cfg, s) && OrphansOk(cfg, s) && SweepOk(s) && NothingElseForgotten(cfg, s, c)
    && s.worker.Idle? && WithdrawnKnown(cfg, s)
    && c in s.db.challenges && Terminal(s.db.challenges[c].status)
    && (forall p :: Open(s.db, p) && s.db.placements[p].challenge == c && p in s.history.withdrawn ==> p in SweepList(s))
  }

  lemma {:induction false} DecidedActors(cfg: Config, s: State, n: State, c: Id)
    requires Actors(cfg, s) && Refs(s.db) && Extends(s.db, n.db)
    requires SamePublication(s, n) && n.db.placements == s.db.placements
    requires n.worker.Idle? && !s.worker.Cleaning?
    requires DecidesOnly(s.db.challenges, n.db.challenges, c)
    ensures OrphansOk(cfg, n) && SweepOk(n) && NothingElseForgotten(cfg, n, c)
    ensures forall p :: Open(n.db, p) && n.db.placements[p].challenge == c && p in n.history.withdrawn ==> p in SweepList(n)
  {
    forall x | x in n.history.orphans ensures OrphanOk(cfg, n, x) { OrphanKept(cfg, s, n, x); }
    forall p | p in SweepList(n) ensures Sweepable(n.db, p) { SweepableKept(s.db, n.db, p); }
    forall p | Open(n.db, p) && NeedsCleaning(cfg, n, p) && (n.db.placements[p].challenge != c || p in n.history.withdrawn)
      ensures p in SweepList(n)
    {
      assert Open(s.db, p) && NeedsCleaning(cfg, s, p);
      assert InHand(s, p);
    }
  }

  lemma {:induction false} VerdictDns(cfg: Config, s: State, n: State, c: Id)
    requires DnsInv(cfg, s) && Refs(s.db) && Extends(s.db, n.db)
    requires SamePublication(s, n) && n.db.placements == s.db.placements
    requires n.worker.Idle? && !s.worker.Cleaning?
    requires DecidesOnly(s.db.challenges, n.db.challenges, c)
    requires n.db.challenges.Keys == s.db.challenges.Keys && n.db.authzs.Keys == s.db.authzs.Keys
    ensures DecidedDns(cfg, n, c)
  {
    hide Refs, Extends, ZoneOk, TokensDistinct, PlacementsOk, OrphansOk, SweepOk, NothingForgotten, NothingElseForgotten;
    TokensKept(s.db, n.db);
    PlacementsKept(cfg, s.db, n.db);
    RowsZone(cfg, s, n);
    DecidedActors(cfg, s, n, c);
    assert OneOpenEach(n.db);
  }

  /** No open row of challenge `c` has a provider to clean it. */
  ghost predicate NoneCleanable(cfg: Config, db: Db, c: Id) {
    forall p :: Open(db, p) && db.placements[p].challenge == c ==> CleanupRule(cfg, db, p).None?
  }

  /** With nothing to clean the verdict alone keeps the invariant. */
  lemma {:induction false} DecidedNoneOpen(cfg: Config, s: State, c: Id, worker: WorkerPc)
    requires DecidedDns(cfg, s, c) && NoneCleanable(cfg, s.db, c)
    requires worker.Idle? || worker.Cleaned?
    ensures DnsInv(cfg, s.(worker := worker))
  {
    hide DnsDb;
    var n := s.(worker := worker);
    WorkerZone(cfg, s, worker);
    forall p | Open(n.db, p) && NeedsCleaning(cfg, n, p) ensures InHand(n, p) {
      assert NeedsCleaning(cfg, s, p) && InHand(s, p);
    }
  }

  lemma {:induction false} WorkerZone(cfg: Config, s: State, worker: WorkerPc)
    requires ZoneOk(cfg, s) && !s.worker.Placing? && !worker.Placing?
    ensures ZoneOk(cfg, s.(worker := worker))
  {
    var n := s.(worker := worker);
    forall c ensures Shown(n, c) <==> Shown(s, c) {
      assert forall p :: ShownBy(n, p, c) <==> ShownBy(s, p, c);
    }
    assert forall c, r :: ShownAs(cfg, n, c, r) <==> ShownAs(cfg, s, c, r);
  }

  /** cleanupPlacementsFor finds at most one open row and withdraws its record. */
  lemma {:induction false} CleanNextDns(cfg: Config, s: State, job: Job, promote: bool)
    requires InjectiveTxt(cfg) && DecidedDns(cfg, s, job.challenge) && PlacementRefs(s.db)
    ensures DnsInv(cfg, CleanNext(cfg, s, job, OpenPlacementsOf(s.db, job.challenge), promote))
  {
    hide DnsDb, ZoneOk, OrphansOk, SweepOk, NothingElseForgotten, PlacementRefs, NoneOpen, NoneCleanable, OnlyOpen, DnsInv, WithdrawnKnown, CleanupRule;
    var c := job.challenge;
    var todo := OpenPlacementsOf(s.db, c);
    if todo == [] {
      OpenListed(cfg, s.db, c);
      assert NoneCleanable(cfg, s.db, c) by { NothingToClean(cfg, s.db, c); }
      DecidedNoneOpen(cfg, s, c, Cleaned(job, promote));
    } else {
      AtMostOneOpen(cfg, s.db, c);
      var p := todo[0];
      assert todo == [p];
      CleanNextSingle(cfg, s, job, p, promote);
      if CleanupRule(cfg, s.db, p).Some? {
        CleanOne(cfg, s, job, p, promote);
      } else {
        assert NoneCleanable(cfg, s.db, c) by { OnlyUncleanable(cfg, s.db, p, c); }
        DecidedNoneOpen(cfg, s, c, Cleaned(job, promote));
      }
    }
  }

  lemma {:induction false} NothingToClean(cfg: Config, db: Db, c: Id)
    requires NoneOpen(db, c)
    ensures NoneCleanable(cfg, db, c)
  {}

  lemma {:induction false} OnlyUncleanable(cfg: Config, db: Db, p: Id, c: Id)
    requires OnlyOpen(db, p, c) && CleanupRule(cfg, db, p).None?
    ensures NoneCleanable(cfg, db, c)
  {}

  lemma {:induction false} CleanNextSingle(cfg: Config, s: State, job: Job, p: Id, promote: bool)
    ensures CleanNext(cfg, s, job, [p], promote) ==
            if CleanupRule(cfg, s.db, p).Some? then Withdraw(cfg, s, p).(worker := Cleaning(job, p, [], promote))
            else s.(worker := Cleaned(job, promote))
  {
    hide CleanupRule;
    assert [p][1..] == [];
    assert NextToClean(cfg, s.db, []) == 0;
    assert NextToClean(cfg, s.db, [p]) == if CleanupRule(cfg, s.db, p).Some? then 0 else 1;
  }

  lemma {:induction false} CleanOne(cfg: Config, s: State, job: Job, p: Id, promote: bool)
    requires InjectiveTxt(cfg) && DecidedDns(cfg, s, job.challenge)
    requires Open(s.db, p) && s.db.placements[p].challenge == job.challenge
    requires PlacementOk(cfg, s.db, p) && OnlyOpen(s.db, p, job.challenge) && CleanupRule(cfg, s.db, p).Some?
    ensures DnsInv(cfg, Withdraw(cfg, s, p).(worker := Cleaning(job, p, [], promote)))
  {
    hide DnsDb, ZoneOk, OrphansOk, WithdrawnKnown, RecordFor, InjectiveTxt;
    var w := Withdraw(cfg, s, p);
    var n := w.(worker := Cleaning(job, p, [], promote));
    assert TokensDistinct(s.db) by { DnsDbParts(cfg, s.db); }
    WithdrawZone(cfg, s, p);
    WithdrawKeeps(cfg, s, p);
    WorkerZone(cfg, w, n.worker);
    SameOrphans(cfg, w, n);
    assert WithdrawnKnown(cfg, n) by { SameWithdrawn(cfg, w, n); }
    hide TokensDistinct, Directed, OrphansAfter;
    forall q | Open(n.db, q) && NeedsCleaning(cfg, n, q) ensures InHand(n, q) {
      if q != p { assert NeedsCleaning(cfg, s, q) && InHand(s, q); }
    }
  }

  lemma {:induction false} SameWithdrawn(cfg: Config, s: State, n: State)
    requires WithdrawnKnown(cfg, s) && n.db == s.db && n.history.withdrawn == s.history.withdrawn
    ensures WithdrawnKnown(cfg, n)
  {}

  lemma {:induction false} DnsDbParts(cfg: Config, db: Db)
    requires DnsDb(cfg, db)
    ensures TokensDistinct(db) && PlacementsOk(cfg, db) && OneOpenEach(db)
  {}

  lemma {:induction false} OpenListed(cfg: Config, db: Db, c: Id)
    requires DnsDb(cfg, db) && PlacementRefs(db) && OpenPlacementsOf(db, c) == []
    ensures NoneOpen(db, c)
  {}

  lemma {:induction false} AtMostOneOpen(cfg: Config, db: Db, c: Id)
    requires DnsDb(cfg, db) && OpenPlacementsOf(db, c) != []
    ensures |OpenPlacementsOf(db, c)| == 1
    ensures var p := OpenPlacementsOf(db, c)[0];
            Open(db, p) && db.placements[p].challenge == c && PlacementOk(cfg, db, p) && OnlyOpen(db, p, c)
  {
    var todo := OpenPlacementsOf(db, c);
    var p, q := todo[0], todo[|todo| - 1];
    assert p in todo && q in todo;
    assert p == q;
  }

  // ---- runOne ----

  lemma {:induction false} StartPlacingZone(cfg: Config, s: State, job: Job, r: Record)
    requires ZoneOk(cfg, s) && s.worker.Idle? && job.challenge in s.db.challenges && RecordFor(cfg, s.db, job.challenge) == Some(r)
    ensures ZoneOk(cfg, s.(zone := s.zone + {r}, worker := Placing(job, r)))
  {
    hide RecordFor;
    var n := s.(zone := s.zone + {r}, worker := Placing(job, r));
    forall c ensures Shown(n, c) <==> Shown(s, c) || c == job.challenge {
      assert forall p :: ShownBy(n, p, c) <==> ShownBy(s, p, c);
    }
    assert ShownAs(cfg, n, job.challenge, r);
    forall x ensures x in n.zone <==> exists c :: ShownAs(cfg, n, c, x) {
      if c :| ShownAs(cfg, s, c, x) { assert ShownAs(cfg, n, c, x); }
      if c :| ShownAs(cfg, n, c, x) {
        if c != job.challenge { assert ShownAs(cfg, s, c, x); }
      }
    }
  }

  lemma {:induction false} StartPlacing(cfg: Config, s: State, job: Job, r: Record)
    requires DnsInv(cfg, s) && s.worker.Idle?
    requires Unrecorded(cfg, s.db, job.challenge) && RecordFor(cfg, s.db, job.challenge) == Some(r)
    requires s.db.challenges[job.challenge].status == ChProcessing
    ensures DnsInv(cfg, s.(zone := s.zone + {r}, worker := Placing(job, r)))
  {
    hide DnsDb, ZoneOk, RecordFor;
    var n := s.(zone := s.zone + {r}, worker := Placing(job, r));
    StartPlacingZone(cfg, s, job, r);
    forall p | Open(n.db, p) && NeedsCleaning(cfg, n, p) ensures InHand(n, p) {
      assert NeedsCleaning(cfg, s, p) && InHand(s, p);
    }
  }

  lemma {:induction false} StartValidating(cfg: Config, s: State, job: Job)
    requires DnsInv(cfg, s) && s.worker.Idle?
    ensures DnsInv(cfg, s.(worker := Validating(job)))
  {
    hide DnsDb, ZoneOk, OrphansOk;
    var n := s.(worker := Validating(job));
    WorkerZone(cfg, s, n.worker);
    assert OrphansOk(cfg, n) by { SameOrphans(cfg, s, n); }
    forall p | Open(n.db, p) && NeedsCleaning(cfg, n, p) ensures InHand(n, p) {
      assert NeedsCleaning(cfg, s, p) && InHand(s, p);
    }
  }

  lemma {:induction false} SameOrphans(cfg: Config, s: State, n: State)
    requires OrphansOk(cfg, s) && n.db == s.db && n.history.orphans == s.history.orphans
    requires n.history.withdrawn == s.history.withdrawn
    ensures OrphansOk(cfg, n)
  {
    hide RecordFor;
    forall c | c in n.history.orphans ensures OrphanOk(cfg, n, c) { assert OrphanOk(cfg, s, c); }
  }

  lemma {:induction false} InvalidWithoutProvider(cfg: Config, s: State, job: Job)
    requires Inv(cfg, s) && DnsInv(cfg, s) && s.worker.Idle? && OpenJob(cfg, s.db, job)
    requires RecordFor(cfg, s.db, job.challenge).None?
    ensures DnsInv(cfg, s.(db := MarkInvalid(s.db, job)))
  {
    hide Refs, Sound, WorkerInv, ZoneOk, DnsDb, OrphansOk, SweepOk, NothingForgotten, RecordFor, Extends;
    var n := s.(db := MarkInvalid(s.db, job));
    var c := job.challenge;
    JobFailsDb(cfg, s.db, job, s.history.validations);
    VerdictDns(cfg, s, n, c);
    RecordKept(cfg, s.db, n.db, c);
    assert PlacementsOk(cfg, n.db) by { DnsDbParts(cfg, n.db); }
    assert NoneCleanable(cfg, n.db, c);
    DecidedNoneOpen(cfg, n, c, Idle);
  }

  lemma {:induction false} RunOneDns(cfg: Config, s: State, id: Id)
    requires Inv(cfg, s) && DnsInv(cfg, s)
    ensures DnsInv(cfg, RunOne(cfg, s, id))
  {
    hide Sound, AttemptsOk, ZoneOk, SweepOk, NothingForgotten;
    if s.worker == Idle && Runnable(s.db, id) {
      var job := JobFor(cfg, s.db, id);
      assert OpenJob(cfg, s.db, job);
      if job.managed && OpenPlacementsOf(s.db, id) == [] {
        OpenListed(cfg, s.db, id);
        if RecordFor(cfg, s.db, id).None? {
          InvalidWithoutProvider(cfg, s, job);
        } else {
          StartPlacing(cfg, s, job, RecordFor(cfg, s.db, id).value);
        }
      } else {
        StartValidating(cfg, s, job);
      }
    }
  }

  // ---- after place ----

  lemma {:induction false} NewPlacementOk(cfg: Config, db: Db, c: Id, r: Record)
    requires RecordFor(cfg, db, c) == Some(r)
    ensures var n := InsertPlacement(db, Placement(c, r.name, r.value, false));
            PlacementOk(cfg, n, db.nextId)
  {}

  lemma {:induction false} InsertedPlacementsOk(cfg: Config, db: Db, c: Id, r: Record)
    requires DnsDb(cfg, db) && PlacementRefs(db) && Unrecorded(cfg, db, c) && RecordFor(cfg, db, c) == Some(r)
    ensures DnsDb(cfg, InsertPlacement(db, Placement(c, r.name, r.value, false)))
  {
    hide PlacementOk, RecordFor;
    var n := InsertPlacement(db, Placement(c, r.name, r.value, false));
    NewPlacementOk(cfg, db, c, r);
    forall q | q in n.placements ensures PlacementOk(cfg, n, q) {
      if q != db.nextId { OldPlacementOk(cfg, db, Placement(c, r.name, r.value, false), q); }
    }
    assert forall q :: Open(n, q) ==> q == db.nextId || Open(db, q);
    assert TokensDistinct(n);
  }

  lemma {:induction false} OldPlacementOk(cfg: Config, db: Db, p: Placement, q: Id)
    requires q in db.placements && q != db.nextId && PlacementOk(cfg, db, q)
    ensures PlacementOk(cfg, InsertPlacement(db, p), q)
  {}

  lemma {:induction false} AfterPlaceZone(cfg: Config, s: State)
    requires PlacementRefs(s.db) && WithdrawnKnown(cfg, s) && ZoneOk(cfg, s) && s.worker.Placing?
    ensures ZoneOk(cfg, AfterPlace(s, true, false))
  {
    var n := AfterPlace(s, true, false);
    var c, p := s.worker.job.challenge, s.db.nextId;
    forall d ensures Shown(n, d) <==> Shown(s, d) {
      assert forall q :: q != p ==> (ShownBy(n, q, d) <==> ShownBy(s, q, d));
      assert ShownBy(n, p, d) <==> d == c;
      assert !ShownBy(s, p, d);
    }
    forall d, r ensures ShownAs(cfg, n, d, r) <==> ShownAs(cfg, s, d, r) {
      RecordSameRows(cfg, s.db, n.db, d);
    }
  }

  lemma {:induction false} AfterPlaceActors(cfg: Config, s: State)
    requires PlacementRefs(s.db) && Actors(cfg, s) && s.worker.Placing?
    ensures Actors(cfg, AfterPlace(s, true, false))
  {
    hide RecordFor;
    var n := AfterPlace(s, true, false);
    var c, p := s.worker.job.challenge, s.db.nextId;
    forall d | d in n.history.orphans ensures OrphanOk(cfg, n, d) {
      RecordSameRows(cfg, s.db, n.db, d);
      assert OrphanOk(cfg, s, d);
    }
    forall q | q in SweepList(n) ensures Sweepable(n.db, q) { assert Sweepable(s.db, q); }
    forall q | Open(n.db, q) && NeedsCleaning(cfg, n, q) ensures InHand(n, q) {
      assert q != p;
      assert NeedsCleaning(cfg, s, q) && InHand(s, q);
    }
    if s.sweep.Sweeping? { assert s.sweep.current in SweepList(s); }
  }

  lemma {:induction false} PlacedDns(cfg: Config, s: State)
    requires PlacementRefs(s.db) && DnsInv(cfg, s) && s.worker.Placing?
    ensures DnsInv(cfg, AfterPlace(s, true, false))
  {
    hide ZoneOk, DnsDb, OrphansOk, SweepOk, NothingForgotten;
    InsertedPlacementsOk(cfg, s.db, s.worker.job.challenge, s.worker.record);
    AfterPlaceZone(cfg, s);
    AfterPlaceActors(cfg, s);
  }

  /** A call of place that is cut off leaves an orphan, or the zone without the record. */
  lemma {:induction false} CutOffZone(cfg: Config, s: State, published: bool)
    requires InjectiveTxt(cfg) && TokensDistinct(s.db) && ZoneOk(cfg, s) && s.worker.Placing?
    requires Unrecorded(cfg, s.db, s.worker.job.challenge)
    requires RecordFor(cfg, s.db, s.worker.job.challenge) == Some(s.worker.record)
    ensures ZoneOk(cfg, CutOff(s, published).(worker := Idle))
  {
    var c, gone := s.worker.job.challenge, s.worker.record;
    var n := CutOff(s, published).(worker := Idle);
    forall d ensures Shown(n, d) <==> Shown(s, d) && (d == c ==> c in n.history.orphans) {
      assert forall q :: ShownBy(n, q, d) <==> ShownBy(s, q, d);
      assert forall q :: !ShownBy(s, q, c);
    }
    assert ShownAs(cfg, s, c, gone);
    forall r ensures r in n.zone <==> exists d :: ShownAs(cfg, n, d, r) {
      if d :| ShownAs(cfg, n, d, r) {
        assert ShownAs(cfg, s, d, r);
        if r == gone { RecordsDistinct(cfg, s.db, c, d); }
      }
      if r in n.zone {
        var d :| ShownAs(cfg, s, d, r);
        assert ShownAs(cfg, n, d, r);
      }
    }
  }

  lemma {:induction false} CutOffDns(cfg: Config, s: State, published: bool)
    requires InjectiveTxt(cfg) && DnsInv(cfg, s) && s.worker.Placing?
    ensures DnsInv(cfg, CutOff(s, published).(worker := Idle))
  {
    hide ZoneOk, DnsDb;
    var n := CutOff(s, published).(worker := Idle);
    assert TokensDistinct(s.db) by { DnsDbParts(cfg, s.db); }
    CutOffZone(cfg, s, published);
    forall q | Open(n.db, q) && NeedsCleaning(cfg, n, q) ensures InHand(n, q) {
      assert NeedsCleaning(cfg, s, q) && InHand(s, q);
    }
  }

  lemma {:induction false} PlaceFailedDns(cfg: Config, s: State, published: bool)
    requires InjectiveTxt(cfg) && Inv(cfg, s) && DnsInv(cfg, s) && s.worker.Placing?
    ensures DnsInv(cfg, AfterPlace(s, false, published))
  {
    hide Refs, Sound, ZoneOk, DnsDb, OrphansOk, SweepOk, NothingForgotten, RecordFor, Extends, AttemptsOk;
    var job, m := s.worker.job, CutOff(s, published).(worker := Idle);
    var n := m.(db := MarkInvalid(m.db, job));
    assert NoneOpen(s.db, job.challenge);
    CutOffDns(cfg, s, published);
    JobFailsDb(cfg, s.db, job, s.history.validations);
    VerdictDns(cfg, m, n, job.challenge);
    assert NoneCleanable(cfg, n.db, job.challenge) by { NothingToClean(cfg, n.db, job.challenge); }
    DecidedNoneOpen(cfg, n, job.challenge, Idle);
  }

  // ---- after validate ----

  lemma {:induction false} SucceedDns(cfg: Config, s: State, job: Job)
    requires InjectiveTxt(cfg) && Inv(cfg, s) && DnsInv(cfg, s) && s.worker == Validating(job)
    ensures DnsInv(cfg, Succeed(cfg, s, job))
  {
    hide Refs, Sound, ZoneOk, DnsDb, OrphansOk, SweepOk, NothingForgotten, RecordFor, Extends;
    var c := job.challenge;
    var m := Verdict(s, Validated(s.db, job), c);
    SuccessDb(cfg, s.db, job, s.history.validations);
    VerdictDns(cfg, s, m, c);
    if job.managed {
      assert PlacementRefs(m.db) by { RefsParts(m.db); }
      CleanNextDns(cfg, m, job, true);
    } else {
      DecidedUnmanaged(cfg, s, m, job);
      PromoteDns(cfg, m, job.authz.order);
    }
  }

  lemma {:induction false} RefsParts(db: Db)
    requires Refs(db)
    ensures PlacementRefs(db) && AuthzRefs(db) && ChallengeRefs(db)
  {}

  lemma {:induction false} DecidedUnmanaged(cfg: Config, s: State, m: State, job: Job)
    requires OpenJob(cfg, s.db, job) && !job.managed && Extends(s.db, m.db) && DecidedDns(cfg, m, job.challenge)
    ensures DnsInv(cfg, m)
  {}

  lemma {:induction false} PromoteDns(cfg: Config, s: State, o: Id)
    requires DbInv(s.db) && DnsInv(cfg, s) && !s.worker.Placing? && !s.worker.Cleaning?
    ensures DnsInv(cfg, s.(db := MaybePromote(s.db, o), worker := Idle))
  {
    hide Sound, ZoneOk, DnsDb, Actors, Keeps;
    assert ReadySound(s.db) by { SoundParts(s.db); }
    PromoteKeeps(s.db, o);
    assert Extends(s.db, MaybePromote(s.db, o)) by { KeepsParts(s.db, MaybePromote(s.db, o)); }
    assert TokensDistinct(s.db) by { DnsDbParts(cfg, s.db); }
    TokensKept(s.db, MaybePromote(s.db, o));
    RowsDns(cfg, s, s.(db := MaybePromote(s.db, o), worker := Idle));
  }

  lemma {:induction false} KeepsParts(db: Db, n: Db)
    requires Keeps(db, n)
    ensures Extends(db, n) && Refs(n)
  {}

  lemma {:induction false} FailDns(cfg: Config, s: State, job: Job)
    requires InjectiveTxt(cfg) && Inv(cfg, s) && DnsInv(cfg, s) && s.worker == Validating(job)
    ensures DnsInv(cfg, Fail(cfg, s, job))
  {
    hide Refs, Sound, ZoneOk, DnsDb, OrphansOk, SweepOk, NothingForgotten, RecordFor, Extends;
    var c := job.challenge;
    var m := Verdict(s, MarkInvalid(s.db, job), c);
    JobFailsDb(cfg, s.db, job, s.history.validations);
    VerdictDns(cfg, s, m, c);
    if job.managed {
      assert PlacementRefs(m.db) by { RefsParts(m.db); }
      CleanNextDns(cfg, m, job, false);
    } else {
      DecidedUnmanaged(cfg, s, m, job);
    }
  }

  lemma {:induction false} RetryDns(cfg: Config, s: State, job: Job, now: int)
    requires Inv(cfg, s) && DnsInv(cfg, s) && s.worker == Validating(job) && job.row.attempts + 1 < MAX_ATTEMPTS
    ensures DnsInv(cfg, Retry(s, job, now))
  {
    hide Sound, ZoneOk, DnsDb, Actors;
    var n := Retry(s, job, now);
    RetryDb(cfg, s.db, job, Some(now + RETRY_DELAYS_MS[job.row.attempts]));
    assert TokensDistinct(s.db) by { DnsDbParts(cfg, s.db); }
    TokensKept(s.db, n.db);
    RowsDns(cfg, s, n);
  }

  lemma {:induction false} AfterValidateDns(cfg: Config, s: State, ok: bool, now: int)
    requires InjectiveTxt(cfg) && Inv(cfg, s) && DnsInv(cfg, s) && s.worker.Validating?
    ensures DnsInv(cfg, AfterValidate(cfg, s, ok, now))
  {
    hide DbInv, AttemptsOk, DnsInv;
    var job := s.worker.job;
    if ok {
      SucceedDns(cfg, s, job);
    } else if job.row.attempts + 1 >= MAX_ATTEMPTS {
      FailDns(cfg, s, job);
    } else {
      RetryDns(cfg, s, job, now);
    }
  }

  // ---- marking rows cleaned ----

  lemma {:induction false} MarkedUnrecorded(cfg: Config, db: Db, p: Id, c: Id)
    requires Unrecorded(cfg, db, c)
    ensures Unrecorded(cfg, MarkPlacementCleaned(db, p), c)
    ensures RecordFor(cfg, MarkPlacementCleaned(db, p), c) == RecordFor(cfg, db, c)
  {}

  /** The record is gone or becomes an orphan's. */
  lemma {:induction false} ReturnedZone(cfg: Config, s: State, p: Id, left: bool)
    requires ZoneOk(cfg, s) && (p in s.history.withdrawn || !Open(s.db, p))
    requires p in s.db.placements && PlacementOk(cfg, s.db, p)
    ensures ZoneOk(cfg, CleanupReturned(cfg, s, p, left))
  {
    MarkZone(cfg, s, p);
    var m, n := MarkCleaned(s, p), CleanupReturned(cfg, s, p, left);
    if left && Directed(cfg, s.db, p) {
      var c, r := s.db.placements[p].challenge, RecordOf(cfg, s.db, p);
      RecordSameRows(cfg, s.db, m.db, c);
      hide RecordFor;
      forall d ensures Shown(n, d) <==> Shown(m, d) || d == c {
        assert forall q :: ShownBy(n, q, d) <==> ShownBy(m, q, d);
      }
      assert ShownAs(cfg, n, c, r);
      forall x ensures x in n.zone <==> exists d :: ShownAs(cfg, n, d, x) {
        if d :| ShownAs(cfg, m, d, x) { assert ShownAs(cfg, n, d, x); }
        if d :| ShownAs(cfg, n, d, x) {
          if d != c { assert ShownAs(cfg, m, d, x); }
        }
      }
    }
  }

  lemma {:induction false} ReturnedOrphans(cfg: Config, s: State, p: Id, left: bool)
    requires OrphansOk(cfg, s) && p in s.db.placements && PlacementOk(cfg, s.db, p)
    requires OnlyOpen(s.db, p, s.db.placements[p].challenge)
    ensures OrphansOk(cfg, CleanupReturned(cfg, s, p, left))
  {
    var n := CleanupReturned(cfg, s, p, left);
    forall c | c in n.history.orphans ensures OrphanOk(cfg, n, c) {
      RecordSameRows(cfg, s.db, n.db, c);
      hide RecordFor;
      if c in s.history.orphans { assert OrphanOk(cfg, s, c); }
      assert forall q :: Open(n.db, q) ==> Open(s.db, q) && q != p;
    }
  }

  lemma {:induction false} AfterCleanupDns(cfg: Config, s: State, left: bool)
    requires Inv(cfg, s) && DnsInv(cfg, s) && s.worker.Cleaning?
    ensures DnsInv(cfg, AfterCleanup(cfg, s, left))
  {
    hide DbInv, AttemptsOk, ZoneOk, RecordFor, DnsDb, OrphansOk;
    var p := s.worker.current;
    var m := CleanupReturned(cfg, s, p, left);
    var n := AfterCleanup(cfg, s, left);
    assert n == m.(worker := Cleaned(s.worker.job, s.worker.promote));
    MarkDb(cfg, s.db, p);
    assert OneOpenEach(s.db) && PlacementOk(cfg, s.db, p) by { DnsDbParts(cfg, s.db); }
    ReturnedZone(cfg, s, p, left);
    ReturnedOrphans(cfg, s, p, left);
    WorkerZone(cfg, m, n.worker);
    SameOrphans(cfg, m, n);
    forall q | q in SweepList(n) ensures Sweepable(n.db, q) {}
    if s.sweep.Sweeping? { assert s.sweep.current in SweepList(s); }
    MarkedNotForgotten(cfg, s, n, p);
  }

  lemma {:induction false} MarkedNotForgotten(cfg: Config, s: State, n: State, p: Id)
    requires NothingForgotten(cfg, s) && n.db == MarkPlacementCleaned(s.db, p) && n.history.withdrawn == s.history.withdrawn - {p}
    requires n.sweep == s.sweep && s.worker.Cleaning? && s.worker.current == p
    ensures NothingForgotten(cfg, n)
  {
    forall q | Open(n.db, q) && NeedsCleaning(cfg, n, q) ensures InHand(n, q) {
      assert q != p && Open(s.db, q) && NeedsCleaning(cfg, s, q);
      assert InHand(s, q);
    }
  }

  // ---- the startup sweep ----

  /** The zone invariant while the sweep stands at its loop head with `todo` left. */
  ghost predicate SweepHead(cfg: Config, s: State, todo: seq<Id>) {
    && s.sweep.SweepDone? && DnsDb(cfg, s.db) && ZoneOk(cfg, s)
    && OrphansOk(cfg, s) && WorkerDns(cfg, s) && WithdrawnKnown(cfg, s)
    && (forall p :: p in todo ==> Sweepable(s.db, p)) && Distinct(todo)
    && (forall p :: Open(s.db, p) && NeedsCleaning(cfg, s, p) ==>
          (s.worker.Cleaning? && s.worker.current == p) || p in todo)
  }

  lemma {:induction false} WithdrawKeeps(cfg: Config, s: State, p: Id)
    requires CleanupRule(cfg, s.db, p).Some? && OrphansOk(cfg, s) && WithdrawnKnown(cfg, s)
    requires PlacementOk(cfg, s.db, p) && OnlyOpen(s.db, p, s.db.placements[p].challenge)
    ensures OrphansOk(cfg, Withdraw(cfg, s, p)) && WithdrawnKnown(cfg, Withdraw(cfg, s, p))
    ensures WorkerDns(cfg, s) ==> WorkerDns(cfg, Withdraw(cfg, s, p))
  {
    hide RecordFor;
    var n := Withdraw(cfg, s, p);
    forall c | c in n.history.orphans ensures OrphanOk(cfg, n, c) {
      if c in s.history.orphans { assert OrphanOk(cfg, s, c); }
    }
  }

  lemma {:induction false} SweepableAlone(cfg: Config, s: State, p: Id)
    requires DnsDb(cfg, s.db) && WorkerDns(cfg, s) && Sweepable(s.db, p)
    ensures TokensDistinct(s.db) && PlacementOk(cfg, s.db, p)
    ensures var c := s.db.placements[p].challenge;
            !(s.worker.Placing? && s.worker.job.challenge == c) && OnlyOpen(s.db, p, c)
  {
    hide RecordFor;
  }

  lemma {:induction false} SweepOne(cfg: Config, s: State, todo: seq<Id>)
    requires InjectiveTxt(cfg) && SweepHead(cfg, s, todo) && todo != []
    requires CleanupRule(cfg, s.db, todo[0]).Some?
    ensures DnsInv(cfg, Withdraw(cfg, s, todo[0]).(sweep := Sweeping(todo[0], todo[1..])))
  {
    hide DnsDb, ZoneOk, OrphansOk, WorkerDns, WithdrawnKnown, PlacementOk, OnlyOpen, InjectiveTxt;
    var p := todo[0];
    assert p in todo && Sweepable(s.db, p);
    SweepableAlone(cfg, s, p);
    WithdrawZone(cfg, s, p);
    WithdrawKeeps(cfg, s, p);
    var w := Withdraw(cfg, s, p);
    var n := w.(sweep := Sweeping(p, todo[1..]));
    SweepZone(cfg, w, n.sweep);
    SweepKeeps(cfg, w, n.sweep);
    assert SweepList(n) == todo;
    forall q | Open(n.db, q) && NeedsCleaning(cfg, n, q) ensures InHand(n, q) {
      assert q == p || NeedsCleaning(cfg, s, q);
    }
  }

  lemma {:induction false} SweepKeeps(cfg: Config, s: State, sweep: SweepPc)
    requires OrphansOk(cfg, s) && WithdrawnKnown(cfg, s) && WorkerDns(cfg, s)
    ensures var n := s.(sweep := sweep); OrphansOk(cfg, n) && WithdrawnKnown(cfg, n) && WorkerDns(cfg, n)
  {}

  lemma {:induction false} SweepZone(cfg: Config, s: State, sweep: SweepPc)
    requires ZoneOk(cfg, s)
    ensures ZoneOk(cfg, s.(sweep := sweep))
  {
    var n := s.(sweep := sweep);
    forall c ensures Shown(n, c) <==> Shown(s, c) {
      assert forall p :: ShownBy(n, p, c) <==> ShownBy(s, p, c);
    }
    assert forall c, r :: ShownAs(cfg, n, c, r) <==> ShownAs(cfg, s, c, r);
  }

  lemma {:induction false} SweepNextDns(cfg: Config, s: State, todo: seq<Id>)
    requires InjectiveTxt(cfg) && SweepHead(cfg, s, todo)
    ensures DnsInv(cfg, SweepNext(cfg, s, todo))
    decreases |todo|
  {
    hide SweepHead, DnsInv, CleanupRule;
    if todo == [] {
      SweepEnds(cfg, s);
    } else if CleanupRule(cfg, s.db, todo[0]).Some? {
      SweepOne(cfg, s, todo);
      assert SweepNext(cfg, s, todo) == Withdraw(cfg, s, todo[0]).(sweep := Sweeping(todo[0], todo[1..]));
    } else {
      SweepSkips(cfg, s, todo);
      SweepNextDns(cfg, s, todo[1..]);
    }
  }

  lemma {:induction false} SweepEnds(cfg: Config, s: State)
    requires SweepHead(cfg, s, [])
    ensures DnsInv(cfg, SweepNext(cfg, s, []))
  {
    assert SweepNext(cfg, s, []) == s;
  }

  /** A row without a provider is passed over; nobody is going to mark it. */
  lemma {:induction false} SweepSkips(cfg: Config, s: State, todo: seq<Id>)
    requires SweepHead(cfg, s, todo) && todo != [] && CleanupRule(cfg, s.db, todo[0]).None?
    ensures SweepHead(cfg, s, todo[1..]) && SweepNext(cfg, s, todo) == SweepNext(cfg, s, todo[1..])
  {
    hide CleanupRule, DnsDb, ZoneOk, OrphansOk, WorkerDns;
    var rest := todo[1..];
    var k := NextToClean(cfg, s.db, rest);
    assert NextToClean(cfg, s.db, todo) == k + 1;
    assert k < |rest| ==> todo[k + 1] == rest[k] && todo[k + 2..] == rest[k + 1..];
    assert forall p :: p in todo ==> p == todo[0] || p in rest;
    forall i, j | 0 <= i < j < |rest| ensures rest[i] != rest[j] {
      assert rest[i] == todo[i + 1] && rest[j] == todo[j + 1];
    }
  }

  lemma {:induction false} WorkerMarked(cfg: Config, s: State, n: State, p: Id)
    requires WorkerDns(cfg, s) && n.worker == s.worker && n.db == MarkPlacementCleaned(s.db, p)
    requires n.history.withdrawn == s.history.withdrawn - {p}
    ensures WorkerDns(cfg, n)
  {
    hide RecordFor;
    if s.worker.Placing? { MarkedUnrecorded(cfg, s.db, p, s.worker.job.challenge); }
  }

  lemma {:induction false} CurrentSwept(s: State)
    requires SweepOk(s) && OneOpenEach(s.db) && s.sweep.Sweeping?
    ensures var p := s.sweep.current;
            && p in s.db.placements && OnlyOpen(s.db, p, s.db.placements[p].challenge)
            && (p in s.history.withdrawn || !Open(s.db, p))
  {
    assert SweepList(s)[0] == s.sweep.current;
    assert s.sweep.current in SweepList(s) && Sweepable(s.db, s.sweep.current);
  }

  /** What is left to sweep once the current row is marked. */
  lemma {:induction false} RestSwept(cfg: Config, s: State, n: State)
    requires SweepOk(s) && NothingForgotten(cfg, s) && WithdrawnKnown(cfg, s) && s.sweep.Sweeping?
    requires n.worker == s.worker && n.db == MarkPlacementCleaned(s.db, s.sweep.current)
    requires n.history.withdrawn == s.history.withdrawn - {s.sweep.current}
    ensures (forall q :: q in s.sweep.rest ==> Sweepable(n.db, q)) && Distinct(s.sweep.rest) && WithdrawnKnown(cfg, n)
    ensures forall q :: Open(n.db, q) && NeedsCleaning(cfg, n, q) ==>
              (n.worker.Cleaning? && n.worker.current == q) || q in s.sweep.rest
  {
    var p, rest := s.sweep.current, s.sweep.rest;
    assert SweepList(s)[1..] == rest;
    forall q | q in rest ensures Sweepable(n.db, q) { RestDiffers(s, q); }
    forall q | Open(n.db, q) && NeedsCleaning(cfg, n, q)
      ensures (n.worker.Cleaning? && n.worker.current == q) || q in rest
    {
      assert q != p && Open(s.db, q) && NeedsCleaning(cfg, s, q);
      assert InHand(s, q);
    }
  }

  lemma {:induction false} SweepStepHead(cfg: Config, s: State, left: bool)
    requires DnsInv(cfg, s) && s.sweep.Sweeping?
    ensures SweepHead(cfg, CleanupReturned(cfg, s, s.sweep.current, left).(sweep := SweepDone), s.sweep.rest)
  {
    hide ZoneOk, RecordFor, DnsDb, OrphansOk, WorkerDns, SweepOk, NothingForgotten, WithdrawnKnown;
    var p := s.sweep.current;
    var m := CleanupReturned(cfg, s, p, left);
    var n := m.(sweep := SweepDone);
    DnsDbParts(cfg, s.db);
    CurrentSwept(s);
    MarkDb(cfg, s.db, p);
    ReturnedZone(cfg, s, p, left);
    ReturnedOrphans(cfg, s, p, left);
    SweepZone(cfg, m, SweepDone);
    SameOrphans(cfg, m, n);
    WorkerMarked(cfg, s, n, p);
    RestSwept(cfg, s, n);
  }

  lemma {:induction false} RestDiffers(s: State, q: Id)
    requires s.sweep.Sweeping? && Distinct(SweepList(s)) && q in s.sweep.rest
    ensures q != s.sweep.current && q in SweepList(s)
  {
    var i :| 0 <= i < |s.sweep.rest| && s.sweep.rest[i] == q;
    assert SweepList(s)[i + 1] == q && SweepList(s)[0] == s.sweep.current;
  }

  lemma {:induction false} SweepStepDns(cfg: Config, s: State, left: bool)
    requires InjectiveTxt(cfg) && DnsInv(cfg, s) && s.sweep.Sweeping?
    ensures DnsInv(cfg, SweepStep(cfg, s, left))
  {
    hide DnsInv, SweepHead;
    var m := CleanupReturned(cfg, s, s.sweep.current, left);
    SweepStepHead(cfg, s, left);
    SweepNextDns(cfg, m.(sweep := SweepDone), s.sweep.rest);
    assert SweepNext(cfg, m.(sweep := SweepDone), s.sweep.rest) == SweepNext(cfg, m, s.sweep.rest);
  }

  // ---- restart ----

  lemma {:induction false} RestartHead(cfg: Config, s: State)
    requires PlacementRefs(s.db) && DnsInv(cfg, s) && !s.worker.Placing?
    ensures SweepHead(cfg, s.(worker := Idle, sweep := SweepDone), OpenPlacements(s.db))
  {
    hide DnsDb;
    var n := s.(worker := Idle, sweep := SweepDone);
    forall c ensures Shown(n, c) <==> Shown(s, c) {
      assert forall p :: ShownBy(n, p, c) <==> ShownBy(s, p, c);
    }
    assert forall c, r :: ShownAs(cfg, n, c, r) <==> ShownAs(cfg, s, c, r);
    forall p | Open(n.db, p) ensures p in OpenPlacements(s.db) {}
  }

  lemma {:induction false} RestartDns(cfg: Config, s: State, published: bool)
    requires InjectiveTxt(cfg) && PlacementRefs(s.db) && DnsInv(cfg, s)
    ensures DnsInv(cfg, Restart(cfg, s, published))
  {
    hide DnsInv, SweepHead, PlacementRefs;
    var m := if s.worker.Placing? then CutOff(s, published).(worker := Idle) else s;
    if s.worker.Placing? { CutOffDns(cfg, s, published); }
    var n := Restarted(s, published);
    assert n == m.(worker := Idle, sweep := SweepDone) && m.db == s.db;
    RestartHead(cfg, m);
    SweepNextDns(cfg, n, OpenPlacements(s.db));
    assert cfg.rules.None? ==> SweepNext(cfg, n, OpenPlacements(s.db)) == n;
  }

  // ---- every step, every run ----

  predicate IsSmallHandler(a: Action) {
    a.DoNewAccount? || a.DoChall? || a.DoFinalize? || a.DoExpire?
  }

  lemma {:induction false} HandlerRows(cfg: Config, s: State, a: Action)
    requires IsSmallHandler(a)
    ensures var n := Step(cfg, s, a);
            && SamePublication(s, n) && n.db.placements == s.db.placements
            && n.db.challenges.Keys == s.db.challenges.Keys && n.db.authzs.Keys == s.db.authzs.Keys
            && DecidesNothing(s.db.challenges, n.db.challenges)
  {}

  lemma {:induction false} HandlerDns(cfg: Config, s: State, a: Action)
    requires Inv(cfg, s) && DnsInv(cfg, s) && IsSmallHandler(a)
    ensures DnsInv(cfg, Step(cfg, s, a))
  {
    hide Sound, WorkerInv, AttemptsOk, ZoneOk, DnsDb, Actors, Step, DecidesNothing, Extends, Refs;
    StepInv(cfg, s, a);
    HandlerRows(cfg, s, a);
    var n := Step(cfg, s, a);
    assert TokensDistinct(s.db) by { DnsDbParts(cfg, s.db); }
    TokensKept(s.db, n.db);
    RowsDns(cfg, s, n);
  }

  lemma {:induction false} StepDns(cfg: Config, s: State, a: Action)
    requires InjectiveTxt(cfg) && Inv(cfg, s) && DnsInv(cfg, s)
    ensures DnsInv(cfg, Step(cfg, s, a))
  {
    hide Sound, WorkerInv, AttemptsOk, ZoneOk, DnsDb, Actors;
    match a
    case DoNewOrder(account, ids, managed, tokens, now) =>
      if |tokens| == 2 * |ids| && FreshTokens(s.db, tokens) && account in s.db.accounts {
        NewOrderDns(cfg, s, account, ids, managed, tokens, now);
      }
    case DoRunOne(challenge) => RunOneDns(cfg, s, challenge);
    case DoAfterPlace(ok, published) => if s.worker.Placing? { AfterPlaceDns(cfg, s, ok, published); }
    case DoAfterValidate(ok, now) => if s.worker.Validating? { AfterValidateDns(cfg, s, ok, now); }
    case DoAfterCleanup(left) => if s.worker.Cleaning? { AfterCleanupDns(cfg, s, left); }
    case DoAfterCleaned => AfterCleanedDns(cfg, s);
    case DoSweepStep(left) => if s.sweep.Sweeping? { SweepStepDns(cfg, s, left); }
    case DoRestart(published) => RestartDns(cfg, s, published);
    case _ => HandlerDns(cfg, s, a);
  }

  lemma {:induction false} AfterPlaceDns(cfg: Config, s: State, ok: bool, published: bool)
    requires InjectiveTxt(cfg) && Inv(cfg, s) && DnsInv(cfg, s) && s.worker.Placing?
    ensures DnsInv(cfg, AfterPlace(s, ok, published))
  {
    hide DnsInv;
    if ok { PlacedDns(cfg, s); } else { PlaceFailedDns(cfg, s, published); }
    assert ok ==> AfterPlace(s, ok, published) == AfterPlace(s, true, false);
  }

  lemma {:induction false} AfterCleanedDns(cfg: Config, s: State)
    requires Inv(cfg, s) && DnsInv(cfg, s)
    ensures DnsInv(cfg, AfterCleaned(s))
  {
    hide Sound, WorkerInv, AttemptsOk, ZoneOk, DnsDb, Actors;
    if s.worker.Cleaned? {
      if s.worker.promote {
        PromoteDns(cfg, s, s.worker.job.authz.order);
      } else {
        ExtendsReflexive(s.db);
        assert TokensDistinct(s.db) by { DnsDbParts(cfg, s.db); }
        RowsDns(cfg, s, s.(worker := Idle));
      }
    }
  }

  /** The DNS invariant holds after every run. */
  lemma {:induction false} RunDns(cfg: Config, actions: seq<Action>)
    requires InjectiveTxt(cfg)
    ensures DnsInv(cfg, Run(cfg, Initial, actions))
  {
    if actions != [] {
      var init := actions[..|actions| - 1];
      RunDns(cfg, init);
      hide DnsInv, Inv;
      RunInv(cfg, init);
      StepDns(cfg, Run(cfg, Initial, init), actions[|actions| - 1]);
    }
  }

  // ---- what this means for the zone ----

  /** Neither place nor cleanup is awaited anywhere. */
  ghost predicate Quiescent(s: State) {
    !s.worker.Placing? && !s.worker.Cleaning? && s.sweep.SweepDone?
  }

  /** Record `r` is the one of some open placement row. */
  ghost predicate HasRow(cfg: Config, db: Db, r: Record) {
    exists p :: RowFor(cfg, db, p, r)
  }

  /** An open row of the name and the value of `r`, which its challenge published. */
  ghost predicate RowFor(cfg: Config, db: Db, p: Id, r: Record) {
    && Open(db, p) && db.placements[p].name == r.name && db.placements[p].value == r.value
    && RecordFor(cfg, db, db.placements[p].challenge) == Some(r)
  }

  /** When nothing is in flight, the published records are exactly those of the open rows,
      if and only if no record is stranded. */
  lemma {:induction false} ZoneMatchesRows(cfg: Config, actions: seq<Action>)
    requires InjectiveTxt(cfg) && Quiescent(Run(cfg, Initial, actions))
    ensures var s := Run(cfg, Initial, actions);
            (forall r :: r in s.zone <==> HasRow(cfg, s.db, r)) <==> s.history.orphans == {}
  {
    var s := Run(cfg, Initial, actions);
    RunDns(cfg, actions);
    hide Run, RecordFor, InjectiveTxt, SweepOk, PlacementsOk;
    forall p | Open(s.db, p) ensures p !in s.history.withdrawn {
      assert NeedsCleaning(cfg, s, p) ==> InHand(s, p);
    }
    if s.history.orphans == {} {
      forall r ensures r in s.zone <==> HasRow(cfg, s.db, r) { QuietZone(cfg, s, r); }
    } else {
      var c :| c in s.history.orphans;
      assert OrphanOk(cfg, s, c);
      var r := RecordFor(cfg, s.db, c).value;
      OrphanHasNoRow(cfg, s, c, r);
      assert ShownAs(cfg, s, c, r);
      assert r in s.zone && !HasRow(cfg, s.db, r);
    }
  }

  lemma {:induction false} QuietZone(cfg: Config, s: State, r: Record)
    requires DnsInv(cfg, s) && Quiescent(s) && s.history.orphans == {}
    requires forall p :: Open(s.db, p) ==> p !in s.history.withdrawn
    ensures r in s.zone <==> HasRow(cfg, s.db, r)
  {
    if r in s.zone {
      var c :| ShownAs(cfg, s, c, r);
      var p :| ShownBy(s, p, c);
      assert PlacementOk(cfg, s.db, p);
      assert RowFor(cfg, s.db, p, r);
    }
    if p :| RowFor(cfg, s.db, p, r) {
      assert PlacementOk(cfg, s.db, p);
      assert ShownBy(s, p, s.db.placements[p].challenge);
      assert ShownAs(cfg, s, s.db.placements[p].challenge, r);
    }
  }

  lemma {:induction false} OrphanHasNoRow(cfg: Config, s: State, c: Id, r: Record)
    requires InjectiveTxt(cfg) && DnsDb(cfg, s.db) && NoneOpen(s.db, c) && RecordFor(cfg, s.db, c) == Some(r)
    ensures !HasRow(cfg, s.db, r)
  {
    hide RecordFor;
    forall p ensures !RowFor(cfg, s.db, p, r) {
      if RowFor(cfg, s.db, p, r) { RecordsDistinct(cfg, s.db, c, s.db.placements[p].challenge); }
    }
  }

  /** The step leaves challenge `c`'s record published without a row that stands for it: a
      place that did not return, or a cleanup that threw. */
  predicate Strands(cfg: Config, s: State, a: Action, c: Id) {
    || (a.DoAfterPlace? && !a.ok && a.published && s.worker.Placing? && s.worker.job.challenge == c)
    || (a.DoRestart? && a.published && s.worker.Placing? && s.worker.job.challenge == c)
    || (a.DoAfterCleanup? && a.left && s.worker.Cleaning? && PlacedFor(s.db, s.worker.current, c) && Directed(cfg, s.db, s.worker.current))
    || (a.DoSweepStep? && a.left && s.sweep.Sweeping? && PlacedFor(s.db, s.sweep.current, c) && Directed(cfg, s.db, s.sweep.current))
  }

  predicate PlacedFor(db: Db, p: Id, c: Id) {
    p in db.placements && db.placements[p].challenge == c
  }

  /** A cleanup for challenge `c` is in flight at a provider that does not hold its record. */
  predicate Misdirects(cfg: Config, s: State, c: Id) {
    || (s.worker.Cleaning? && PlacedFor(s.db, s.worker.current, c) && !Directed(cfg, s.db, s.worker.current))
    || (s.sweep.Sweeping? && PlacedFor(s.db, s.sweep.current, c) && !Directed(cfg, s.db, s.sweep.current))
  }

  ghost predicate EverStrands(cfg: Config, actions: seq<Action>, c: Id) {
    exists k: nat :: k < |actions| && StrandsAt(cfg, actions, k, c)
  }

  ghost predicate StrandsAt(cfg: Config, actions: seq<Action>, k: nat, c: Id)
    requires k < |actions|
  {
    || Strands(cfg, Run(cfg, Initial, actions[..k]), actions[k], c)
    || Misdirects(cfg, Run(cfg, Initial, actions[..k + 1]), c)
  }

  /** A record outlives its row only through such a step or such a cleanup. */
  lemma {:induction false} OrphansWereStranded(cfg: Config, actions: seq<Action>, c: Id)
    requires c in Run(cfg, Initial, actions).history.orphans
    ensures EverStrands(cfg, actions, c)
  {
    hide Strands, Misdirects, Step;
    if actions != [] {
      var last := |actions| - 1;
      var init := actions[..last];
      assert actions[..last + 1] == actions;
      if c in Run(cfg, Initial, init).history.orphans {
        OrphansWereStranded(cfg, init, c);
        var k: nat :| k < |init| && StrandsAt(cfg, init, k, c);
        assert init[..k] == actions[..k] && init[..k + 1] == actions[..k + 1] && actions[k] == init[k];
        assert StrandsAt(cfg, actions, k, c);
      } else {
        OrphansStep(cfg, Run(cfg, Initial, init), actions[last], c);
        assert StrandsAt(cfg, actions, last, c);
      }
    }
  }

  lemma {:induction false} OrphansStep(cfg: Config, s: State, a: Action, c: Id)
    requires c !in s.history.orphans && c in Step(cfg, s, a).history.orphans
    ensures Strands(cfg, s, a, c) || Misdirects(cfg, Step(cfg, s, a), c)
  {
    hide Directed, CleanNext, SweepNext, RunOne, NewOrder, OpenBelow, MarkInvalid, Validated, CleanupReturned, Misdirects;
    match a
    case DoRunOne(id) => RunOneOrphans(cfg, s, id);
    case DoAfterValidate(ok, now) => ValidateOrphans(cfg, s, ok, now, c);
    case DoAfterCleanup(left) =>
      if s.worker.Cleaning? {
        if c in CleanupReturned(cfg, s, s.worker.current, left).history.orphans { ReturnedOrphan(cfg, s, s.worker.current, left, c); }
        CleanOrphans(cfg, CleanupReturned(cfg, s, s.worker.current, left), s.worker.job, s.worker.rest, s.worker.promote, c);
      }
    case DoSweepStep(left) =>
      if s.sweep.Sweeping? {
        if c in CleanupReturned(cfg, s, s.sweep.current, left).history.orphans { ReturnedOrphan(cfg, s, s.sweep.current, left, c); }
        SweepOrphans(cfg, CleanupReturned(cfg, s, s.sweep.current, left), s.sweep.rest, c);
      }
    case DoRestart(published) => SweepOrphans(cfg, Restarted(s, published), OpenPlacements(s.db), c);
    case _ =>
  }

  lemma {:induction false} ReturnedOrphan(cfg: Config, s: State, p: Id, left: bool, c: Id)
    requires c !in s.history.orphans && c in CleanupReturned(cfg, s, p, left).history.orphans
    ensures left && PlacedFor(s.db, p, c) && Directed(cfg, s.db, p)
  {}

  lemma {:induction false} RunOneOrphans(cfg: Config, s: State, id: Id)
    ensures RunOne(cfg, s, id).history == s.history
  {}

  lemma {:induction false} ValidateOrphans(cfg: Config, s: State, ok: bool, now: int, c: Id)
    requires c !in s.history.orphans && c in AfterValidate(cfg, s, ok, now).history.orphans
    ensures Misdirects(cfg, AfterValidate(cfg, s, ok, now), c)
  {
    hide Directed, CleanNext, OpenBelow, Misdirects;
    var job := s.worker.job;
    if ok {
      var v := Verdict(s, Validated(s.db, job), job.challenge);
      if job.managed { CleanOrphans(cfg, v, job, OpenPlacementsOf(v.db, job.challenge), true, c); }
    } else {
      var v := Verdict(s, MarkInvalid(s.db, job), job.challenge);
      if job.managed { CleanOrphans(cfg, v, job, OpenPlacementsOf(v.db, job.challenge), false, c); }
    }
  }

  lemma {:induction false} CleanOrphans(cfg: Config, s: State, job: Job, todo: seq<Id>, promote: bool, c: Id)
    ensures var n := CleanNext(cfg, s, job, todo, promote);
            c !in s.history.orphans && c in n.history.orphans ==> Misdirects(cfg, n, c)
  {
    hide NextToClean;
    var n := CleanNext(cfg, s, job, todo, promote);
    if c !in s.history.orphans && c in n.history.orphans { DirectedSame(cfg, s, n, n.worker.current); }
  }

  lemma {:induction false} SweepOrphans(cfg: Config, s: State, todo: seq<Id>, c: Id)
    ensures var n := SweepNext(cfg, s, todo);
            c !in s.history.orphans && c in n.history.orphans ==> Misdirects(cfg, n, c)
  {
    hide NextToClean;
    var n := SweepNext(cfg, s, todo);
    if c !in s.history.orphans && c in n.history.orphans { DirectedSame(cfg, s, n, n.sweep.current); }
  }

  lemma {:induction false} DirectedSame(cfg: Config, s: State, n: State, p: Id)
    requires n.db == s.db
    ensures Directed(cfg, n.db, p) <==> Directed(cfg, s.db, p)
  {}

  /** A challenge has at most one open placement, under any providers and for any names. */
  lemma {:induction false} OneOpenPlacementPerChallenge(cfg: Config, actions: seq<Action>, p: Id, q: Id)
    requires var db := Run(cfg, Initial, actions).db;
             Open(db, p) && Open(db, q) && db.placements[p].challenge == db.placements[q].challenge
    ensures p == q
  {
    RunOneOpen(cfg, actions);
  }

  /** One open row each, and none while another one is about to be inserted. */
  ghost predicate OneOpen(s: State) {
    OneOpenEach(s.db) && (s.worker.Placing? ==> NoneOpen(s.db, s.worker.job.challenge))
  }

  lemma {:induction false} RunOneOpen(cfg: Config, actions: seq<Action>)
    ensures OneOpen(Run(cfg, Initial, actions))
  {
    if actions != [] {
      var init := actions[..|actions| - 1];
      RunOneOpen(cfg, init);
      RunInv(cfg, init);
      var s := Run(cfg, Initial, init);
      assert PlacementRefs(s.db);
      hide OneOpen, Inv;
      StepOneOpen(cfg, s, actions[|actions| - 1]);
    }
  }

  lemma {:induction false} StepOneOpen(cfg: Config, s: State, a: Action)
    requires PlacementRefs(s.db) && OneOpen(s)
    ensures OneOpen(Step(cfg, s, a))
  {
    var n := Step(cfg, s, a);
    if a.DoAfterPlace? && a.ok && s.worker.Placing? {
      assert forall p :: Open(n.db, p) && p != s.db.nextId ==> Open(s.db, p);
    } else {
      OpenShrinks(cfg, s, a);
      hide Step, PlacementRefs;
      forall p | Open(n.db, p) ensures Open(s.db, p) && s.db.placements[p].challenge == n.db.placements[p].challenge {
        assert StillOpen(s.db, n.db, p);
      }
      if n.worker.Placing? && n.worker != s.worker { NewPlacingNoneOpen(cfg, s, a); }
    }
  }

  ghost predicate StillOpen(db: Db, n: Db, p: Id) {
    Open(n, p) ==> Open(db, p) && db.placements[p].challenge == n.placements[p].challenge
  }

  lemma {:induction false} NewPlacingNoneOpen(cfg: Config, s: State, a: Action)
    requires PlacementRefs(s.db)
    requires var n := Step(cfg, s, a); n.worker.Placing? && n.worker != s.worker
    ensures NoneOpen(s.db, Step(cfg, s, a).worker.job.challenge)
  {
    hide Pick, NewOrder, Expire;
    if a.DoRunOne? {
      var c := a.challenge;
      forall p | Open(s.db, p) ensures s.db.placements[p].challenge != c { assert p !in OpenPlacementsOf(s.db, c); }
    }
  }

  /** Only a place that returned opens a row. */
  lemma {:induction false} OpenShrinks(cfg: Config, s: State, a: Action)
    requires !(a.DoAfterPlace? && a.ok && s.worker.Placing?)
    ensures forall p :: StillOpen(s.db, Step(cfg, s, a).db, p)
  {
    hide CleanNext, SweepNext, OpenBelow, Pick;
    match a
    case DoNewOrder(account, ids, managed, tokens, now) =>
      if |tokens| == 2 * |ids| {
        var db1 := InsertOrder(s.db, account, ids, managed, now + cfg.ttl);
        RoundsKeepPlacements(cfg, db1, s.db.nextId, ids, managed, tokens, now, |ids|);
      }
    case DoAfterValidate(ok, now) => ValidateKeepsPlacements(cfg, s, ok, now);
    case DoAfterCleanup(left) =>
      if s.worker.Cleaning? {
        CleanNextShape(cfg, CleanupReturned(cfg, s, s.worker.current, left), s.worker.job, s.worker.rest, s.worker.promote);
      }
    case DoSweepStep(left) =>
      if s.sweep.Sweeping? { SweepNextShape(cfg, CleanupReturned(cfg, s, s.sweep.current, left), s.sweep.rest); }
    case DoRestart(published) => SweepNextShape(cfg, Restarted(s, published), OpenPlacements(s.db));
    case _ =>
  }

  lemma {:induction false} ValidateKeepsPlacements(cfg: Config, s: State, ok: bool, now: int)
    ensures AfterValidate(cfg, s, ok, now).db.placements == s.db.placements
  {
    hide CleanNext, OpenBelow;
    if s.worker.Validating? {
      var job := s.worker.job;
      var v, w := Verdict(s, Validated(s.db, job), job.challenge), Verdict(s, MarkInvalid(s.db, job), job.challenge);
      CleanNextShape(cfg, v, job, OpenPlacementsOf(v.db, job.challenge), true);
      CleanNextShape(cfg, w, job, OpenPlacementsOf(w.db, job.challenge), false);
    }
  }

  lemma {:induction false} RoundsKeepPlacements(cfg: Config, db: Db, order: Id, ids: seq<Identifier>, managed: bool,
                                                tokens: seq<string>, now: int, n: nat)
    requires n <= |ids| && |tokens| == 2 * |ids|
    ensures InsertIdentifiers(cfg, db, order, ids, managed, tokens, now, n).placements == db.placements
  {
    if n > 0 { RoundsKeepPlacements(cfg, db, order, ids, managed, tokens, now, n - 1); }
  }

  /** What is left of a finished challenge once nothing is in flight, whatever restarts and
      failures the run went through: an open row only if cleanup has no provider for it, so
      none if placement and cleanup ask the same one; and the record if and only if it still
      has such a row or was stranded. */
  lemma {:induction false} FinishedChallengeIsCleanedUp(cfg: Config, actions: seq<Action>, c: Id)
    requires InjectiveTxt(cfg) && Quiescent(Run(cfg, Initial, actions))
    requires var db := Run(cfg, Initial, actions).db; c in db.challenges && Terminal(db.challenges[c].status)
    ensures var s := Run(cfg, Initial, actions);
            && NoneCleanable(cfg, s.db, c)
            && (Attached(s.db, c) && SameProvider(cfg, AuthzOf(s.db, c).value, AuthzOf(s.db, c).wildcard) ==> NoneOpen(s.db, c))
            && (forall r :: RecordFor(cfg, s.db, c) == Some(r) ==>
                  (r in s.zone <==> c in s.history.orphans || !NoneOpen(s.db, c)))
            && (c in s.history.orphans ==> RecordFor(cfg, s.db, c).Some? && EverStrands(cfg, actions, c))
  {
    var s := Run(cfg, Initial, actions);
    RunDns(cfg, actions);
    if c in s.history.orphans {
      OrphansWereStranded(cfg, actions, c);
      assert OrphanOk(cfg, s, c);
    }
    hide Run, EverStrands, InjectiveTxt, RecordFor, SweepOk, CleanupRule;
    forall p | Open(s.db, p) && s.db.placements[p].challenge == c ensures CleanupRule(cfg, s.db, p).None? {
      assert NeedsCleaning(cfg, s, p) ==> InHand(s, p);
    }
    if Attached(s.db, c) && SameProvider(cfg, AuthzOf(s.db, c).value, AuthzOf(s.db, c).wildcard) {
      forall p | Open(s.db, p) ensures s.db.placements[p].challenge != c {
        if s.db.placements[p].challenge == c { AgreedHasProvider(cfg, s.db, p); }
      }
    }
    forall r | RecordFor(cfg, s.db, c) == Some(r) ensures r in s.zone <==> c in s.history.orphans || !NoneOpen(s.db, c) {
      forall p | Open(s.db, p) ensures p !in s.history.withdrawn { assert NeedsCleaning(cfg, s, p) ==> InHand(s, p); }
      OwnRecord(cfg, s, c, r);
    }
  }

  /** Where placement found a provider and cleanup asks the same one, cleanup has one too. */
  lemma {:induction false} AgreedHasProvider(cfg: Config, db: Db, p: Id)
    requires p in db.placements && PlacementOk(cfg, db, p) && Attached(db, db.placements[p].challenge)
    requires var a := AuthzOf(db, db.placements[p].challenge); SameProvider(cfg, a.value, a.wildcard)
    ensures Directed(cfg, db, p)
  {
    hide Pick, Home;
  }

  lemma {:induction false} OwnRecord(cfg: Config, s: State, c: Id, r: Record)
    requires InjectiveTxt(cfg) && TokensDistinct(s.db) && ZoneOk(cfg, s) && !s.worker.Placing?
    requires forall p :: Open(s.db, p) ==> p !in s.history.withdrawn
    requires c in s.db.challenges && RecordFor(cfg, s.db, c) == Some(r)
    ensures r in s.zone <==> c in s.history.orphans || !NoneOpen(s.db, c)
  {
    hide RecordFor;
    assert forall p :: Open(s.db, p) && s.db.placements[p].challenge == c ==> ShownBy(s, p, c);
    assert Shown(s, c) ==> ShownAs(cfg, s, c, r);
    forall d | ShownAs(cfg, s, d, r) ensures d == c { RecordsDistinct(cfg, s.db, c, d); }
  }

  // ---- what one provider holds ----

  /** The names and values that provider `i` publishes. */
  function Held(zone: set<Record>, i: nat): set<(string, string)> {
    set r | r in zone && r.provider == i :: (r.name, r.value)
  }

  /** Publishing adds a record to its provider and to no other one. */
  lemma {:induction false} PlacedIsHeld(zone: set<Record>, i: nat, r: Record)
    ensures Held(zone + {r}, i) == Held(zone, i) + if r.provider == i then {(r.name, r.value)} else {}
  {
    assert r.provider == i ==> r in zone + {r} && (r.name, r.value) in Held(zone + {r}, i);
  }

  /** Cleanup takes that name and value away from the provider it asks, and nothing from any
      other one. So the record of the row's challenge goes exactly if that provider holds it. */
  lemma {:induction false} WithdrawnIsNotHeld(cfg: Config, s: State, p: Id, i: nat)
    requires CleanupRule(cfg, s.db, p).Some?
    ensures var r, n := RecordOf(cfg, s.db, p), Withdraw(cfg, s, p);
            && Held(n.zone, i) == Held(s.zone, i) - (if r.provider == i then {(r.name, r.value)} else {})
            && forall own :: RecordFor(cfg, s.db, s.db.placements[p].challenge) == Some(own) ==>
                 (own in n.zone <==> own in s.zone && !Directed(cfg, s.db, p))
  {
    var r := RecordOf(cfg, s.db, p);
    assert p in s.db.placements;
    hide RecordFor, CleanupRule;
    OneLessHeld(s.zone, i, r);
  }

  lemma {:induction false} OneLessHeld(zone: set<Record>, i: nat, r: Record)
    ensures Held(zone - {r}, i) == Held(zone, i) - if r.provider == i then {(r.name, r.value)} else {}
  {
    forall x: (string, string)
      ensures x in Held(zone - {r}, i) <==> x in Held(zone, i) && !(r.provider == i && x == (r.name, r.value))
    {
      assert x in Held(zone, i) <==> Record(i, x.0, x.1) in zone;
      assert x in Held(zone - {r}, i) <==> Record(i, x.0, x.1) in zone - {r};
    }
  }
}
