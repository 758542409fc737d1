/** Server-managed DNS-01: the published TXT records and the placement rows agree, with
    the worker, the startup sweep and restarts interleaved in any way, and with providers
    that may throw at any call. */
module AcmeDns {
  import opened Wrappers
  import opened Names
  import opened DnsDispatch
  import opened AcmeModel
  import opened AcmeIssuance

  // ---- the assumption ----

  /** SHA-256 followed by base64url does not collide. */
  ghost predicate InjectiveTxt(cfg: Config) {
    forall x, y :: cfg.txt(x) == cfg.txt(y) ==> x == y
  }

  // ---- records ----

  /** Placement and cleanup ask the same provider for a stored identifier, or none. */
  predicate SameProvider(cfg: Config, value: string, wildcard: bool) {
    cfg.rules.Some? ==>
      HomeOf(cfg, Pick(value, cfg.rules.value)) == HomeOf(cfg, Pick(StripAcmePrefix(BuildChallengeName(value, wildcard)), cfg.rules.value))
  }

  function HomeOf(cfg: Config, rule: Option<nat>): Option<nat>
    requires cfg.rules.Some?
  {
    if rule.Some? then Some(Home(cfg.rules.value, rule.value)) else None
  }

  /** Only some names that start with two wildcard labels are an exception. */
  lemma {:induction false} SingleWildcardAgrees(cfg: Config, posted: string)
    requires !DoubleWildcard(posted)
    ensures SameProvider(cfg, StoredValue(posted), IsWildcard(posted))
  {
    PlacementAndCleanupAgree(posted);
    if cfg.rules.Some? { assert PickAtPlacement(posted, cfg.rules.value) == PickAtCleanup(posted, cfg.rules.value); }
  }

  lemma {:induction false} RecordKept(cfg: Config, db: Db, n: Db, c: Id)
    requires Extends(db, n) && Attached(db, c)
    ensures Attached(n, c) && RecordFor(cfg, n, c) == RecordFor(cfg, db, c)
  {
    assert ChallengeMoves(db.challenges[c], n.challenges[c]);
    assert AuthzMoves(AuthzOf(db, c), n.authzs[n.challenges[c].authz]);
    assert OrderMoves(OrderOf(db, c), n.orders[n.authzs[n.challenges[c].authz].order]);
  }

  // ---- tokens ----

  ghost predicate TokensDistinct(db: Db) {
    && (forall c, d :: c in db.challenges && d in db.challenges && c != d ==>
          db.challenges[c].token != db.challenges[d].token)
    && (forall c :: c in db.challenges ==> '.' !in db.challenges[c].token)
  }

  function BeforeDot(s: string): string {
    if s == "" || s[0] == '.' then "" else [s[0]] + BeforeDot(s[1..])
  }

  /** A key authorization determines its token: the first dot ends it. */
  lemma {:induction false} KeyAuthorizationToken(token: string, thumbprint: string)
    requires '.' !in token
    ensures BeforeDot(KeyAuthorization(token, thumbprint)) == token
  {
    if token != "" {
      assert KeyAuthorization(token, thumbprint)[1..] == KeyAuthorization(token[1..], thumbprint);
      KeyAuthorizationToken(token[1..], thumbprint);
    }
  }

  /** Two challenges never publish the same value. */
  lemma {:induction false} RecordsDistinct(cfg: Config, db: Db, c: Id, d: Id)
    requires InjectiveTxt(cfg) && TokensDistinct(db)
    requires RecordFor(cfg, db, c).Some? && RecordFor(cfg, db, d).Some?
    requires RecordFor(cfg, db, c).value.value == RecordFor(cfg, db, d).value.value
    ensures c == d
  {
    var tc, td := db.challenges[c].token, db.challenges[d].token;
    var hc, hd := db.accounts[OrderOf(db, c).account], db.accounts[OrderOf(db, d).account];
    assert cfg.txt(KeyAuthorization(tc, hc)) == cfg.txt(KeyAuthorization(td, hd));
    KeyAuthorizationToken(tc, hc);
    KeyAuthorizationToken(td, hd);
  }

  // ---- placement rows ----

  /** A row holds the name and the value that its challenge publishes. */
  ghost predicate PlacementOk(cfg: Config, db: Db, p: Id)
    requires p in db.placements
  {
    var c := db.placements[p].challenge;
    && c in db.challenges && RecordFor(cfg, db, c).Some?
    && RecordFor(cfg, db, c).value.name == db.placements[p].name
    && RecordFor(cfg, db, c).value.value == db.placements[p].value
  }

  ghost predicate PlacementsOk(cfg: Config, db: Db) {
    forall p :: p in db.placements ==> PlacementOk(cfg, db, p)
  }

  ghost predicate OneOpenEach(db: Db) {
    forall p, q :: Open(db, p) && Open(db, q) && db.placements[p].challenge == db.placements[q].challenge ==> p == q
  }

  ghost predicate NoneOpen(db: Db, c: Id) {
    forall p :: Open(db, p) ==> db.placements[p].challenge != c
  }

  /** No row of challenge `c` other than `p` is open. */
  ghost predicate OnlyOpen(db: Db, p: Id, c: Id) {
    forall q :: Open(db, q) && db.placements[q].challenge == c ==> q == p
  }

  // ---- what is published ----

  /** Challenge `c`'s record is in the zone. */
  ghost predicate Shown(s: State, c: Id) {
    || c in s.history.orphans
    || (s.worker.Placing? && s.worker.job.challenge == c)
    || exists p :: ShownBy(s, p, c)
  }

  ghost predicate ShownBy(s: State, p: Id, c: Id) {
    Open(s.db, p) && s.db.placements[p].challenge == c && p !in s.history.withdrawn
  }

  ghost predicate ShownAs(cfg: Config, s: State, c: Id, r: Record) {
    c in s.db.challenges && Shown(s, c) && RecordFor(cfg, s.db, c) == Some(r)
  }

  ghost predicate ZoneOk(cfg: Config, s: State) {
    forall r :: r in s.zone <==> exists c :: ShownAs(cfg, s, c, r)
  }

  // ---- the actors ----

  function SweepList(s: State): seq<Id> {
    if s.sweep.Sweeping? then [s.sweep.current] + s.sweep.rest else []
  }

  /** Challenge `c` has a record of its own but no open row. */
  ghost predicate Unrecorded(cfg: Config, db: Db, c: Id) {
    && c in db.challenges
    && RecordFor(cfg, db, c).Some? && NoneOpen(db, c)
  }

  /** Challenge `c` has a record of its own, and cleanup was called for any open row of it. */
  ghost predicate OrphanOk(cfg: Config, s: State, c: Id) {
    && c in s.db.challenges && RecordFor(cfg, s.db, c).Some?
    && forall p :: Open(s.db, p) && s.db.placements[p].challenge == c ==> p in s.history.withdrawn
  }

  ghost predicate OrphansOk(cfg: Config, s: State) {
    forall c :: c in s.history.orphans ==> OrphanOk(cfg, s, c)
  }

  ghost predicate WorkerDns(cfg: Config, s: State) {
    match s.worker
    case Placing(job, r) =>
      && Unrecorded(cfg, s.db, job.challenge) && RecordFor(cfg, s.db, job.challenge) == Some(r)
      && s.db.challenges[job.challenge].status == ChProcessing
    case Cleaning(job, p, rest, _) =>
      && rest == [] && p in s.db.placements && s.db.placements[p].challenge == job.challenge
      && (p in s.history.withdrawn || !Open(s.db, p)) && OnlyOpen(s.db, p, job.challenge)
    case _ => true
  }

  /** A listed placement is open, or its challenge is finished and has none open. */
  ghost predicate Sweepable(db: Db, p: Id) {
    && p in db.placements
    && (Open(db, p) ||
        (db.placements[p].challenge in db.challenges &&
         Terminal(db.challenges[db.placements[p].challenge].status) && NoneOpen(db, db.placements[p].challenge)))
  }

  ghost predicate Distinct(ids: seq<Id>) {
    forall i, j :: 0 <= i < j < |ids| ==> ids[i] != ids[j]
  }

  ghost predicate SweepOk(s: State) {
    && (forall p :: p in SweepList(s) ==> Sweepable(s.db, p))
    && (s.sweep.Sweeping? ==> s.sweep.current in s.history.withdrawn || !Open(s.db, s.sweep.current))
    && Distinct(SweepList(s))
  }

  /** Someone is going to mark placement `p` cleaned. */
  ghost predicate InHand(s: State, p: Id) {
    (s.worker.Cleaning? && s.worker.current == p) || p in SweepList(s)
  }

  /** Withdrawn rows and open rows of finished challenges are all in hand, unless cleanup
      has no provider for them. */
  ghost predicate NothingForgotten(cfg: Config, s: State) {
    forall p :: Open(s.db, p) && NeedsCleaning(cfg, s, p) ==> InHand(s, p)
  }

  ghost predicate NeedsCleaning(cfg: Config, s: State, p: Id)
    requires p in s.db.placements
  {
    || p in s.history.withdrawn
    || (CleanupRule(cfg, s.db, p).Some? && s.db.placements[p].challenge in s.db.challenges && Terminal(s.db.challenges[s.db.placements[p].challenge].status))
  }

  ghost predicate DnsDb(cfg: Config, db: Db) {
    TokensDistinct(db) && PlacementsOk(cfg, db) && OneOpenEach(db)
  }

  ghost predicate WithdrawnKnown(cfg: Config, s: State) {
    forall p :: p in s.history.withdrawn ==> CleanupRule(cfg, s.db, p).Some?
  }

  ghost predicate Actors(cfg: Config, s: State) {
    OrphansOk(cfg, s) && WorkerDns(cfg, s) && SweepOk(s) && NothingForgotten(cfg, s) && WithdrawnKnown(cfg, s)
  }

  ghost predicate DnsInv(cfg: Config, s: State) {
    DnsDb(cfg, s.db) && Actors(cfg, s) && ZoneOk(cfg, s)
  }

  // ---- steps that leave placements and records alone ----

  /** Challenges only appear, get queued or use up an attempt; nothing is decided. */
  ghost predicate DecidesNothing(m: map<Id, Challenge>, n: map<Id, Challenge>) {
    forall c :: c in m ==> c in n && Undecided(m[c].status, n[c].status)
  }

  ghost predicate Undecided(before: ChallengeStatus, after: ChallengeStatus) {
    after == before || (before == ChPending && after == ChProcessing)
  }

  lemma {:induction false} PlacementsKept(cfg: Config, db: Db, n: Db)
    requires Refs(db) && Extends(db, n) && n.placements == db.placements && PlacementsOk(cfg, db)
    ensures PlacementsOk(cfg, n)
  {
    forall p | p in n.placements ensures PlacementOk(cfg, n, p) {
      assert PlacementOk(cfg, db, p);
      RecordKept(cfg, db, n, db.placements[p].challenge);
    }
  }

  lemma {:induction false} UnrecordedKept(cfg: Config, db: Db, n: Db, c: Id)
    requires Extends(db, n) && n.placements == db.placements && Unrecorded(cfg, db, c)
    ensures Unrecorded(cfg, n, c) && RecordFor(cfg, n, c) == RecordFor(cfg, db, c)
  {
    RecordKept(cfg, db, n, c);
    assert forall p :: Open(n, p) ==> Open(db, p);
  }

  lemma {:induction false} OrphanKept(cfg: Config, s: State, n: State, c: Id)
    requires Extends(s.db, n.db) && n.db.placements == s.db.placements && n.history.withdrawn == s.history.withdrawn
    requires OrphanOk(cfg, s, c)
    ensures OrphanOk(cfg, n, c)
  {
    RecordKept(cfg, s.db, n.db, c);
    assert forall p :: Open(n.db, p) ==> Open(s.db, p);
  }

  lemma {:induction false} SweepableKept(db: Db, n: Db, p: Id)
    requires ChallengesMove(db.challenges, n.challenges) && n.placements == db.placements && Sweepable(db, p)
    ensures Sweepable(n, p)
  {
    if !Open(db, p) {
      var c := db.placements[p].challenge;
      assert ChallengeMoves(db.challenges[c], n.challenges[c]);
      assert forall q :: Open(n, q) ==> Open(db, q);
    }
  }

  /** The zone agrees with the rows before and after if the same challenges are shown. */
  lemma {:induction false} ZoneKept(cfg: Config, s: State, n: State)
    requires ZoneOk(cfg, s) && n.zone == s.zone && Refs(s.db) && Extends(s.db, n.db)
    requires forall c :: c in s.db.challenges ==> (Shown(n, c) <==> Shown(s, c))
    requires forall c :: c in n.db.challenges && c !in s.db.challenges ==> !Shown(n, c)
    ensures ZoneOk(cfg, n)
  {
    forall c, r ensures ShownAs(cfg, n, c, r) <==> ShownAs(cfg, s, c, r) {
      if c in s.db.challenges { RecordKept(cfg, s.db, n.db, c); }
    }
  }

  /** The parts of the state that the zone depends on, besides the rows. */
  ghost predicate SamePublication(s: State, n: State) {
    && n.zone == s.zone && n.sweep == s.sweep
    && n.history.orphans == s.history.orphans && n.history.withdrawn == s.history.withdrawn
    && (n.worker == s.worker || (n.worker.Idle? && !s.worker.Placing? && !s.worker.Cleaning?))
  }

  lemma {:induction false} SameShown(s: State, n: State)
    requires SamePublication(s, n) && n.db.placements == s.db.placements
    ensures forall c :: Shown(n, c) <==> Shown(s, c)
  {
    forall c ensures Shown(n, c) <==> Shown(s, c) {
      assert forall p :: ShownBy(n, p, c) <==> ShownBy(s, p, c);
    }
  }

  lemma {:induction false} NewNotShown(cfg: Config, s: State, c: Id)
    requires Refs(s.db) && Actors(cfg, s) && c !in s.db.challenges
    ensures !Shown(s, c)
  {
    assert PlacementRefs(s.db);
  }

  lemma {:induction false} RowsZone(cfg: Config, s: State, n: State)
    requires DnsInv(cfg, s) && Refs(s.db) && Extends(s.db, n.db)
    requires SamePublication(s, n) && n.db.placements == s.db.placements
    ensures ZoneOk(cfg, n)
  {
    SameShown(s, n);
    forall c | c !in s.db.challenges ensures !Shown(n, c) { NewNotShown(cfg, s, c); }
    ZoneKept(cfg, s, n);
  }

  lemma {:induction false} RowsActors(cfg: Config, s: State, n: State)
    requires Actors(cfg, s) && Refs(s.db) && Extends(s.db, n.db)
    requires SamePublication(s, n) && n.db.placements == s.db.placements
    requires DecidesNothing(s.db.challenges, n.db.challenges)
    ensures Actors(cfg, n)
  {
    forall c | c in n.history.orphans ensures OrphanOk(cfg, n, c) { OrphanKept(cfg, s, n, c); }
    if n.worker.Placing? { UnrecordedKept(cfg, s.db, n.db, n.worker.job.challenge); }
    forall p | p in SweepList(n) ensures Sweepable(n.db, p) { SweepableKept(s.db, n.db, p); }
    RowsNotForgotten(cfg, s, n);
  }

  lemma {:induction false} RowsNotForgotten(cfg: Config, s: State, n: State)
    requires NothingForgotten(cfg, s) && PlacementRefs(s.db) && SamePublication(s, n) && n.db.placements == s.db.placements
    requires DecidesNothing(s.db.challenges, n.db.challenges)
    ensures NothingForgotten(cfg, n)
  {
    forall p | Open(n.db, p) && NeedsCleaning(cfg, n, p) ensures InHand(n, p) {
      assert Open(s.db, p) && NeedsCleaning(cfg, s, p);
      assert InHand(s, p);
    }
  }

  lemma {:induction false} RowsDns(cfg: Config, s: State, n: State)
    requires DnsInv(cfg, s) && Refs(s.db) && Extends(s.db, n.db)
    requires SamePublication(s, n) && n.db.placements == s.db.placements
    requires DecidesNothing(s.db.challenges, n.db.challenges)
    requires TokensDistinct(n.db)
    ensures DnsInv(cfg, n)
  {
    PlacementsKept(cfg, s.db, n.db);
    RowsZone(cfg, s, n);
    RowsActors(cfg, s, n);
    assert OneOpenEach(n.db);
  }

  // ---- withdrawing a record, marking its row ----

  lemma {:induction false} DirectedZone(cfg: Config, s: State, p: Id)
    requires InjectiveTxt(cfg) && TokensDistinct(s.db) && ZoneOk(cfg, s) && Directed(cfg, s.db, p)
    requires var c := s.db.placements[p].challenge;
             !(s.worker.Placing? && s.worker.job.challenge == c) && OnlyOpen(s.db, p, c)
    ensures ZoneOk(cfg, Withdraw(cfg, s, p))
  {
    var c := s.db.placements[p].challenge;
    var n := Withdraw(cfg, s, p);
    var gone := RecordOf(cfg, s.db, p);
    hide RecordFor;
    assert !Shown(n, c) by { assert forall q :: !ShownBy(n, q, c); }
    forall d | d != c ensures Shown(n, d) <==> Shown(s, d) {
      assert forall q :: ShownBy(n, q, d) <==> ShownBy(s, q, d);
    }
    forall r ensures r in n.zone <==> exists d :: ShownAs(cfg, n, d, r) {
      if d :| ShownAs(cfg, n, d, r) {
        assert d != c && ShownAs(cfg, s, d, r);
        if r == gone { RecordsDistinct(cfg, s.db, c, d); }
      }
      if r in n.zone {
        var d :| ShownAs(cfg, s, d, r);
        assert d != c;
        assert ShownAs(cfg, n, d, r);
      }
    }
  }

  /** A record that cleanup looks for at another provider is not published there. */
  lemma {:induction false} MisdirectedNotThere(cfg: Config, s: State, p: Id)
    requires InjectiveTxt(cfg) && TokensDistinct(s.db) && ZoneOk(cfg, s)
    requires p in s.db.placements && PlacementOk(cfg, s.db, p) && CleanupRule(cfg, s.db, p).Some? && !Directed(cfg, s.db, p)
    ensures RecordOf(cfg, s.db, p) !in s.zone
  {
    hide RecordFor, CleanupRule;
    var c, r := s.db.placements[p].challenge, RecordOf(cfg, s.db, p);
    if r in s.zone {
      var d :| ShownAs(cfg, s, d, r);
      RecordsDistinct(cfg, s.db, c, d);
    }
  }

  lemma {:induction false} SameShownMisdirected(cfg: Config, s: State, p: Id)
    requires p in s.db.placements && CleanupRule(cfg, s.db, p).Some? && !Directed(cfg, s.db, p)
    ensures forall d :: Shown(Withdraw(cfg, s, p), d) <==> Shown(s, d)
  {
    var n, c := Withdraw(cfg, s, p), s.db.placements[p].challenge;
    assert n.history.orphans == if ShownBy(s, p, c) then s.history.orphans + {c} else s.history.orphans;
    hide Directed, RecordOf, CleanupRule;
    forall d ensures Shown(n, d) <==> Shown(s, d) {
      assert forall q :: q != p ==> (ShownBy(n, q, d) <==> ShownBy(s, q, d));
      assert !ShownBy(n, p, d);
      assert ShownBy(s, p, d) ==> d == c;
    }
  }

  lemma {:induction false} MisdirectedZone(cfg: Config, s: State, p: Id)
    requires InjectiveTxt(cfg) && TokensDistinct(s.db) && ZoneOk(cfg, s)
    requires p in s.db.placements && PlacementOk(cfg, s.db, p) && CleanupRule(cfg, s.db, p).Some? && !Directed(cfg, s.db, p)
    ensures ZoneOk(cfg, Withdraw(cfg, s, p))
  {
    var n := Withdraw(cfg, s, p);
    MisdirectedNotThere(cfg, s, p);
    assert n.zone == s.zone && n.db == s.db;
    SameShownMisdirected(cfg, s, p);
    hide RecordFor, Withdraw, Shown;
    assert forall d, r :: ShownAs(cfg, n, d, r) <==> ShownAs(cfg, s, d, r);
  }

  lemma {:induction false} WithdrawZone(cfg: Config, s: State, p: Id)
    requires InjectiveTxt(cfg) && TokensDistinct(s.db) && ZoneOk(cfg, s)
    requires p in s.db.placements && PlacementOk(cfg, s.db, p) && CleanupRule(cfg, s.db, p).Some?
    requires var c := s.db.placements[p].challenge;
             !(s.worker.Placing? && s.worker.job.challenge == c) && OnlyOpen(s.db, p, c)
    ensures ZoneOk(cfg, Withdraw(cfg, s, p))
  {
    if Directed(cfg, s.db, p) { DirectedZone(cfg, s, p); } else { MisdirectedZone(cfg, s, p); }
  }

  lemma {:induction false} MarkZone(cfg: Config, s: State, p: Id)
    requires ZoneOk(cfg, s) && (p in s.history.withdrawn || !Open(s.db, p))
    ensures ZoneOk(cfg, MarkCleaned(s, p))
  {
    var n := MarkCleaned(s, p);
    forall c ensures Shown(n, c) <==> Shown(s, c) {
      assert forall q :: ShownBy(n, q, c) <==> ShownBy(s, q, c);
    }
    forall c, r ensures ShownAs(cfg, n, c, r) <==> ShownAs(cfg, s, c, r) {
      assert RecordFor(cfg, n.db, c) == RecordFor(cfg, s.db, c);
    }
  }

  lemma {:induction false} RecordSameRows(cfg: Config, db: Db, n: Db, c: Id)
    requires n.accounts == db.accounts && n.orders == db.orders && n.authzs == db.authzs && n.challenges == db.challenges
    ensures RecordFor(cfg, n, c) == RecordFor(cfg, db, c)
  {}

  lemma {:induction false} MarkedPlacementOk(cfg: Config, db: Db, p: Id, q: Id)
    requires q in db.placements && PlacementOk(cfg, db, q)
    ensures q in MarkPlacementCleaned(db, p).placements && PlacementOk(cfg, MarkPlacementCleaned(db, p), q)
  {
    RecordSameRows(cfg, db, MarkPlacementCleaned(db, p), db.placements[q].challenge);
  }

  lemma {:induction false} MarkDb(cfg: Config, db: Db, p: Id)
    requires DnsDb(cfg, db)
    ensures DnsDb(cfg, MarkPlacementCleaned(db, p))
  {
    hide PlacementOk;
    var n := MarkPlacementCleaned(db, p);
    forall q | q in n.placements ensures PlacementOk(cfg, n, q) {
      MarkedPlacementOk(cfg, db, p, q);
    }
    assert OneOpenEach(n) by { assert forall q :: Open(n, q) ==> Open(db, q); }
    assert TokensDistinct(n);
  }
}
