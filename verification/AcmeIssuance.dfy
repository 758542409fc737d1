/** Safety of ACME issuance over every run: what a `ready` order and an issued
    certificate stand for, and how order statuses move. */
module AcmeIssuance {
  import opened Wrappers
  import opened Names
  import opened DnsDispatch
  import opened AcmeModel

  // ---- how the rows may change in one step ----

  function Rank(status: OrderStatus): nat {
    match status
    case Pending => 0
    case Ready => 1
    case Processing => 2
    case Valid => 3
    case Expired => 3
    case Invalid => 4
  }

  ghost predicate OrderMoves(o: Order, n: Order) {
    && n.account == o.account && n.identifiers == o.identifiers && n.managed == o.managed
    && (n.status == o.status || Rank(o.status) < Rank(n.status))
    && (o.cert.Some? ==> n.cert == o.cert && n.csr == o.csr)
  }

  ghost predicate AuthzMoves(a: Authz, n: Authz) {
    n.order == a.order && n.value == a.value && n.wildcard == a.wildcard
  }

  predicate Terminal(status: ChallengeStatus) {
    status == ChValid || status == ChInvalid
  }

  ghost predicate ChallengeMoves(c: Challenge, n: Challenge) {
    && n.authz == c.authz && n.kind == c.kind && n.token == c.token
    && (Terminal(c.status) ==> n == c)
    && (c.status == ChProcessing ==> n.status != ChPending)
    && c.attempts <= n.attempts
  }

  ghost predicate PlacementMoves(p: Placement, n: Placement) {
    n.challenge == p.challenge && n.name == p.name && n.value == p.value && (p.cleaned ==> n.cleaned)
  }

  ghost predicate OrdersMove(m: map<Id, Order>, n: map<Id, Order>) {
    forall o :: o in m ==> o in n && OrderMoves(m[o], n[o])
  }

  ghost predicate AuthzsMove(m: map<Id, Authz>, n: map<Id, Authz>) {
    forall a :: a in m ==> a in n && AuthzMoves(m[a], n[a])
  }

  ghost predicate ChallengesMove(m: map<Id, Challenge>, n: map<Id, Challenge>) {
    forall c :: c in m ==> c in n && ChallengeMoves(m[c], n[c])
  }

  ghost predicate PlacementsMove(m: map<Id, Placement>, n: map<Id, Placement>) {
    forall p :: p in m ==> p in n && PlacementMoves(m[p], n[p])
  }

  ghost predicate Kept<T>(m: map<Id, T>, n: map<Id, T>) {
    forall x :: x in m ==> x in n && n[x] == m[x]
  }

  /** A new authorization belongs to a new order. */
  ghost predicate NewAuthzsForNewOrders(db: Db, n: Db) {
    forall a :: a in n.authzs && a !in db.authzs ==> n.authzs[a].order !in db.orders
  }

  /** No row disappears, and each row only moves as its table allows. */
  ghost predicate Extends(db: Db, n: Db) {
    && db.nextId <= n.nextId
    && Kept(db.accounts, n.accounts)
    && OrdersMove(db.orders, n.orders)
    && AuthzsMove(db.authzs, n.authzs)
    && NewAuthzsForNewOrders(db, n)
    && ChallengesMove(db.challenges, n.challenges)
    && Kept(db.certs, n.certs)
    && PlacementsMove(db.placements, n.placements)
  }

  ghost predicate AccountRefs(db: Db) {
    forall x :: x in db.accounts ==> x < db.nextId
  }

  ghost predicate OrderRefs(db: Db) {
    forall o :: o in db.orders ==> o < db.nextId && db.orders[o].account in db.accounts
  }

  ghost predicate AuthzRefs(db: Db) {
    forall a :: a in db.authzs ==> a < db.nextId && db.authzs[a].order in db.orders
  }

  ghost predicate ChallengeRefs(db: Db) {
    forall c :: c in db.challenges ==> c < db.nextId && db.challenges[c].authz in db.authzs
  }

  ghost predicate CertRefs(db: Db) {
    forall x :: x in db.certs ==> x < db.nextId && db.certs[x].order in db.orders
  }

  ghost predicate PlacementRefs(db: Db) {
    forall p :: p in db.placements ==> p < db.nextId && db.placements[p].challenge in db.challenges
  }

  /** Every reference between tables resolves. */
  ghost predicate Refs(db: Db) {
    AccountRefs(db) && OrderRefs(db) && AuthzRefs(db) && ChallengeRefs(db) && CertRefs(db) && PlacementRefs(db)
  }

  // ---- what issuance promises ----

  /** The authorization owns a challenge that was validated. */
  ghost predicate Proven(db: Db, a: Id) {
    exists c :: c in db.challenges && db.challenges[c].authz == a && db.challenges[c].status == ChValid
  }

  ghost predicate AllProven(db: Db, o: Id) {
    forall a :: a in db.authzs && db.authzs[a].order == o ==> Proven(db, a)
  }

  /** Authorization row `a` is the one newOrder created for `posted` in order `o`. */
  ghost predicate Authorizes(db: Db, a: Id, o: Id, posted: string) {
    && a in db.authzs && db.authzs[a].order == o
    && db.authzs[a].value == StoredValue(posted) && db.authzs[a].wildcard == IsWildcard(posted)
  }

  ghost predicate IsCovered(db: Db, o: Id, posted: string) {
    exists a :: Authorizes(db, a, o, posted)
  }

  ghost predicate Covered(db: Db, o: Id)
    requires o in db.orders
  {
    forall i :: i in db.orders[o].identifiers ==> IsCovered(db, o, i.value)
  }

  ghost predicate Justified(db: Db, x: Id)
    requires x in db.certs
  {
    var o := db.certs[x].order;
    && o in db.orders && db.orders[o].cert == Some(x)
    && db.orders[o].status in {Valid, Invalid}
    && db.certs[x].account == db.orders[o].account
    && db.certs[x].sans == ExpectedSans(db.orders[o].identifiers)
    && db.orders[o].csr.Some?
    && db.certs[x].sans == LowerAll(NamesOfCsr(db.orders[o].csr.value))
    && db.certs[x].commonName == SubjectOf(db.orders[o].csr.value, FirstExpected(db.orders[o].identifiers))
    && AllProven(db, o)
  }

  ghost predicate OrdersCovered(db: Db) {
    forall o :: o in db.orders ==> Covered(db, o)
  }

  ghost predicate ReadySound(db: Db) {
    forall o :: o in db.orders && db.orders[o].status == Ready ==> AllAuthzValid(db, o)
  }

  ghost predicate ValidProven(db: Db) {
    forall a :: a in db.authzs && db.authzs[a].status == AuthzValid ==> Proven(db, a)
  }

  ghost predicate CertLinks(db: Db) {
    forall o :: o in db.orders && db.orders[o].cert.Some? ==>
      db.orders[o].cert.value in db.certs && db.certs[db.orders[o].cert.value].order == o
  }

  ghost predicate CertsJustified(db: Db) {
    forall x :: x in db.certs ==> Justified(db, x)
  }

  ghost predicate Sound(db: Db) {
    OrdersCovered(db) && ReadySound(db) && ValidProven(db) && CertLinks(db) && CertsJustified(db)
  }

  /** The rows a suspended runOne holds are still what the store says. */
  ghost predicate JobInv(cfg: Config, db: Db, job: Job) {
    && Attached(db, job.challenge)
    && ChallengeMoves(job.row, db.challenges[job.challenge])
    && AuthzMoves(job.authz, AuthzOf(db, job.challenge))
    && job.managed == Managed(cfg, db, job.challenge)
  }

  /** A job whose challenge is still being processed, exactly as it was read. */
  ghost predicate OpenJob(cfg: Config, db: Db, job: Job) {
    JobInv(cfg, db, job) && db.challenges[job.challenge] == job.row && job.row.status == ChProcessing
  }

  ghost predicate DoneJob(cfg: Config, db: Db, job: Job) {
    JobInv(cfg, db, job) && Terminal(db.challenges[job.challenge].status)
  }

  ghost predicate WorkerInv(cfg: Config, db: Db, worker: WorkerPc) {
    match worker
    case Idle => true
    case Placing(job, _) => OpenJob(cfg, db, job)
    case Validating(job) => OpenJob(cfg, db, job)
    case Cleaning(job, _, _, _) => DoneJob(cfg, db, job)
    case Cleaned(job, _) => DoneJob(cfg, db, job)
  }

  ghost predicate AttemptOk(c: Challenge) {
    c.attempts <= MAX_ATTEMPTS && (!Terminal(c.status) ==> c.attempts < MAX_ATTEMPTS)
  }

  ghost predicate Counted(challenges: map<Id, Challenge>, validations: map<Id, nat>, c: Id)
    requires c in validations
  {
    c in challenges && validations[c] <= challenges[c].attempts
  }

  /** `attempts` counts the completed validations, and an open challenge has some left. */
  ghost predicate AttemptsOk(challenges: map<Id, Challenge>, validations: map<Id, nat>) {
    && (forall c :: c in challenges ==> AttemptOk(challenges[c]))
    && (forall c :: c in validations ==> Counted(challenges, validations, c))
  }

  ghost predicate DbInv(db: Db) {
    Refs(db) && Sound(db)
  }

  ghost predicate Inv(cfg: Config, s: State) {
    DbInv(s.db) && WorkerInv(cfg, s.db, s.worker) && AttemptsOk(s.db.challenges, s.history.validations)
  }

  // ---- generic consequences of Extends ----

  lemma {:induction false} ProvenKept(db: Db, n: Db, a: Id)
    requires Extends(db, n) && Proven(db, a)
    ensures Proven(n, a)
  {}

  lemma {:induction false} CoveredKept(db: Db, n: Db, o: Id)
    requires Extends(db, n) && o in db.orders && Covered(db, o)
    ensures Covered(n, o)
  {
    forall i | i in n.orders[o].identifiers
      ensures IsCovered(n, o, i.value)
    {
      assert IsCovered(db, o, i.value);
      var a :| Authorizes(db, a, o, i.value);
      assert Authorizes(n, a, o, i.value);
    }
  }

  lemma {:induction false} JustifiedKept(db: Db, n: Db, x: Id)
    requires Extends(db, n) && x in db.certs && Justified(db, x)
    ensures x in n.certs && Justified(n, x)
  {}

  lemma {:induction false} ExtendsReflexive(db: Db)
    ensures Extends(db, db)
  {}

  lemma {:induction false} ExtendsTransitive(a: Db, b: Db, c: Db)
    requires Extends(a, b) && Extends(b, c)
    ensures Extends(a, c)
  {}

  /** The step issues nothing, and what it makes ready or validates is in order. */
  ghost predicate Quiet(db: Db, n: Db) {
    && n.certs == db.certs
    && (forall o :: o in n.orders ==> n.orders[o].cert == if o in db.orders then db.orders[o].cert else None)
    && (forall o :: o in n.orders && o !in db.orders ==> Covered(n, o))
    && (forall a :: a in n.authzs && n.authzs[a].status == AuthzValid ==>
          Proven(n, a) || (a in db.authzs && db.authzs[a].status == AuthzValid))
    && ReadySound(n)
  }

  lemma {:induction false} OrdersCoveredKept(db: Db, n: Db)
    requires OrdersCovered(db) && Extends(db, n) && Quiet(db, n)
    ensures OrdersCovered(n)
  {
    forall o | o in n.orders ensures Covered(n, o) {
      if o in db.orders { CoveredKept(db, n, o); }
    }
  }

  lemma {:induction false} ValidProvenKept(db: Db, n: Db)
    requires ValidProven(db) && Extends(db, n) && Quiet(db, n)
    ensures ValidProven(n)
  {}

  lemma {:induction false} CertsJustifiedKept(db: Db, n: Db)
    requires CertsJustified(db) && Extends(db, n) && n.certs == db.certs
    ensures CertsJustified(n)
  {}

  lemma {:induction false} SoundKept(db: Db, n: Db)
    requires Sound(db) && Extends(db, n) && Quiet(db, n)
    ensures Sound(n)
  {
    OrdersCoveredKept(db, n);
    ValidProvenKept(db, n);
    CertsJustifiedKept(db, n);
  }

  /** What every step that issues nothing does to the store. */
  ghost predicate Keeps(db: Db, n: Db) {
    Extends(db, n) && Refs(n) && Quiet(db, n)
  }

  // ---- one lemma per database change ----

  lemma {:induction false} ReadyKept(db: Db, n: Db)
    requires ReadySound(db) && AuthzsMove(db.authzs, n.authzs) && NewAuthzsForNewOrders(db, n)
    requires forall o :: o in n.orders && n.orders[o].status == Ready ==> o in db.orders && db.orders[o].status == Ready
    requires forall a :: a in db.authzs && db.authzs[a].status == AuthzValid ==>
               n.authzs[a].status == AuthzValid || n.authzs[a].order !in n.orders || n.orders[n.authzs[a].order].status != Ready
    ensures ReadySound(n)
  {}

  lemma {:induction false} ExpireMoves(db: Db, now: int)
    ensures Extends(db, Expire(db, now))
  {}

  lemma {:induction false} ExpireRefs(db: Db, now: int)
    requires Refs(db)
    ensures Refs(Expire(db, now))
  {}

  lemma {:induction false} ExpireKeeps(db: Db, now: int)
    requires Refs(db) && ReadySound(db)
    ensures Keeps(db, Expire(db, now))
  {
    hide Refs;
    ExpireMoves(db, now);
    ExpireRefs(db, now);
    ReadyKept(db, Expire(db, now));
  }

  /** Only rows of the challenge and placement tables changed, and no challenge became valid. */
  lemma {:induction false} SideTablesKeep(db: Db, n: Db)
    requires Refs(db) && ReadySound(db) && db.nextId <= n.nextId
    requires n.orders == db.orders && n.authzs == db.authzs && n.certs == db.certs
    requires Kept(db.accounts, n.accounts) && AccountRefs(n)
    requires ChallengesMove(db.challenges, n.challenges) && ChallengeRefs(n)
    requires PlacementsMove(db.placements, n.placements) && PlacementRefs(n)
    ensures Keeps(db, n)
  {}

  lemma {:induction false} ChallengeUpdateKeeps(db: Db, id: Id, c: Challenge)
    requires Refs(db) && ReadySound(db)
    requires id in db.challenges && ChallengeMoves(db.challenges[id], c)
    ensures Keeps(db, db.(challenges := db.challenges[id := c]))
  {}

  lemma {:induction false} QueueKeeps(db: Db, id: Id, now: int)
    requires Refs(db) && ReadySound(db)
    ensures Keeps(db, QueueChallenge(db, id, now))
  {
    if id in db.challenges && db.challenges[id].status == ChPending {
      ChallengeUpdateKeeps(db, id, db.challenges[id].(status := ChProcessing, nextCheck := Some(now)));
    } else {
      SideTablesKeep(db, db);
    }
  }

  lemma {:induction false} RetryKeeps(db: Db, id: Id, next: Option<int>, attempts: nat)
    requires Refs(db) && ReadySound(db)
    requires id in db.challenges && db.challenges[id].status == ChProcessing && db.challenges[id].attempts <= attempts
    ensures Keeps(db, SetChallengeResult(db, id, ChProcessing, next, attempts))
  {}

  lemma {:induction false} PlacementKeeps(db: Db, p: Placement)
    requires Refs(db) && ReadySound(db) && p.challenge in db.challenges
    ensures Keeps(db, InsertPlacement(db, p))
  {}

  lemma {:induction false} CleanedKeeps(db: Db, p: Id)
    requires Refs(db) && ReadySound(db)
    ensures Keeps(db, MarkPlacementCleaned(db, p))
  {
    hide ReadySound, Quiet;
    var n := MarkPlacementCleaned(db, p);
    assert PlacementsMove(db.placements, n.placements);
    assert PlacementRefs(n);
    SideTablesKeep(db, n);
  }

  lemma {:induction false} AccountKeeps(db: Db, thumbprint: string)
    requires Refs(db) && ReadySound(db)
    ensures Keeps(db, AddAccount(db, thumbprint))
  {}

  /** The job's rows identify its challenge, authorization and order. */
  ghost predicate JobRows(db: Db, job: Job) {
    && Attached(db, job.challenge)
    && db.challenges[job.challenge] == job.row && job.row.status == ChProcessing
    && job.authz.order == AuthzOf(db, job.challenge).order
    && job.row.attempts < MAX_ATTEMPTS
  }

  lemma {:induction false} ValidatedKeeps(db: Db, job: Job)
    requires Refs(db) && ReadySound(db) && JobRows(db, job)
    ensures Keeps(db, Validated(db, job))
  {
    var c, a := job.challenge, job.row.authz;
    var d := SetChallengeResult(db, c, ChValid, None, job.row.attempts + 1);
    var n := Validated(db, job);
    ChallengeUpdateKeeps(db, c, d.challenges[c]);
    assert n == d.(authzs := d.authzs[a := d.authzs[a].(status := AuthzValid)]);
    assert n.challenges[c].authz == a && n.challenges[c].status == ChValid;
    assert Proven(n, a);
    AuthzUpdateKeeps(db, d, a, d.authzs[a].(status := AuthzValid));
  }

  lemma {:induction false} AuthzUpdateExtends(d: Db, a: Id, row: Authz)
    requires Refs(d) && a in d.authzs && AuthzMoves(d.authzs[a], row)
    ensures var n := d.(authzs := d.authzs[a := row]); Extends(d, n) && Refs(n)
  {}

  /** After a step that keeps the store, one authorization of `d` is updated. */
  lemma {:induction false} AuthzUpdateKeeps(db: Db, d: Db, a: Id, row: Authz)
    requires Keeps(db, d) && a in d.authzs && AuthzMoves(d.authzs[a], row)
    requires row.status == AuthzValid ==> Proven(d.(authzs := d.authzs[a := row]), a)
    requires row.status != AuthzValid && d.authzs[a].order in d.orders ==> d.orders[d.authzs[a].order].status != Ready
    ensures Keeps(db, d.(authzs := d.authzs[a := row]))
  {
    var n := d.(authzs := d.authzs[a := row]);
    AuthzUpdateExtends(d, a, row);
    ExtendsTransitive(db, d, n);
    ReadyKept(d, n);
    QuietAfterAuthzUpdate(db, d, n, a);
  }

  lemma {:induction false} QuietAfterAuthzUpdate(db: Db, d: Db, n: Db, a: Id)
    requires Extends(d, n) && Quiet(db, d) && ReadySound(n)
    requires n == d.(authzs := n.authzs) && a in n.authzs
    requires n.authzs == d.authzs[a := n.authzs[a]]
    requires n.authzs[a].status == AuthzValid ==> Proven(n, a)
    ensures Quiet(db, n)
  {
    forall o | o in n.orders && o !in db.orders ensures Covered(n, o) { CoveredKept(d, n, o); }
    forall x | x in n.authzs && n.authzs[x].status == AuthzValid
      ensures Proven(n, x) || (x in db.authzs && db.authzs[x].status == AuthzValid)
    {
      if x != a && Proven(d, x) { ProvenKept(d, n, x); }
    }
  }

  lemma {:induction false} OrderStatusKeeps(db: Db, o: Id, status: OrderStatus)
    requires Refs(db) && ReadySound(db) && o in db.orders
    requires db.orders[o].status == status || Rank(db.orders[o].status) < Rank(status)
    requires status == Ready ==> AllAuthzValid(db, o)
    ensures Keeps(db, SetOrderStatus(db, o, status))
  {}

  lemma {:induction false} OrderAndAuthzInvalid(db: Db, o: Id, a: Id)
    requires Refs(db) && ReadySound(db) && o in db.orders && a in db.authzs && db.authzs[a].order == o
    ensures Keeps(db, SetAuthzStatus(SetOrderStatus(db, o, Invalid), a, AuthzInvalid))
  {
    var d := SetOrderStatus(db, o, Invalid);
    OrderStatusKeeps(db, o, Invalid);
    AuthzUpdateKeeps(db, d, a, d.authzs[a].(status := AuthzInvalid));
  }

  /** The three statements of markInvalid; the order goes first here, which gives the
      same rows and keeps the store sound in between. */
  lemma {:induction false} MarkInvalidKeeps(db: Db, job: Job)
    requires Refs(db) && ReadySound(db) && JobRows(db, job)
    ensures Keeps(db, MarkInvalid(db, job))
  {
    hide ReadySound;
    var d := SetAuthzStatus(SetOrderStatus(db, job.authz.order, Invalid), job.row.authz, AuthzInvalid);
    OrderAndAuthzInvalid(db, job.authz.order, job.row.authz);
    var c := job.row.(status := ChInvalid, nextCheck := None, attempts := MAX_ATTEMPTS);
    ChallengeUpdateKeeps(d, job.challenge, c);
    var n := d.(challenges := d.challenges[job.challenge := c]);
    assert MarkInvalid(db, job) == n;
    KeepsTransitive(db, d, n);
  }

  lemma {:induction false} KeepsTransitive(a: Db, b: Db, c: Db)
    requires Keeps(a, b) && Keeps(b, c)
    ensures Keeps(a, c)
  {
    ExtendsTransitive(a, b, c);
    forall o | o in c.orders && o !in a.orders ensures Covered(c, o) {
      if o in b.orders { CoveredKept(b, c, o); }
    }
    forall x | x in c.authzs && c.authzs[x].status == AuthzValid
      ensures Proven(c, x) || (x in a.authzs && a.authzs[x].status == AuthzValid)
    {
      if x in b.authzs && b.authzs[x].status == AuthzValid && Proven(b, x) { ProvenKept(b, c, x); }
    }
  }

  lemma {:induction false} PromoteKeeps(db: Db, order: Id)
    requires Refs(db) && ReadySound(db)
    ensures Keeps(db, MaybePromote(db, order))
  {
    if AllAuthzValid(db, order) && order in db.orders && db.orders[order].status == Pending {
      OrderStatusKeeps(db, order, Ready);
    } else {
      SideTablesKeep(db, db);
    }
  }

  // ---- finalize ----

  lemma {:induction false} FinalizeExtends(db: Db, order: Id, csr: Csr, signed: bool)
    requires Refs(db) && ReadySound(db)
    requires order in db.orders && db.orders[order].status == Ready && db.orders[order].cert.None?
    ensures var n := Finalize(db, order, csr, signed); Extends(db, n) && Refs(n) && ReadySound(n)
  {
    var n := Finalize(db, order, csr, signed);
    ExtendsReflexive(db);
    assert OrdersMove(db.orders, n.orders);
    assert Kept(db.certs, n.certs) && NewAuthzsForNewOrders(db, n);
    FinalizeRefs(db, order, csr, signed);
    ReadyKept(db, n);
  }

  lemma {:induction false} FinalizeRefs(db: Db, order: Id, csr: Csr, signed: bool)
    requires Refs(db) && order in db.orders
    ensures Refs(Finalize(db, order, csr, signed))
  {}

  lemma {:induction false} ReadyOrderHasNoCert(db: Db, order: Id)
    requires CertLinks(db) && CertsJustified(db)
    requires order in db.orders && db.orders[order].status == Ready
    ensures db.orders[order].cert.None?
  {}

  lemma {:induction false} IssuedCertJustified(db: Db, order: Id, csr: Csr)
    requires Refs(db) && ReadySound(db) && ValidProven(db)
    requires order in db.orders && db.orders[order].status == Ready
    requires ExpectedSans(db.orders[order].identifiers) == LowerAll(NamesOfCsr(csr))
    requires Extends(db, Finalize(db, order, csr, true))
    ensures Justified(Finalize(db, order, csr, true), db.nextId)
  {}

  lemma {:induction false} FinalizeKeeps(db: Db, order: Id, csr: Csr, signed: bool)
    requires Refs(db) && Sound(db)
    requires order in db.orders && db.orders[order].status == Ready
    requires ExpectedSans(db.orders[order].identifiers) == LowerAll(NamesOfCsr(csr))
    ensures var n := Finalize(db, order, csr, signed); Extends(db, n) && Refs(n) && Sound(n)
  {
    hide Proven, Justified, Covered, Refs, LowerAll, NamesOfCsr, ExpectedSans, SubjectOf;
    var n := Finalize(db, order, csr, signed);
    ReadyOrderHasNoCert(db, order);
    FinalizeExtends(db, order, csr, signed);
    if signed { IssuedCertJustified(db, order, csr); }
    forall o | o in n.orders ensures Covered(n, o) { CoveredKept(db, n, o); }
    forall a | a in n.authzs && n.authzs[a].status == AuthzValid ensures Proven(n, a) { ProvenKept(db, n, a); }
    forall x | x in n.certs ensures Justified(n, x) {
      if x in db.certs { JustifiedKept(db, n, x); }
    }
  }

  // ---- newOrder ----

  ghost predicate AuthzsInserted(db: Db, d: Db, order: Id) {
    && Kept(db.authzs, d.authzs)
    && (forall a :: a in d.authzs && a !in db.authzs ==>
          a < d.nextId && d.authzs[a].order == order && d.authzs[a].status == AuthzPending)
  }

  ghost predicate ChallengesInserted(db: Db, d: Db) {
    && Kept(db.challenges, d.challenges)
    && (forall c :: c in d.challenges && c !in db.challenges ==>
          c < d.nextId && d.challenges[c].authz in d.authzs && d.challenges[c].authz !in db.authzs &&
          !Terminal(d.challenges[c].status) && d.challenges[c].attempts == 0)
  }

  /** Only the two growing tables differ, by rows of order `order`. */
  ghost predicate InsertedRows(db: Db, d: Db, order: Id) {
    && d.accounts == db.accounts && d.orders == db.orders && d.certs == db.certs && d.placements == db.placements
    && db.nextId <= d.nextId
    && AuthzsInserted(db, d, order)
    && ChallengesInserted(db, d)
  }

  ghost predicate FirstCovered(d: Db, order: Id, ids: seq<Identifier>, n: nat)
    requires n <= |ids|
  {
    forall i :: 0 <= i < n ==> IsCovered(d, order, ids[i].value)
  }

  /** What `n` rounds of the insertion loop have added to `db`. */
  ghost predicate Inserted(db: Db, d: Db, order: Id, ids: seq<Identifier>, n: nat)
    requires n <= |ids|
  {
    InsertedRows(db, d, order) && FirstCovered(d, order, ids, n)
  }

  /** Every row id of the two growing tables is below the counter. */
  ghost predicate IdsBelow(d: Db) {
    (forall a :: a in d.authzs ==> a < d.nextId) && (forall c :: c in d.challenges ==> c < d.nextId)
  }

  lemma {:induction false} InsertedIdsBelow(db: Db, d: Db, order: Id)
    requires AuthzRefs(db) && ChallengeRefs(db) && InsertedRows(db, d, order)
    ensures IdsBelow(d)
  {}

  lemma {:induction false} CoverKept(d: Db, e: Db, order: Id, ids: seq<Identifier>, n: nat)
    requires n <= |ids| && Kept(d.authzs, e.authzs) && FirstCovered(d, order, ids, n)
    ensures FirstCovered(e, order, ids, n)
  {
    forall i | 0 <= i < n ensures IsCovered(e, order, ids[i].value) {
      var a :| Authorizes(d, a, order, ids[i].value);
      assert Authorizes(e, a, order, ids[i].value);
    }
  }

  lemma {:induction false} InsertAuthzRows(db: Db, d: Db, order: Id, posted: string, expires: int)
    requires IdsBelow(d) && InsertedRows(db, d, order)
    ensures var e := InsertAuthz(d, order, posted, expires); InsertedRows(db, e, order) && IdsBelow(e)
  {}

  lemma {:induction false} InsertChallengeRows(db: Db, d: Db, order: Id, authz: Id, kind: ChallengeKind, token: string, queue: bool, now: int)
    requires IdsBelow(d) && InsertedRows(db, d, order)
    requires authz in d.authzs && authz !in db.authzs
    ensures var i := InsertChallenge(d, authz, kind, token);
            var e := if queue then QueueChallenge(i, d.nextId, now) else i;
            InsertedRows(db, e, order) && IdsBelow(e) && e.authzs == d.authzs
  {}

  lemma {:induction false} InsertIdentifierInserts(cfg: Config, db: Db, d: Db, e: Db, order: Id, ids: seq<Identifier>, managed: bool,
                                t1: string, t2: string, now: int, n: nat)
    requires n < |ids| && AuthzRefs(db) && ChallengeRefs(db) && Inserted(db, d, order, ids, n)
    requires e == InsertIdentifier(cfg, d, order, ids[n].value, managed, t1, t2, now)
    ensures Inserted(db, e, order, ids, n + 1)
  {
    InsertedIdsBelow(db, d, order);
    var d1 := InsertAuthz(d, order, ids[n].value, now + cfg.ttl);
    InsertAuthzRows(db, d, order, ids[n].value, now + cfg.ttl);
    var d2 := d1;
    if cfg.dns01 {
      InsertChallengeRows(db, d1, order, d.nextId, Dns01, t1, managed, now);
      var i := InsertChallenge(d1, d.nextId, Dns01, t1);
      d2 := if managed then QueueChallenge(i, d1.nextId, now) else i;
    }
    if !managed && cfg.http01 && !IsWildcard(ids[n].value) {
      InsertChallengeRows(db, d2, order, d.nextId, Http01, t2, false, now);
    }
    assert e.authzs == d1.authzs;
    hide InsertIdentifier, InsertAuthz, InsertChallenge, QueueChallenge;
    OneMoreCovered(d, e, order, ids, n);
  }

  lemma {:induction false} OneMoreCovered(d: Db, e: Db, order: Id, ids: seq<Identifier>, n: nat)
    requires n < |ids| && FirstCovered(d, order, ids, n) && Kept(d.authzs, e.authzs)
    requires Authorizes(e, d.nextId, order, ids[n].value)
    ensures FirstCovered(e, order, ids, n + 1)
  {
    CoverKept(d, e, order, ids, n);
  }

  lemma {:induction false} InsertIdentifiersInserts(cfg: Config, db: Db, order: Id, ids: seq<Identifier>, managed: bool,
                                                    tokens: seq<string>, now: int, n: nat)
    requires n <= |ids| && |tokens| == 2 * |ids| && AuthzRefs(db) && ChallengeRefs(db)
    ensures Inserted(db, InsertIdentifiers(cfg, db, order, ids, managed, tokens, now, n), order, ids, n)
  {
    if n == 0 {
      NothingInserted(db, order, ids);
    } else {
      var d := InsertIdentifiers(cfg, db, order, ids, managed, tokens, now, n - 1);
      InsertIdentifiersInserts(cfg, db, order, ids, managed, tokens, now, n - 1);
      var e := InsertIdentifiers(cfg, db, order, ids, managed, tokens, now, n);
      InsertIdentifierInserts(cfg, db, d, e, order, ids, managed, tokens[2 * n - 2], tokens[2 * n - 1], now, n - 1);
    }
  }

  lemma {:induction false} NothingInserted(db: Db, order: Id, ids: seq<Identifier>)
    ensures Inserted(db, db, order, ids, 0)
  {}

  lemma {:induction false} InsertOrderRefs(db: Db, account: Id, ids: seq<Identifier>, managed: bool, expires: int)
    requires Refs(db) && account in db.accounts
    ensures Refs(InsertOrder(db, account, ids, managed, expires))
  {}

  lemma {:induction false} NewOrderKeeps(cfg: Config, db: Db, account: Id, ids: seq<Identifier>, managed: bool, tokens: seq<string>, now: int)
    requires Refs(db) && ReadySound(db) && account in db.accounts && |tokens| == 2 * |ids|
    ensures Keeps(db, NewOrder(cfg, db, account, ids, managed, tokens, now))
  {
    var db1 := InsertOrder(db, account, ids, managed, now + cfg.ttl);
    var n := NewOrder(cfg, db, account, ids, managed, tokens, now);
    InsertOrderRefs(db, account, ids, managed, now + cfg.ttl);
    InsertIdentifiersInserts(cfg, db1, db.nextId, ids, managed, tokens, now, |ids|);
    InsertedExtends(db, db1, n, db.nextId);
    InsertedQuiet(db, db1, n, db.nextId, ids);
  }

  /** `db1` is `db` with the new order's row. */
  ghost predicate WithNewOrder(db: Db, db1: Db, o: Id) {
    && o !in db.orders && o in db1.orders && db1.orders[o].status == Pending && db1.orders[o].cert.None?
    && db1 == db.(orders := db.orders[o := db1.orders[o]], nextId := db.nextId + 1)
  }

  lemma {:induction false} InsertedExtends(db: Db, db1: Db, n: Db, o: Id)
    requires WithNewOrder(db, db1, o) && InsertedRows(db1, n, o)
    ensures Extends(db, n)
  {}

  lemma {:induction false} InsertedQuiet(db: Db, db1: Db, n: Db, o: Id, ids: seq<Identifier>)
    requires ReadySound(db) && AuthzsMove(db.authzs, n.authzs) && NewAuthzsForNewOrders(db, n)
    requires WithNewOrder(db, db1, o) && db1.orders[o].identifiers == ids && Inserted(db1, n, o, ids, |ids|)
    ensures Quiet(db, n)
  {}

  lemma {:induction false} RoundsKeepOrders(cfg: Config, db: Db, order: Id, ids: seq<Identifier>, managed: bool,
                                            tokens: seq<string>, now: int, n: nat)
    requires n <= |ids| && |tokens| == 2 * |ids|
    ensures InsertIdentifiers(cfg, db, order, ids, managed, tokens, now, n).orders == db.orders
  {
    if n > 0 { RoundsKeepOrders(cfg, db, order, ids, managed, tokens, now, n - 1); }
  }

  // ---- the invariant of a run ----

  lemma {:induction false} JobKept(cfg: Config, db: Db, n: Db, job: Job)
    requires Refs(n) && Extends(db, n) && JobInv(cfg, db, job)
    ensures JobInv(cfg, n, job)
  {}

  lemma {:induction false} DoneJobKept(cfg: Config, db: Db, n: Db, job: Job)
    requires Refs(n) && Extends(db, n) && DoneJob(cfg, db, job)
    ensures DoneJob(cfg, n, job)
  {}

  /** Challenges being processed are left alone; new and pending ones have no attempts counted. */
  ghost predicate LeavesProcessing(m: map<Id, Challenge>, n: map<Id, Challenge>) {
    && (forall c :: c in m ==> c in n && (m[c].status == ChProcessing ==> n[c] == m[c]))
    && (forall c :: c in n ==> AttemptOk(n[c]) && (c in m ==> m[c].attempts <= n[c].attempts))
  }

  lemma {:induction false} WorkerKept(cfg: Config, db: Db, n: Db, worker: WorkerPc)
    requires WorkerInv(cfg, db, worker) && Refs(n) && Extends(db, n) && LeavesProcessing(db.challenges, n.challenges)
    ensures WorkerInv(cfg, n, worker)
  {
    match worker
    case Idle =>
    case Placing(job, _) => JobKept(cfg, db, n, job);
    case Validating(job) => JobKept(cfg, db, n, job);
    case Cleaning(job, _, _, _) => DoneJobKept(cfg, db, n, job);
    case Cleaned(job, _) => DoneJobKept(cfg, db, n, job);
  }

  lemma {:induction false} AttemptsKept(m: map<Id, Challenge>, n: map<Id, Challenge>, validations: map<Id, nat>)
    requires AttemptsOk(m, validations) && LeavesProcessing(m, n)
    ensures AttemptsOk(n, validations)
  {}

  lemma {:induction false} DbKept(db: Db, n: Db)
    requires DbInv(db) && Keeps(db, n)
    ensures DbInv(n) && Extends(db, n)
  {
    SoundKept(db, n);
  }

  /** A step that changes the rows but no suspended local. */
  lemma {:induction false} DbStepInv(cfg: Config, s: State, n: State)
    requires Inv(cfg, s) && DbInv(n.db) && Extends(s.db, n.db) && LeavesProcessing(s.db.challenges, n.db.challenges)
    requires n.worker == s.worker || n.worker == Idle
    requires n.history.validations == s.history.validations
    ensures Inv(cfg, n)
  {
    WorkerKept(cfg, s.db, n.db, s.worker);
    AttemptsKept(s.db.challenges, n.db.challenges, s.history.validations);
  }

  lemma {:induction false} NewOrderInv(cfg: Config, s: State, account: Id, ids: seq<Identifier>, managed: bool, tokens: seq<string>, now: int)
    requires Inv(cfg, s) && account in s.db.accounts && |tokens| == 2 * |ids|
    ensures var n := NewOrder(cfg, s.db, account, ids, managed, tokens, now);
            Inv(cfg, s.(db := n)) && Extends(s.db, n)
  {
    hide Sound;
    var n := NewOrder(cfg, s.db, account, ids, managed, tokens, now);
    assert ReadySound(s.db) by { SoundParts(s.db); }
    NewOrderKeeps(cfg, s.db, account, ids, managed, tokens, now);
    NewOrderLeavesProcessing(cfg, s.db, account, ids, managed, tokens, now, s.history.validations);
    DbKept(s.db, n);
    DbStepInv(cfg, s, s.(db := n));
  }

  lemma {:induction false} SoundParts(db: Db)
    requires Sound(db)
    ensures ReadySound(db)
  {}

  lemma {:induction false} NewOrderLeavesProcessing(cfg: Config, db: Db, account: Id, ids: seq<Identifier>, managed: bool,
                                 tokens: seq<string>, now: int, v: map<Id, nat>)
    requires Refs(db) && AttemptsOk(db.challenges, v) && account in db.accounts && |tokens| == 2 * |ids|
    ensures LeavesProcessing(db.challenges, NewOrder(cfg, db, account, ids, managed, tokens, now).challenges)
  {
    var db1 := InsertOrder(db, account, ids, managed, now + cfg.ttl);
    var n := NewOrder(cfg, db, account, ids, managed, tokens, now);
    InsertOrderRefs(db, account, ids, managed, now + cfg.ttl);
    InsertIdentifiersInserts(cfg, db1, db.nextId, ids, managed, tokens, now, |ids|);
    NewChallengesLeaveProcessing(db1, n, v);
  }

  lemma {:induction false} NewChallengesLeaveProcessing(db: Db, n: Db, v: map<Id, nat>)
    requires AttemptsOk(db.challenges, v) && ChallengesInserted(db, n)
    ensures LeavesProcessing(db.challenges, n.challenges)
  {}

  lemma {:induction false} FinalizeInv(cfg: Config, s: State, order: Id, csr: Csr, signed: bool)
    requires Inv(cfg, s)
    requires order in s.db.orders && s.db.orders[order].status == Ready
    requires ExpectedSans(s.db.orders[order].identifiers) == LowerAll(NamesOfCsr(csr))
    ensures var n := Finalize(s.db, order, csr, signed); Inv(cfg, s.(db := n)) && Extends(s.db, n)
  {
    FinalizeKeeps(s.db, order, csr, signed);
    DbStepInv(cfg, s, s.(db := Finalize(s.db, order, csr, signed)));
  }

  lemma {:induction false} QueueInv(cfg: Config, s: State, id: Id, now: int)
    requires Inv(cfg, s)
    ensures var n := QueueChallenge(s.db, id, now); Inv(cfg, s.(db := n)) && Extends(s.db, n)
  {
    hide Sound;
    SoundParts(s.db);
    QueueKeeps(s.db, id, now);
    DbKept(s.db, QueueChallenge(s.db, id, now));
    DbStepInv(cfg, s, s.(db := QueueChallenge(s.db, id, now)));
  }

  /** The challenge table is the same: the step is about other tables. */
  lemma {:induction false} OtherTablesInv(cfg: Config, s: State, n: State)
    requires Inv(cfg, s) && Keeps(s.db, n.db) && n.db.challenges == s.db.challenges
    requires n.worker == s.worker || n.worker == Idle
    requires n.history.validations == s.history.validations
    ensures Inv(cfg, n) && Extends(s.db, n.db)
  {
    DbKept(s.db, n.db);
    DbStepInv(cfg, s, n);
  }

  // ---- the worker's segments ----

  /** The segment decided the job's own challenge, or counted one more attempt for it. */
  ghost predicate OnlyJobMoves(m: map<Id, Challenge>, n: map<Id, Challenge>, c: Id) {
    && c in m && n.Keys == m.Keys
    && (forall x :: x in m && x != c ==> n[x] == m[x])
    && m[c].attempts < n[c].attempts && AttemptOk(n[c])
  }

  lemma {:induction false} AttemptCounted(m: map<Id, Challenge>, n: map<Id, Challenge>, c: Id, v: map<Id, nat>, w: map<Id, nat>)
    requires AttemptsOk(m, v) && OnlyJobMoves(m, n, c)
    requires CountsFor(v, w, c)
    ensures AttemptsOk(n, w)
  {}

  lemma {:induction false} CleanNextShape(cfg: Config, s: State, job: Job, todo: seq<Id>, promote: bool)
    ensures var n := CleanNext(cfg, s, job, todo, promote);
            n.db == s.db && n.history.validations == s.history.validations &&
            (n.worker.Cleaned? || n.worker.Cleaning?) && n.worker.job == job
  {}

  lemma {:induction false} SweepNextShape(cfg: Config, s: State, todo: seq<Id>)
    ensures var n := SweepNext(cfg, s, todo);
            n.db == s.db && n.history.validations == s.history.validations && n.worker == s.worker
  {}

  lemma {:induction false} RunOneInv(cfg: Config, s: State, id: Id)
    requires Inv(cfg, s)
    ensures Inv(cfg, RunOne(cfg, s, id)) && Extends(s.db, RunOne(cfg, s, id).db)
  {
    ExtendsReflexive(s.db);
    if s.worker == Idle && Runnable(s.db, id) {
      var job := JobFor(cfg, s.db, id);
      assert OpenJob(cfg, s.db, job);
      if RunOne(cfg, s, id).db != s.db { JobFailsInv(cfg, s, RunOne(cfg, s, id), job); }
    }
  }

  /** The validation just completed is counted, or none was. */
  ghost predicate CountsFor(v: map<Id, nat>, w: map<Id, nat>, c: Id) {
    w == v || w == v[c := (if c in v then v[c] else 0) + 1]
  }

  ghost predicate DoneWith(worker: WorkerPc, job: Job) {
    worker == Idle || ((worker.Cleaned? || worker.Cleaning?) && worker.job == job)
  }

  /** markInvalid, at whichever of its three places. */
  lemma {:induction false} JobFailsInv(cfg: Config, s: State, n: State, job: Job)
    requires Inv(cfg, s) && OpenJob(cfg, s.db, job)
    requires n.db == MarkInvalid(s.db, job) && DoneWith(n.worker, job)
    requires CountsFor(s.history.validations, n.history.validations, job.challenge)
    ensures Inv(cfg, n) && Extends(s.db, n.db)
  {
    JobFailsDb(cfg, s.db, job, s.history.validations);
    AttemptCounted(s.db.challenges, n.db.challenges, job.challenge, s.history.validations, n.history.validations);
  }

  lemma {:induction false} JobFailsDb(cfg: Config, db: Db, job: Job, v: map<Id, nat>)
    requires DbInv(db) && OpenJob(cfg, db, job) && AttemptsOk(db.challenges, v)
    ensures var n := MarkInvalid(db, job);
            DbInv(n) && Extends(db, n) && DoneJob(cfg, n, job) && OnlyJobMoves(db.challenges, n.challenges, job.challenge)
  {
    hide Sound, Refs, Quiet, ReadySound;
    SoundParts(db);
    assert AttemptOk(db.challenges[job.challenge]);
    MarkInvalidKeeps(db, job);
    DbKept(db, MarkInvalid(db, job));
    JobKept(cfg, db, MarkInvalid(db, job), job);
  }

  lemma {:induction false} AfterPlaceInv(cfg: Config, s: State, ok: bool, published: bool)
    requires Inv(cfg, s) && s.worker.Placing?
    ensures Inv(cfg, AfterPlace(s, ok, published)) && Extends(s.db, AfterPlace(s, ok, published).db)
  {
    var job, r := s.worker.job, s.worker.record;
    if ok {
      var p := Placement(job.challenge, r.name, r.value, false);
      PlacementKeeps(s.db, p);
      OtherTablesInv(cfg, s, s.(db := InsertPlacement(s.db, p)));
    } else {
      JobFailsInv(cfg, s, AfterPlace(s, ok, published), job);
    }
  }

  lemma {:induction false} SuccessDb(cfg: Config, db: Db, job: Job, v: map<Id, nat>)
    requires DbInv(db) && OpenJob(cfg, db, job) && AttemptsOk(db.challenges, v)
    ensures var n := Validated(db, job);
            DbInv(n) && Extends(db, n) && DoneJob(cfg, n, job) && OnlyJobMoves(db.challenges, n.challenges, job.challenge)
  {
    hide Sound, Refs, Quiet, ReadySound;
    SoundParts(db);
    assert AttemptOk(db.challenges[job.challenge]);
    var n := Validated(db, job);
    ValidatedKeeps(db, job);
    DbKept(db, n);
    JobKept(cfg, db, n, job);
  }

  lemma {:induction false} SuccessInv(cfg: Config, s: State, n: State, job: Job)
    requires Inv(cfg, s) && OpenJob(cfg, s.db, job)
    requires n.db == Validated(s.db, job) && DoneWith(n.worker, job)
    requires CountsFor(s.history.validations, n.history.validations, job.challenge)
    ensures Inv(cfg, n) && Extends(s.db, n.db)
  {
    SuccessDb(cfg, s.db, job, s.history.validations);
    AttemptCounted(s.db.challenges, n.db.challenges, job.challenge, s.history.validations, n.history.validations);
  }

  lemma {:induction false} RetryDb(cfg: Config, db: Db, job: Job, next: Option<int>)
    requires DbInv(db) && OpenJob(cfg, db, job) && job.row.attempts + 1 < MAX_ATTEMPTS
    ensures var n := SetChallengeResult(db, job.challenge, ChProcessing, next, job.row.attempts + 1);
            DbInv(n) && Extends(db, n) && OnlyJobMoves(db.challenges, n.challenges, job.challenge)
  {
    hide Sound, Refs, Quiet, ReadySound;
    SoundParts(db);
    RetryKeeps(db, job.challenge, next, job.row.attempts + 1);
    DbKept(db, SetChallengeResult(db, job.challenge, ChProcessing, next, job.row.attempts + 1));
  }

  lemma {:induction false} RetryInv(cfg: Config, s: State, n: State, job: Job, now: int)
    requires Inv(cfg, s) && OpenJob(cfg, s.db, job) && job.row.attempts + 1 < MAX_ATTEMPTS
    requires n.db == SetChallengeResult(s.db, job.challenge, ChProcessing,
                                        Some(now + RETRY_DELAYS_MS[job.row.attempts]), job.row.attempts + 1)
    requires n.worker == Idle
    requires CountsFor(s.history.validations, n.history.validations, job.challenge)
    ensures Inv(cfg, n) && Extends(s.db, n.db)
  {
    RetryDb(cfg, s.db, job, Some(now + RETRY_DELAYS_MS[job.row.attempts]));
    AttemptCounted(s.db.challenges, n.db.challenges, job.challenge, s.history.validations, n.history.validations);
  }

  lemma {:induction false} PromoteInv(cfg: Config, s: State, o: Id)
    requires Inv(cfg, s)
    ensures var n := s.(db := MaybePromote(s.db, o), worker := Idle); Inv(cfg, n) && Extends(s.db, n.db)
  {
    PromoteKeeps(s.db, o);
    OtherTablesInv(cfg, s, s.(db := MaybePromote(s.db, o), worker := Idle));
  }

  lemma {:induction false} SucceedInv(cfg: Config, s: State, job: Job)
    requires Inv(cfg, s) && OpenJob(cfg, s.db, job)
    ensures Inv(cfg, Succeed(cfg, s, job)) && Extends(s.db, Succeed(cfg, s, job).db)
  {
    hide DbInv;
    var m := Verdict(s, Validated(s.db, job), job.challenge);
    if job.managed {
      CleanNextShape(cfg, m, job, OpenPlacementsOf(m.db, job.challenge), true);
      SuccessInv(cfg, s, Succeed(cfg, s, job), job);
    } else {
      ValidatedPromotes(cfg, s, m, job);
    }
  }

  lemma {:induction false} FailInv(cfg: Config, s: State, job: Job)
    requires Inv(cfg, s) && OpenJob(cfg, s.db, job)
    ensures Inv(cfg, Fail(cfg, s, job)) && Extends(s.db, Fail(cfg, s, job).db)
  {
    hide DbInv, OpenBelow, MarkInvalid, AttemptsOk;
    var m := Verdict(s, MarkInvalid(s.db, job), job.challenge);
    CleanNextShape(cfg, m, job, OpenPlacementsOf(m.db, job.challenge), false);
    JobFailsInv(cfg, s, Fail(cfg, s, job), job);
  }

  lemma {:induction false} RetryStepInv(cfg: Config, s: State, job: Job, now: int)
    requires Inv(cfg, s) && OpenJob(cfg, s.db, job) && job.row.attempts + 1 < MAX_ATTEMPTS
    ensures Inv(cfg, Retry(s, job, now)) && Extends(s.db, Retry(s, job, now).db)
  {
    RetryInv(cfg, s, Retry(s, job, now), job, now);
  }

  lemma {:induction false} AfterValidateInv(cfg: Config, s: State, ok: bool, now: int)
    requires Inv(cfg, s) && s.worker.Validating?
    ensures Inv(cfg, AfterValidate(cfg, s, ok, now)) && Extends(s.db, AfterValidate(cfg, s, ok, now).db)
  {
    var job := s.worker.job;
    if ok {
      SucceedInv(cfg, s, job);
    } else if job.row.attempts + 1 >= MAX_ATTEMPTS {
      FailInv(cfg, s, job);
    } else {
      RetryStepInv(cfg, s, job, now);
    }
  }

  lemma {:induction false} ValidatedPromotes(cfg: Config, s: State, m: State, job: Job)
    requires Inv(cfg, s) && OpenJob(cfg, s.db, job)
    requires m.db == Validated(s.db, job) && m.worker == Idle
    requires CountsFor(s.history.validations, m.history.validations, job.challenge)
    ensures var n := m.(db := MaybePromote(m.db, job.authz.order)); Inv(cfg, n) && Extends(s.db, n.db)
  {
    SuccessInv(cfg, s, m, job);
    PromoteInv(cfg, m, job.authz.order);
    ExtendsTransitive(s.db, m.db, MaybePromote(m.db, job.authz.order));
  }

  lemma {:induction false} CleanupReturnedInv(cfg: Config, s: State, p: Id, left: bool)
    requires Inv(cfg, s)
    ensures Inv(cfg, CleanupReturned(cfg, s, p, left)) && Extends(s.db, CleanupReturned(cfg, s, p, left).db)
    ensures CleanupReturned(cfg, s, p, left).worker == s.worker
  {
    CleanedKeeps(s.db, p);
    OtherTablesInv(cfg, s, CleanupReturned(cfg, s, p, left));
  }

  lemma {:induction false} AfterCleanupInv(cfg: Config, s: State, left: bool)
    requires Inv(cfg, s) && s.worker.Cleaning?
    ensures Inv(cfg, AfterCleanup(cfg, s, left)) && Extends(s.db, AfterCleanup(cfg, s, left).db)
  {
    hide CleanupReturned;
    var m := CleanupReturned(cfg, s, s.worker.current, left);
    CleanupReturnedInv(cfg, s, s.worker.current, left);
    CleanNextShape(cfg, m, s.worker.job, s.worker.rest, s.worker.promote);
  }

  lemma {:induction false} SweepStepInv(cfg: Config, s: State, left: bool)
    requires Inv(cfg, s) && s.sweep.Sweeping?
    ensures Inv(cfg, SweepStep(cfg, s, left)) && Extends(s.db, SweepStep(cfg, s, left).db)
  {
    hide CleanupReturned;
    CleanupReturnedInv(cfg, s, s.sweep.current, left);
    SweepNextShape(cfg, CleanupReturned(cfg, s, s.sweep.current, left), s.sweep.rest);
  }

  lemma {:induction false} RestartInv(cfg: Config, s: State, published: bool)
    requires Inv(cfg, s)
    ensures Inv(cfg, Restart(cfg, s, published)) && Extends(s.db, Restart(cfg, s, published).db)
  {
    ExtendsReflexive(s.db);
    SweepNextShape(cfg, Restarted(s, published), OpenPlacements(s.db));
    hide SweepNext, OpenBelow, DbInv, AttemptsOk, Extends;
  }

  lemma {:induction false} HandlerInv(cfg: Config, s: State, a: Action)
    requires Inv(cfg, s)
    requires a.DoNewAccount? || a.DoNewOrder? || a.DoChall? || a.DoFinalize? || a.DoExpire?
    ensures Inv(cfg, Step(cfg, s, a)) && Extends(s.db, Step(cfg, s, a).db)
  {
    ExtendsReflexive(s.db);
    match a
    case DoNewAccount(thumbprint) =>
      AccountKeeps(s.db, thumbprint);
      OtherTablesInv(cfg, s, s.(db := AddAccount(s.db, thumbprint)));
    case DoNewOrder(account, ids, managed, tokens, now) =>
      if |tokens| == 2 * |ids| && account in s.db.accounts {
        NewOrderInv(cfg, s, account, ids, managed, tokens, now);
      }
    case DoChall(account, challenge, now) =>
      QueueInv(cfg, s, challenge, now);
    case DoFinalize(account, order, csr, signed) =>
      if FinalizeProblem(s.db, account, order, csr).None? { FinalizeInv(cfg, s, order, csr.value, signed); }
    case DoExpire(now) =>
      ExpireKeeps(s.db, now);
      OtherTablesInv(cfg, s, s.(db := Expire(s.db, now)));
  }

  /** Every step keeps the invariant, and rows only move forward. */
  lemma {:induction false} StepInv(cfg: Config, s: State, a: Action)
    requires Inv(cfg, s)
    ensures Inv(cfg, Step(cfg, s, a)) && Extends(s.db, Step(cfg, s, a).db)
  {
    ExtendsReflexive(s.db);
    match a
    case DoRunOne(challenge) => RunOneInv(cfg, s, challenge);
    case DoAfterPlace(ok, published) => if s.worker.Placing? { AfterPlaceInv(cfg, s, ok, published); }
    case DoAfterValidate(ok, now) =>
      if s.worker.Validating? { AfterValidateInv(cfg, s, ok, now); }
    case DoAfterCleanup(left) => if s.worker.Cleaning? { AfterCleanupInv(cfg, s, left); }
    case DoAfterCleaned => if s.worker.Cleaned? && s.worker.promote { PromoteInv(cfg, s, s.worker.job.authz.order); }
    case DoSweepStep(left) => if s.sweep.Sweeping? { SweepStepInv(cfg, s, left); }
    case DoRestart(published) => RestartInv(cfg, s, published);
    case _ => HandlerInv(cfg, s, a);
  }

  /** A step other than newOrder adds no order, authorization or challenge. */
  lemma {:induction false} OnlyNewOrderInserts(cfg: Config, s: State, a: Action)
    requires !a.DoNewOrder?
    ensures SameIds(s.db, Step(cfg, s, a).db)
  {
    hide CleanNext, SweepNext, RunOne, AfterPlace, AfterValidate, OpenBelow;
    match a
    case DoRunOne(challenge) => WorkerKeepsIds(cfg, s, challenge, false, false);
    case DoAfterPlace(ok, published) => WorkerKeepsIds(cfg, s, 0, ok, published);
    case DoAfterValidate(ok, now) => ValidateKeepsIds(cfg, s, ok, now);
    case DoAfterCleanup(left) =>
      if s.worker.Cleaning? {
        CleanNextShape(cfg, CleanupReturned(cfg, s, s.worker.current, left), s.worker.job, s.worker.rest, s.worker.promote);
      }
    case DoSweepStep(left) =>
      if s.sweep.Sweeping? { SweepNextShape(cfg, CleanupReturned(cfg, s, s.sweep.current, left), s.sweep.rest); }
    case DoRestart(published) => SweepNextShape(cfg, Restarted(s, published), OpenPlacements(s.db));
    case _ =>
  }

  ghost predicate SameIds(db: Db, n: Db) {
    n.orders.Keys == db.orders.Keys && n.authzs.Keys == db.authzs.Keys && n.challenges.Keys == db.challenges.Keys
  }

  lemma {:induction false} WorkerKeepsIds(cfg: Config, s: State, c: Id, ok: bool, published: bool)
    ensures SameIds(s.db, RunOne(cfg, s, c).db) && SameIds(s.db, AfterPlace(s, ok, published).db)
  {
    hide Pick, OpenBelow;
  }

  lemma {:induction false} ValidateKeepsIds(cfg: Config, s: State, ok: bool, now: int)
    ensures SameIds(s.db, AfterValidate(cfg, s, ok, now).db)
  {
    hide CleanNext, OpenBelow;
    if s.worker.Validating? {
      var job := s.worker.job;
      var v, w := Verdict(s, Validated(s.db, job), job.challenge), Verdict(s, MarkInvalid(s.db, job), job.challenge);
      CleanNextShape(cfg, v, job, OpenPlacementsOf(v.db, job.challenge), true);
      CleanNextShape(cfg, w, job, OpenPlacementsOf(w.db, job.challenge), false);
      VerdictKeepsIds(s.db, job);
      hide Validated, MarkInvalid, MaybePromote;
    }
  }

  lemma {:induction false} ChallengeResultKeepsIds(db: Db, id: Id, status: ChallengeStatus, next: Option<int>, attempts: nat)
    ensures SameIds(db, SetChallengeResult(db, id, status, next, attempts))
  {}

  lemma {:induction false} AuthzStatusKeepsIds(db: Db, id: Id, status: AuthzStatus)
    ensures SameIds(db, SetAuthzStatus(db, id, status))
  {}

  lemma {:induction false} OrderStatusKeepsIds(db: Db, id: Id, status: OrderStatus)
    ensures SameIds(db, SetOrderStatus(db, id, status))
  {}

  lemma {:induction false} VerdictKeepsIds(db: Db, job: Job)
    ensures SameIds(db, Validated(db, job)) && SameIds(db, MarkInvalid(db, job))
    ensures SameIds(db, MaybePromote(Validated(db, job), job.authz.order))
  {
    hide SetChallengeResult, SetAuthzStatus, SetOrderStatus, AllAuthzValid;
    var order := job.authz.order;
    ChallengeResultKeepsIds(db, job.challenge, ChValid, None, job.row.attempts + 1);
    AuthzStatusKeepsIds(SetChallengeResult(db, job.challenge, ChValid, None, job.row.attempts + 1), job.row.authz, AuthzValid);
    OrderStatusKeepsIds(Validated(db, job), order, Ready);
    var failed := SetChallengeResult(db, job.challenge, ChInvalid, None, MAX_ATTEMPTS);
    ChallengeResultKeepsIds(db, job.challenge, ChInvalid, None, MAX_ATTEMPTS);
    AuthzStatusKeepsIds(failed, job.row.authz, AuthzInvalid);
    OrderStatusKeepsIds(SetAuthzStatus(failed, job.row.authz, AuthzInvalid), order, Invalid);
  }

  /** The invariant holds after every run, in any interleaving. */
  lemma {:induction false} RunInv(cfg: Config, actions: seq<Action>)
    ensures Inv(cfg, Run(cfg, Initial, actions))
  {
    if actions != [] {
      RunInv(cfg, actions[..|actions| - 1]);
      StepInv(cfg, Run(cfg, Initial, actions[..|actions| - 1]), actions[|actions| - 1]);
    }
  }
}
