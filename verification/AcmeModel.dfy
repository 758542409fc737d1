/** The ACME server's store and what each atomic step does to it. A step runs from one
    suspension point (`await`) to the next; the class in AcmeServer.dfy performs these
    steps in place and is proved against the functions here. */
module AcmeModel {
  import opened Wrappers
  import opened Names
  import opened DnsDispatch

  // ---- rows (acme-server/src/server/repos.ts) ----

  type Id = nat

  datatype OrderStatus = Pending | Ready | Processing | Valid | Invalid | Expired
  datatype AuthzStatus = AuthzPending | AuthzValid | AuthzInvalid | AuthzExpired | AuthzRevoked
  datatype ChallengeStatus = ChPending | ChProcessing | ChValid | ChInvalid
  datatype ChallengeKind = Dns01 | Http01

  datatype Identifier = Identifier(kind: string, value: string)
  datatype Csr = Csr(commonName: Option<string>, sans: seq<string>)

  datatype Order = Order(account: Id, status: OrderStatus, identifiers: seq<Identifier>, expires: int,
                         managed: bool, cert: Option<Id>, csr: Option<Csr>)
  datatype Authz = Authz(order: Id, value: string, wildcard: bool, status: AuthzStatus, expires: int)
  datatype Challenge = Challenge(authz: Id, kind: ChallengeKind, token: string, status: ChallengeStatus,
                                 attempts: nat, nextCheck: Option<int>)
  /** `commonName` is the subject, `sans` the subject alternative names. */
  datatype Cert = Cert(order: Id, account: Id, commonName: string, sans: set<string>)
  datatype Placement = Placement(challenge: Id, name: string, value: string, cleaned: bool)

  /** The tables; `accounts` maps an account to its key thumbprint. */
  datatype Db = Db(accounts: map<Id, string>, orders: map<Id, Order>, authzs: map<Id, Authz>,
                   challenges: map<Id, Challenge>, certs: map<Id, Cert>, placements: map<Id, Placement>,
                   nextId: Id)

  const EmptyDb := Db(map[], map[], map[], map[], map[], map[], 0)

  datatype Problem = Malformed | Unauthorized | UnsupportedIdentifier | RejectedIdentifier
                   | OrderNotReady | BadCsr | ServerInternal

  /** Server configuration. `txt` is base64url(SHA-256(...)) of a key authorization. */
  datatype Config = Config(rules: Option<seq<Rule>>, dns01: bool, http01: bool, allow: seq<string>,
                           ttl: int, txt: string -> string)

  const RETRY_DELAYS_MS: seq<int> := [3_000, 5_000, 10_000, 30_000, 60_000, 120_000]
  const MAX_ATTEMPTS: nat := 6

  // ---- single statements ----

  function SetOrderStatus(db: Db, id: Id, status: OrderStatus): Db {
    if id in db.orders then db.(orders := db.orders[id := db.orders[id].(status := status)]) else db
  }

  function AttachCert(db: Db, id: Id, cert: Id, csr: Csr): Db {
    if id in db.orders
    then db.(orders := db.orders[id := db.orders[id].(cert := Some(cert), csr := Some(csr), status := Valid)])
    else db
  }

  function InsertCert(db: Db, cert: Cert): Db {
    db.(certs := db.certs[db.nextId := cert], nextId := db.nextId + 1)
  }

  function SetAuthzStatus(db: Db, id: Id, status: AuthzStatus): Db {
    if id in db.authzs then db.(authzs := db.authzs[id := db.authzs[id].(status := status)]) else db
  }

  function SetChallengeResult(db: Db, id: Id, status: ChallengeStatus, next: Option<int>, attempts: nat): Db {
    if id in db.challenges
    then db.(challenges := db.challenges[id :=
               db.challenges[id].(status := status, nextCheck := next, attempts := attempts)])
    else db
  }

  function QueueChallenge(db: Db, id: Id, now: int): Db {
    if id in db.challenges && db.challenges[id].status == ChPending
    then db.(challenges := db.challenges[id :=
               db.challenges[id].(status := ChProcessing, nextCheck := Some(now))])
    else db
  }

  function InsertChallenge(db: Db, authz: Id, kind: ChallengeKind, token: string): Db {
    db.(challenges := db.challenges[db.nextId := Challenge(authz, kind, token, ChPending, 0, None)],
        nextId := db.nextId + 1)
  }

  function InsertAuthz(db: Db, order: Id, posted: string, expires: int): Db {
    db.(authzs := db.authzs[db.nextId :=
          Authz(order, StoredValue(posted), IsWildcard(posted), AuthzPending, expires)],
        nextId := db.nextId + 1)
  }

  function InsertOrder(db: Db, account: Id, identifiers: seq<Identifier>, managed: bool, expires: int): Db {
    db.(orders := db.orders[db.nextId := Order(account, Pending, identifiers, expires, managed, None, None)],
        nextId := db.nextId + 1)
  }

  function InsertPlacement(db: Db, p: Placement): Db {
    db.(placements := db.placements[db.nextId := p], nextId := db.nextId + 1)
  }

  function MarkPlacementCleaned(db: Db, id: Id): Db {
    if id in db.placements
    then db.(placements := db.placements[id := db.placements[id].(cleaned := true)])
    else db
  }

  predicate Open(db: Db, p: Id) {
    p in db.placements && !db.placements[p].cleaned
  }

  predicate ConcernsChallenge(db: Db, p: Id, challenge: Option<Id>)
    requires p in db.placements
  {
    challenge.None? || db.placements[p].challenge == challenge.value
  }

  /** Open placements below id `n`, oldest first, of one challenge or of all. */
  function OpenBelow(db: Db, challenge: Option<Id>, n: nat): (r: seq<Id>)
    ensures forall p: Id :: p in r <==> (p < n && Open(db, p) && ConcernsChallenge(db, p, challenge))
    ensures forall i, j :: 0 <= i < j < |r| ==> r[i] < r[j]
  {
    if n == 0 then []
    else
      var before := OpenBelow(db, challenge, n - 1);
      if Open(db, n - 1) && ConcernsChallenge(db, n - 1, challenge) then
        assert forall i :: 0 <= i < |before| ==> before[i] in before;
        before + [n - 1]
      else before
  }

  function OpenPlacements(db: Db): seq<Id> {
    OpenBelow(db, None, db.nextId)
  }

  function OpenPlacementsOf(db: Db, challenge: Id): seq<Id> {
    OpenBelow(db, Some(challenge), db.nextId)
  }

  // ---- expiry (acme-server/src/server/expireWorker.ts) ----

  function ExpireOrder(o: Order, now: int): Order {
    if o.status in {Pending, Ready, Processing} && o.expires < now then o.(status := Expired) else o
  }

  function ExpireAuthz(a: Authz, now: int): Authz {
    if a.status == AuthzPending && a.expires < now then a.(status := AuthzExpired) else a
  }

  function Expire(db: Db, now: int): Db {
    db.(orders := map id | id in db.orders :: ExpireOrder(db.orders[id], now),
        authzs := map id | id in db.authzs :: ExpireAuthz(db.authzs[id], now))
  }

  // ---- handlers (acme-server/src/server/routes.ts) ----

  predicate PassesPattern(name: string, pattern: string) {
    || pattern == name
    || (IsWildcard(pattern) && (name == pattern[2..] || EndsWith(name, "." + pattern[2..])))
  }

  predicate PassesAllowList(cfg: Config, name: string) {
    cfg.allow == [] || exists p :: p in cfg.allow && PassesPattern(Lower(name), Lower(p))
  }

  function NewOrderProblem(cfg: Config, db: Db, account: Id, ids: seq<Identifier>, managed: bool): Option<Problem> {
    if account !in db.accounts then Some(Unauthorized)
    else if ids == [] then Some(Malformed)
    else if IdentifierProblem(cfg, ids).Some? then IdentifierProblem(cfg, ids)
    else if managed && (cfg.rules.None? || !cfg.dns01) then Some(RejectedIdentifier)
    else if managed && exists i :: i in ids && Pick(i.value, cfg.rules.value).None? then Some(RejectedIdentifier)
    else None
  }

  /** The first offending identifier decides the answer. */
  function IdentifierProblem(cfg: Config, ids: seq<Identifier>): Option<Problem> {
    if ids == [] then None
    else if ids[0].kind != "dns" then Some(UnsupportedIdentifier)
    else if !PassesAllowList(cfg, ids[0].value) then Some(RejectedIdentifier)
    else IdentifierProblem(cfg, ids[1..])
  }

  /** One round of newOrder's insertion loop. Tokens are the two random draws. */
  function InsertIdentifier(cfg: Config, db: Db, order: Id, posted: string, managed: bool,
                            dnsToken: string, httpToken: string, now: int): Db {
    var authz := db.nextId;
    var db1 := InsertAuthz(db, order, posted, now + cfg.ttl);
    var db2 := if !cfg.dns01 then db1
               else
                 var d := InsertChallenge(db1, authz, Dns01, dnsToken);
                 if managed then QueueChallenge(d, db1.nextId, now) else d;
    if !managed && cfg.http01 && !IsWildcard(posted) then InsertChallenge(db2, authz, Http01, httpToken) else db2
  }

  /** The first `n` rounds of that loop. */
  function InsertIdentifiers(cfg: Config, db: Db, order: Id, ids: seq<Identifier>, managed: bool,
                             tokens: seq<string>, now: int, n: nat): Db
    requires n <= |ids| && |tokens| == 2 * |ids|
  {
    if n == 0 then db
    else
      InsertIdentifier(cfg, InsertIdentifiers(cfg, db, order, ids, managed, tokens, now, n - 1), order,
                       ids[n - 1].value, managed, tokens[2 * n - 2], tokens[2 * n - 1], now)
  }

  function NewOrder(cfg: Config, db: Db, account: Id, ids: seq<Identifier>, managed: bool,
                    tokens: seq<string>, now: int): Db
    requires |tokens| == 2 * |ids|
  {
    var db1 := InsertOrder(db, account, ids, managed, now + cfg.ttl);
    InsertIdentifiers(cfg, db1, db.nextId, ids, managed, tokens, now, |ids|)
  }

  function ChallProblem(db: Db, account: Id, id: Id): Option<Problem> {
    if id !in db.challenges then Some(Malformed)
    else
      var a := db.challenges[id].authz;
      if a in db.authzs && db.authzs[a].order in db.orders && db.orders[db.authzs[a].order].account == account
      then None
      else Some(Unauthorized)
  }

  function ExpectedSans(ids: seq<Identifier>): set<string> {
    set i | i in ids && i.kind == "dns" :: Lower(i.value)
  }

  predicate HasCommonName(csr: Csr) {
    csr.commonName.Some? && csr.commonName.value != ""
  }

  function NamesOfCsr(csr: Csr): seq<string> {
    if csr.sans != [] then csr.sans
    else if HasCommonName(csr) then [csr.commonName.value]
    else []
  }

  /** [...want][0]: a Set lists its elements in the order they were added. */
  function FirstExpected(ids: seq<Identifier>): Option<string> {
    if ids == [] then None
    else
      var before, last := FirstExpected(ids[..|ids| - 1]), ids[|ids| - 1];
      if before.Some? then before else if last.kind == "dns" then Some(Lower(last.value)) else None
  }

  /** The subject that issueLeaf signs: the CSR's own common name, whatever it is, else the
      first expected name. */
  function SubjectOf(csr: Csr, first: Option<string>): string {
    if HasCommonName(csr) then csr.commonName.value else if first.Some? then first.value else ""
  }

  function LowerAll(names: seq<string>): set<string> {
    set n | n in names :: Lower(n)
  }

  function FinalizeProblem(db: Db, account: Id, order: Id, csr: Option<Csr>): Option<Problem> {
    if order !in db.orders then Some(Malformed)
    else if db.orders[order].account != account then Some(Unauthorized)
    else if db.orders[order].status != Ready then Some(OrderNotReady)
    else if csr.None? then Some(BadCsr)
    else if ExpectedSans(db.orders[order].identifiers) != LowerAll(NamesOfCsr(csr.value)) then Some(BadCsr)
    else None
  }

  /** finalize once its checks have passed; `signed` says whether issueLeaf returned. */
  function Finalize(db: Db, order: Id, csr: Csr, signed: bool): Db
    requires order in db.orders
  {
    var db1 := SetOrderStatus(db, order, Processing);
    if !signed then SetOrderStatus(db1, order, Invalid)
    else
      var o := db.orders[order];
      var subject := SubjectOf(csr, FirstExpected(o.identifiers));
      AttachCert(InsertCert(db1, Cert(order, o.account, subject, ExpectedSans(o.identifiers))), order, db.nextId, csr)
  }

  // ---- challenge worker (acme-server/src/server/worker.ts) ----

  /** A TXT record and the provider that publishes it. */
  datatype Record = Record(provider: nat, name: string, value: string)

  /** The locals of a suspended runOne: the rows it read before its first await. */
  datatype Job = Job(challenge: Id, row: Challenge, authz: Authz, managed: bool)

  datatype WorkerPc =
    | Idle
    | Placing(job: Job, record: Record)                              // awaiting prov.place
    | Validating(job: Job)                                           // awaiting validateDns01 / validateHttp01
    | Cleaning(job: Job, current: Id, rest: seq<Id>, promote: bool)  // awaiting prov.cleanup
    | Cleaned(job: Job, promote: bool)                               // awaiting cleanupPlacementsFor's return

  datatype SweepPc = SweepDone | Sweeping(current: Id, rest: seq<Id>)

  /** Bookkeeping that the program does not keep: completed validations per challenge,
      challenges whose record is published though no open row stands for it, and placements
      whose cleanup was called but whose row is not marked yet. */
  datatype History = History(validations: map<Id, nat>, orphans: set<Id>, withdrawn: set<Id>)

  datatype State = State(db: Db, zone: set<Record>, worker: WorkerPc, sweep: SweepPc, history: History)

  const Initial := State(EmptyDb, {}, Idle, SweepDone, History(map[], {}, {}))

  function Validations(h: History, c: Id): nat {
    if c in h.validations then h.validations[c] else 0
  }

  function KeyAuthorization(token: string, thumbprint: string): string {
    token + "." + thumbprint
  }

  function MarkInvalid(db: Db, job: Job): Db {
    SetOrderStatus(
      SetAuthzStatus(
        SetChallengeResult(db, job.challenge, ChInvalid, None, MAX_ATTEMPTS), job.row.authz, AuthzInvalid),
      job.authz.order, Invalid)
  }

  predicate AllAuthzValid(db: Db, order: Id) {
    forall a :: a in db.authzs && db.authzs[a].order == order ==> db.authzs[a].status == AuthzValid
  }

  function MaybePromote(db: Db, order: Id): Db {
    if AllAuthzValid(db, order) && order in db.orders && db.orders[order].status == Pending
    then SetOrderStatus(db, order, Ready)
    else db
  }

  /** The provider a placement's record is cleaned up with. */
  function CleanupRule(cfg: Config, db: Db, p: Id): Option<nat> {
    if p in db.placements && cfg.rules.Some?
    then Pick(StripAcmePrefix(db.placements[p].name), cfg.rules.value)
    else None
  }

  /** The first listed placement that has a provider, as an index into `todo`. */
  function NextToClean(cfg: Config, db: Db, todo: seq<Id>): (k: nat)
    ensures k <= |todo|
    ensures k < |todo| ==> CleanupRule(cfg, db, todo[k]).Some?
    ensures forall j :: 0 <= j < k ==> CleanupRule(cfg, db, todo[j]).None?
  {
    if todo == [] then 0
    else if CleanupRule(cfg, db, todo[0]).Some? then 0
    else 1 + NextToClean(cfg, db, todo[1..])
  }

  function RecordOf(cfg: Config, db: Db, p: Id): Record
    requires CleanupRule(cfg, db, p).Some?
  {
    Record(Home(cfg.rules.value, CleanupRule(cfg, db, p).value), db.placements[p].name, db.placements[p].value)
  }

  /** The record the worker publishes for challenge `c`, if it publishes one. */
  function RecordFor(cfg: Config, db: Db, c: Id): Option<Record> {
    if Attached(db, c) && Managed(cfg, db, c) && Pick(AuthzOf(db, c).value, cfg.rules.value).Some?
    then Some(Record(Home(cfg.rules.value, Pick(AuthzOf(db, c).value, cfg.rules.value).value),
                     BuildChallengeName(AuthzOf(db, c).value, AuthzOf(db, c).wildcard),
                     ChallengeValue(cfg, db, c)))
    else None
  }

  /** Cleanup of placement `p` is sent to the provider that holds its record. */
  predicate Directed(cfg: Config, db: Db, p: Id) {
    p in db.placements && CleanupRule(cfg, db, p).Some? && RecordFor(cfg, db, db.placements[p].challenge) == Some(RecordOf(cfg, db, p))
  }

  /** The right provider takes the record away; asked of another one it stays, and from then
      on the row does not stand for it. */
  function OrphansAfter(cfg: Config, s: State, p: Id): set<Id>
    requires p in s.db.placements
  {
    var c := s.db.placements[p].challenge;
    if Directed(cfg, s.db, p) then s.history.orphans - {c}
    else if Open(s.db, p) && p !in s.history.withdrawn then s.history.orphans + {c}
    else s.history.orphans
  }

  /** Ask the provider to withdraw placement `p`'s record. */
  function Withdraw(cfg: Config, s: State, p: Id): State
    requires CleanupRule(cfg, s.db, p).Some?
  {
    s.(zone := s.zone - {RecordOf(cfg, s.db, p)},
       history := s.history.(withdrawn := s.history.withdrawn + {p},
                             orphans := OrphansAfter(cfg, s, p)))
  }

  function MarkCleaned(s: State, p: Id): State {
    s.(db := MarkPlacementCleaned(s.db, p), history := s.history.(withdrawn := s.history.withdrawn - {p}))
  }

  /** prov.cleanup has returned, or thrown and perhaps left the record behind: the row is
      marked in any case. */
  function CleanupReturned(cfg: Config, s: State, p: Id, left: bool): State {
    var m := MarkCleaned(s, p);
    if left && Directed(cfg, s.db, p)
    then m.(zone := m.zone + {RecordOf(cfg, s.db, p)},
            history := m.history.(orphans := m.history.orphans + {s.db.placements[p].challenge}))
    else m
  }

  /** cleanupPlacementsFor from its loop head on. */
  function CleanNext(cfg: Config, s: State, job: Job, todo: seq<Id>, promote: bool): State {
    var k := NextToClean(cfg, s.db, todo);
    if k == |todo| then s.(worker := Cleaned(job, promote))
    else Withdraw(cfg, s, todo[k]).(worker := Cleaning(job, todo[k], todo[k + 1..], promote))
  }

  /** sweepStalePlacementsOnStartup from its loop head on. */
  function SweepNext(cfg: Config, s: State, todo: seq<Id>): State {
    var k := NextToClean(cfg, s.db, todo);
    if k == |todo| then s.(sweep := SweepDone)
    else Withdraw(cfg, s, todo[k]).(sweep := Sweeping(todo[k], todo[k + 1..]))
  }

  /** The rows runOne looks up after the challenge itself; it returns early without them. */
  predicate Attached(db: Db, id: Id) {
    && id in db.challenges
    && db.challenges[id].authz in db.authzs
    && db.authzs[db.challenges[id].authz].order in db.orders
    && db.orders[db.authzs[db.challenges[id].authz].order].account in db.accounts
  }

  predicate Runnable(db: Db, id: Id) {
    Attached(db, id) && db.challenges[id].status == ChProcessing
  }

  function AuthzOf(db: Db, id: Id): Authz
    requires Attached(db, id)
  {
    db.authzs[db.challenges[id].authz]
  }

  function OrderOf(db: Db, id: Id): Order
    requires Attached(db, id)
  {
    db.orders[AuthzOf(db, id).order]
  }

  /** dns01TxtValue of the challenge's token and its account's thumbprint. */
  function ChallengeValue(cfg: Config, db: Db, id: Id): string
    requires Attached(db, id)
  {
    cfg.txt(KeyAuthorization(db.challenges[id].token, db.accounts[OrderOf(db, id).account]))
  }

  /** Server-managed: the worker publishes this challenge's TXT record itself. */
  predicate Managed(cfg: Config, db: Db, id: Id)
    requires Attached(db, id)
  {
    OrderOf(db, id).managed && db.challenges[id].kind == Dns01 && cfg.rules.Some?
  }

  function JobFor(cfg: Config, db: Db, id: Id): Job
    requires Attached(db, id)
  {
    Job(id, db.challenges[id], AuthzOf(db, id), Managed(cfg, db, id))
  }

  /** runOne up to its first await. */
  function RunOne(cfg: Config, s: State, id: Id): State {
    if s.worker != Idle || !Runnable(s.db, id) then s
    else
      var job := JobFor(cfg, s.db, id);
      if job.managed && OpenPlacementsOf(s.db, id) == [] then
        var rule := Pick(job.authz.value, cfg.rules.value);
        if rule.None? then s.(db := MarkInvalid(s.db, job))
        else
          var record := Record(Home(cfg.rules.value, rule.value), BuildChallengeName(job.authz.value, job.authz.wildcard),
                               ChallengeValue(cfg, s.db, id));
          s.(zone := s.zone + {record}, worker := Placing(job, record))
      else s.(worker := Validating(job))
  }

  /** prov.place did not return: its record is published or not. One that an earlier place
      of this challenge had published stays. */
  function CutOff(s: State, published: bool): State
    requires s.worker.Placing?
  {
    var c := s.worker.job.challenge;
    if published || c in s.history.orphans
    then s.(history := s.history.(orphans := s.history.orphans + {c}))
    else s.(zone := s.zone - {s.worker.record})
  }

  /** runOne after prov.place has returned, or thrown and perhaps published its record. */
  function AfterPlace(s: State, ok: bool, published: bool): State {
    if !s.worker.Placing? then s
    else
      var job, record := s.worker.job, s.worker.record;
      if ok
      then s.(db := InsertPlacement(s.db, Placement(job.challenge, record.name, record.value, false)),
              worker := Validating(job),
              history := s.history.(orphans := s.history.orphans - {job.challenge}))
      else CutOff(s, published).(db := MarkInvalid(s.db, job), worker := Idle)
  }

  /** The rows after a successful validation. */
  function Validated(db: Db, job: Job): Db {
    SetAuthzStatus(SetChallengeResult(db, job.challenge, ChValid, None, job.row.attempts + 1), job.row.authz, AuthzValid)
  }

  /** One more validation of challenge `c` is complete and `db` holds its outcome. */
  function Verdict(s: State, db: Db, c: Id): State {
    s.(db := db, worker := Idle,
       history := s.history.(validations := s.history.validations[c := Validations(s.history, c) + 1]))
  }

  function Succeed(cfg: Config, s: State, job: Job): State {
    var v := Verdict(s, Validated(s.db, job), job.challenge);
    if job.managed then CleanNext(cfg, v, job, OpenPlacementsOf(v.db, job.challenge), true)
    else v.(db := MaybePromote(v.db, job.authz.order))
  }

  function Fail(cfg: Config, s: State, job: Job): State {
    var v := Verdict(s, MarkInvalid(s.db, job), job.challenge);
    if job.managed then CleanNext(cfg, v, job, OpenPlacementsOf(v.db, job.challenge), false) else v
  }

  function Retry(s: State, job: Job, now: int): State
    requires job.row.attempts < |RETRY_DELAYS_MS|
  {
    Verdict(s, SetChallengeResult(s.db, job.challenge, ChProcessing,
                                  Some(now + RETRY_DELAYS_MS[job.row.attempts]), job.row.attempts + 1), job.challenge)
  }

  /** runOne after the validator has answered. */
  function AfterValidate(cfg: Config, s: State, ok: bool, now: int): State {
    if !s.worker.Validating? then s
    else if ok then Succeed(cfg, s, s.worker.job)
    else if s.worker.job.row.attempts + 1 >= MAX_ATTEMPTS then Fail(cfg, s, s.worker.job)
    else Retry(s, s.worker.job, now)
  }

  /** cleanupPlacementsFor after prov.cleanup has returned or thrown. */
  function AfterCleanup(cfg: Config, s: State, left: bool): State {
    if !s.worker.Cleaning? then s
    else CleanNext(cfg, CleanupReturned(cfg, s, s.worker.current, left), s.worker.job, s.worker.rest, s.worker.promote)
  }

  /** runOne after cleanupPlacementsFor has returned. */
  function AfterCleaned(s: State): State {
    if !s.worker.Cleaned? then s
    else s.(db := if s.worker.promote then MaybePromote(s.db, s.worker.job.authz.order) else s.db, worker := Idle)
  }

  /** sweepStalePlacementsOnStartup after prov.cleanup has returned or thrown. */
  function SweepStep(cfg: Config, s: State, left: bool): State {
    if !s.sweep.Sweeping? then s
    else SweepNext(cfg, CleanupReturned(cfg, s, s.sweep.current, left), s.sweep.rest)
  }

  /** The process dies at a suspension point and starts again; the rows and the zone stay,
      and a call of place that was cut off has published its record or not. */
  function Restarted(s: State, published: bool): State {
    (if s.worker.Placing? then CutOff(s, published) else s).(worker := Idle, sweep := SweepDone)
  }

  function Restart(cfg: Config, s: State, published: bool): State {
    var s1 := Restarted(s, published);
    if cfg.rules.None? then s1 else SweepNext(cfg, s1, OpenPlacements(s.db))
  }

  // ---- runs ----

  datatype Action =
    | DoNewAccount(thumbprint: string)
    | DoNewOrder(account: Id, ids: seq<Identifier>, managed: bool, tokens: seq<string>, now: int)
    | DoChall(account: Id, challenge: Id, now: int)
    | DoFinalize(account: Id, order: Id, csr: Option<Csr>, signed: bool)
    | DoExpire(now: int)
    | DoRunOne(challenge: Id)
    | DoAfterPlace(ok: bool, published: bool)   // published: the zone after a place that threw
    | DoAfterValidate(ok: bool, now: int)
    | DoAfterCleanup(left: bool)                // left: the record is still there after a throw
    | DoAfterCleaned
    | DoSweepStep(left: bool)
    | DoRestart(published: bool)

  /** Random tokens: distinct from each other and from every stored one, and base64url
      text, so without a dot. */
  predicate FreshTokens(db: Db, tokens: seq<string>) {
    && (forall i, j :: 0 <= i < j < |tokens| ==> tokens[i] != tokens[j])
    && (forall i, c :: 0 <= i < |tokens| && c in db.challenges ==> tokens[i] != db.challenges[c].token)
    && (forall i :: 0 <= i < |tokens| ==> '.' !in tokens[i])
  }

  function AddAccount(db: Db, thumbprint: string): Db {
    db.(accounts := db.accounts[db.nextId := thumbprint], nextId := db.nextId + 1)
  }

  /** One atomic step; a step whose actor is not there leaves the state alone. */
  function Step(cfg: Config, s: State, a: Action): State {
    match a
    case DoNewAccount(thumbprint) =>
      s.(db := AddAccount(s.db, thumbprint))
    case DoNewOrder(account, ids, managed, tokens, now) =>
      if |tokens| != 2 * |ids| || !FreshTokens(s.db, tokens) ||
         NewOrderProblem(cfg, s.db, account, ids, managed).Some? then s
      else s.(db := NewOrder(cfg, s.db, account, ids, managed, tokens, now))
    case DoChall(account, challenge, now) =>
      if ChallProblem(s.db, account, challenge).Some? then s
      else s.(db := QueueChallenge(s.db, challenge, now))
    case DoFinalize(account, order, csr, signed) =>
      if FinalizeProblem(s.db, account, order, csr).Some? then s
      else s.(db := Finalize(s.db, order, csr.value, signed))
    case DoExpire(now) => s.(db := Expire(s.db, now))
    case DoRunOne(challenge) => RunOne(cfg, s, challenge)
    case DoAfterPlace(ok, published) => AfterPlace(s, ok, published)
    case DoAfterValidate(ok, now) => AfterValidate(cfg, s, ok, now)
    case DoAfterCleanup(left) => AfterCleanup(cfg, s, left)
    case DoAfterCleaned => AfterCleaned(s)
    case DoSweepStep(left) => SweepStep(cfg, s, left)
    case DoRestart(published) => Restart(cfg, s, published)
  }

  /** The state after a run of steps, in any order the actors may take them. */
  function Run(cfg: Config, s: State, actions: seq<Action>): State {
    if actions == [] then s
    else Step(cfg, Run(cfg, s, actions[..|actions| - 1]), actions[|actions| - 1])
  }

  lemma {:induction false} RunNext(cfg: Config, actions: seq<Action>, k: nat)
    requires k < |actions|
    ensures Run(cfg, Initial, actions[..k + 1]) == Step(cfg, Run(cfg, Initial, actions[..k]), actions[k])
  {
    assert actions[..k + 1][..k] == actions[..k];
  }
}
