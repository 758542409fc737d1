/** Rotating the signing CA: acme-server/src/server/caStore.ts. Times are milliseconds. */
module CaRotation {
  import opened Wrappers

  // ---- the material that is replaced ----

  datatype Material = Material(certPem: string, keyPem: string, chainPem: string, rootCertPem: string,
                               chainDepth: nat, notAfter: int, serial: string, commonName: string)

  datatype CertFacts = CertFacts(notAfter: int, serial: string, subject: string)

  /** The crypto library: any functions of these types. */
  datatype Crypto = Crypto(parsesKey: string -> bool,               // createPrivateKey does not throw
                           keyAlg: string -> Option<string>,        // keyAlgLabel; None for an unsupported type
                           readCert: string -> Option<CertFacts>,   // None when X509Certificate throws
                           pairs: (string, string) -> bool,         // a nonce signed with the key verifies with the cert
                           fingerprint: string -> string,
                           blocks: string -> seq<string>,           // certificate blocks of a PEM text
                           markers: string -> nat)                  // BEGIN CERTIFICATE markers of a PEM text

  datatype StagedCa = StagedCa(material: Material, stagedAt: int, fingerprint: string, keyAlgorithm: string)

  datatype Snapshot = Snapshot(material: Material, fingerprint: string, keyAlgorithm: string, promotedAt: int)

  datatype StageInput = StageInput(certPem: string, keyPem: string, chainPem: string)

  datatype Failure =
    | BadKey
    | BadCert
    | UnsupportedKey
    | KeyCertMismatch
    | RootMismatch
    | SameAsActive
    | ExpiresTooSoon
    | NoStaged
    | ActiveKeyUnusable
    | NoPrevious
    | WindowElapsed

  // ---- PEM helpers ----

  predicate IsSpace(c: char) {
    c in " \t\n\r\U{b}\U{c}"
  }

  /** normalizePem: the text without white space. */
  function NormalizePem(pem: string): (r: string)
    ensures forall c :: c in r ==> !IsSpace(c)
  {
    if pem == "" then "" else (if IsSpace(pem[0]) then "" else [pem[0]]) + NormalizePem(pem[1..])
  }

  function LastInChain(x: Crypto, chainPem: string): Option<string> {
    if chainPem == "" || x.blocks(chainPem) == [] then None
    else Some(x.blocks(chainPem)[|x.blocks(chainPem)| - 1])
  }

  function CountChainCerts(x: Crypto, chainPem: string): nat {
    if chainPem == "" then 0 else x.markers(chainPem)
  }

  function RootOf(x: Crypto, input: StageInput): string {
    var last := LastInChain(x, input.chainPem);
    if last.Some? then last.value else input.certPem
  }

  const THIRTY_DAYS := 30 * 86400000

  // ---- the rotation as a state machine ----

  datatype State = State(active: Material, staged: Option<StagedCa>, previous: Option<Snapshot>)

  /** The first check that fails, in the order they are made. */
  function StageFailure(x: Crypto, active: Material, input: StageInput, now: int): Option<Failure> {
    if !x.parsesKey(input.keyPem) then Some(BadKey)
    else if x.readCert(input.certPem).None? then Some(BadCert)
    else if x.keyAlg(input.keyPem).None? then Some(UnsupportedKey)
    else if !x.pairs(input.keyPem, input.certPem) then Some(KeyCertMismatch)
    else if NormalizePem(RootOf(x, input)) != NormalizePem(active.rootCertPem) then Some(RootMismatch)
    else if x.fingerprint(input.certPem) == x.fingerprint(active.certPem) then Some(SameAsActive)
    else if x.readCert(input.certPem).value.notAfter - now < THIRTY_DAYS then Some(ExpiresTooSoon)
    else None
  }

  function Candidate(x: Crypto, input: StageInput, now: int): StagedCa
    requires x.readCert(input.certPem).Some? && x.keyAlg(input.keyPem).Some?
  {
    var facts := x.readCert(input.certPem).value;
    StagedCa(Material(input.certPem, input.keyPem, input.chainPem, RootOf(x, input), CountChainCerts(x, input.chainPem) + 1,
                      facts.notAfter, facts.serial, facts.subject),
             now, x.fingerprint(input.certPem), x.keyAlg(input.keyPem).value)
  }

  predicate UsableKey(x: Crypto, keyPem: string) {
    x.parsesKey(keyPem) && x.keyAlg(keyPem).Some?
  }

  predicate CanRollBack(previous: Option<Snapshot>, window: int, now: int) {
    previous.Some? && now - previous.value.promotedAt < window
  }

  datatype Event = Stage(input: StageInput) | Discard | Promote | Rollback

  /** The state after an event at time `now`, and why it failed if it did. */
  function Step(x: Crypto, window: int, s: State, e: Event, now: int): (State, Option<Failure>) {
    match e
    case Stage(input) =>
      var failure := StageFailure(x, s.active, input, now);
      if failure.Some? then (s, failure) else (s.(staged := Some(Candidate(x, input, now))), None)
    case Discard => (s.(staged := None), None)
    case Promote =>
      if s.staged.None? then (s, Some(NoStaged))
      else if !UsableKey(x, s.active.keyPem) then (s, Some(ActiveKeyUnusable))
      else
        var snapshot := Snapshot(s.active, x.fingerprint(s.active.certPem), x.keyAlg(s.active.keyPem).value, now);
        (State(s.staged.value.material, None, Some(snapshot)), None)
    case Rollback =>
      if s.previous.None? then (s, Some(NoPrevious))
      else if !CanRollBack(s.previous, window, now) then (s.(previous := None), Some(WindowElapsed))
      else (State(s.previous.value.material, s.staged, None), None)
  }

  // ---- the objects ----

  /** The server's CA object. Everyone who signs holds a reference to it. */
  class CaMaterial {
    const name: string
    var certPem: string
    var keyPem: string
    var chainPem: string
    var rootCertPem: string
    var chainDepth: nat
    var notAfter: int
    var serial: string
    var commonName: string

    constructor (name: string, m: Material)
      ensures this.name == name && Fields() == m
    {
      this.name := name;
      certPem, keyPem, chainPem, rootCertPem := m.certPem, m.keyPem, m.chainPem, m.rootCertPem;
      chainDepth, notAfter, serial, commonName := m.chainDepth, m.notAfter, m.serial, m.commonName;
    }

    function Fields(): (m: Material)
      reads this
      ensures m.certPem == certPem && m.keyPem == keyPem && m.chainPem == chainPem && m.rootCertPem == rootCertPem
      ensures m.chainDepth == chainDepth && m.notAfter == notAfter && m.serial == serial && m.commonName == commonName
    {
      Material(certPem, keyPem, chainPem, rootCertPem, chainDepth, notAfter, serial, commonName)
    }

    /** Object.assign on the shared object. */
    method Assign(m: Material)
      modifies this
      ensures Fields() == m
    {
      certPem, keyPem, chainPem, rootCertPem := m.certPem, m.keyPem, m.chainPem, m.rootCertPem;
      chainDepth, notAfter, serial, commonName := m.chainDepth, m.notAfter, m.serial, m.commonName;
    }
  }

  /** `active` is never exchanged for another object: every holder of it sees each change
      when it is made. */
  class CaStore {
    const x: Crypto
    const active: CaMaterial
    const window: int
    var staged: Option<StagedCa>
    var previous: Option<Snapshot>

    constructor (x: Crypto, active: CaMaterial, rollbackWindowHours: Option<int>)
      ensures this.active == active && this.x == x
      ensures window == 3600000 * (if rollbackWindowHours.Some? then rollbackWindowHours.value else 24)
      ensures Model() == State(active.Fields(), None, None)
    {
      this.x, this.active := x, active;
      window := (if rollbackWindowHours.Some? then rollbackWindowHours.value else 24) * 3600000;
      staged, previous := None, None;
    }

    function Model(): State
      reads this, active
    {
      State(active.Fields(), staged, previous)
    }

    /** True exactly when a rollback at this time would succeed. */
    predicate HasRollback(now: int)
      reads this, active
      ensures HasRollback(now) <==> Step(x, window, Model(), Rollback, now).1.None?
    {
      previous.Some? && now - previous.value.promotedAt < window
    }

    method StageCa(input: StageInput, now: int) returns (failure: Option<Failure>)
      modifies this
      ensures (Model(), failure) == Step(x, window, old(Model()), Stage(input), now)
    {
      if !x.parsesKey(input.keyPem) { return Some(BadKey); }
      var cert := x.readCert(input.certPem);
      if cert.None? { return Some(BadCert); }
      var alg := x.keyAlg(input.keyPem);
      if alg.None? { return Some(UnsupportedKey); }
      if !x.pairs(input.keyPem, input.certPem) { return Some(KeyCertMismatch); }
      var incomingRoot := RootOf(x, input);
      if NormalizePem(incomingRoot) != NormalizePem(active.rootCertPem) { return Some(RootMismatch); }
      var incomingFp := x.fingerprint(input.certPem);
      if incomingFp == x.fingerprint(active.certPem) { return Some(SameAsActive); }
      if cert.value.notAfter - now < THIRTY_DAYS { return Some(ExpiresTooSoon); }
      var chainDepth := CountChainCerts(x, input.chainPem) + 1;
      staged := Some(StagedCa(Material(input.certPem, input.keyPem, input.chainPem, incomingRoot, chainDepth,
                                       cert.value.notAfter, cert.value.serial, cert.value.subject),
                              now, incomingFp, alg.value));
      failure := None;
    }

    method DiscardStaged()
      modifies this
      ensures forall now :: Model() == Step(x, window, old(Model()), Discard, now).0
    {
      staged := None;
    }

    method PromoteCa(now: int) returns (failure: Option<Failure>)
      modifies this, active
      ensures (Model(), failure) == Step(x, window, old(Model()), Promote, now)
    {
      if staged.None? { return Some(NoStaged); }
      if !UsableKey(x, active.keyPem) { return Some(ActiveKeyUnusable); }
      previous := Some(Snapshot(active.Fields(), x.fingerprint(active.certPem), x.keyAlg(active.keyPem).value, now));
      active.Assign(staged.value.material);
      staged := None;
      failure := None;
    }

    method RollbackCa(now: int) returns (failure: Option<Failure>)
      modifies this, active
      ensures (Model(), failure) == Step(x, window, old(Model()), Rollback, now)
    {
      if previous.None? { return Some(NoPrevious); }
      if !HasRollback(now) {
        previous := None;
        return Some(WindowElapsed);
      }
      active.Assign(previous.value.material);
      previous := None;
      failure := None;
    }
  }

  // ---- runs ----

  datatype Timed = Timed(event: Event, now: int)

  function Run(x: Crypto, window: int, s: State, run: seq<Timed>): State {
    if run == [] then s
    else
      var last := run[|run| - 1];
      Step(x, window, Run(x, window, s, run[..|run| - 1]), last.event, last.now).0
  }

  /** How often an event of this kind succeeded. */
  function Successes(x: Crypto, window: int, s: State, run: seq<Timed>, e: Event): nat {
    if run == [] then 0
    else
      var init, last := run[..|run| - 1], run[|run| - 1];
      var ok := last.event == e && Step(x, window, Run(x, window, s, init), e, last.now).1.None?;
      Successes(x, window, s, init, e) + if ok then 1 else 0
  }

  predicate HasRoot(m: Material, root: string) {
    NormalizePem(m.rootCertPem) == NormalizePem(root)
  }

  predicate Paired(x: Crypto, m: Material) {
    x.pairs(m.keyPem, m.certPem)
  }

  /** Everything active, staged or kept for rollback has the same root and matching halves. */
  predicate Sound(x: Crypto, s: State, root: string) {
    && HasRoot(s.active, root) && Paired(x, s.active)
    && (s.staged.Some? ==> HasRoot(s.staged.value.material, root) && Paired(x, s.staged.value.material))
    && (s.previous.Some? ==> HasRoot(s.previous.value.material, root) && Paired(x, s.previous.value.material))
  }

  lemma {:induction false} RunKeepsSound(x: Crypto, window: int, s: State, run: seq<Timed>, root: string)
    requires Sound(x, s, root)
    ensures Sound(x, Run(x, window, s, run), root)
  {
    hide NormalizePem;
    if run != [] { RunKeepsSound(x, window, s, run[..|run| - 1], root); }
  }

  /** From a fresh store, whatever is staged, discarded, promoted or rolled back at whatever
      times: the active root is the initial one up to white space, and the active key pairs
      with the active certificate. */
  lemma {:induction false} RootAndPairKept(x: Crypto, window: int, active: Material, run: seq<Timed>)
    requires Paired(x, active)
    ensures var s := Run(x, window, State(active, None, None), run);
            HasRoot(s.active, active.rootCertPem) && Paired(x, s.active)
  {
    RunKeepsSound(x, window, State(active, None, None), run, active.rootCertPem);
  }

  /** Neither a promotion nor a rollback. */
  predicate Quiet(run: seq<Timed>) {
    forall i :: 0 <= i < |run| ==> !run[i].event.Promote? && !run[i].event.Rollback?
  }

  lemma {:induction false} QuietRun(x: Crypto, window: int, s: State, run: seq<Timed>)
    requires Quiet(run)
    ensures var n := Run(x, window, s, run); n.active == s.active && n.previous == s.previous
  {
    if run != [] {
      assert Quiet(run[..|run| - 1]);
      QuietRun(x, window, s, run[..|run| - 1]);
    }
  }

  /** A promotion, any staging activity, then a rollback: it succeeds exactly inside the
      window, and then every replaced field is what it was before the promotion. Outside
      the window the promoted material stays and the way back is gone. */
  lemma {:induction false} RollbackUndoesPromote(x: Crypto, window: int, s: State, at: int, mid: seq<Timed>, later: int)
    requires Step(x, window, s, Promote, at).1.None? && Quiet(mid)
    ensures var promoted := Step(x, window, s, Promote, at).0;
            var r := Step(x, window, Run(x, window, promoted, mid), Rollback, later);
            && promoted.active == s.staged.value.material
            && (r.1.None? <==> later - at < window)
            && r.0.active == (if later - at < window then s.active else promoted.active)
            && r.0.previous.None? && r.0.staged == Run(x, window, promoted, mid).staged
  {
    QuietRun(x, window, Step(x, window, s, Promote, at).0, mid);
  }

  /** Every successful rollback needs a successful promotion of its own. */
  lemma {:induction false} RollbacksNeedPromotes(x: Crypto, window: int, s: State, run: seq<Timed>)
    requires s.previous.None?
    ensures Successes(x, window, s, run, Rollback) + (if Run(x, window, s, run).previous.Some? then 1 else 0)
            <= Successes(x, window, s, run, Promote)
  {
    if run != [] { RollbacksNeedPromotes(x, window, s, run[..|run| - 1]); }
  }

  /** What waits to be promoted was checked when it was staged, and every key that can
      become active later can be used. */
  predicate Checked(x: Crypto, s: State) {
    && UsableKey(x, s.active.keyPem)
    && (s.previous.Some? ==> UsableKey(x, s.previous.value.material.keyPem))
    && (s.staged.Some? ==>
          var c := s.staged.value;
          && UsableKey(x, c.material.keyPem) && x.keyAlg(c.material.keyPem) == Some(c.keyAlgorithm)
          && c.fingerprint == x.fingerprint(c.material.certPem)
          && c.material.notAfter - c.stagedAt >= THIRTY_DAYS)
  }

  /** In every run from a usable active key: a candidate had at least thirty days left when
      it was staged, and a promotion succeeds exactly when something is staged. */
  lemma {:induction false} PromoteNeedsOnlyStaged(x: Crypto, window: int, active: Material, run: seq<Timed>, now: int)
    requires UsableKey(x, active.keyPem)
    ensures var s := Run(x, window, State(active, None, None), run);
            Checked(x, s) && (Step(x, window, s, Promote, now).1.None? <==> s.staged.Some?)
  {
    hide NormalizePem, RootOf;
    if run != [] { PromoteNeedsOnlyStaged(x, window, active, run[..|run| - 1], now); }
  }

  /** A failed event changes nothing, except that a rollback that comes too late gives up
      the way back. */
  lemma {:induction false} FailureChangesNothing(x: Crypto, window: int, s: State, e: Event, now: int)
    requires Step(x, window, s, e, now).1.Some?
    ensures Step(x, window, s, e, now).0 ==
            if Step(x, window, s, e, now).1 == Some(WindowElapsed) then s.(previous := None) else s
  {}

  // ---- the root comparison ----

  lemma {:induction false} NormalizeConcat(a: string, b: string)
    ensures NormalizePem(a + b) == NormalizePem(a) + NormalizePem(b)
  {
    if a == "" {
      assert a + b == b;
    } else {
      assert (a + b)[1..] == a[1..] + b;
      NormalizeConcat(a[1..], b);
    }
  }

  /** Texts that differ only in white space count as the same root. */
  lemma {:induction false} WhiteSpaceIgnored(a: string, space: string, b: string)
    requires forall c :: c in space ==> IsSpace(c)
    ensures NormalizePem(a + space + b) == NormalizePem(a + b)
  {
    OnlySpace(space);
    NormalizeConcat(a, space);
    NormalizeConcat(a + space, b);
    NormalizeConcat(a, b);
  }

  lemma {:induction false} OnlySpace(space: string)
    requires forall c :: c in space ==> IsSpace(c)
    ensures NormalizePem(space) == ""
  {
    if space != "" { OnlySpace(space[1..]); }
  }

  // ---- what is staged ----

  /** The positions of the characters that are not white space, in ascending order. */
  ghost predicate TextPositions(pem: string, ix: seq<nat>) {
    && (forall i: nat :: i in ix <==> i < |pem| && pem[i] !in " \t\n\r\U{b}\U{c}")
    && (forall a, b :: 0 <= a < b < |ix| ==> ix[a] < ix[b])
  }

  ghost predicate TextAt(pem: string, ix: seq<nat>, text: string) {
    |text| == |ix| && forall k :: 0 <= k < |ix| ==> ix[k] < |pem| && text[k] == pem[ix[k]]
  }

  lemma {:induction false} OneMoreChar(pem: string, ix: seq<nat>)
    requires pem != "" && TextPositions(pem[1..], ix)
    ensures TextPositions(pem, (if pem[0] in " \t\n\r\U{b}\U{c}" then [] else [0]) + Shifted(ix))
  {
    var all := (if pem[0] in " \t\n\r\U{b}\U{c}" then [] else [0]) + Shifted(ix);
    forall i: nat ensures i in all <==> i < |pem| && pem[i] !in " \t\n\r\U{b}\U{c}" {
      if i > 0 {
        assert i in Shifted(ix) <==> i - 1 in ix by {
          if i - 1 in ix {
            var k :| 0 <= k < |ix| && ix[k] == i - 1;
            assert Shifted(ix)[k] == i;
          }
        }
        assert i - 1 < |pem[1..]| ==> pem[1..][i - 1] == pem[i];
      }
    }
  }

  function Shifted(ix: seq<nat>): (r: seq<nat>)
    ensures |r| == |ix| && forall k :: 0 <= k < |ix| ==> r[k] == ix[k] + 1
  {
    seq(|ix|, k requires 0 <= k < |ix| => ix[k] + 1)
  }

  /** What is compared of a root is its text without white space: nothing else is lost. */
  lemma {:induction false} NormalizePemIs(pem: string) returns (ix: seq<nat>)
    ensures TextPositions(pem, ix) && TextAt(pem, ix, NormalizePem(pem))
  {
    if pem == "" {
      ix := [];
    } else {
      var rest := NormalizePemIs(pem[1..]);
      OneMoreChar(pem, rest);
      ix := (if pem[0] in " \t\n\r\U{b}\U{c}" then [] else [0]) + Shifted(rest);
      hide TextPositions, NormalizePem;
      OneMoreText(pem, rest, NormalizePem(pem[1..]));
      assert NormalizePem(pem) == (if pem[0] in " \t\n\r\U{b}\U{c}" then "" else [pem[0]]) + NormalizePem(pem[1..]) by { NormalizeStep(pem); }
    }
  }

  lemma {:induction false} NormalizeStep(pem: string)
    requires pem != ""
    ensures NormalizePem(pem) == (if pem[0] in " \t\n\r\U{b}\U{c}" then "" else [pem[0]]) + NormalizePem(pem[1..])
  {}

  lemma {:induction false} OneMoreText(pem: string, ix: seq<nat>, text: string)
    requires pem != "" && TextAt(pem[1..], ix, text)
    ensures TextAt(pem, [0] + Shifted(ix), [pem[0]] + text) && TextAt(pem, [] + Shifted(ix), "" + text)
  {
    forall k | 0 <= k < |ix| ensures ix[k] + 1 < |pem| && text[k] == pem[ix[k] + 1] {
      assert ix[k] < |pem[1..]| && pem[1..][ix[k]] == pem[ix[k] + 1];
    }
  }

  /** The root that comes with the material: the last block of the chain text, or the
      certificate itself if the chain has none. */
  ghost predicate IsIncomingRoot(x: Crypto, input: StageInput, root: string) {
    if input.chainPem != "" && x.blocks(input.chainPem) != []
    then root == x.blocks(input.chainPem)[|x.blocks(input.chainPem)| - 1] else root == input.certPem
  }

  /** Exactly which material is accepted as a candidate: the key parses and its kind is known,
      the certificate parses and pairs with it, the root is the active one up to white space,
      the certificate is another one and is valid for thirty more days. */
  ghost predicate Acceptable(x: Crypto, active: Material, input: StageInput, now: int) {
    && x.parsesKey(input.keyPem) && x.keyAlg(input.keyPem).Some? && x.readCert(input.certPem).Some?
    && x.pairs(input.keyPem, input.certPem)
    && (exists root :: IsIncomingRoot(x, input, root) && NormalizePem(root) == NormalizePem(active.rootCertPem))
    && x.fingerprint(input.certPem) != x.fingerprint(active.certPem)
    && now + 30 * 24 * 3600 * 1000 <= x.readCert(input.certPem).value.notAfter
  }

  lemma {:induction false} StageAcceptsIff(x: Crypto, window: int, s: State, input: StageInput, now: int)
    ensures var (n, failure) := Step(x, window, s, Stage(input), now);
            && (failure.None? <==> Acceptable(x, s.active, input, now))
            && (failure.Some? ==> n == s)
            && (failure.None? ==>
                  && n.active == s.active && n.previous == s.previous && n.staged.Some?
                  && var c, facts := n.staged.value, x.readCert(input.certPem).value;
                     && c.material.certPem == input.certPem && c.material.keyPem == input.keyPem && c.material.chainPem == input.chainPem
                     && IsIncomingRoot(x, input, c.material.rootCertPem)
                     && c.material.chainDepth == (if input.chainPem == "" then 1 else x.markers(input.chainPem) + 1)
                     && c.material.notAfter == facts.notAfter && c.material.serial == facts.serial && c.material.commonName == facts.subject
                     && c.stagedAt == now && c.fingerprint == x.fingerprint(input.certPem) && Some(c.keyAlgorithm) == x.keyAlg(input.keyPem))
  {
    hide NormalizePem;
    assert IsIncomingRoot(x, input, RootOf(x, input));
    forall root | IsIncomingRoot(x, input, root) ensures root == RootOf(x, input) {}
  }

  /** Which check is named when one fails: the first one. */
  lemma {:induction false} StageFailureIs(x: Crypto, window: int, s: State, input: StageInput, now: int, root: string)
    requires IsIncomingRoot(x, input, root)
    ensures Step(x, window, s, Stage(input), now).1 ==
            if !x.parsesKey(input.keyPem) then Some(BadKey)
            else if x.readCert(input.certPem).None? then Some(BadCert)
            else if x.keyAlg(input.keyPem).None? then Some(UnsupportedKey)
            else if !x.pairs(input.keyPem, input.certPem) then Some(KeyCertMismatch)
            else if NormalizePem(root) != NormalizePem(s.active.rootCertPem) then Some(RootMismatch)
            else if x.fingerprint(input.certPem) == x.fingerprint(s.active.certPem) then Some(SameAsActive)
            else if x.readCert(input.certPem).value.notAfter < now + 30 * 24 * 3600 * 1000 then Some(ExpiresTooSoon)
            else None
  {
    hide NormalizePem;
  }

  /** A promotion needs something staged and a readable active key. It keeps the active
      material with its fingerprint, its key's kind and the time, and leaves nothing staged. */
  lemma {:induction false} PromoteKeeps(x: Crypto, window: int, s: State, now: int)
    ensures var (n, failure) := Step(x, window, s, Promote, now);
            if s.staged.None? then n == s && failure == Some(NoStaged)
            else if !x.parsesKey(s.active.keyPem) || x.keyAlg(s.active.keyPem).None? then n == s && failure == Some(ActiveKeyUnusable)
            else
              && failure.None? && n.active == s.staged.value.material && n.staged.None? && n.previous.Some?
              && n.previous.value.material == s.active && n.previous.value.promotedAt == now
              && n.previous.value.fingerprint == x.fingerprint(s.active.certPem)
              && Some(n.previous.value.keyAlgorithm) == x.keyAlg(s.active.keyPem)
  {}
}
