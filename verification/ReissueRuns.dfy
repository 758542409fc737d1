/** What holds in every run of the reissue worker, with restarts at any suspension point. */
module ReissueRuns {
  import opened Wrappers
  import opened Reissue

  // ---- the invariant ----

  /** The counters of a job count its items. */
  ghost predicate Counted(job: Job) {
    job.total == |job.items| && job.done == Count(job.items, ItemDone) && job.failed == Count(job.items, ItemFailed)
  }

  /** A finished job has nothing pending, and `failed` means that not one item succeeded. */
  ghost predicate Settled(job: Job) {
    && (job.status == JobDone || job.status == JobFailed ==> forall i :: 0 <= i < |job.items| ==> job.items[i] != Pending)
    && (job.status == JobFailed ==> job.done == 0 && job.failed > 0)
  }

  ghost predicate Ascending(ids: seq<nat>) {
    forall a, b :: 0 <= a < b < |ids| ==> ids[a] < ids[b]
  }

  /** A driver holds exactly the pending items of its job, in their order. */
  ghost predicate Drives(s: State, j: nat)
    requires j in s.drivers
  {
    && j < |s.jobs| && j in s.running
    && (s.jobs[j].status == Running || (s.jobs[j].status == Cancelled && j in s.cancelled))
    && (forall i: nat :: i in s.drivers[j] <==> i < |s.jobs[j].items| && s.jobs[j].items[i] == Pending)
    && Ascending(s.drivers[j])
  }

  predicate HasItem(s: State, j: nat, i: nat, st: ItemStatus) {
    j < |s.jobs| && i < |s.jobs[j].items| && s.jobs[j].items[i] == st
  }

  /** An item is done exactly if resignOne returned for it, and failed exactly if it threw; it
      was called once for each of them, and for no other item. */
  ghost predicate Logged(s: State) {
    && (forall j: nat, i: nat :: Attempt(j, i, true) in s.log <==> HasItem(s, j, i, ItemDone))
    && (forall j: nat, i: nat :: Attempt(j, i, false) in s.log <==> HasItem(s, j, i, ItemFailed))
    && forall a, b :: 0 <= a < b < |s.log| ==> s.log[a].job != s.log[b].job || s.log[a].item != s.log[b].item
  }

  ghost predicate Inv(s: State) {
    && (forall j :: 0 <= j < |s.jobs| ==> Counted(s.jobs[j]) && Settled(s.jobs[j]))
    && (forall j :: j in s.drivers ==> Drives(s, j))
    && (forall j :: j in s.cancelled ==> j < |s.jobs| && s.jobs[j].status == Cancelled)
    && Logged(s)
  }

  lemma {:induction false} InvDefined(s: State)
    requires Inv(s)
    ensures Defined(s)
  {}

  // ---- counting ----

  lemma {:induction false} CountUpdate(items: seq<ItemStatus>, i: nat, st: ItemStatus, of: ItemStatus)
    requires i < |items|
    ensures Count(items[i := st], of) ==
            Count(items, of) - (if items[i] == of then 1 else 0) + if st == of then 1 else 0
  {
    var k := |items| - 1;
    if i == k {
      assert items[i := st][..k] == items[..k];
    } else {
      assert items[i := st][..k] == items[..k][i := st];
      CountUpdate(items[..k], i, st, of);
    }
  }

  lemma {:induction false} CountAll(items: seq<ItemStatus>)
    ensures Count(items, Pending) + Count(items, ItemDone) + Count(items, ItemFailed) == |items|
  {
    if items != [] { CountAll(items[..|items| - 1]); }
  }

  lemma {:induction false} CountNone(items: seq<ItemStatus>, st: ItemStatus)
    ensures Count(items, st) == 0 <==> st !in items
  {
    if items != [] {
      CountNone(items[..|items| - 1], st);
      assert items == items[..|items| - 1] + [items[|items| - 1]];
    }
  }

  lemma {:induction false} PendingAscending(items: seq<ItemStatus>, n: nat)
    requires n <= |items|
    ensures Ascending(PendingItems(items, n))
  {
    if n > 0 {
      PendingAscending(items, n - 1);
      var r := PendingItems(items, n - 1);
      forall a | 0 <= a < |r| ensures r[a] < n - 1 { assert r[a] in r; }
    }
  }

  // ---- one item ----

  /** The driver of job j is about to process the first item of `left`. */
  ghost predicate Ready(s: State, j: nat, left: seq<nat>) {
    && j < |s.jobs| && s.jobs[j].status == Running && j in s.running && left != []
    && (forall i: nat :: i in left <==> i < |s.jobs[j].items| && s.jobs[j].items[i] == Pending)
    && Ascending(left)
  }

  ghost predicate InvExcept(s: State, j: nat) {
    Inv(s.(drivers := s.drivers - {j}))
  }

  lemma {:induction false} ReadyHead(s: State, j: nat, left: seq<nat>)
    requires Ready(s, j, left)
    ensures left[0] < |s.jobs[j].items| && s.jobs[j].items[left[0]] == Pending
    ensures forall i: nat :: i in left[1..] <==> i in left && i != left[0]
  {}

  lemma {:induction false} ProcessCounted(job: Job, item: nat, ok: bool)
    requires Counted(job) && item < |job.items| && job.items[item] == Pending
    ensures Counted(job.(items := job.items[item := if ok then ItemDone else ItemFailed],
                         done := job.done + (if ok then 1 else 0), failed := job.failed + if ok then 0 else 1))
  {
    var st := if ok then ItemDone else ItemFailed;
    CountUpdate(job.items, item, st, ItemDone);
    CountUpdate(job.items, item, st, ItemFailed);
  }

  lemma {:induction false} ProcessLogged(s: State, j: nat, left: seq<nat>, ok: bool)
    requires Logged(s) && Ready(s, j, left)
    ensures left[0] < |s.jobs[j].items| && Logged(Process(s, j, left[1..], left[0], ok))
  {
    ReadyHead(s, j, left);
    var n := Process(s, j, left[1..], left[0], ok);
    assert HasItem(s, j, left[0], Pending);
    assert Attempt(j, left[0], true) !in s.log && Attempt(j, left[0], false) !in s.log;
    forall a, b | 0 <= a < b < |n.log| ensures n.log[a].job != n.log[b].job || n.log[a].item != n.log[b].item {
      if b == |s.log| {
        assert n.log[a] in s.log;
        assert n.log[a] == Attempt(n.log[a].job, n.log[a].item, true) || n.log[a] == Attempt(n.log[a].job, n.log[a].item, false);
      }
    }
    forall k: nat, i: nat, done: bool ensures Attempt(k, i, done) in n.log <==> HasItem(n, k, i, if done then ItemDone else ItemFailed) {
      assert Attempt(k, i, done) in n.log <==> Attempt(k, i, done) in s.log || Attempt(k, i, done) == Attempt(j, left[0], ok);
      assert Attempt(k, i, done) in s.log <==> HasItem(s, k, i, if done then ItemDone else ItemFailed);
    }
  }

  lemma {:induction false} ProcessDrives(s: State, j: nat, left: seq<nat>, ok: bool, d: nat)
    requires InvExcept(s, j) && Ready(s, j, left) && left[0] < |s.jobs[j].items|
    requires d in s.drivers || d == j
    ensures Drives(Process(s, j, left[1..], left[0], ok), d)
  {
    var n := Process(s, j, left[1..], left[0], ok);
    if d == j {
      ReadyHead(s, j, left);
    } else {
      assert d in (s.drivers - {j});
      assert Drives(s.(drivers := s.drivers - {j}), d);
    }
  }

  lemma {:induction false} ProcessInv(s: State, j: nat, left: seq<nat>, ok: bool)
    requires InvExcept(s, j) && Ready(s, j, left)
    ensures left[0] < |s.jobs[j].items| && Inv(Process(s, j, left[1..], left[0], ok))
  {
    ReadyHead(s, j, left);
    ProcessCounted(s.jobs[j], left[0], ok);
    ProcessLogged(s, j, left, ok);
    var n := Process(s, j, left[1..], left[0], ok);
    forall d | d in n.drivers ensures Drives(n, d) { ProcessDrives(s, j, left, ok, d); }
    hide Drives, Logged, Counted;
  }

  // ---- the steps keep the invariant ----

  lemma {:induction false} BeginInv(s: State, j: nat, ok: bool)
    requires Inv(s) && j < |s.jobs| && (s.jobs[j].status == Running || j in s.running)
    ensures Inv(Begin(s, j, ok))
  {
    if j !in s.running && j !in s.cancelled {
      assert j in s.drivers ==> Drives(s, j);
      var items := s.jobs[j].items;
      var pending := PendingItems(items, |items|);
      var claimed := s.(running := s.running + {j});
      PendingAscending(items, |items|);
      if pending != [] {
        assert pending[0] in pending;
        assert claimed.(drivers := claimed.drivers - {j}) == claimed by { assert claimed.drivers - {j} == claimed.drivers; }
        ProcessInv(claimed, j, pending, ok);
      } else {
        NoPendingDone(claimed, j, JobDone);
      }
    }
  }

  /** A job without a driver and without pending items can be closed. */
  lemma {:induction false} NoPendingDone(s: State, j: nat, status: JobStatus)
    requires Inv(s) && j < |s.jobs| && j !in s.drivers && s.jobs[j].status == Running
    requires forall i :: 0 <= i < |s.jobs[j].items| ==> s.jobs[j].items[i] != Pending
    requires status == JobFailed ==> s.jobs[j].done == 0 && s.jobs[j].failed > 0
    ensures Inv(s.(jobs := s.jobs[j := s.jobs[j].(status := status)]))
  {}

  lemma {:induction false} BeginAllInv(s: State, list: seq<nat>, succeeds: nat -> bool)
    requires Inv(s) && forall j :: j in list ==> j < |s.jobs| && s.jobs[j].status == Running
    ensures var n := BeginAll(s, list, succeeds);
            && Inv(n) && |n.jobs| == |s.jobs|
            && forall j :: 0 <= j < |s.jobs| && s.jobs[j].status == Running ==> n.jobs[j].status == Running || j in n.running
  {
    hide Inv;
    if list != [] {
      var init, last := list[..|list| - 1], list[|list| - 1];
      assert last in list && forall j :: j in init ==> j in list;
      BeginAllInv(s, init, succeeds);
      BeginInv(BeginAll(s, init, succeeds), last, succeeds(last));
    }
  }

  lemma {:induction false} WakeInv(s: State, j: nat, ok: bool)
    requires Inv(s) && Defined(s) && j in s.drivers
    ensures Inv(Wake(s, j, ok))
  {
    assert Drives(s, j);
    var rest := s.drivers[j];
    if rest == [] {
      assert forall i :: 0 <= i < |s.jobs[j].items| ==> (i in rest <==> s.jobs[j].items[i] == Pending);
      if s.jobs[j].status == Running {
        NoPendingDone(s.(drivers := s.drivers - {j}), j, Finalize(s.jobs[j]).status);
      } else {
        assert s.jobs[j := Finalize(s.jobs[j])] == s.jobs;
      }
    } else if j !in s.cancelled {
      ProcessInv(s, j, rest, ok);
    }
  }

  lemma {:induction false} StartInv(s: State, certs: nat, rate: Option<int>)
    requires Inv(s)
    ensures Inv(s.(jobs := s.jobs + [NewJob(certs, rate)]))
  {
    var n := s.(jobs := s.jobs + [NewJob(certs, rate)]);
    CountNone(NewJob(certs, rate).items, ItemDone);
    CountNone(NewJob(certs, rate).items, ItemFailed);
    forall d | d in n.drivers ensures Drives(n, d) { assert Drives(s, d); }
    forall j: nat, i: nat, st | st != Pending ensures HasItem(n, j, i, st) <==> HasItem(s, j, i, st) {}
  }

  /** Every step of every actor keeps the invariant. */
  lemma {:induction false} StepInv(s: State, e: Event)
    requires Inv(s) && Defined(s)
    ensures Inv(Step(s, e))
  {
    match e
    case StartJob(certs, rate) => StartInv(s, certs, rate);
    case Tick(succeeds) => BeginAllInv(s, RunningJobs(s.jobs, |s.jobs|, 50), succeeds);
    case Resume(j, ok) => if j in s.drivers { WakeInv(s, j, ok); }
    case _ =>
  }

  // ---- runs ----

  function Run(s: State, events: seq<Event>): (r: State)
    requires Inv(s)
    ensures Inv(r)
  {
    if events == [] then s
    else
      var before := Run(s, events[..|events| - 1]);
      InvDefined(before);
      StepInv(before, events[|events| - 1]);
      Step(before, events[|events| - 1])
  }

  /** Work is conserved: in every reachable state the counters equal the numbers of items
      in those states, and with the pending ones they add up to the total. */
  lemma {:induction false} WorkConserved(events: seq<Event>, j: nat)
    ensures Inv(INIT)
    ensures var s := Run(INIT, events);
            j < |s.jobs| ==>
              var job := s.jobs[j];
              && job.done == Count(job.items, ItemDone) && job.failed == Count(job.items, ItemFailed)
              && job.done + job.failed + Count(job.items, Pending) == job.total
  {
    var s := Run(INIT, events);
    if j < |s.jobs| {
      assert Counted(s.jobs[j]);
      CountAll(s.jobs[j].items);
    }
  }

  /** Each item is re-signed at most once, over any interleaving and any restarts. */
  lemma {:induction false} ResignedAtMostOnce(events: seq<Event>, a: nat, b: nat)
    ensures Inv(INIT)
    ensures var log := Run(INIT, events).log; a < b < |log| ==> log[a].job != log[b].job || log[a].item != log[b].item
  {}

  /** `done` and `failed` mean that nothing is pending any more. */
  lemma {:induction false} FinishedMeansNothingPending(events: seq<Event>, j: nat)
    ensures Inv(INIT)
    ensures var s := Run(INIT, events);
            j < |s.jobs| && s.jobs[j].status in {JobDone, JobFailed} ==> Count(s.jobs[j].items, Pending) == 0
  {
    var s := Run(INIT, events);
    if j < |s.jobs| && s.jobs[j].status in {JobDone, JobFailed} {
      assert Settled(s.jobs[j]);
      CountNone(s.jobs[j].items, Pending);
    }
  }

  /** A failed job had items, and every one of them failed. */
  lemma {:induction false} FailedMeansAllFailed(events: seq<Event>, j: nat)
    ensures Inv(INIT)
    ensures var s := Run(INIT, events);
            j < |s.jobs| && s.jobs[j].status == JobFailed ==> s.jobs[j].failed == s.jobs[j].total > 0
  {
    var s := Run(INIT, events);
    WorkConserved(events, j);
    FinishedMeansNothingPending(events, j);
    assert j < |s.jobs| ==> Settled(s.jobs[j]);
  }

  // ---- terminal jobs stay as they are ----

  lemma {:induction false} BeginAllOthers(s: State, list: seq<nat>, succeeds: nat -> bool, j: nat)
    requires forall k :: k in list ==> k < |s.jobs|
    requires j < |s.jobs| && j !in list
    ensures BeginAll(s, list, succeeds).jobs[j] == s.jobs[j]
  {
    if list != [] {
      var init, last := list[..|list| - 1], list[|list| - 1];
      assert last in list && forall k :: k in init ==> k in list;
      BeginAllOthers(s, init, succeeds, j);
    }
  }

  lemma {:induction false} TerminalStep(s: State, e: Event, j: nat)
    requires Inv(s) && Defined(s) && j < |s.jobs| && s.jobs[j].status != Running
    ensures j < |Step(s, e).jobs| && Step(s, e).jobs[j] == s.jobs[j]
  {
    match e
    case Tick(succeeds) => BeginAllOthers(s, RunningJobs(s.jobs, |s.jobs|, 50), succeeds, j);
    case Resume(k, ok) => if k in s.drivers { assert Drives(s, k); }
    case _ =>
  }

  /** A job that is done, failed or cancelled never changes again: its status is final, and
      in particular no item leaves pending after a cancellation. */
  lemma {:induction false} TerminalIsFinal(s: State, later: seq<Event>, j: nat)
    requires Inv(s) && j < |s.jobs| && s.jobs[j].status != Running
    ensures j < |Run(s, later).jobs| && Run(s, later).jobs[j] == s.jobs[j]
  {
    hide Inv, Step;
    if later != [] {
      var init := later[..|later| - 1];
      TerminalIsFinal(s, init, j);
      InvDefined(Run(s, init));
      TerminalStep(Run(s, init), later[|later| - 1], j);
    }
  }

  // ---- what `done` means ----

  ghost predicate NothingPending(job: Job) {
    forall i :: 0 <= i < |job.items| ==> job.items[i] != Pending
  }

  /** Every item was tried, but the driver has not yet closed the job. */
  ghost predicate Drained(s: State, j: nat) {
    j < |s.jobs| && s.jobs[j].status == Running && NothingPending(s.jobs[j])
  }

  /** The process restarted while job j was drained. */
  ghost predicate RestartedDrained(events: seq<Event>, j: nat)
    requires Inv(INIT)
  {
    exists k: nat :: k < |events| && events[k] == Restart && Drained(Run(INIT, events[..k]), j)
  }

  /** A running job has its driver, or work left for the next one, or nothing to report as
      failed; and it is not called done when all its items failed. */
  ghost predicate Attended(s: State, j: nat) {
    && (forall k :: k in s.running ==> k < |s.jobs|)
    && (j < |s.jobs| ==> JobAttended(s, j))
  }

  ghost predicate JobAttended(s: State, j: nat)
    requires j < |s.jobs|
  {
    var job := s.jobs[j];
    && (job.status == Running && j in s.running ==> j in s.drivers)
    && (job.status == Running && j !in s.running && NothingPending(job) ==> job.failed == 0 || job.done > 0)
    && (job.status == JobDone ==> job.failed == 0 || job.done > 0)
  }

  lemma {:induction false} PendingIffNone(job: Job)
    ensures NothingPending(job) <==> PendingItems(job.items, |job.items|) == []
  {
    var pending := PendingItems(job.items, |job.items|);
    if pending != [] {
      assert pending[0] in pending;
    } else {
      forall i: nat | i < |job.items| ensures job.items[i] != Pending { assert i !in pending; }
    }
  }

  lemma {:induction false} BeginAttended(s: State, d: nat, ok: bool, j: nat)
    requires Attended(s, j) && d < |s.jobs| && (s.jobs[d].status == Running || d in s.running)
    ensures Attended(Begin(s, d, ok), j)
  {
    PendingIffNone(s.jobs[d]);
  }

  lemma {:induction false} BeginAllAttended(s: State, list: seq<nat>, succeeds: nat -> bool, j: nat)
    requires Inv(s) && Attended(s, j) && forall d :: d in list ==> d < |s.jobs| && s.jobs[d].status == Running
    ensures Attended(BeginAll(s, list, succeeds), j)
  {
    hide Attended, Begin, Inv;
    if list != [] {
      var init, last := list[..|list| - 1], list[|list| - 1];
      assert last in list && forall d :: d in init ==> d in list;
      BeginAllAttended(s, init, succeeds, j);
      BeginAllInv(s, init, succeeds);
      BeginAttended(BeginAll(s, init, succeeds), last, succeeds(last), j);
    }
  }

  /** An empty job has no failures. */
  lemma {:induction false} NewJobAttended(s: State, certs: nat, rate: Option<int>, j: nat)
    requires Attended(s, j)
    ensures Attended(s.(jobs := s.jobs + [NewJob(certs, rate)]), j)
  {}

  lemma {:induction false} StepAttended(s: State, e: Event, j: nat)
    requires Inv(s) && Defined(s) && Attended(s, j) && (e.Restart? ==> !Drained(s, j))
    ensures Attended(Step(s, e), j)
  {
    match e
    case StartJob(certs, rate) => NewJobAttended(s, certs, rate, j);
    case Tick(succeeds) => BeginAllAttended(s, RunningJobs(s.jobs, |s.jobs|, 50), succeeds, j);
    case Resume(d, ok) => if d in s.drivers { assert Drives(s, d); }
    case _ =>
  }

  lemma {:induction false} RunAttended(events: seq<Event>, j: nat)
    requires Inv(INIT) && !RestartedDrained(events, j)
    ensures Attended(Run(INIT, events), j)
  {
    hide Attended, Drained, Inv, Step;
    if events != [] {
      var init := events[..|events| - 1];
      assert !RestartedDrained(init, j) by {
        forall k: nat | k < |init| && init[k] == Restart ensures !Drained(Run(INIT, init[..k]), j) {
          assert init[..k] == events[..k] && events[k] == Restart;
        }
      }
      RunAttended(init, j);
      InvDefined(Run(INIT, init));
      StepAttended(Run(INIT, init), events[|events| - 1], j);
    } else {
      assert Attended(INIT, j) by { NothingAttended(j); }
    }
  }

  lemma {:induction false} NothingAttended(j: nat)
    ensures Attended(INIT, j)
  {}

  /** No driver will ever take the job up again, and it cannot fail any more. */
  ghost predicate Abandoned(s: State, j: nat) {
    j < |s.jobs| && s.jobs[j].status != JobFailed && NothingPending(s.jobs[j]) && j !in s.drivers
  }

  lemma {:induction false} BeginAbandoned(s: State, d: nat, ok: bool, j: nat)
    requires Abandoned(s, j) && d < |s.jobs|
    ensures Abandoned(Begin(s, d, ok), j)
  {
    PendingIffNone(s.jobs[d]);
  }

  lemma {:induction false} BeginAllAbandoned(s: State, list: seq<nat>, succeeds: nat -> bool, j: nat)
    requires Abandoned(s, j) && forall d :: d in list ==> d < |s.jobs|
    ensures Abandoned(BeginAll(s, list, succeeds), j)
  {
    hide Abandoned, Begin;
    if list != [] {
      var init, last := list[..|list| - 1], list[|list| - 1];
      assert last in list && forall d :: d in init ==> d in list;
      BeginAllAbandoned(s, init, succeeds, j);
      BeginAbandoned(BeginAll(s, init, succeeds), last, succeeds(last), j);
    }
  }

  lemma {:induction false} StepAbandoned(s: State, e: Event, j: nat)
    requires Defined(s) && (Abandoned(s, j) || (e.Restart? && Drained(s, j)))
    ensures Abandoned(Step(s, e), j)
  {
    if e.Tick? { BeginAllAbandoned(s, RunningJobs(s.jobs, |s.jobs|, 50), e.succeeds, j); }
  }

  lemma {:induction false} RunAbandoned(events: seq<Event>, k: nat, j: nat)
    requires Inv(INIT) && k < |events| && events[k] == Restart && Drained(Run(INIT, events[..k]), j)
    ensures Abandoned(Run(INIT, events), j)
  {
    hide Abandoned, Drained, Inv, Step;
    var init := events[..|events| - 1];
    if k < |events| - 1 {
      assert init[..k] == events[..k];
      RunAbandoned(init, k, j);
    }
    InvDefined(Run(INIT, init));
    StepAbandoned(Run(INIT, init), events[|events| - 1], j);
  }

  /** A job that has ended is reported failed exactly when it had items, all of them failed,
      and the process did not restart between the last failure and the end. */
  lemma {:induction false} FailureReportedIff(events: seq<Event>, j: nat)
    ensures Inv(INIT)
    ensures var s := Run(INIT, events);
            j < |s.jobs| && s.jobs[j].status in {JobDone, JobFailed} ==>
              (s.jobs[j].status == JobFailed <==> s.jobs[j].total > 0 && s.jobs[j].done == 0 && !RestartedDrained(events, j))
  {
    hide Step;
    var s := Run(INIT, events);
    if j < |s.jobs| && s.jobs[j].status in {JobDone, JobFailed} {
      if RestartedDrained(events, j) {
        var k: nat :| k < |events| && events[k] == Restart && Drained(Run(INIT, events[..k]), j);
        RunAbandoned(events, k, j);
      } else {
        RunAttended(events, j);
        WorkConserved(events, j);
        FinishedMeansNothingPending(events, j);
        FailedMeansAllFailed(events, j);
      }
    }
  }

  /** In a run without restarts a job ends `done` only if it was empty or an item succeeded. */
  lemma {:induction false} DoneMeansSomeSucceeded(events: seq<Event>)
    requires forall i :: 0 <= i < |events| ==> !events[i].Restart?
    ensures Inv(INIT)
    ensures var s := Run(INIT, events);
            forall j: nat :: j < |s.jobs| && s.jobs[j].status == JobDone ==> s.jobs[j].done > 0 || s.jobs[j].total == 0
  {
    forall j: nat | j < |Run(INIT, events).jobs| && Run(INIT, events).jobs[j].status == JobDone
      ensures Run(INIT, events).jobs[j].done > 0 || Run(INIT, events).jobs[j].total == 0
    {
      FailureReportedIff(events, j);
    }
  }

  /** Such a restart does happen: a driver that finds nothing pending reports `done`, though
      the only item failed before the restart. */
  lemma {:induction false} DoneThoughAllFailed()
    ensures Inv(INIT)
    ensures var s := Run(INIT, [StartJob(1, None), Tick(j => false), Restart, Tick(j => false)]);
            |s.jobs| == 1 && s.jobs[0].status == JobDone && s.jobs[0].done == 0 && s.jobs[0].failed == s.jobs[0].total == 1
  {
    var events := [StartJob(1, None), Tick(j => false), Restart, Tick(j => false)];
    assert events[..3] == [StartJob(1, None), Tick(j => false), Restart];
    assert events[..2] == [StartJob(1, None), Tick(j => false)];
    assert events[..1] == [StartJob(1, None)];
    FailedJobRestarted(events);
  }

  lemma {:induction false} FailedJobRestarted(events: seq<Event>)
    requires |events| == 4 && events[0] == StartJob(1, None) && events[2] == Restart
    requires events[1].Tick? && !events[1].succeeds(0) && events[3].Tick?
    requires Inv(INIT)
    ensures var s := Run(INIT, events);
            |s.jobs| == 1 && s.jobs[0].status == JobDone && s.jobs[0].done == 0 && s.jobs[0].failed == s.jobs[0].total == 1
  {
    hide Run, Inv, BeginAll, RunningJobs, Begin;
    EmptyRun(INIT, events[..0]);
    RunNext(INIT, events, 0);
    RunNext(INIT, events, 1);
    RunNext(INIT, events, 2);
    RunNext(INIT, events, 3);
    assert events[..4] == events;
    FirstTick(events[1].succeeds);
    SecondTick(Run(INIT, events[..2]).log, events[3].succeeds);
  }

  lemma {:induction false} EmptyRun(s: State, events: seq<Event>)
    requires Inv(s) && events == []
    ensures Run(s, events) == s
  {}

  lemma {:induction false} RunNext(s: State, events: seq<Event>, k: nat)
    requires Inv(s) && k < |events|
    ensures Defined(Run(s, events[..k])) && Run(s, events[..k + 1]) == Step(Run(s, events[..k]), events[k])
  {
    assert events[..k + 1][..k] == events[..k];
    InvDefined(Run(s, events[..k]));
  }

  const FAILED_JOB := Job(Running, 1, 0, 1, 10, [ItemFailed])

  lemma {:induction false} FirstTick(succeeds: nat -> bool)
    requires !succeeds(0)
    ensures Step(Step(INIT, StartJob(1, None)), Tick(succeeds)).jobs == [FAILED_JOB]
  {
    var s := Step(INIT, StartJob(1, None));
    assert s.jobs == [NewJob(1, None)] && NewJob(1, None).items == [Pending];
    OneJobTick(s, succeeds);
    assert PendingItems([Pending], 0) == [];
    assert PendingItems([Pending], 1) == [0];
    assert [Pending][0 := ItemFailed] == [ItemFailed];
  }

  lemma {:induction false} SecondTick(log: seq<Attempt>, succeeds: nat -> bool)
    ensures Step(State([FAILED_JOB], {}, {}, map[], log), Tick(succeeds)).jobs == [FAILED_JOB.(status := JobDone)]
  {
    OneJobTick(State([FAILED_JOB], {}, {}, map[], log), succeeds);
    assert PendingItems([ItemFailed], 0) == [];
  }

  lemma {:induction false} OneJobTick(s: State, succeeds: nat -> bool)
    requires Defined(s) && |s.jobs| == 1 && s.jobs[0].status == Running
    ensures Step(s, Tick(succeeds)) == Begin(s, 0, succeeds(0))
  {
    assert RunningJobs(s.jobs, 0, 49) == [];
    assert RunningJobs(s.jobs, 1, 50) == [0];
    assert [0][..0] == [];
    assert BeginAll(s, [], succeeds) == s;
  }

  // ---- outcomes, told from the events ----

  /** The event lets the driver of job j call resignOne once. */
  predicate Concerns(e: Event, j: nat) {
    e.Tick? || (e.Resume? && e.job == j)
  }

  /** That call returns. */
  predicate Succeeds(e: Event, j: nat) {
    (e.Tick? && e.succeeds(j)) || (e.Resume? && e.ok)
  }

  /** Item i is the one that the event hands to resignOne: the first pending one. */
  ghost predicate ItemMoves(before: Job, after: Job, e: Event, j: nat, i: nat)
    requires i < |before.items| == |after.items|
  {
    after.items[i] != before.items[i] ==>
      && before.items[i] == Pending && Concerns(e, j)
      && after.items[i] == (if Succeeds(e, j) then ItemDone else ItemFailed)
      && forall k :: 0 <= k < i ==> before.items[k] != Pending
  }

  ghost predicate ItemsMove(before: Job, after: Job, e: Event, j: nat) {
    |after.items| == |before.items| && forall i: nat :: i < |before.items| ==> ItemMoves(before, after, e, j, i)
  }

  lemma {:induction false} HeadIsLeast(ids: seq<nat>)
    requires Ascending(ids) && ids != []
    ensures forall k :: k in ids ==> ids[0] <= k
  {
    forall k | k in ids ensures ids[0] <= k {
      var a :| 0 <= a < |ids| && ids[a] == k;
    }
  }

  lemma {:induction false} FirstPending(items: seq<ItemStatus>, n: nat)
    requires n <= |items| && PendingItems(items, n) != []
    ensures var first := PendingItems(items, n)[0]; first < n && items[first] == Pending && forall k :: 0 <= k < first ==> items[k] != Pending
  {
    PendingAscending(items, n);
    var r := PendingItems(items, n);
    assert r[0] in r;
    HeadIsLeast(r);
    forall k: nat | k < r[0] ensures items[k] != Pending { assert k !in r; }
  }

  lemma {:induction false} BeginItems(s: State, j: nat, e: Event)
    requires j < |s.jobs| && e.Tick?
    ensures ItemsMove(s.jobs[j], Begin(s, j, e.succeeds(j)).jobs[j], e, j)
  {
    var items := s.jobs[j].items;
    if PendingItems(items, |items|) != [] { FirstPending(items, |items|); }
  }

  /** After the tick's loop a job is as it was, or its driver has begun. */
  ghost predicate BegunOrNot(s: State, n: State, j: nat, ok: bool)
    requires j < |s.jobs|
  {
    && |n.jobs| == |s.jobs| && n.cancelled == s.cancelled
    && ((n.jobs[j] == s.jobs[j] && (j in n.running <==> j in s.running) && (j in n.drivers <==> j in s.drivers)) ||
        (j in n.running && n.jobs[j] == Begin(s, j, ok).jobs[j] && (j in n.drivers <==> j in Begin(s, j, ok).drivers)))
  }

  lemma {:induction false} BeginAllBegins(s: State, list: seq<nat>, succeeds: nat -> bool, j: nat)
    requires j < |s.jobs| && forall k :: k in list ==> k < |s.jobs|
    ensures BegunOrNot(s, BeginAll(s, list, succeeds), j, succeeds(j))
  {
    if list != [] {
      var init, last := list[..|list| - 1], list[|list| - 1];
      assert last in list && forall k :: k in init ==> k in list;
      BeginAllBegins(s, init, succeeds, j);
    }
  }

  lemma {:induction false} SameItems(job: Job, after: Job, e: Event, j: nat)
    requires after.items == job.items
    ensures ItemsMove(job, after, e, j)
  {}

  lemma {:induction false} WakeItems(s: State, e: Event, j: nat)
    requires Inv(s) && Defined(s) && e.Resume? && e.job in s.drivers && j < |s.jobs|
    ensures |Wake(s, e.job, e.ok).jobs| == |s.jobs| && ItemsMove(s.jobs[j], Wake(s, e.job, e.ok).jobs[j], e, j)
  {
    assert Drives(s, e.job);
    var rest := s.drivers[e.job];
    if rest != [] {
      assert rest[0] in rest;
      HeadIsLeast(rest);
      forall k: nat | k < rest[0] ensures s.jobs[e.job].items[k] != Pending { assert k !in rest; }
    }
  }

  /** One event moves at most the first pending item of a job: to done if its re-signing
      succeeds in that event, else to failed. Nothing else changes an item. */
  lemma {:induction false} StepMovesItems(s: State, e: Event, j: nat)
    requires Inv(s) && Defined(s) && j < |s.jobs|
    ensures j < |Step(s, e).jobs| && ItemsMove(s.jobs[j], Step(s, e).jobs[j], e, j)
  {
    hide Inv, ItemsMove;
    SameItems(s.jobs[j], s.jobs[j], e, j);
    match e
    case Tick(succeeds) =>
      BeginAllBegins(s, RunningJobs(s.jobs, |s.jobs|, 50), succeeds, j);
      BeginItems(s, j, e);
    case Resume(k, ok) => if k in s.drivers { WakeItems(s, e, j); }
    case Cancel(k) => if CanCancel(s, k) { SameItems(s.jobs[j], Step(s, e).jobs[j], e, j); }
    case _ =>
  }

  predicate IsFirstPending(job: Job, i: nat) {
    i < |job.items| && job.items[i] == Pending && forall k :: 0 <= k < i ==> job.items[k] != Pending
  }

  /** Item i of the job was re-signed or not; the counters are those of WorkConserved. */
  ghost predicate Tried(job: Job, after: Job, i: nat, ok: bool)
    requires i < |job.items|
  {
    after == job.(items := job.items[i := if ok then ItemDone else ItemFailed], done := after.done, failed := after.failed)
  }

  /** A driver that wakes up tries the first pending item, unless its job is cancelled; it ends
      on cancellation, and when nothing is pending: then it gives a running job its status. */
  lemma {:induction false} ResumeMovesOn(s: State, j: nat, ok: bool)
    requires Inv(s) && Defined(s) && j in s.drivers && j < |s.jobs|
    ensures var n := Step(s, Resume(j, ok));
            var job := s.jobs[j];
            && |n.jobs| == |s.jobs|
            && (forall i: nat :: IsFirstPending(job, i) ==>
                  if j in s.cancelled then n == s.(drivers := s.drivers - {j})
                  else Tried(job, n.jobs[j], i, ok) && n.log == s.log + [Attempt(j, i, ok)] && j in n.drivers)
            && (NothingPending(job) ==>
                  && j !in n.drivers && n.log == s.log
                  && n.jobs[j] == job.(status := if job.status != Running then job.status
                                                 else if job.failed > 0 && job.done == 0 then JobFailed else JobDone))
  {
    assert Drives(s, j);
    var rest := s.drivers[j];
    if rest != [] {
      assert rest[0] in rest;
      HeadIsLeast(rest);
      forall i: nat | IsFirstPending(s.jobs[j], i) ensures i == rest[0] { assert i in rest; }
    } else {
      forall i: nat | IsFirstPending(s.jobs[j], i) ensures i in rest {}
    }
  }

  /** A job that a tick takes up has its first pending item tried at once, or is done without one. */
  lemma {:induction false} TickTries(s: State, succeeds: nat -> bool, j: nat)
    requires Inv(s) && Defined(s) && j < |s.jobs| && j !in s.running && j in Step(s, Tick(succeeds)).running
    ensures var n := Step(s, Tick(succeeds));
            && j < |n.jobs|
            && (forall i: nat :: IsFirstPending(s.jobs[j], i) ==> Tried(s.jobs[j], n.jobs[j], i, succeeds(j)) && j in n.drivers)
            && (NothingPending(s.jobs[j]) ==> n.jobs[j] == s.jobs[j].(status := JobDone))
  {
    var items := s.jobs[j].items;
    BeginAllBegins(s, RunningJobs(s.jobs, |s.jobs|, 50), succeeds, j);
    assert j !in s.cancelled by { CancelledAreNot(s, succeeds, j); }
    hide RunningJobs, BeginAll, Inv;
    forall i: nat | IsFirstPending(s.jobs[j], i) ensures PendingItems(items, |items|) != [] && i == PendingItems(items, |items|)[0] {
      assert i in PendingItems(items, |items|);
      FirstPending(items, |items|);
    }
    if PendingItems(items, |items|) != [] { assert PendingItems(items, |items|)[0] in PendingItems(items, |items|); }
  }

  lemma {:induction false} CancelledAreNot(s: State, succeeds: nat -> bool, j: nat)
    requires Inv(s) && Defined(s) && j !in s.running && j in Step(s, Tick(succeeds)).running
    ensures j !in s.cancelled
  {
    BeginAllRuns(s, RunningJobs(s.jobs, |s.jobs|, 50), succeeds, j);
  }

  /** A driver that has returned frees its job for later ticks. */
  lemma {:induction false} SettleFrees(s: State, j: nat)
    requires Defined(s)
    ensures var n := Step(s, Settle(j)); n == s.(running := n.running) && forall k :: k in n.running <==> k in s.running && (k != j || j in s.drivers)
  {}

  /** In every run, an item is done exactly if the log has a successful re-signing of it, and
      failed exactly if it has a failed one. */
  lemma {:induction false} OutcomesRecorded(events: seq<Event>, j: nat, i: nat)
    ensures Inv(INIT)
    ensures var s := Run(INIT, events);
            j < |s.jobs| && i < |s.jobs[j].items| ==>
              && (s.jobs[j].items[i] == ItemDone <==> Attempt(j, i, true) in s.log)
              && (s.jobs[j].items[i] == ItemFailed <==> Attempt(j, i, false) in s.log)
  {
    var s := Run(INIT, events);
    assert HasItem(s, j, i, ItemDone) <==> Attempt(j, i, true) in s.log;
    assert HasItem(s, j, i, ItemFailed) <==> Attempt(j, i, false) in s.log;
  }

  /** In no event a re-signing of job j fails, or in none it succeeds. */
  predicate AllEnd(events: seq<Event>, j: nat, well: bool) {
    forall k :: 0 <= k < |events| ==> Concerns(events[k], j) ==> Succeeds(events[k], j) == well
  }

  ghost predicate NoItem(s: State, j: nat, st: ItemStatus) {
    j < |s.jobs| ==> forall i: nat :: i < |s.jobs[j].items| ==> s.jobs[j].items[i] != st
  }

  lemma {:induction false} NoOtherOutcome(events: seq<Event>, j: nat, well: bool)
    requires Inv(INIT) && AllEnd(events, j, well)
    ensures NoItem(Run(INIT, events), j, if well then ItemFailed else ItemDone)
  {
    if events != [] {
      hide Step, Inv;
      var init, e := events[..|events| - 1], events[|events| - 1];
      var s := Run(INIT, init);
      assert AllEnd(init, j, well) by { forall k | 0 <= k < |init| ensures Concerns(init[k], j) ==> Succeeds(init[k], j) == well { assert init[k] == events[k]; } }
      NoOtherOutcome(init, j, well);
      InvDefined(s);
      if j < |s.jobs| {
        StepMovesItems(s, e, j);
        var after := Step(s, e).jobs[j];
        forall i: nat | i < |after.items| ensures after.items[i] != (if well then ItemFailed else ItemDone) {
          assert ItemMoves(s.jobs[j], after, e, j, i);
        }
      } else {
        NewItemsPending(s, e, j);
      }
    }
  }

  lemma {:induction false} NewItemsPending(s: State, e: Event, j: nat)
    requires Defined(s) && |s.jobs| <= j
    ensures NoItem(Step(s, e), j, ItemFailed) && NoItem(Step(s, e), j, ItemDone)
  {}

  /** Whatever restarts and cancellations a run has: if every re-signing of a job succeeds, none
      of its items fails, it does not end `failed`, and `done` means all of them. */
  lemma {:induction false} AllSucceeded(events: seq<Event>, j: nat)
    requires AllEnd(events, j, true)
    ensures Inv(INIT)
    ensures var s := Run(INIT, events);
            j < |s.jobs| ==>
              s.jobs[j].failed == 0 && s.jobs[j].status != JobFailed && (s.jobs[j].status == JobDone ==> s.jobs[j].done == s.jobs[j].total)
  {
    var s := Run(INIT, events);
    NoOtherOutcome(events, j, true);
    WorkConserved(events, j);
    FinishedMeansNothingPending(events, j);
    FailedMeansAllFailed(events, j);
    if j < |s.jobs| { CountNone(s.jobs[j].items, ItemFailed); }
  }

  /** If none succeeds, nothing is counted as done. */
  lemma {:induction false} NoneSucceeded(events: seq<Event>, j: nat)
    requires AllEnd(events, j, false)
    ensures Inv(INIT)
    ensures var s := Run(INIT, events);
            j < |s.jobs| ==> s.jobs[j].done == 0 && (s.jobs[j].status in {JobDone, JobFailed} ==> s.jobs[j].failed == s.jobs[j].total)
  {
    var s := Run(INIT, events);
    NoOtherOutcome(events, j, false);
    WorkConserved(events, j);
    FinishedMeansNothingPending(events, j);
    if j < |s.jobs| { CountNone(s.jobs[j].items, ItemDone); }
  }

  // ---- which jobs a tick takes up ----

  /** The running jobs that were created after job j. */
  function NewerRunning(jobs: seq<Job>, j: nat, n: nat): set<nat>
    requires n <= |jobs|
  {
    set k: nat | j < k < n && jobs[k].status == Running
  }

  lemma {:induction false} ListedIff(jobs: seq<Job>, n: nat, limit: nat, j: nat)
    requires n <= |jobs|
    ensures j in RunningJobs(jobs, n, limit) <==> j < n && jobs[j].status == Running && |NewerRunning(jobs, j, n)| < limit
    decreases n
  {
    if n > 0 {
      var last := n - 1;
      if j < last {
        assert NewerRunning(jobs, j, n) == NewerRunning(jobs, j, last) + if jobs[last].status == Running then {last} else {};
        assert last !in NewerRunning(jobs, j, last);
      } else {
        assert NewerRunning(jobs, j, n) == {};
      }
      if limit > 0 {
        ListedIff(jobs, last, if jobs[last].status == Running then limit - 1 else limit, j);
      }
    }
  }

  lemma {:induction false} BeginAllRuns(s: State, list: seq<nat>, succeeds: nat -> bool, j: nat)
    requires forall k :: k in list ==> k < |s.jobs|
    ensures var n := BeginAll(s, list, succeeds);
            n.cancelled == s.cancelled && (j in n.running <==> j in s.running || (j in list && j !in s.cancelled))
  {
    if list != [] {
      var init, last := list[..|list| - 1], list[|list| - 1];
      assert last in list && forall k :: k in init ==> k in list;
      BeginAllRuns(s, init, succeeds, j);
      assert j in list <==> j in init || j == last;
    }
  }

  /** In every run a tick takes up exactly the running jobs that nobody drives, of the fifty
      newest running ones. */
  lemma {:induction false} TickTakesUp(events: seq<Event>, succeeds: nat -> bool, j: nat)
    ensures Inv(INIT) && Defined(Run(INIT, events))
    ensures var s := Run(INIT, events);
            var n := Step(s, Tick(succeeds));
            j in n.running && j !in s.running <==>
            j < |s.jobs| && s.jobs[j].status == Running && j !in s.running && |NewerRunning(s.jobs, j, |s.jobs|)| < 50
  {
    var s := Run(INIT, events);
    InvDefined(s);
    ListedIff(s.jobs, |s.jobs|, 50, j);
    BeginAllRuns(s, RunningJobs(s.jobs, |s.jobs|, 50), succeeds, j);
    assert j in s.cancelled ==> j < |s.jobs| && s.jobs[j].status == Cancelled;
  }

  /** A new job: running, nothing done, one pending item per certificate, its rate in bounds. */
  lemma {:induction false} StartedJob(s: State, certs: nat, rate: Option<int>)
    requires Defined(s)
    ensures var job := Step(s, StartJob(certs, rate)).jobs[|s.jobs|];
            && Step(s, StartJob(certs, rate)) == s.(jobs := s.jobs + [job])
            && job.status == Running && job.total == certs && job.done == job.failed == 0
            && |job.items| == certs && NothingTried(job)
            && job.rate == (if rate.None? then 10 else if rate.value < 1 then 1 else if 200 < rate.value then 200 else rate.value)
  {}

  predicate NothingTried(job: Job) {
    forall i :: 0 <= i < |job.items| ==> job.items[i] == Pending
  }
}
