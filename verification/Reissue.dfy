/** Re-signing certificates in the background: acme-server/src/server/reissueWorker.ts and
    the job rows of acme-server/src/server/repos.ts. */
module Reissue {
  import opened Wrappers

  datatype JobStatus = Running | JobDone | JobFailed | Cancelled

  datatype ItemStatus = Pending | ItemDone | ItemFailed

  /** A job row with the rows of its items. Jobs are numbered in the order of creation. */
  datatype Job = Job(status: JobStatus, total: nat, done: nat, failed: nat, rate: int, items: seq<ItemStatus>)

  /** `drivers` holds, for each job whose driver is waiting on its timer, the items it has
      still to look at; `log` the calls of resignOne with their outcomes, in order. */
  datatype State = State(jobs: seq<Job>, running: set<nat>, cancelled: set<nat>, drivers: map<nat, seq<nat>>,
                         log: seq<Attempt>)

  /** resignOne was called for the item, and returned or threw. */
  datatype Attempt = Attempt(job: nat, item: nat, ok: bool)

  const INIT := State([], {}, {}, map[], [])

  /** Math.max(1, Math.min(rate ?? 10, 200)) */
  function ClampRate(rate: Option<int>): (r: int)
    ensures 1 <= r <= 200
    ensures rate.Some? ==> r == (if 200 < rate.value then 200 else if rate.value < 1 then 1 else rate.value)
    ensures rate.None? ==> r == 10
  {
    var wanted := if rate.Some? then rate.value else 10;
    if wanted > 200 then 200 else if wanted < 1 then 1 else wanted
  }

  /** The pause after each item is never zero, so every item ends in a suspension. */
  function DelayMs(rate: int): (ms: int)
    requires 1 <= rate <= 200
    ensures 5 <= ms <= 1000 && ms * rate <= 1000 < (ms + 1) * rate
  {
    1000 / rate
  }

  function Count(items: seq<ItemStatus>, st: ItemStatus): nat {
    if items == [] then 0 else Count(items[..|items| - 1], st) + if items[|items| - 1] == st then 1 else 0
  }

  /** Positions of the pending items among the first n. */
  function PendingItems(items: seq<ItemStatus>, n: nat): (r: seq<nat>)
    requires n <= |items|
    ensures forall i: nat :: i in r <==> i < n && items[i] == Pending
  {
    if n == 0 then [] else PendingItems(items, n - 1) + if items[n - 1] == Pending then [n - 1] else []
  }

  /** At most `limit` running jobs among the first n, newest first. */
  function RunningJobs(jobs: seq<Job>, n: nat, limit: nat): (r: seq<nat>)
    requires n <= |jobs|
    ensures forall j :: j in r ==> j < n && jobs[j].status == Running
    decreases n
  {
    if n == 0 || limit == 0 then []
    else if jobs[n - 1].status == Running then [n - 1] + RunningJobs(jobs, n - 1, limit - 1)
    else RunningJobs(jobs, n - 1, limit)
  }

  // ---- the steps between suspension points ----

  datatype Event =
    | StartJob(certs: nat, rate: Option<int>)
    | Tick(succeeds: nat -> bool)           // does the first item of each job re-sign?
    | Resume(job: nat, ok: bool)      // the driver's timer fires
    | Settle(job: nat)                      // the finally block of a driver that returned
    | Cancel(job: nat)
    | Restart                               // the process starts again; only rows survive

  /** One item is re-signed, or fails to be. */
  function Process(s: State, j: nat, rest: seq<nat>, item: nat, ok: bool): State
    requires j < |s.jobs| && item < |s.jobs[j].items|
  {
    var job := s.jobs[j];
    var n := job.(items := job.items[item := if ok then ItemDone else ItemFailed],
                  done := job.done + (if ok then 1 else 0), failed := job.failed + if ok then 0 else 1);
    s.(jobs := s.jobs[j := n], drivers := s.drivers[j := rest], log := s.log + [Attempt(j, item, ok)])
  }

  function Begin(s: State, j: nat, ok: bool): State
    requires j < |s.jobs|
  {
    if j in s.running || j in s.cancelled then s
    else
      var pending := PendingItems(s.jobs[j].items, |s.jobs[j].items|);
      var claimed := s.(running := s.running + {j});
      if pending == [] then claimed.(jobs := s.jobs[j := s.jobs[j].(status := JobDone)])
      else
        assert pending[0] in pending;
        Process(claimed, j, pending[1..], pending[0], ok)
  }

  function BeginAll(s: State, list: seq<nat>, succeeds: nat -> bool): (r: State)
    requires forall j :: j in list ==> j < |s.jobs|
    ensures |r.jobs| == |s.jobs|
  {
    if list == [] then s
    else
      var init, last := list[..|list| - 1], list[|list| - 1];
      assert last in list && forall j :: j in init ==> j in list;
      Begin(BeginAll(s, init, succeeds), last, succeeds(last))
  }

  function Finalize(job: Job): Job {
    if job.status != Running then job
    else job.(status := if job.failed > 0 && job.done == 0 then JobFailed else JobDone)
  }

  /** What the drivers refer to exists. */
  ghost predicate Defined(s: State) {
    forall j :: j in s.drivers ==> j < |s.jobs| && forall i: nat :: i in s.drivers[j] ==> i < |s.jobs[j].items|
  }

  function Wake(s: State, j: nat, ok: bool): State
    requires Defined(s) && j in s.drivers
  {
    var rest := s.drivers[j];
    if rest == [] then s.(drivers := s.drivers - {j}, jobs := s.jobs[j := Finalize(s.jobs[j])])
    else if j in s.cancelled then s.(drivers := s.drivers - {j})
    else
      assert rest[0] in rest;
      Process(s, j, rest[1..], rest[0], ok)
  }

  function NewJob(certs: nat, rate: Option<int>): Job {
    Job(Running, certs, 0, 0, ClampRate(rate), seq(certs, i => Pending))
  }

  predicate CanCancel(s: State, j: nat) {
    j < |s.jobs| && s.jobs[j].status == Running
  }

  function Step(s: State, e: Event): State
    requires Defined(s)
  {
    match e
    case StartJob(certs, rate) => s.(jobs := s.jobs + [NewJob(certs, rate)])
    case Tick(succeeds) => BeginAll(s, RunningJobs(s.jobs, |s.jobs|, 50), succeeds)
    case Resume(j, ok) => if j in s.drivers then Wake(s, j, ok) else s
    case Settle(j) => if j in s.drivers then s else s.(running := s.running - {j})
    case Cancel(j) =>
      if !CanCancel(s, j) then s
      else s.(cancelled := s.cancelled + {j}, jobs := s.jobs[j := s.jobs[j].(status := Cancelled)])
    case Restart => s.(running := {}, cancelled := {}, drivers := map[])
  }

  // ---- the worker ----

  class ReissueWorker {
    var jobs: seq<Job>
    var running: set<nat>
    var cancelled: set<nat>
    var drivers: map<nat, seq<nat>>
    ghost var log: seq<Attempt>

    constructor ()
      ensures Model() == INIT
    {
      jobs, running, cancelled, drivers, log := [], {}, {}, map[], [];
    }

    ghost function Model(): State
      reads this
    {
      State(jobs, running, cancelled, drivers, log)
    }

    method Start(certs: nat, rate: Option<int>) returns (id: nat)
      requires Defined(Model())
      modifies this
      ensures Model() == Step(old(Model()), StartJob(certs, rate))
      ensures id == |old(jobs)|
    {
      id := |jobs|;
      jobs := jobs + [NewJob(certs, rate)];
    }

    method CancelJob(j: nat) returns (ok: bool)
      requires Defined(Model())
      modifies this
      ensures Model() == Step(old(Model()), Cancel(j)) && ok == CanCancel(old(Model()), j)
    {
      if |jobs| <= j || jobs[j].status != Running { return false; }
      cancelled := cancelled + {j};
      jobs := jobs[j := jobs[j].(status := Cancelled)];
      ok := true;
    }

    /** updateReissueItem and incReissueJobCounter after one call of resignOne. */
    method ProcessItem(j: nat, rest: seq<nat>, item: nat, ok: bool)
      requires j < |jobs| && item < |jobs[j].items|
      modifies this
      ensures Model() == Process(old(Model()), j, rest, item, ok)
    {
      log := log + [Attempt(j, item, ok)];
      var job := jobs[j];
      if ok {
        jobs := jobs[j := job.(items := job.items[item := ItemDone], done := job.done + 1)];
      } else {
        jobs := jobs[j := job.(items := job.items[item := ItemFailed], failed := job.failed + 1)];
      }
      drivers := drivers[j := rest];
    }

    /** driveJob up to its first pause. */
    method Drive(j: nat, ok: bool)
      requires j < |jobs| && j !in running && j !in cancelled
      modifies this
      ensures Model() == Begin(old(Model()), j, ok)
    {
      running := running + {j};
      var pending := PendingItems(jobs[j].items, |jobs[j].items|);
      if pending == [] {
        jobs := jobs[j := jobs[j].(status := JobDone)];
        return;
      }
      assert pending[0] in pending;
      ProcessItem(j, pending[1..], pending[0], ok);
    }

    method TickJobs(succeeds: nat -> bool)
      requires Defined(Model())
      modifies this
      ensures Model() == Step(old(Model()), Tick(succeeds))
    {
      var list := RunningJobs(jobs, |jobs|, 50);
      ghost var s0 := Model();
      for k := 0 to |list|
        invariant |jobs| == |s0.jobs|
        invariant forall j :: j in list[..k] ==> j in list
        invariant Model() == BeginAll(s0, list[..k], succeeds)
      {
        var j := list[k];
        assert j in list && list[..k + 1] == list[..k] + [j];
        if j !in running && j !in cancelled { Drive(j, succeeds(j)); }
      }
      assert list[..|list|] == list;
    }

    /** driveJob from one pause to the next, or to its end. */
    method ResumeDriver(j: nat, ok: bool)
      requires Defined(Model()) && j in drivers
      modifies this
      ensures Model() == Step(old(Model()), Resume(j, ok))
    {
      var rest := drivers[j];
      if rest == [] {
        var latest := jobs[j];
        if latest.status == Running {
          jobs := jobs[j := latest.(status := if latest.failed > 0 && latest.done == 0 then JobFailed else JobDone)];
        }
        drivers := drivers - {j};
      } else if j in cancelled {
        drivers := drivers - {j};
      } else {
        assert rest[0] in rest;
        ProcessItem(j, rest[1..], rest[0], ok);
      }
    }

    method SettleDriver(j: nat)
      requires Defined(Model())
      modifies this
      ensures Model() == Step(old(Model()), Settle(j))
    {
      if j !in drivers { running := running - {j}; }
    }
  }
}
