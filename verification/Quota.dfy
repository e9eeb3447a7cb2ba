/** Admission of run requests against a user's quota.
  *
  * A request is admitted when the quota covers what runs, what has an unfinished job and
  * the instance itself.  What must not pass the quota is what runs or waits to run.  A
  * request never takes it past the quota; StepBoundIff says which other events do, and
  * BoundIff that over a run they are the only ones.  They do not occur while an instance
  * starts only when its latest job is an unfinished run (BoundKept); LateStartExceeds
  * shows one that does.
  */
module Quota {
  import opened Options

  datatype Kind = Cpu | Memory | Storage | Instances

  /** A granted resource with the time it is good for. */
  datatype Grant = Grant(kind: Kind, size: nat, effect: int, expired: int)

  datatype Profile = Profile(cpu: nat, memory: nat, storage: nat, instances: nat, grants: seq<Grant>)

  /** action and status of the latest job of an instance, and when it was made. */
  datatype Job = Job(action: int, status: int, created: int)

  /** storages are the sizes of its storages. */
  datatype Instance = Instance(cpus: nat, memory: nat, storages: seq<nat>, status: int, job: Option<Job>)

  const RUN_INSTANCE: int := 201
  const STOP_INSTANCE: int := 202

  const JOB_INITIATED: int := 100
  const JOB_FAILED: int := 311

  /** Job.completed */
  predicate Completed(status: int) {
    300 <= status < 400 || status >= 600
  }

  /** Job.canstop */
  predicate CanStop(status: int) {
    status >= 300
  }

  /** Instance.is_running */
  predicate Running(i: Instance) {
    i.status in {3, 4, 5}
  }

  /** An unfinished run is the latest job. */
  predicate Starting(i: Instance) {
    i.job.Some? && i.job.value.action == RUN_INSTANCE && !Completed(i.job.value.status)
  }

  predicate Busy(i: Instance) {
    i.job.Some? && !Completed(i.job.value.status)
  }

  function Size(i: Instance, kind: Kind): nat {
    match kind
    case Cpu => i.cpus
    case Memory => i.memory
    case Storage => Sum(i.storages)
    case Instances => 1
  }

  /** Storage and the instance itself are taken whether or not it runs. */
  predicate Takes(i: Instance, kind: Kind) {
    Running(i) || kind.Storage? || kind.Instances?
  }

  // -------------------------------------------------------------------------- sums

  function Sum(sizes: seq<nat>): nat {
    if sizes == [] then 0 else Sum(sizes[..|sizes| - 1]) + sizes[|sizes| - 1]
  }

  function Used(all: seq<Instance>, kind: Kind): nat {
    if all == [] then 0
    else Used(all[..|all| - 1], kind) + if Takes(all[|all| - 1], kind) then Size(all[|all| - 1], kind) else 0
  }

  function Waiting(all: seq<Instance>, kind: Kind): nat {
    if all == [] then 0
    else Waiting(all[..|all| - 1], kind) + if Busy(all[|all| - 1]) then Size(all[|all| - 1], kind) else 0
  }

  /** What runs or is about to run. */
  function Committed(all: seq<Instance>, kind: Kind): nat {
    if all == [] then 0
    else Committed(all[..|all| - 1], kind) + Share(all[|all| - 1], kind)
  }

  function Share(i: Instance, kind: Kind): nat {
    if Running(i) || Starting(i) then Size(i, kind) else 0
  }

  predicate Granted(g: Grant, kind: Kind, now: int) {
    g.kind == kind && g.effect < now < g.expired
  }

  function Grants(grants: seq<Grant>, kind: Kind, now: int): nat {
    if grants == [] then 0
    else
      var g := grants[|grants| - 1];
      Grants(grants[..|grants| - 1], kind, now) + if Granted(g, kind, now) then g.size else 0
  }

  function Base(p: Profile, kind: Kind): nat {
    match kind
    case Cpu => p.cpu
    case Memory => p.memory
    case Storage => p.storage
    case Instances => p.instances
  }

  function Total(p: Profile, kind: Kind, now: int): nat {
    Base(p, kind) + Grants(p.grants, kind, now)
  }

  // ---------------------------------------------------------------- the accounting

  /** get_resource_total */
  method ResourceTotal(p: Profile, now: int) returns (cpu: nat, memory: nat, storage: nat, instances: nat)
    ensures cpu == Total(p, Cpu, now) && memory == Total(p, Memory, now)
    ensures storage == Total(p, Storage, now) && instances == Total(p, Instances, now)
  {
    cpu, memory, storage, instances := p.cpu, p.memory, p.storage, p.instances;
    for k := 0 to |p.grants|
      invariant cpu == p.cpu + Grants(p.grants[..k], Cpu, now)
      invariant memory == p.memory + Grants(p.grants[..k], Memory, now)
      invariant storage == p.storage + Grants(p.grants[..k], Storage, now)
      invariant instances == p.instances + Grants(p.grants[..k], Instances, now)
    {
      var g := p.grants[k];
      assert p.grants[..k + 1][..k] == p.grants[..k];
      if g.effect < now < g.expired {
        match g.kind
        case Cpu => cpu := cpu + g.size;
        case Memory => memory := memory + g.size;
        case Storage => storage := storage + g.size;
        case Instances => instances := instances + g.size;
      }
    }
    assert p.grants[..|p.grants|] == p.grants;
  }

  /** get_resource_used */
  method ResourceUsed(all: seq<Instance>) returns (cpu: nat, memory: nat, storage: nat, instances: nat)
    ensures cpu == Used(all, Cpu) && memory == Used(all, Memory)
    ensures storage == Used(all, Storage) && instances == Used(all, Instances) == |all|
  {
    cpu, memory, storage, instances := 0, 0, 0, 0;
    for k := 0 to |all|
      invariant cpu == Used(all[..k], Cpu) && memory == Used(all[..k], Memory)
      invariant storage == Used(all[..k], Storage) && instances == Used(all[..k], Instances) == k
    {
      assert all[..k + 1][..k] == all[..k];
      if Running(all[k]) {
        cpu := cpu + all[k].cpus;
        memory := memory + all[k].memory;
      }
      instances := instances + 1;
      var sizes := all[k].storages;
      for s := 0 to |sizes|
        invariant storage == Used(all[..k], Storage) + Sum(sizes[..s])
      {
        assert sizes[..s + 1][..s] == sizes[..s];
        storage := storage + sizes[s];
      }
      assert sizes[..|sizes|] == sizes;
    }
    assert all[..|all|] == all;
  }

  /** cpu_remain, memory_remain, storage_remain and instance_remain: what is left, or
    * nothing. */
  method Remain(p: Profile, all: seq<Instance>, kind: Kind, now: int) returns (left: nat)
    ensures Used(all, kind) <= Total(p, kind, now) ==> left + Used(all, kind) == Total(p, kind, now)
    ensures Used(all, kind) >= Total(p, kind, now) ==> left == 0
  {
    var total := Base(p, kind);
    for k := 0 to |p.grants|
      invariant total == Base(p, kind) + Grants(p.grants[..k], kind, now)
    {
      var g := p.grants[k];
      assert p.grants[..k + 1][..k] == p.grants[..k];
      if g.kind == kind && g.effect < now < g.expired {
        total := total + g.size;
      }
    }
    assert p.grants[..|p.grants|] == p.grants;
    var used := 0;
    for k := 0 to |all|
      invariant used == Used(all[..k], kind)
    {
      assert all[..k + 1][..k] == all[..k];
      if Takes(all[k], kind) {
        used := used + Size(all[k], kind);
      }
    }
    assert all[..|all|] == all;
    left := if total > used then total - used else 0;
  }

  // --------------------------------------------------------------------- admission

  /** run_job refuses while the previous job may still matter. */
  predicate Refused(i: Instance, action: int, now: int) {
    i.job.Some? &&
    var j := i.job.value;
    var timeout := j.created + 60;
    (!Completed(j.status) && !(action == STOP_INSTANCE && CanStop(j.status)) && timeout > now)
    || (j.status == JOB_FAILED && timeout > now)
  }

  /** run_job: the new job, which fails at once when the controller cannot be told. */
  function RunJob(i: Instance, action: int, now: int, told: bool): Instance {
    if Refused(i, action, now) then i
    else i.(job := Some(Job(action, if told then JOB_INITIATED else JOB_FAILED, now)))
  }

  predicate Fits(p: Profile, all: seq<Instance>, n: nat, kind: Kind, now: int)
    requires n < |all|
  {
    Total(p, kind, now) - Used(all, kind) - Waiting(all, kind) >= Size(all[n], kind)
  }

  /** LifeControl.run on instance n. */
  function RunRequest(p: Profile, all: seq<Instance>, n: nat, now: int, told: bool): seq<Instance>
    requires n < |all|
  {
    if !(Fits(p, all, n, Cpu, now) && Fits(p, all, n, Memory, now)) || Running(all[n]) then all
    else all[n := RunJob(all[n], RUN_INSTANCE, now, told)]
  }

  method Run(p: Profile, all: seq<Instance>, n: nat, now: int, told: bool) returns (r: seq<Instance>)
    requires n < |all|
    ensures r == RunRequest(p, all, n, now, told)
  {
    var cpuWait, memWait := 0, 0;
    for k := 0 to |all|
      invariant cpuWait == Waiting(all[..k], Cpu) && memWait == Waiting(all[..k], Memory)
    {
      assert all[..k + 1][..k] == all[..k];
      var j := all[k].job;
      if j.Some? && !Completed(j.value.status) {
        cpuWait := cpuWait + all[k].cpus;
        memWait := memWait + all[k].memory;
      }
    }
    assert all[..|all|] == all;
    var cpuTotal, memTotal, _, _ := ResourceTotal(p, now);
    var cpuUsed, memUsed, _, _ := ResourceUsed(all);
    var cpuRemain := cpuTotal - cpuUsed - cpuWait;
    var memRemain := memTotal - memUsed - memWait;
    if !(cpuRemain >= all[n].cpus && memRemain >= all[n].memory) {
      return all;
    }
    if Running(all[n]) {
      return all;
    }
    return all[n := RunJob(all[n], RUN_INSTANCE, now, told)];
  }

  /** What the sums count: one instance more adds its size to Used if it runs, or in any
    * case what it takes of storage and of the number of instances; and to Waiting if its
    * latest job has not come to an end. */
  lemma {:induction false} OneInstanceMore(all: seq<Instance>, i: Instance, kind: Kind)
    ensures Used([], kind) == 0 && Waiting([], kind) == 0
    ensures
      var size := match kind
        case Cpu => i.cpus case Memory => i.memory case Storage => Sum(i.storages) case Instances => 1;
      && Used(all + [i], kind) == Used(all, kind)
           + (if 3 <= i.status <= 5 || kind.Storage? || kind.Instances? then size else 0)
      && Waiting(all + [i], kind) == Waiting(all, kind)
           + (if i.job.Some? && (i.job.value.status < 300 || 400 <= i.job.value.status < 600) then size else 0)
  {
    assert (all + [i])[..|all|] == all;
  }

  lemma {:induction false} OneStorageMore(sizes: seq<nat>, size: nat)
    ensures Sum([]) == 0 && Sum(sizes + [size]) == Sum(sizes) + size
  {
    assert (sizes + [size])[..|sizes|] == sizes;
  }

  /** The quota is the profile's own and the size of every grant of that resource between
    * its two times. */
  lemma {:induction false} OneGrantMore(p: Profile, g: Grant, kind: Kind, now: int)
    ensures Total(p.(grants := p.grants + [g]), kind, now) == Total(p, kind, now)
      + (if g.kind == kind && g.effect < now && now < g.expired then g.size else 0)
    ensures Total(p.(grants := []), kind, now)
      == match kind
         case Cpu => p.cpu case Memory => p.memory case Storage => p.storage case Instances => p.instances
  {
    assert (p.grants + [g])[..|p.grants|] == p.grants;
  }

  /** run_job makes a job whenever the last one is a minute old.  Before that it does so if
    * the last one came to an end other than FAILED; and a stop also passes a job that is on
    * its way, from status 400 on. */
  lemma {:induction false} JobMadeIff(i: Instance, action: int, now: int, told: bool)
    ensures var r := RunJob(i, action, now, told);
      var made := i.(job := Some(Job(action, if told then 100 else 311, now)));
      match i.job
      case None => r == made
      case Some(last) =>
        && (now >= last.created + 60 ==> r == made)
        && (now < last.created + 60 && last.status == 311 ==> r == i)
        && (now < last.created + 60 && last.status < 300 ==> r == i)
        && (now < last.created + 60 && 300 <= last.status < 400 && last.status != 311 ==> r == made)
        && (now < last.created + 60 && 400 <= last.status < 600 ==> r == if action == 202 then made else i)
        && (now < last.created + 60 && last.status >= 600 ==> r == made)
  {
  }

  /** A request makes a run job, and nothing else, exactly when the instance does not run,
    * the quota less what is used and waiting covers it in CPUs and memory, and there is no
    * last job that is less than a minute old and unfinished or FAILED. */
  lemma {:induction false} RequestMadeIff(p: Profile, all: seq<Instance>, n: nat, now: int, told: bool)
    requires n < |all|
    ensures RunRequest(p, all, n, now, told) ==
      if && !(3 <= all[n].status <= 5)
         && Total(p, Cpu, now) >= Used(all, Cpu) + Waiting(all, Cpu) + all[n].cpus
         && Total(p, Memory, now) >= Used(all, Memory) + Waiting(all, Memory) + all[n].memory
         && (all[n].job.None? || now >= all[n].job.value.created + 60
             || (300 <= all[n].job.value.status < 400 && all[n].job.value.status != 311)
             || all[n].job.value.status >= 600)
      then all[n := all[n].(job := Some(Job(201, if told then 100 else 311, now)))]
      else all
  {
    hide Total, Used, Waiting;
  }

  // ------------------------------------------------------------------- whole runs

  /** Besides requests: a job of any kind is made, the controller moves a job on or sets
    * the status of an instance, a new instance is made. */
  datatype Event =
    | RunEvent(n: nat, now: int, told: bool)
    | JobEvent(n: nat, action: int, now: int, told: bool)
    | JobStatus(n: nat, status: int)
    | Becomes(n: nat, status: int)
    | Create(cpus: nat, memory: nat)

  function Step(p: Profile, all: seq<Instance>, e: Event): seq<Instance> {
    match e
    case RunEvent(n, now, told) => if n < |all| then RunRequest(p, all, n, now, told) else all
    case JobEvent(n, action, now, told) =>
      if n < |all| then all[n := RunJob(all[n], action, now, told)] else all
    case JobStatus(n, status) =>
      if n < |all| && all[n].job.Some? then all[n := all[n].(job := Some(all[n].job.value.(status := status)))] else all
    case Becomes(n, status) => if n < |all| then all[n := all[n].(status := status)] else all
    case Create(cpus, memory) => all + [Instance(cpus, memory, [], 1, None)]
  }

  /** The events that go past the limit: a run job made without admission, a finished run
    * opened again, and an instance that starts to run, each for an instance that neither
    * ran nor waited to run and is larger than what is left. */
  predicate Exceeds(all: seq<Instance>, e: Event, kind: Kind, limit: nat) {
    match e
    case RunEvent(_, _, _) => false
    case JobEvent(n, action, now, told) =>
      n < |all| && Excess(all, n, kind, limit)
      && action == RUN_INSTANCE && told && !Refused(all[n], action, now)
    case JobStatus(n, status) =>
      n < |all| && Excess(all, n, kind, limit)
      && all[n].job.Some? && all[n].job.value.action == RUN_INSTANCE && !Completed(status)
    case Becomes(n, status) => n < |all| && Excess(all, n, kind, limit) && status in {3, 4, 5}
    case Create(_, _) => false
  }

  predicate Excess(all: seq<Instance>, n: nat, kind: Kind, limit: nat)
    requires n < |all|
  {
    !Running(all[n]) && !Starting(all[n]) && Size(all[n], kind) > limit - Committed(all, kind)
  }

  /** An instance starts only while its latest job is an unfinished run, finished jobs are
    * not opened again, and run jobs come from admission. */
  predicate Possible(all: seq<Instance>, e: Event) {
    match e
    case RunEvent(n, _, _) => n < |all|
    case JobEvent(n, action, _, _) => n < |all| && action != RUN_INSTANCE
    case JobStatus(n, _) => n < |all| && Busy(all[n])
    case Becomes(n, status) => n < |all| && (status in {3, 4, 5} ==> Starting(all[n]))
    case Create(_, _) => true
  }

  lemma {:induction false} CommittedUpdate(all: seq<Instance>, n: nat, i: Instance, kind: Kind)
    requires n < |all|
    ensures Committed(all[n := i], kind) == Committed(all, kind) - Share(all[n], kind) + Share(i, kind)
    decreases |all|
  {
    hide Share;
    var m := |all| - 1;
    if n < m {
      CommittedUpdate(all[..m], n, i, kind);
      assert all[n := i][..m] == all[..m][n := i];
    } else {
      assert all[n := i][..m] == all[..m];
    }
  }

  lemma {:induction false} CommittedIsCounted(all: seq<Instance>, kind: Kind)
    ensures Committed(all, kind) <= Used(all, kind) + Waiting(all, kind)
    decreases |all|
  {
    if all != [] {
      CommittedIsCounted(all[..|all| - 1], kind);
    }
  }

  /** Instance n gets another status or job. */
  lemma {:induction false} ReplacedIff(all: seq<Instance>, n: nat, i: Instance, kind: Kind, limit: nat)
    requires n < |all| && Committed(all, kind) <= limit && Size(i, kind) == Size(all[n], kind)
    ensures Committed(all[n := i], kind) <= limit <==> !((Running(i) || Starting(i)) && Excess(all, n, kind, limit))
  {
    hide Running, Starting, Size;
    CommittedUpdate(all, n, i, kind);
  }

  /** A request within the quota. */
  lemma {:induction false} RequestBound(p: Profile, all: seq<Instance>, n: nat, now: int, told: bool, kind: Kind,
          limit: nat)
    requires (kind.Cpu? || kind.Memory?) && n < |all| && Committed(all, kind) <= limit
    requires Total(p, kind, now) <= limit
    ensures Committed(RunRequest(p, all, n, now, told), kind) <= limit
  {
    hide Total, Refused, Used, Waiting, Running, Starting, Committed;
    CommittedIsCounted(all, kind);
    ReplacedIff(all, n, RunJob(all[n], RUN_INSTANCE, now, told), kind, limit);
  }

  /** One event, with a quota of at most limit when it is a run request: the commitment
    * stays within the limit exactly when the event does not exceed. */
  lemma {:induction false} StepBoundIff(p: Profile, all: seq<Instance>, e: Event, kind: Kind, limit: nat)
    requires (kind.Cpu? || kind.Memory?) && Committed(all, kind) <= limit
    requires e.RunEvent? ==> Total(p, kind, e.now) <= limit
    ensures Committed(Step(p, all, e), kind) <= limit <==> !Exceeds(all, e, kind, limit)
  {
    hide Total, Refused, Committed, RunRequest;
    match e
    case RunEvent(n, now, told) =>
      if n < |all| {
        RequestBound(p, all, n, now, told, kind, limit);
      }
    case JobEvent(n, action, now, told) =>
      if n < |all| {
        ReplacedIff(all, n, RunJob(all[n], action, now, told), kind, limit);
      }
    case JobStatus(n, status) =>
      if n < |all| && all[n].job.Some? {
        ReplacedIff(all, n, all[n].(job := Some(all[n].job.value.(status := status))), kind, limit);
      }
    case Becomes(n, status) =>
      if n < |all| {
        ReplacedIff(all, n, all[n].(status := status), kind, limit);
      }
    case Create(cpus, memory) => CreatesNothing(all, Instance(cpus, memory, [], 1, None), kind);
  }

  lemma {:induction false} CreatesNothing(all: seq<Instance>, i: Instance, kind: Kind)
    requires !Running(i) && !Starting(i)
    ensures Committed(all + [i], kind) == Committed(all, kind)
  {
    assert (all + [i])[..|all|] == all;
  }

  function StepAll(p: Profile, all: seq<Instance>, events: seq<Event>): seq<Instance>
    decreases |events|
  {
    if events == [] then all
    else Step(p, StepAll(p, all, events[..|events| - 1]), events[|events| - 1])
  }

  /** The instances after k events. */
  function After(p: Profile, all: seq<Instance>, events: seq<Event>, k: nat): seq<Instance>
    requires k <= |events|
  {
    StepAll(p, all, events[..k])
  }

  lemma {:induction false} AfterNext(p: Profile, all: seq<Instance>, events: seq<Event>, k: nat)
    requires k < |events|
    ensures After(p, all, events, k + 1) == Step(p, After(p, all, events, k), events[k])
  {
    hide Step;
    assert events[..k + 1][..k] == events[..k];
  }

  predicate Within(p: Profile, all: seq<Instance>, events: seq<Event>, k: nat, kind: Kind, limit: nat)
    requires k <= |events|
  {
    Committed(After(p, all, events, k), kind) <= limit
  }

  predicate ExceedsAt(p: Profile, all: seq<Instance>, events: seq<Event>, k: nat, kind: Kind, limit: nat)
    requires k < |events|
  {
    Exceeds(After(p, all, events, k), events[k], kind, limit)
  }

  /** Over any run the commitment stays within the largest quota a request was checked
    * against, exactly when no event exceeds. */
  lemma {:induction false} BoundIff(p: Profile, all: seq<Instance>, events: seq<Event>, kind: Kind, limit: nat)
    requires (kind.Cpu? || kind.Memory?) && Committed(all, kind) <= limit
    requires forall e | e in events && e.RunEvent? :: Total(p, kind, e.now) <= limit
    ensures (forall k: nat | k <= |events| :: Within(p, all, events, k, kind, limit))
       <==> (forall k: nat | k < |events| :: !ExceedsAt(p, all, events, k, kind, limit))
  {
    hide Committed, Step, Exceeds, StepAll;
    StartsWithin(p, all, events, kind, limit);
    forall k: nat | k < |events| && Within(p, all, events, k, kind, limit)
      ensures Within(p, all, events, k + 1, kind, limit) <==> !ExceedsAt(p, all, events, k, kind, limit)
    {
      AfterNext(p, all, events, k);
      assert events[k] in events;
      StepBoundIff(p, After(p, all, events, k), events[k], kind, limit);
    }
    if forall k: nat | k < |events| :: !ExceedsAt(p, all, events, k, kind, limit) {
      for k := 0 to |events|
        invariant forall j: nat | j <= k :: Within(p, all, events, j, kind, limit)
      {
        assert Within(p, all, events, k, kind, limit) && !ExceedsAt(p, all, events, k, kind, limit);
      }
    } else {
      var k: nat :| k < |events| && ExceedsAt(p, all, events, k, kind, limit);
      assert Within(p, all, events, k, kind, limit) ==> !Within(p, all, events, k + 1, kind, limit);
    }
  }

  lemma {:induction false} StartsWithin(p: Profile, all: seq<Instance>, events: seq<Event>, kind: Kind, limit: nat)
    requires Committed(all, kind) <= limit
    ensures Within(p, all, events, 0, kind, limit)
  {
    assert events[..0] == [];
  }

  ghost predicate PossibleRun(p: Profile, all: seq<Instance>, events: seq<Event>) {
    forall k: nat | k < |events| :: Possible(After(p, all, events, k), events[k])
  }

  lemma {:induction false} PossibleIsCalm(all: seq<Instance>, e: Event, kind: Kind, limit: nat)
    requires Possible(all, e)
    ensures !Exceeds(all, e, kind, limit)
  {
    hide Committed;
  }

  /** In particular over every run in which instances start when told to. */
  lemma {:induction false} BoundKept(p: Profile, all: seq<Instance>, events: seq<Event>, kind: Kind, limit: nat)
    requires (kind.Cpu? || kind.Memory?) && Committed(all, kind) <= limit && PossibleRun(p, all, events)
    requires forall e | e in events && e.RunEvent? :: Total(p, kind, e.now) <= limit
    ensures Committed(StepAll(p, all, events), kind) <= limit
  {
    hide Committed, Step, StepAll, Exceeds, Possible;
    forall k: nat | k < |events| ensures !ExceedsAt(p, all, events, k, kind, limit) {
      PossibleIsCalm(After(p, all, events, k), events[k], kind, limit);
    }
    BoundIff(p, all, events, kind, limit);
    assert Within(p, all, events, |events|, kind, limit);
    Everything(p, all, events);
  }

  // a quota of two CPUs; an instance of one and one of two
  const SmallQuota: Profile := Profile(2, 10, 0, 0, [])
  const One: Instance := Instance(1, 1, [], 2, None)
  const Two: Instance := Instance(2, 1, [], 2, None)
  const LateRun: seq<Event> :=
    [RunEvent(0, 0, true), RunEvent(0, 100, false), RunEvent(1, 200, true), Becomes(1, 4)]

  function WithJob(i: Instance, status: int, created: int): Instance {
    i.(job := Some(Job(RUN_INSTANCE, status, created)))
  }

  lemma {:induction false} LateRequests()
    ensures Step(SmallQuota, [One, Two], LateRun[0]) == [WithJob(One, JOB_INITIATED, 0), Two]
    ensures Step(SmallQuota, [WithJob(One, JOB_INITIATED, 0), Two], LateRun[1]) == [WithJob(One, JOB_FAILED, 100), Two]
    ensures Step(SmallQuota, [WithJob(One, JOB_FAILED, 100), Two], LateRun[2])
         == [WithJob(One, JOB_FAILED, 100), WithJob(Two, JOB_INITIATED, 200)]
  {
    var told, failed := WithJob(One, JOB_INITIATED, 0), WithJob(One, JOB_FAILED, 100);
    forall kind ensures Used([One, Two], kind) == Used([told, Two], kind) == Used([failed, Two], kind)
                     && (kind.Cpu? || kind.Memory? ==> Used([One, Two], kind) == 0)
                     && Waiting([One, Two], kind) == Waiting([failed, Two], kind) == 0
                     && Waiting([told, Two], kind) == Size(One, kind)
    {
      TwoInstances(One, Two, kind);
      TwoInstances(told, Two, kind);
      TwoInstances(failed, Two, kind);
    }
  }

  lemma {:induction false} LateStates()
    ensures After(SmallQuota, [One, Two], LateRun, 0) == [One, Two]
    ensures After(SmallQuota, [One, Two], LateRun, 1) == [WithJob(One, JOB_INITIATED, 0), Two]
    ensures After(SmallQuota, [One, Two], LateRun, 2) == [WithJob(One, JOB_FAILED, 100), Two]
    ensures After(SmallQuota, [One, Two], LateRun, 3)
         == [WithJob(One, JOB_FAILED, 100), WithJob(Two, JOB_INITIATED, 200)]
    ensures StepAll(SmallQuota, [One, Two], LateRun)
         == [WithJob(One, JOB_FAILED, 100), WithJob(Two, JOB_INITIATED, 200).(status := 4)]
  {
    hide StepAll, After, RunRequest;
    var all := [One, Two];
    Nothing(SmallQuota, all, LateRun);
    LateRequests();
    forall k: nat | k < 4
      ensures After(SmallQuota, all, LateRun, k + 1) == Step(SmallQuota, After(SmallQuota, all, LateRun, k), LateRun[k])
    {
      AfterNext(SmallQuota, all, LateRun, k);
    }
    assert After(SmallQuota, all, LateRun, 0 + 1) == [WithJob(One, JOB_INITIATED, 0), Two];
    assert After(SmallQuota, all, LateRun, 1 + 1) == [WithJob(One, JOB_FAILED, 100), Two];
    assert After(SmallQuota, all, LateRun, 2 + 1) == [WithJob(One, JOB_FAILED, 100), WithJob(Two, JOB_INITIATED, 200)];
    Everything(SmallQuota, all, LateRun);
    assert After(SmallQuota, all, LateRun, 3 + 1)
        == [WithJob(One, JOB_FAILED, 100), WithJob(Two, JOB_INITIATED, 200).(status := 4)];
  }

  /** How it happens: the first instance is told to run; asked again when the minute is
    * over, it gets a job that fails because the controller cannot be reached; now it
    * counts for nothing and the second is admitted and starts.  When the controller gets
    * to the first job after all, three CPUs are in use. */
  lemma {:induction false} LateStartExceeds()
    ensures var all := StepAll(SmallQuota, [One, Two], LateRun);
      && PossibleRun(SmallQuota, [One, Two], LateRun)
      && (forall now :: Total(SmallQuota, Cpu, now) == 2)
      && Exceeds(all, Becomes(0, 4), Cpu, 2)
      && Committed(Step(SmallQuota, all, Becomes(0, 4)), Cpu) == 3
  {
    hide StepAll, After;
    LateStates();
    var late := WithJob(One, JOB_FAILED, 100);
    var second := WithJob(Two, JOB_INITIATED, 200).(status := 4);
    TwoInstances(late, second, Cpu);
    TwoInstances(late.(status := 4), second, Cpu);
    forall k: nat | k < 4 ensures Possible(After(SmallQuota, [One, Two], LateRun, k), LateRun[k]) {
      assert k in {0, 1, 2, 3};
    }
  }

  lemma {:induction false} Nothing(p: Profile, all: seq<Instance>, events: seq<Event>)
    ensures After(p, all, events, 0) == all
  {
    assert events[..0] == [];
  }

  lemma {:induction false} Everything(p: Profile, all: seq<Instance>, events: seq<Event>)
    ensures After(p, all, events, |events|) == StepAll(p, all, events)
  {
    assert events[..|events|] == events;
  }

  lemma {:induction false} TwoInstances(a: Instance, b: Instance, kind: Kind)
    ensures Used([a, b], kind)
         == (if Takes(a, kind) then Size(a, kind) else 0) + (if Takes(b, kind) then Size(b, kind) else 0)
    ensures Waiting([a, b], kind) == (if Busy(a) then Size(a, kind) else 0) + (if Busy(b) then Size(b, kind) else 0)
    ensures Committed([a, b], kind) == Share(a, kind) + Share(b, kind)
  {
    hide Takes, Busy, Share, Size;
    assert [a, b][..1] == [a] && [a][..0] == [];
    assert Used([a], kind) == Used([], kind) + if Takes(a, kind) then Size(a, kind) else 0;
    assert Waiting([a], kind) == Waiting([], kind) + if Busy(a) then Size(a, kind) else 0;
    assert Committed([a], kind) == Committed([], kind) + Share(a, kind);
  }
}
