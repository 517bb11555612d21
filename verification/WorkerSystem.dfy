/**
 The worker side as a transition system: any number of job queues sharing one
 database, each with its own semaphore, the tasks they have spawned, and the periodic
 reclaim. Every step is one atomic database statement or one scheduling event.

 Tasks are never removed from `tasks`, only marked dead, so the sequence is also the
 history of all claims.
 */
module WorkerSystem {
  import opened Wrappers
  import opened Timestamps
  import opened Videos
  import opened Pipeline

  /** `calls` counts stage calls begun, `bumps` the attempt increments stored. */
  datatype Task = Task(video: string, queue: nat, pc: Pc, alive: bool, calls: nat, bumps: nat)

  /** One worker process: its semaphore and whether the claim loop holds a permit. */
  datatype Queue = Queue(instance: string, maxParallelJobs: nat, free: nat, holding: bool) {
    function Slots(): nat { if maxParallelJobs < 1 then 1 else maxParallelJobs }
    function Restarted(): Queue { this.(free := Slots(), holding := false) }
  }

  datatype System = System(
    table: Table,
    tasks: seq<Task>,
    queues: seq<Queue>,
    reclaims: map<string, nat>,
    totalReclaims: nat)

  datatype Step =
    | Insert(video: Video)
    | Acquire(queue: nat)
    | Claim(queue: nat, id: string, now: Stamp)
    | ClaimEmpty(queue: nat)
    | ClaimError(queue: nat)
    | Advance(task: nat, outcome: Outcome)
    | Finish(task: nat)
    | Panic(task: nat)
    | Crash(queue: nat)
    | Reclaim(cutoff: Stamp, now: Stamp)

  ghost predicate Init(s: System) {
    && s.table == map[] && s.tasks == [] && s.reclaims == map[] && s.totalReclaims == 0
    && forall q: nat :: q < |s.queues| ==> s.queues[q] == s.queues[q].Restarted()
  }

  predicate Running(s: System, i: nat) {
    i < |s.tasks| && s.tasks[i].alive && s.tasks[i].queue < |s.queues|
  }

  predicate Enabled(s: System, step: Step) {
    match step
    case Insert(v) => Insertable(s.table, v) && v.status.Pending?
    case Acquire(q) => q < |s.queues| && !s.queues[q].holding && s.queues[q].free > 0
    case Claim(q, id, now) => q < |s.queues| && s.queues[q].holding && Oldest(s.table, id)
    case ClaimEmpty(q) => q < |s.queues| && s.queues[q].holding && PendingIds(s.table) == {}
    case ClaimError(q) => q < |s.queues| && s.queues[q].holding
    case Advance(i, o) => Running(s, i) && Accepts(s.tasks[i].pc, o)
    case Finish(i) => Running(s, i) && s.tasks[i].pc.Exit?
    case Panic(i) => Running(s, i)
    case Crash(q) => q < |s.queues|
    case Reclaim(cutoff, now) => true
  }

  function ReturnPermit(queues: seq<Queue>, q: nat): seq<Queue>
    requires q < |queues|
  {
    queues[q := queues[q].(free := queues[q].free + 1, holding := false)]
  }

  /** The task's permit is dropped when it ends, however it ends. */
  function Ended(s: System, i: nat): System
    requires Running(s, i)
  {
    var t := s.tasks[i];
    var q := s.queues[t.queue];
    s.(tasks := s.tasks[i := t.(alive := false)], queues := s.queues[t.queue := q.(free := q.free + 1)])
  }

  function AdvancedTask(policy: Policy, t: Task, o: Outcome): Task
    requires Accepts(t.pc, o)
  {
    var pc := Next(policy, t.pc, o);
    t.(pc := pc,
       calls := t.calls + (if pc.StageAt().Some? then 1 else 0),
       bumps := t.bumps + (if WriteAt(t.pc) == Some(CountAttempt) && o.Stored? then 1 else 0))
  }

  function Killed(tasks: seq<Task>, q: nat): (r: seq<Task>)
    ensures |r| == |tasks|
  {
    seq(|tasks|, i requires 0 <= i < |tasks| =>
      if tasks[i].queue == q then tasks[i].(alive := false) else tasks[i])
  }

  function Perform(policy: Policy, s: System, step: Step): System
    requires Enabled(s, step)
  {
    match step
    case Insert(v) =>
      s.(table := Inserted(s.table, v), reclaims := s.reclaims[v.id := 0])
    case Acquire(q) =>
      s.(queues := s.queues[q := s.queues[q].(free := s.queues[q].free - 1, holding := true)])
    case Claim(q, id, now) =>
      s.(table := Claimed(s.table, id, s.queues[q].instance, now),
         tasks := s.tasks + [Task(id, q, MakeDir, true, 0, 0)],
         queues := s.queues[q := s.queues[q].(holding := false)])
    case ClaimEmpty(q) => s.(queues := ReturnPermit(s.queues, q))
    case ClaimError(q) => s.(queues := ReturnPermit(s.queues, q))
    case Advance(i, o) =>
      var t := s.tasks[i];
      s.(table := TableAfter(s.table, t.video, t.pc, o), tasks := s.tasks[i := AdvancedTask(policy, t, o)])
    case Finish(i) => Ended(s, i)
    case Panic(i) => Ended(s, i)
    case Crash(q) =>
      s.(tasks := Killed(s.tasks, q), queues := s.queues[q := s.queues[q].Restarted()])
    case Reclaim(cutoff, now) =>
      s.(table := Reclaimed(s.table, cutoff, now),
         reclaims := map id <- s.reclaims ::
           s.reclaims[id] + (if id in StaleIds(s.table, cutoff) then 1 else 0),
         totalReclaims := s.totalReclaims + |StaleIds(s.table, cutoff)|)
  }

  ghost predicate StepAt(policy: Policy, states: seq<System>, steps: seq<Step>, i: nat)
    requires i < |steps| < |states|
  {
    Enabled(states[i], steps[i]) && states[i + 1] == Perform(policy, states[i], steps[i])
  }

  /** A finite run from an empty database with all queues freshly started. */
  ghost predicate IsRun(policy: Policy, states: seq<System>, steps: seq<Step>) {
    && |states| == |steps| + 1
    && Init(states[0])
    && forall i: nat :: i < |steps| ==> StepAt(policy, states, steps, i)
  }

  /**
   Nothing shields a worker from its environment: every operation may succeed or fail with
   any message, a task may panic, a process crash and the reclaim run, at any point.
   */
  lemma EnvironmentIsFree(policy: Policy, s: System, i: nat, q: nat, cutoff: Stamp, now: Stamp, message: string)
    requires Running(s, i) && q < |s.queues|
    ensures Enabled(s, Panic(i)) && Enabled(s, Crash(q)) && Enabled(s, Reclaim(cutoff, now))
    ensures if s.tasks[i].pc.Exit? then Enabled(s, Finish(i))
            else
              && Enabled(s, Advance(i, Error(message)))
              && exists o: Outcome :: !o.Error? && Enabled(s, Advance(i, o))
    ensures s.queues[q].holding ==> Enabled(s, ClaimError(q))
    ensures s.queues[q].holding && PendingIds(s.table) == {} ==> Enabled(s, ClaimEmpty(q))
    ensures s.queues[q].holding ==> forall id :: Oldest(s.table, id) ==> Enabled(s, Claim(q, id, now))
    ensures !s.queues[q].holding && s.queues[q].free > 0 ==> Enabled(s, Acquire(q))
  {
    var pc := s.tasks[i].pc;
    if !pc.Exit? {
      var o := if pc.MakeDir? || pc.CallDownload? || pc.CallUpload? then Okay
               else if pc.CallAnalyze? then Analyzed(Metadata("av1", 0, "1080p", 0))
               else if pc.CallConvert? then Outcome.Converted(0)
               else Stored(now);
      assert Enabled(s, Advance(i, o));
    }
  }

  // ---- well-formedness ----

  /** Tasks refer to existing rows and queues. */
  ghost predicate Sane(s: System) {
    && s.reclaims.Keys == s.table.Keys
    && forall i: nat :: i < |s.tasks| ==> s.tasks[i].video in s.table && s.tasks[i].queue < |s.queues|
  }

  lemma StepKeepsSane(policy: Policy, s: System, step: Step)
    requires Sane(s) && Enabled(s, step)
    ensures Sane(Perform(policy, s, step))
    ensures s.table.Keys <= Perform(policy, s, step).table.Keys
  {
  }

  lemma {:induction false} RunIsSane(policy: Policy, states: seq<System>, steps: seq<Step>, n: nat)
    requires IsRun(policy, states, steps) && n < |states|
    ensures Sane(states[n])
  {
    if n > 0 {
      assert StepAt(policy, states, steps, n - 1);
      RunIsSane(policy, states, steps, n - 1);
      StepKeepsSane(policy, states[n - 1], steps[n - 1]);
    }
  }
}
