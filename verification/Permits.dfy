/**
 Semaphore accounting of every queue, through empty polls, claim errors, job errors,
 panics and restarts, and what it means for CPU cores: concurrent AV1 encodes of one
 worker never ask for more threads than the host has.
 */
module Permits {
  import opened Arithmetic
  import opened Pipeline
  import opened Tally
  import opened WorkerSystem

  function LiveOn(q: nat): Task -> nat { (t: Task) => if t.alive && t.queue == q then 1 else 0 }

  function LiveTasks(s: System, q: nat): nat { Sum(s.tasks, LiveOn(q)) }

  ghost predicate QueueBalanced(s: System, q: nat)
    requires q < |s.queues|
  {
    s.queues[q].free + (if s.queues[q].holding then 1 else 0) + LiveTasks(s, q) == Max(1, s.queues[q].maxParallelJobs)
  }

  ghost predicate Balanced(s: System) {
    && (forall q: nat :: q < |s.queues| ==> QueueBalanced(s, q))
    && (forall i: nat :: i < |s.tasks| ==> s.tasks[i].queue < |s.queues|)
  }

  lemma EndedBalanced(s: System, i: nat)
    requires Balanced(s) && Running(s, i)
    ensures Balanced(Ended(s, i))
  {
    var s' := Ended(s, i);
    forall q: nat | q < |s'.queues| ensures QueueBalanced(s', q) {
      assert QueueBalanced(s, q);
      SumUpdate(s.tasks, i, s'.tasks[i], LiveOn(q));
    }
  }

  lemma ClaimBalanced(policy: Policy, s: System, step: Step)
    requires step.Claim? && Balanced(s) && Enabled(s, step)
    ensures Balanced(Perform(policy, s, step))
  {
    var s' := Perform(policy, s, step);
    forall q: nat | q < |s'.queues| ensures QueueBalanced(s', q) {
      assert QueueBalanced(s, q);
      SumAppend(s.tasks, s'.tasks[|s.tasks|], LiveOn(q));
    }
  }

  lemma AdvanceBalanced(policy: Policy, s: System, step: Step)
    requires step.Advance? && Balanced(s) && Enabled(s, step)
    ensures Balanced(Perform(policy, s, step))
  {
    hide Next, Accepts, TableAfter;
    var s' := Perform(policy, s, step);
    forall q: nat | q < |s'.queues| ensures QueueBalanced(s', q) {
      assert QueueBalanced(s, q);
      SumUpdate(s.tasks, step.task, s'.tasks[step.task], LiveOn(q));
    }
  }

  /** A restarted process has a full semaphore and none of the old tasks. */
  lemma CrashBalanced(policy: Policy, s: System, step: Step)
    requires step.Crash? && Balanced(s) && Enabled(s, step)
    ensures Balanced(Perform(policy, s, step))
  {
    var s' := Perform(policy, s, step);
    forall q: nat | q < |s'.queues| ensures QueueBalanced(s', q) {
      assert QueueBalanced(s, q);
      if q == step.queue {
        SumZero(s'.tasks, LiveOn(q));
      } else {
        SumSame(s.tasks, s'.tasks, LiveOn(q));
      }
    }
  }

  lemma StepKeepsBalanced(policy: Policy, s: System, step: Step)
    requires Balanced(s) && Enabled(s, step)
    ensures Balanced(Perform(policy, s, step))
  {
    if step.Claim? { ClaimBalanced(policy, s, step); }
    else if step.Advance? { AdvanceBalanced(policy, s, step); }
    else if step.Crash? { CrashBalanced(policy, s, step); }
    else if step.Finish? || step.Panic? { EndedBalanced(s, step.task); }
    else {
      var s' := Perform(policy, s, step);
      forall q: nat | q < |s'.queues| ensures QueueBalanced(s', q) {
        assert QueueBalanced(s, q);
      }
    }
  }

  /**
   Permit conservation: in every state of every run, the free permits of a queue, the
   one its claim loop may hold, and its live tasks add up to max(1, max_parallel_jobs).
   */
  lemma {:induction false} PermitsConserved(policy: Policy, states: seq<System>, steps: seq<Step>, n: nat)
    requires IsRun(policy, states, steps) && n < |states|
    ensures Balanced(states[n])
  {
    if n == 0 {
      forall q: nat | q < |states[0].queues| ensures QueueBalanced(states[0], q) {
        assert states[0].queues[q] == states[0].queues[q].Restarted();
      }
    } else {
      hide Perform, Enabled, Balanced;
      assert StepAt(policy, states, steps, n - 1);
      PermitsConserved(policy, states, steps, n - 1);
      StepKeepsBalanced(policy, states[n - 1], steps[n - 1]);
    }
  }

  // ---- cores ----

  /** `compute_threads_per_job` */
  function ThreadsPerJob(totalCores: nat, maxParallelJobs: nat): nat {
    Max(1, totalCores / Max(1, maxParallelJobs))
  }

  /** The largest equal share of the cores in whole threads, but at least one. */
  lemma ThreadsAreTheShare(totalCores: nat, maxParallelJobs: nat)
    ensures var t, m := ThreadsPerJob(totalCores, maxParallelJobs), Max(1, maxParallelJobs);
            && t >= 1 && (t == 1 || t * m <= totalCores) && (t + 1) * m > totalCores
  {
    var m := Max(1, maxParallelJobs);
    var u := totalCores / m;
    FloorIs(totalCores, m, u);
    if u == 0 { assert (u + 1) * m == m; }
  }

  /** Threads (`lp=`) each live AV1 encode of queue `q` was told to use. */
  function EncodeThreads(q: nat, threads: nat): Task -> nat {
    (t: Task) => if t.alive && t.queue == q && t.pc.CallConvert? then threads else 0
  }

  lemma ThreadsFit(totalCores: nat, maxParallelJobs: nat, jobs: nat)
    requires jobs <= Max(1, maxParallelJobs)
    ensures ThreadsPerJob(totalCores, maxParallelJobs) * jobs <= Max(totalCores, Max(1, maxParallelJobs))
  {
    var m := Max(1, maxParallelJobs);
    var d := totalCores / m;
    assert m * d <= totalCores;
    if d >= 1 {
      MulLess(d, jobs, m);
      assert d * m == m * d;
    }
  }

  /** The threads of all concurrent encodes of one worker fit its cores (or its job limit, if larger). */
  lemma EncodesFitCores(
      policy: Policy, states: seq<System>, steps: seq<Step>, n: nat, q: nat, totalCores: nat)
    requires IsRun(policy, states, steps) && n < |states| && q < |states[n].queues|
    ensures var slots := states[n].queues[q].Slots();
            var threads := ThreadsPerJob(totalCores, states[n].queues[q].maxParallelJobs);
            && slots == Max(1, states[n].queues[q].maxParallelJobs)
            && Sum(states[n].tasks, EncodeThreads(q, threads)) <= Max(totalCores, slots)
  {
    var s := states[n];
    var threads := ThreadsPerJob(totalCores, s.queues[q].maxParallelJobs);
    PermitsConserved(policy, states, steps, n);
    assert QueueBalanced(s, q);
    forall i: nat | i < |s.tasks|
      ensures EncodeThreads(q, threads)(s.tasks[i]) <= threads * LiveOn(q)(s.tasks[i])
    {
    }
    SumAtMost(s.tasks, EncodeThreads(q, threads), LiveOn(q), threads);
    ThreadsFit(totalCores, s.queues[q].maxParallelJobs, LiveTasks(s, q));
  }
}
