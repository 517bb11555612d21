/**
 What a reclaim of a running job can cost, and exactly which later write costs it. An
 inaccurate reclaim alone loses nothing: the evicted task has to write afterwards.
 */
module Evictions {
  import opened Videos
  import opened Pipeline
  import opened WorkerSystem
  import opened Exclusion

  ghost predicate EndsIn(policy: Policy, states: seq<System>, steps: seq<Step>, s: System) {
    IsRun(policy, states, steps) && states[|steps|] == s
  }

  lemma Extend(policy: Policy, states: seq<System>, steps: seq<Step>, s: System, step: Step)
    returns (states': seq<System>, steps': seq<Step>, s': System)
    requires EndsIn(policy, states, steps, s) && Enabled(s, step)
    ensures EndsIn(policy, states', steps', s') && s' == Perform(policy, s, step)
    ensures states <= states' && steps' == steps + [step]
  {
    s' := Perform(policy, s, step);
    states', steps' := states + [s'], steps + [step];
    hide Perform, Enabled;
    forall i: nat | i < |steps'|
      ensures StepAt(policy, states', steps', i)
    {
      if i < |steps| { assert StepAt(policy, states, steps, i); }
    }
  }

  /** A task of `v` stores the write at its program point. */
  ghost predicate Stores(s: System, step: Step, v: string) {
    && step.Advance? && Enabled(s, step) && step.outcome.Stored?
    && s.tasks[step.task].video == v && v in s.table
  }

  // ---- the lost job ----

  /** In progress and unclaimed: neither claimable nor reclaimable. */
  predicate Unclaimable(s: System, v: string) {
    v in s.table && s.table[v].status.InProgress() && s.table[v].claimedAt.None?
  }

  /** A task marks its next stage on a row whose claim was taken away. */
  ghost predicate MarksEvicted(s: System, step: Step, v: string) {
    && Stores(s, step, v) && s.table[v].claimedAt.None?
    && (s.tasks[step.task].pc.MarkConverting? || s.tasks[step.task].pc.MarkUploading?)
  }

  lemma StepStrandsIff(policy: Policy, s: System, step: Step, v: string)
    requires Enabled(s, step) && !Unclaimable(s, v)
    ensures Unclaimable(Perform(policy, s, step), v) <==> MarksEvicted(s, step, v)
  {
  }

  lemma {:induction false} NoMarkNoStranding(
      policy: Policy, states: seq<System>, steps: seq<Step>, v: string, n: nat)
    requires IsRun(policy, states, steps) && n < |states|
    requires forall k: nat :: k < n ==> !MarksEvicted(states[k], steps[k], v)
    ensures !Unclaimable(states[n], v)
  {
    if n > 0 {
      hide Perform, Enabled, Unclaimable, MarksEvicted;
      assert StepAt(policy, states, steps, n - 1);
      NoMarkNoStranding(policy, states, steps, v, n - 1);
      StepStrandsIff(policy, states[n - 1], steps[n - 1], v);
    } else {
      assert Init(states[0]);
    }
  }

  /**
   In every run, `v` is claimable, claimed or terminal at every point if and only if no
   task ever marked the next stage of `v` after its claim was taken away.
   */
  lemma NeverStrandedIff(policy: Policy, states: seq<System>, steps: seq<Step>, v: string)
    requires IsRun(policy, states, steps)
    ensures (forall n: nat :: n < |states| ==> !Unclaimable(states[n], v))
            <==> (forall k: nat :: k < |steps| ==> !MarksEvicted(states[k], steps[k], v))
  {
    if forall k: nat :: k < |steps| ==> !MarksEvicted(states[k], steps[k], v) {
      forall n: nat | n < |states| ensures !Unclaimable(states[n], v) {
        NoMarkNoStranding(policy, states, steps, v, n);
      }
    }
    if forall n: nat :: n < |states| ==> !Unclaimable(states[n], v) {
      forall k: nat | k < |steps| ensures !MarksEvicted(states[k], steps[k], v) {
        assert StepAt(policy, states, steps, k);
        assert !Unclaimable(states[k], v) && !Unclaimable(states[k + 1], v);
        StepStrandsIff(policy, states[k], steps[k], v);
      }
    }
  }

  /** In progress, unclaimed and with no task left. */
  ghost predicate Stuck(s: System, v: string) {
    Unclaimable(s, v) && Unattended(s, v)
  }

  lemma {:induction false} TasksCanDie(
      policy: Policy, states: seq<System>, steps: seq<Step>, s: System, v: string, k: nat)
    returns (states': seq<System>, steps': seq<Step>, s': System)
    requires EndsIn(policy, states, steps, s) && k <= |s.tasks|
    ensures EndsIn(policy, states', steps', s') && states <= states' && steps <= steps'
    ensures s'.table == s.table && |s'.tasks| == |s.tasks|
    ensures forall i: nat :: i < k ==> !LiveFor(s', i, v)
    decreases k
  {
    states', steps', s' := states, steps, s;
    if k > 0 {
      states', steps', s' := TasksCanDie(policy, states, steps, s, v, k - 1);
      if LiveFor(s', k - 1, v) {
        RunIsSane(policy, states', steps', |steps'|);
        ghost var before := s';
        states', steps', s' := Extend(policy, states', steps', s', Panic(k - 1));
        forall i: nat | i < k ensures !LiveFor(s', i, v) {
          if i < k - 1 { assert !LiveFor(before, i, v) && s'.tasks[i] == before.tasks[i]; }
        }
      }
    }
  }

  /** A stranded row has a continuation in which its tasks die, and then it is lost. */
  lemma StrandedCanBeLost(policy: Policy, states: seq<System>, steps: seq<Step>, s: System, v: string)
    returns (states': seq<System>, steps': seq<Step>, s': System)
    requires EndsIn(policy, states, steps, s) && Unclaimable(s, v)
    ensures EndsIn(policy, states', steps', s') && Stuck(s', v) && states <= states' && steps <= steps'
  {
    states', steps', s' := TasksCanDie(policy, states, steps, s, v, |s.tasks|);
  }

  // ---- the terminal row that changes ----

  /** A late write that gives a terminal row another status. */
  ghost predicate Overwrites(s: System, step: Step, v: string) {
    && Stores(s, step, v)
    && var pc, status := s.tasks[step.task].pc, s.table[v].status;
       || (status.Terminal() && (pc.MarkConverting? || pc.MarkUploading?))
       || (status.Failed? && (pc.SaveDone? || pc.SaveSkipped?))
       || (status.Done? && (pc.Fail? || pc.FailAgain?))
  }

  /** Claims and reclaims pass terminal rows by, and other tasks write other rows. */
  lemma OnlyItsTasksChangeTerminal(policy: Policy, s: System, step: Step, v: string)
    requires Enabled(s, step) && v in s.table && s.table[v].status.Terminal() && !Stores(s, step, v)
    ensures v in Perform(policy, s, step).table && Perform(policy, s, step).table[v].status == s.table[v].status
  {
  }

  lemma TerminalChangesIff(policy: Policy, s: System, step: Step, v: string)
    requires Enabled(s, step) && v in s.table && s.table[v].status.Terminal()
    ensures v in Perform(policy, s, step).table
    ensures Perform(policy, s, step).table[v].status != s.table[v].status <==> Overwrites(s, step, v)
  {
    if Stores(s, step, v) {
      assert Perform(policy, s, step).table == TableAfter(s.table, v, s.tasks[step.task].pc, step.outcome);
    } else {
      OnlyItsTasksChangeTerminal(policy, s, step, v);
    }
    hide Perform, Enabled;
  }

  ghost predicate HasStatus(s: System, v: string, status: Status) {
    v in s.table && s.table[v].status == status
  }

  /** A done or failed row keeps its status for as long as, and no longer than, no late write hits it. */
  lemma {:induction false} TerminalHoldsIff(
      policy: Policy, states: seq<System>, steps: seq<Step>, v: string, m: nat, n: nat, status: Status)
    requires IsRun(policy, states, steps) && m <= n < |states|
    requires HasStatus(states[m], v, status) && status.Terminal()
    ensures (forall k: nat :: m <= k <= n ==> HasStatus(states[k], v, status))
            <==> (forall k: nat :: m <= k < n ==> !Overwrites(states[k], steps[k], v))
  {
    if m < n {
      TerminalHoldsIff(policy, states, steps, v, m, n - 1, status);
      assert StepAt(policy, states, steps, n - 1);
      if HasStatus(states[n - 1], v, status) {
        TerminalChangesIff(policy, states[n - 1], steps[n - 1], v);
      }
      hide Perform, Enabled, Overwrites, HasStatus;
    }
  }

  /** Accurate reclaims rule out both: a live task always finds the row it claimed. */
  lemma AccurateMeansNoLateWrite(policy: Policy, states: seq<System>, steps: seq<Step>, v: string, k: nat)
    requires IsRun(policy, states, steps) && k < |steps|
    requires forall i: nat :: i < k ==> AccurateFor(states[i], steps[i], v)
    ensures !MarksEvicted(states[k], steps[k], v) && !Overwrites(states[k], steps[k], v)
    ensures !Unclaimable(states[k], v) && !Stuck(states[k], v)
  {
    AccurateReclaimsSuffice(policy, states, steps, v, k);
    if Stores(states[k], steps[k], v) {
      assert LiveFor(states[k], steps[k].task, v);
    }
  }
}
