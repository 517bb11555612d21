/**
 Accounting that survives every reclaim, accurate or not, with tasks that keep writing
 after they lost their job: who was handed which video how often, how many stage calls
 that can cost, and how far the `attempts` column can grow.
 */
module ClaimAccounting {
  import opened Arithmetic
  import opened Wrappers
  import opened Timestamps
  import opened Videos
  import opened Pipeline
  import opened Tally
  import opened WorkerSystem

  function OfVideo(v: string): Task -> nat { (t: Task) => if t.video == v then 1 else 0 }
  function BumpsOf(v: string): Task -> nat { (t: Task) => if t.video == v then t.bumps else 0 }
  function EveryTask(): Task -> nat { (t: Task) => 1 }
  function CallsOf(): Task -> nat { (t: Task) => t.calls }

  /** How often `v` has been handed out. */
  function Claims(s: System, v: string): nat { Sum(s.tasks, OfVideo(v)) }

  function StageCalls(s: System): nat { Sum(s.tasks, CallsOf()) }

  function ClaimedIds(t: Table): set<string> {
    set id <- t | t[id].claimedAt.Some?
  }

  ghost predicate RowAccounted(s: System, v: string)
    requires v in s.table && v in s.reclaims
  {
    var row := s.table[v];
    && Claims(s, v) == s.reclaims[v] + (if row.claimedAt.Some? then 1 else 0)
    && (row.claimedAt.Some? <==> row.instanceId.Some?)
    && (row.status.Pending? ==> row.claimedAt.None?)
    && row.attempts == Sum(s.tasks, BumpsOf(v))
  }

  // ---- one task ----

  /** Calls begun and increments stored by a task, bounded by where it stands. */
  predicate TaskWithinBudget(policy: Policy, t: Task) {
    var n := policy.Limit();
    match t.pc
    case MakeDir => t.calls == 0 && t.bumps == 0
    case CallDownload(k) => t.calls == k + 1 && k < n && t.bumps <= k
    case BumpDownload(k) => t.calls == k && 1 <= k < n && t.bumps <= k - 1
    case CallAnalyze => t.calls <= n + 1 && t.bumps <= n - 1
    case SaveMetadata(_) => t.calls <= n + 1 && t.bumps <= n - 1
    case SaveSkipped(_) => t.calls <= n + 1 && t.bumps <= n - 1
    case MarkConverting => t.calls <= n + 1 && t.bumps <= n - 1
    case CallConvert => t.calls <= n + 2 && t.bumps <= n - 1
    case MarkUploading(_) => t.calls <= n + 2 && t.bumps <= n - 1
    case CallUpload(k, _) => t.calls <= n + 3 + k && k < n && t.bumps <= n - 1 + k
    case BumpUpload(k, _) => t.calls <= n + 2 + k && 1 <= k < n && t.bumps <= n - 2 + k
    case _ => t.calls <= 2 * n + 2 && t.bumps <= 2 * (n - 1)
  }

  lemma AdvanceWithinBudget(policy: Policy, t: Task, o: Outcome)
    requires Accepts(t.pc, o) && TaskWithinBudget(policy, t)
    ensures TaskWithinBudget(policy, AdvancedTask(policy, t, o))
  {
  }

  lemma BudgetBound(policy: Policy, t: Task)
    requires TaskWithinBudget(policy, t)
    ensures t.calls <= 2 * policy.Limit() + 2 && t.bumps <= 2 * (policy.Limit() - 1)
  {
  }

  ghost predicate AllWithinBudget(policy: Policy, tasks: seq<Task>) {
    forall i: nat :: i < |tasks| ==> TaskWithinBudget(policy, tasks[i])
  }

  // ---- the invariant ----

  ghost predicate RowsAccounted(s: System) {
    Sane(s) && forall v <- s.table :: RowAccounted(s, v)
  }

  /** Every claim is either still standing or was reclaimed. */
  ghost predicate Balanced(s: System) {
    |s.tasks| == s.totalReclaims + |ClaimedIds(s.table)|
  }

  ghost predicate Accounted(policy: Policy, s: System) {
    RowsAccounted(s) && AllWithinBudget(policy, s.tasks) && Balanced(s)
  }

  /** Marking tasks dead leaves the history as it was. */
  lemma SameHistory(s: System, s': System, v: string)
    requires |s'.tasks| == |s.tasks|
    requires forall i: nat :: i < |s.tasks| ==> s'.tasks[i] == s.tasks[i].(alive := s'.tasks[i].alive)
    ensures Claims(s', v) == Claims(s, v) && Sum(s'.tasks, BumpsOf(v)) == Sum(s.tasks, BumpsOf(v))
  {
    SumSame(s.tasks, s'.tasks, OfVideo(v));
    SumSame(s.tasks, s'.tasks, BumpsOf(v));
  }

  lemma NoTasksNoClaims(s: System, v: string)
    requires Sane(s) && v !in s.table
    ensures Claims(s, v) == 0 && Sum(s.tasks, BumpsOf(v)) == 0
  {
    SumZero(s.tasks, OfVideo(v));
    SumZero(s.tasks, BumpsOf(v));
  }

  lemma InsertAccounted(policy: Policy, s: System, step: Step)
    requires step.Insert? && Accounted(policy, s) && Enabled(s, step)
    ensures Accounted(policy, Perform(policy, s, step))
  {
    var s' := Perform(policy, s, step);
    NoTasksNoClaims(s, step.video.id);
    assert ClaimedIds(s'.table) == ClaimedIds(s.table);
    forall v <- s'.table ensures RowAccounted(s', v) {
      if v != step.video.id { assert RowAccounted(s, v); }
    }
  }

  lemma ClaimRowAccounted(policy: Policy, s: System, step: Step, v: string)
    requires step.Claim? && Enabled(s, step) && Sane(s) && v in s.table && RowAccounted(s, v)
    ensures v in Perform(policy, s, step).table && v in Perform(policy, s, step).reclaims
    ensures RowAccounted(Perform(policy, s, step), v)
  {
    var t := Task(step.id, step.queue, MakeDir, true, 0, 0);
    var s' := Perform(policy, s, step);
    assert s'.tasks == s.tasks + [t] && s'.reclaims == s.reclaims;
    assert s'.table == Claimed(s.table, step.id, s.queues[step.queue].instance, step.now);
    assert s.table[step.id].status.Pending?;
    hide Perform, Enabled;
    SumAppend(s.tasks, t, OfVideo(v));
    SumAppend(s.tasks, t, BumpsOf(v));
  }

  lemma ClaimAddsOne(t: Table, id: string, instance: string, now: Stamp)
    requires id in t && t[id].claimedAt.None?
    ensures |ClaimedIds(Claimed(t, id, instance, now))| == |ClaimedIds(t)| + 1
  {
    assert ClaimedIds(Claimed(t, id, instance, now)) == ClaimedIds(t) + {id};
  }

  lemma ClaimRows(policy: Policy, s: System, step: Step)
    requires step.Claim? && RowsAccounted(s) && Enabled(s, step)
    ensures RowsAccounted(Perform(policy, s, step))
  {
    StepKeepsSane(policy, s, step);
    var s' := Perform(policy, s, step);
    assert s'.table.Keys == s.table.Keys;
    hide Perform, Enabled, RowAccounted;
    forall v <- s'.table ensures RowAccounted(s', v) {
      ClaimRowAccounted(policy, s, step, v);
    }
  }

  lemma ClaimAccounted(policy: Policy, s: System, step: Step)
    requires step.Claim? && Accounted(policy, s) && Enabled(s, step)
    ensures Accounted(policy, Perform(policy, s, step))
  {
    ClaimRows(policy, s, step);
    assert RowAccounted(s, step.id);
    var t := Task(step.id, step.queue, MakeDir, true, 0, 0);
    assert Perform(policy, s, step).tasks == s.tasks + [t] && TaskWithinBudget(policy, t);
    hide RowsAccounted, TaskWithinBudget, Claimed, ClaimedIds, Sum;
    ClaimAddsOne(s.table, step.id, s.queues[step.queue].instance, step.now);
  }

  lemma WriteKeepsClaim(t: Table, id: string, pc: Pc, o: Outcome, v: string)
    requires v in t
    ensures var t' := TableAfter(t, id, pc, o);
            && t'.Keys == t.Keys
            && t'[v].claimedAt == t[v].claimedAt && t'[v].instanceId == t[v].instanceId
            && (t'[v].status.Pending? ==> t[v].status.Pending?)
            && t'[v].attempts
               == t[v].attempts + (if id == v && WriteAt(pc) == Some(CountAttempt) && o.Stored? then 1 else 0)
  {
  }

  lemma AdvanceRowAccounted(policy: Policy, s: System, i: nat, o: Outcome, v: string)
    requires Sane(s) && Enabled(s, Advance(i, o)) && v in s.table && RowAccounted(s, v)
    ensures Sane(Perform(policy, s, Advance(i, o)))
    ensures RowAccounted(Perform(policy, s, Advance(i, o)), v)
  {
    var t' := AdvancedTask(policy, s.tasks[i], o);
    WriteKeepsClaim(s.table, s.tasks[i].video, s.tasks[i].pc, o, v);
    SumUpdate(s.tasks, i, t', OfVideo(v));
    SumUpdate(s.tasks, i, t', BumpsOf(v));
    hide TableAfter, Next, Accepts;
  }

  lemma AdvanceRows(policy: Policy, s: System, i: nat, o: Outcome)
    requires RowsAccounted(s) && Enabled(s, Advance(i, o))
    ensures RowsAccounted(Perform(policy, s, Advance(i, o)))
  {
    StepKeepsSane(policy, s, Advance(i, o));
    var s' := Perform(policy, s, Advance(i, o));
    WriteKeepsClaimedIds(s.table, s.tasks[i].video, s.tasks[i].pc, o);
    assert s'.table.Keys == s.table.Keys;
    hide Perform, Enabled, RowAccounted;
    forall v <- s'.table ensures RowAccounted(s', v) {
      AdvanceRowAccounted(policy, s, i, o, v);
    }
  }

  lemma AdvanceAccounted(policy: Policy, s: System, i: nat, o: Outcome)
    requires Accounted(policy, s) && Enabled(s, Advance(i, o))
    ensures Accounted(policy, Perform(policy, s, Advance(i, o)))
  {
    AdvanceRows(policy, s, i, o);
    var t := s.tasks[i];
    assert TaskWithinBudget(policy, t);
    hide RowsAccounted, TaskWithinBudget, ClaimedIds, TableAfter, AdvancedTask;
    AdvanceWithinBudget(policy, t, o);
    WriteKeepsClaimedIds(s.table, t.video, t.pc, o);
  }

  lemma WriteKeepsClaimedIds(t: Table, id: string, pc: Pc, o: Outcome)
    ensures TableAfter(t, id, pc, o).Keys == t.Keys
    ensures ClaimedIds(TableAfter(t, id, pc, o)) == ClaimedIds(t)
  {
  }

  lemma ReclaimRowAccounted(policy: Policy, s: System, step: Step, v: string)
    requires step.Reclaim? && Sane(s) && v in s.table && RowAccounted(s, v)
    ensures v in Perform(policy, s, step).table && v in Perform(policy, s, step).reclaims
    ensures RowAccounted(Perform(policy, s, step), v)
  {
  }

  lemma ReclaimReleases(t: Table, cutoff: Stamp, now: Stamp)
    ensures ClaimedIds(Reclaimed(t, cutoff, now)) == ClaimedIds(t) - StaleIds(t, cutoff)
    ensures |ClaimedIds(Reclaimed(t, cutoff, now))| + |StaleIds(t, cutoff)| == |ClaimedIds(t)|
  {
    assert StaleIds(t, cutoff) <= ClaimedIds(t);
  }

  lemma ReclaimRows(policy: Policy, s: System, step: Step)
    requires step.Reclaim? && RowsAccounted(s)
    ensures RowsAccounted(Perform(policy, s, step))
  {
    StepKeepsSane(policy, s, step);
    var s' := Perform(policy, s, step);
    assert s'.table.Keys == s.table.Keys;
    hide Perform, RowAccounted;
    forall v <- s'.table ensures RowAccounted(s', v) {
      ReclaimRowAccounted(policy, s, step, v);
    }
  }

  lemma ReclaimAccounted(policy: Policy, s: System, step: Step)
    requires step.Reclaim? && Accounted(policy, s)
    ensures Accounted(policy, Perform(policy, s, step))
  {
    ReclaimRows(policy, s, step);
    var s' := Perform(policy, s, step);
    assert s'.tasks == s.tasks && s'.table == Reclaimed(s.table, step.cutoff, step.now);
    assert s'.totalReclaims == s.totalReclaims + |StaleIds(s.table, step.cutoff)|;
    hide Perform, RowsAccounted, TaskWithinBudget, Reclaimed, StaleIds, ClaimedIds;
    ReclaimReleases(s.table, step.cutoff, step.now);
  }

  /** Steps that touch neither the table nor the history, only who is alive and which permits are free. */
  ghost predicate OnlyEnds(s: System, s': System) {
    && s'.table == s.table && s'.reclaims == s.reclaims && s'.totalReclaims == s.totalReclaims
    && |s'.queues| == |s.queues| && |s'.tasks| == |s.tasks|
    && forall i: nat :: i < |s.tasks| ==> s'.tasks[i] == s.tasks[i].(alive := s'.tasks[i].alive)
  }

  lemma EndingOnlyEnds(policy: Policy, s: System, step: Step)
    requires !step.Insert? && !step.Claim? && !step.Advance? && !step.Reclaim? && Enabled(s, step)
    ensures OnlyEnds(s, Perform(policy, s, step))
  {
  }

  lemma EndingAccounted(policy: Policy, s: System, s': System)
    requires Accounted(policy, s) && OnlyEnds(s, s')
    ensures Accounted(policy, s')
  {
    forall i: nat | i < |s'.tasks| ensures TaskWithinBudget(policy, s'.tasks[i]) {
      assert TaskWithinBudget(policy, s.tasks[i]);
    }
    hide TaskWithinBudget;
    forall v <- s'.table ensures RowAccounted(s', v) {
      assert RowAccounted(s, v);
      SameHistory(s, s', v);
    }
  }

  lemma StepKeepsAccounted(policy: Policy, s: System, step: Step)
    requires Accounted(policy, s) && Enabled(s, step)
    ensures Accounted(policy, Perform(policy, s, step))
  {
    hide Perform, Accounted;
    if step.Insert? { InsertAccounted(policy, s, step); }
    else if step.Claim? { ClaimAccounted(policy, s, step); }
    else if step.Advance? { AdvanceAccounted(policy, s, step.task, step.outcome); }
    else if step.Reclaim? { ReclaimAccounted(policy, s, step); }
    else {
      EndingOnlyEnds(policy, s, step);
      EndingAccounted(policy, s, Perform(policy, s, step));
    }
  }

  lemma {:induction false} RunIsAccounted(policy: Policy, states: seq<System>, steps: seq<Step>, n: nat)
    requires IsRun(policy, states, steps) && n < |states|
    ensures Accounted(policy, states[n])
  {
    if n > 0 {
      hide Perform, Accounted;
      assert StepAt(policy, states, steps, n - 1);
      RunIsAccounted(policy, states, steps, n - 1);
      StepKeepsAccounted(policy, states[n - 1], steps[n - 1]);
    }
  }

  // ---- main results ----

  /**
   Claims and reclaims of one video alternate, whatever the reclaims were: their
   difference is one while the row is claimed and zero otherwise, and a pending row is
   never claimed.
   */
  lemma ClaimsBalanceReclaims(policy: Policy, states: seq<System>, steps: seq<Step>, n: nat, v: string)
    requires IsRun(policy, states, steps) && n < |states| && v in states[n].table
    ensures v in states[n].reclaims
    ensures var s := states[n];
            && Claims(s, v) - s.reclaims[v] == (if s.table[v].claimedAt.Some? then 1 else 0)
            && (s.table[v].claimedAt.Some? <==> s.table[v].instanceId.Some?)
            && (s.table[v].status.Pending? ==> s.table[v].claimedAt.None?)
  {
    RunIsAccounted(policy, states, steps, n);
    assert RowAccounted(states[n], v);
  }

  ghost predicate Takes(s: System, step: Step, v: string) {
    step.Reclaim? && v in s.table && Stale(s.table[v], step.cutoff)
  }

  lemma ClaimTimeStays(policy: Policy, s: System, step: Step, v: string)
    requires Enabled(s, step) && v in s.table && s.table[v].claimedAt.Some? && !Takes(s, step, v)
    ensures v in Perform(policy, s, step).table && Perform(policy, s, step).table[v].claimedAt.Some?
  {
  }

  lemma {:induction false} StaysClaimed(
      policy: Policy, states: seq<System>, steps: seq<Step>, v: string, m: nat, n: nat)
    requires IsRun(policy, states, steps) && m <= n < |states|
    requires v in states[m].table && states[m].table[v].claimedAt.Some?
    requires forall k: nat :: m <= k < n ==> !Takes(states[k], steps[k], v)
    ensures v in states[n].table && states[n].table[v].claimedAt.Some?
  {
    if m < n {
      hide Perform, Enabled;
      assert StepAt(policy, states, steps, n - 1);
      StaysClaimed(policy, states, steps, v, m, n - 1);
      ClaimTimeStays(policy, states[n - 1], steps[n - 1], v);
    }
  }

  /** The claim that `v`'s row carries in state `n`: made at step `k` and not taken back since. */
  ghost predicate CarriesClaim(states: seq<System>, steps: seq<Step>, v: string, k: nat, n: nat)
    requires k < n < |states| && |states| == |steps| + 1
  {
    && steps[k].Claim? && steps[k].id == v && steps[k].queue < |states[k].queues|
    && v in states[n].table
    && states[n].table[v].instanceId == Some(states[k].queues[steps[k].queue].instance)
    && states[n].table[v].claimedAt == Some(steps[k].now)
    && forall j: nat :: k < j < n ==> !Takes(states[j], steps[j], v)
  }

  /** A claim stores the claiming queue's instance and its time, and starts the row over. */
  lemma ClaimRecords(policy: Policy, s: System, step: Step)
    requires step.Claim? && Enabled(s, step)
    ensures Perform(policy, s, step).table
            == s.table[step.id := s.table[step.id].(status := Downloading, claimedAt := Some(step.now),
                                                    instanceId := Some(s.queues[step.queue].instance),
                                                    updatedAt := step.now)]
    ensures Perform(policy, s, step).tasks == s.tasks + [Task(step.id, step.queue, MakeDir, true, 0, 0)]
  {
  }

  /** Steps other than claims and reclaims of `v` leave its claim alone. */
  lemma ClaimStays(policy: Policy, s: System, step: Step, v: string)
    requires Enabled(s, step) && v in s.table && !Takes(s, step, v) && !(step.Claim? && step.id == v)
    ensures v in Perform(policy, s, step).table
    ensures Perform(policy, s, step).table[v].claimedAt == s.table[v].claimedAt
    ensures Perform(policy, s, step).table[v].instanceId == s.table[v].instanceId
  {
    if step.Advance? {
      var t := s.tasks[step.task];
      WriteKeepsClaim(s.table, t.video, t.pc, step.outcome, v);
      hide TableAfter, WriteAt, Next;
    }
  }

  /** A claimed row that this step did not claim was in the table, and is not taken away. */
  lemma ClaimWasThere(policy: Policy, s: System, step: Step, v: string)
    requires Enabled(s, step) && !(step.Claim? && step.id == v)
    requires var t := Perform(policy, s, step).table; v in t && t[v].claimedAt.Some?
    ensures v in s.table && !Takes(s, step, v)
  {
    if step.Advance? { hide WriteAt, Next; }
  }

  /** In every run a claimed row carries the instance and the time of the last claim of it. */
  lemma {:induction false} ClaimIsTheLastOne(
      policy: Policy, states: seq<System>, steps: seq<Step>, v: string, n: nat)
    requires IsRun(policy, states, steps) && n < |states|
    requires v in states[n].table && states[n].table[v].claimedAt.Some?
    ensures exists k: nat :: k < n && CarriesClaim(states, steps, v, k, n)
  {
    assert n > 0;
    var s, step := states[n - 1], steps[n - 1];
    assert StepAt(policy, states, steps, n - 1);
    if step.Claim? && step.id == v {
      ClaimRecords(policy, s, step);
      assert CarriesClaim(states, steps, v, n - 1, n);
    } else {
      ClaimWasThere(policy, s, step, v);
      ClaimStays(policy, s, step, v);
      hide Perform, Enabled;
      ClaimIsTheLastOne(policy, states, steps, v, n - 1);
      var k: nat :| k < n - 1 && CarriesClaim(states, steps, v, k, n - 1);
      assert CarriesClaim(states, steps, v, k, n);
    }
  }

  /** A stage call is counted when a task begins it, and nothing else is. */
  lemma StageCallsAreCounted(policy: Policy, s: System, step: Step)
    requires Enabled(s, step)
    ensures StageCalls(Perform(policy, s, step))
            == StageCalls(s)
               + if step.Advance?
                    && (var pc := Next(policy, s.tasks[step.task].pc, step.outcome);
                        pc.CallDownload? || pc.CallAnalyze? || pc.CallConvert? || pc.CallUpload?)
                 then 1 else 0
  {
    var s' := Perform(policy, s, step);
    if step.Advance? {
      SumUpdate(s.tasks, step.task, s'.tasks[step.task], CallsOf());
    } else if step.Claim? {
      SumAppend(s.tasks, s'.tasks[|s.tasks|], CallsOf());
    } else if step.Insert? || step.Reclaim? {
    } else {
      EndingOnlyEnds(policy, s, step);
      SumSame(s.tasks, s'.tasks, CallsOf());
    }
  }

  /** A video is never handed out twice without a reclaim of it in between. */
  lemma ReclaimBetweenClaims(
      policy: Policy, states: seq<System>, steps: seq<Step>, v: string, m: nat, n: nat)
    requires IsRun(policy, states, steps) && m < n < |steps|
    requires steps[m].Claim? && steps[m].id == v && steps[n].Claim? && steps[n].id == v
    ensures exists k: nat :: m < k < n && Takes(states[k], steps[k], v)
  {
    assert StepAt(policy, states, steps, m) && StepAt(policy, states, steps, n);
    if forall k: nat :: m < k < n ==> !Takes(states[k], steps[k], v) {
      StaysClaimed(policy, states, steps, v, m + 1, n);
      ClaimsBalanceReclaims(policy, states, steps, n, v);
    }
  }

  lemma {:induction false} OnePerTask(tasks: seq<Task>)
    ensures Sum(tasks, EveryTask()) == |tasks|
  {
    if |tasks| > 0 { OnePerTask(tasks[..|tasks| - 1]); }
  }

  lemma TableSize(t: Table)
    ensures |ClaimedIds(t)| <= |t|
  {
    SubsetSize(ClaimedIds(t), t.Keys);
    assert |t.Keys| == |t|;
  }

  lemma {:induction false} BumpsBounded(tasks: seq<Task>, v: string, c: nat)
    requires forall i: nat :: i < |tasks| ==> tasks[i].bumps <= c
    ensures Sum(tasks, BumpsOf(v)) <= c * Sum(tasks, OfVideo(v))
  {
    forall i: nat | i < |tasks| ensures BumpsOf(v)(tasks[i]) <= c * OfVideo(v)(tasks[i]) {
    }
    SumAtMost(tasks, BumpsOf(v), OfVideo(v), c);
  }

  /**
   Whole-run work bound under any reclaims: with N videos inserted and R rows reclaimed,
   at most (N + R)(2 max(1, max_attempts) + 2) stage calls are ever begun.
   */
  lemma StageCallBound(policy: Policy, states: seq<System>, steps: seq<Step>, n: nat)
    requires IsRun(policy, states, steps) && n < |states|
    ensures StageCalls(states[n])
            <= (2 * Max(1, policy.maxAttempts) + 2) * (|states[n].table| + states[n].totalReclaims)
  {
    var s := states[n];
    var c := 2 * policy.Limit() + 2;
    RunIsAccounted(policy, states, steps, n);
    forall i: nat | i < |s.tasks| ensures CallsOf()(s.tasks[i]) <= c * EveryTask()(s.tasks[i]) {
      BudgetBound(policy, s.tasks[i]);
    }
    SumAtMost(s.tasks, CallsOf(), EveryTask(), c);
    OnePerTask(s.tasks);
    TableSize(s.table);
    MulLess(c, |s.tasks|, |s.table| + s.totalReclaims);
  }

  /** Each row's `attempts` never exceeds 2 (max(1, max_attempts) - 1)(reclaims + 1). */
  lemma AttemptsBound(policy: Policy, states: seq<System>, steps: seq<Step>, n: nat, v: string)
    requires IsRun(policy, states, steps) && n < |states| && v in states[n].table
    ensures v in states[n].reclaims
    ensures states[n].table[v].attempts
            <= 2 * (Max(1, policy.maxAttempts) - 1) * (states[n].reclaims[v] + 1)
  {
    var s := states[n];
    var c := 2 * (policy.Limit() - 1);
    RunIsAccounted(policy, states, steps, n);
    assert RowAccounted(s, v);
    forall i: nat | i < |s.tasks| ensures s.tasks[i].bumps <= c {
      BudgetBound(policy, s.tasks[i]);
    }
    BumpsBounded(s.tasks, v, c);
    MulLess(c, Claims(s, v), s.reclaims[v] + 1);
  }
}
