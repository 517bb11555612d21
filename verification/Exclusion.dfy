/**
 Exclusive, lossless processing of one video, and exactly what it costs: it holds in
 every state of a run if and only if every reclaim of that video found no live task.
 */
module Exclusion {
  import opened Timestamps
  import opened Videos
  import opened Pipeline
  import opened WorkerSystem

  ghost predicate LiveFor(s: System, i: nat, v: string) {
    i < |s.tasks| && s.tasks[i].alive && s.tasks[i].video == v
  }

  ghost predicate Unattended(s: System, v: string) {
    forall i: nat :: !LiveFor(s, i, v)
  }

  /**
   At most one live task works on `v`, its program point fits the row, a pending row
   has none, and a row in progress carries the claim time that makes it reclaimable.
   */
  ghost predicate Exclusive(s: System, v: string)
    requires v in s.table
  {
    && (forall i: nat, j: nat :: LiveFor(s, i, v) && LiveFor(s, j, v) ==> i == j)
    && (forall i: nat :: LiveFor(s, i, v) ==> Matches(s.tasks[i].pc, s.table[v]))
    && (s.table[v].status.InProgress() ==> s.table[v].claimedAt.Some?)
  }

  /** What the reclaim task assumes of `v`: a stale claim belongs to a dead worker. */
  ghost predicate AccurateFor(s: System, step: Step, v: string) {
    step.Reclaim? && v in s.table && Stale(s.table[v], step.cutoff) ==> Unattended(s, v)
  }

  lemma MatchedRowIsNotPending(pc: Pc, v: Video)
    requires Matches(pc, v)
    ensures !v.status.Pending?
  {
  }

  lemma AdvanceKeepsExclusive(policy: Policy, s: System, i: nat, o: Outcome, v: string)
    requires Sane(s) && Enabled(s, Advance(i, o)) && v in s.table && Exclusive(s, v)
    ensures Exclusive(Perform(policy, s, Advance(i, o)), v)
  {
    var s' := Perform(policy, s, Advance(i, o));
    var t := s.tasks[i];
    if t.video == v {
      assert LiveFor(s, i, v);
      StepMatches(policy, t.pc, o, s.table[v]);
      assert s'.table[v] == RowAfter(s.table[v], t.pc, o);
    }
    forall j: nat | LiveFor(s', j, v) ensures LiveFor(s, j, v) && Matches(s'.tasks[j].pc, s'.table[v]) {
      assert LiveFor(s, j, v);
    }
  }

  lemma ClaimKeepsExclusive(policy: Policy, s: System, step: Step, v: string)
    requires step.Claim? && Sane(s) && Enabled(s, step) && v in s.table && Exclusive(s, v)
    ensures Exclusive(Perform(policy, s, step), v)
  {
    var s' := Perform(policy, s, step);
    if step.id == v {
      forall i: nat ensures !LiveFor(s, i, v) {
        if LiveFor(s, i, v) { MatchedRowIsNotPending(s.tasks[i].pc, s.table[v]); }
      }
    }
    forall j: nat | LiveFor(s', j, v)
      ensures if j < |s.tasks| then LiveFor(s, j, v) else j == |s.tasks| && step.id == v
    {
    }
  }

  /** Ending tasks never disturbs the remaining ones. */
  lemma FewerTasksKeepsExclusive(s: System, s': System, v: string)
    requires v in s.table && Exclusive(s, v)
    requires s'.table == s.table
    requires forall j: nat :: LiveFor(s', j, v) ==> LiveFor(s, j, v) && s'.tasks[j] == s.tasks[j]
    ensures Exclusive(s', v)
  {
  }

  /** The exact effect of a reclaim: exclusivity survives if and only if the reclaim was accurate. */
  lemma ReclaimKeepsExclusiveIff(policy: Policy, s: System, step: Step, v: string)
    requires step.Reclaim? && v in s.table && Exclusive(s, v)
    ensures Exclusive(Perform(policy, s, step), v) <==> AccurateFor(s, step, v)
  {
    var s' := Perform(policy, s, step);
    assert forall j: nat :: LiveFor(s', j, v) <==> LiveFor(s, j, v);
    if Stale(s.table[v], step.cutoff) {
      assert s'.table[v].status.Pending?;
      forall i: nat | LiveFor(s, i, v) && Exclusive(s', v) ensures false {
        assert LiveFor(s', i, v);
        MatchedRowIsNotPending(s'.tasks[i].pc, s'.table[v]);
      }
    }
  }

  lemma InsertIsExclusive(policy: Policy, s: System, step: Step, v: string)
    requires step.Insert? && Sane(s) && Enabled(s, step)
    requires v in s.table ==> Exclusive(s, v)
    requires v in s.table || v == step.video.id
    ensures Exclusive(Perform(policy, s, step), v)
  {
    var s' := Perform(policy, s, step);
    assert forall j: nat :: LiveFor(s', j, v) ==> LiveFor(s, j, v) && v in s.table;
  }

  lemma StepKeepsExclusive(policy: Policy, s: System, step: Step, v: string)
    requires Sane(s) && Enabled(s, step)
    requires v in s.table ==> Exclusive(s, v) && AccurateFor(s, step, v)
    ensures v in Perform(policy, s, step).table ==> Exclusive(Perform(policy, s, step), v)
  {
    if step.Insert? {
      if v in s.table || v == step.video.id { InsertIsExclusive(policy, s, step, v); }
    } else if v in s.table {
      if step.Claim? {
        ClaimKeepsExclusive(policy, s, step, v);
      } else if step.Advance? {
        AdvanceKeepsExclusive(policy, s, step.task, step.outcome, v);
      } else if step.Reclaim? {
        ReclaimKeepsExclusiveIff(policy, s, step, v);
      } else {
        FewerTasksKeepsExclusive(s, Perform(policy, s, step), v);
      }
    }
  }

  lemma {:induction false} AccurateReclaimsSuffice(
      policy: Policy, states: seq<System>, steps: seq<Step>, v: string, n: nat)
    requires IsRun(policy, states, steps) && n < |states|
    requires forall i: nat :: i < n ==> AccurateFor(states[i], steps[i], v)
    ensures v in states[n].table ==> Exclusive(states[n], v)
  {
    if n > 0 {
      assert StepAt(policy, states, steps, n - 1);
      AccurateReclaimsSuffice(policy, states, steps, v, n - 1);
      RunIsSane(policy, states, steps, n - 1);
      StepKeepsExclusive(policy, states[n - 1], steps[n - 1], v);
    }
  }

  /**
   Main theorem. In every run of any number of queues over one database, through stage
   errors, refused writes, panics and crashes, a video is processed exclusively at every
   point exactly when no reclaim ever took it away from a live task.
   */
  lemma ExclusiveIffReclaimsAccurate(policy: Policy, states: seq<System>, steps: seq<Step>, v: string)
    requires IsRun(policy, states, steps)
    ensures (forall i: nat :: i < |states| ==> v in states[i].table ==> Exclusive(states[i], v))
            <==> (forall i: nat :: i < |steps| ==> AccurateFor(states[i], steps[i], v))
  {
    if forall i: nat :: i < |steps| ==> AccurateFor(states[i], steps[i], v) {
      forall n: nat | n < |states| ensures v in states[n].table ==> Exclusive(states[n], v) {
        AccurateReclaimsSuffice(policy, states, steps, v, n);
      }
    }
    if forall i: nat :: i < |states| ==> v in states[i].table ==> Exclusive(states[i], v) {
      forall i: nat | i < |steps| ensures AccurateFor(states[i], steps[i], v) {
        if steps[i].Reclaim? && v in states[i].table {
          RunIsSane(policy, states, steps, i);
          assert StepAt(policy, states, steps, i);
          ReclaimKeepsExclusiveIff(policy, states[i], steps[i], v);
        }
      }
    }
  }

  /** A terminal row of an exclusively processed video keeps its status and size. */
  lemma TerminalStays(policy: Policy, s: System, step: Step, v: string)
    requires Sane(s) && Enabled(s, step) && v in s.table && Exclusive(s, v)
    requires s.table[v].status.Terminal()
    ensures var w := Perform(policy, s, step).table[v];
            && w.status == s.table[v].status
            && w.convertedSizeBytes == s.table[v].convertedSizeBytes
            && w.errorMessage == s.table[v].errorMessage
  {
    if step.Advance? && s.tasks[step.task].video == v {
      assert LiveFor(s, step.task, v);
    }
  }

  lemma {:induction false} TerminalStaysInRun(
      policy: Policy, states: seq<System>, steps: seq<Step>, v: string, m: nat, n: nat)
    requires IsRun(policy, states, steps) && m <= n < |states|
    requires forall i: nat :: i < n ==> AccurateFor(states[i], steps[i], v)
    requires v in states[m].table && states[m].table[v].status.Terminal()
    ensures v in states[n].table
            && states[n].table[v].status == states[m].table[v].status
            && states[n].table[v].convertedSizeBytes == states[m].table[v].convertedSizeBytes
            && states[n].table[v].errorMessage == states[m].table[v].errorMessage
  {
    hide Perform, Exclusive, Enabled;
    if m < n {
      assert StepAt(policy, states, steps, n - 1);
      TerminalStaysInRun(policy, states, steps, v, m, n - 1);
      RunIsSane(policy, states, steps, n - 1);
      AccurateReclaimsSuffice(policy, states, steps, v, n - 1);
      StepKeepsSane(policy, states[n - 1], steps[n - 1]);
      TerminalStays(policy, states[n - 1], steps[n - 1], v);
    }
  }

  // ---- the four phases of a row ----

  datatype Phase = Waiting | Held(task: nat) | Orphaned | Settled

  ghost predicate InPhase(s: System, v: string, p: Phase)
    requires v in s.table
  {
    var row := s.table[v];
    match p
    case Waiting => row.status.Pending? && Unattended(s, v)
    case Held(i) =>
      && row.status.InProgress() && LiveFor(s, i, v) && Matches(s.tasks[i].pc, row)
      && forall j: nat :: LiveFor(s, j, v) ==> j == i
    case Orphaned =>
      && row.status.InProgress() && Unattended(s, v) && row.claimedAt.Some?
      && forall cutoff: Stamp :: Seconds(row.claimedAt.value) < Seconds(cutoff) ==> Stale(row, cutoff)
    case Settled =>
      && row.status.Terminal()
      && forall j: nat :: LiveFor(s, j, v) ==> s.tasks[j].pc.FailAgain? || s.tasks[j].pc.Exit?
  }

  /**
   Exclusive processing is lossless: a row is waiting for a claim, held by one matching
   task, abandoned but reclaimable by every later cutoff, or settled; and exactly one of these.
   */
  lemma ExactlyOnePhase(s: System, v: string) returns (p: Phase)
    requires v in s.table && Exclusive(s, v)
    ensures InPhase(s, v, p)
    ensures forall q: Phase :: InPhase(s, v, q) ==> q == p
  {
    var row := s.table[v];
    if row.status.Pending? {
      forall i: nat ensures !LiveFor(s, i, v) {
        if LiveFor(s, i, v) { MatchedRowIsNotPending(s.tasks[i].pc, row); }
      }
      p := Waiting;
    } else if row.status.Terminal() {
      p := Settled;
    } else if i: nat :| LiveFor(s, i, v) {
      p := Held(i);
    } else {
      p := Orphaned;
      forall cutoff: Stamp | Seconds(row.claimedAt.value) < Seconds(cutoff) ensures Stale(row, cutoff) {
        TextOrderIsTimeOrder(row.claimedAt.value, cutoff);
      }
    }
  }
}
