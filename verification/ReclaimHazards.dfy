/**
 What goes wrong when a reclaim is not accurate. `claimed_at` is never refreshed, so an
 encode that runs for more than thirty minutes is reclaimed under its live task. The
 runs below are concrete; they use only steps the code can take.
 */
module ReclaimHazards {
  import opened Timestamps
  import opened Videos
  import opened Pipeline
  import opened WorkerSystem
  import opened Exclusion
  import opened Evictions

  const V := "movies/long.mp4"
  const NOON: Stamp := Civil(2026, 7, 28, 12, 0, 0)
  const CUTOFF: Stamp := Civil(2026, 7, 28, 12, 1, 0)
  const LATER: Stamp := Civil(2026, 7, 28, 12, 31, 0)
  const SOURCE := Metadata("h264", 3000, "1080p", 1_000_000_000)

  function Row0(): Video { NewRow(V, V, Pending, 0, NOON) }

  /** A worker with two slots claims the video and downloads it. */
  lemma ClaimAndDownload(policy: Policy) returns (states: seq<System>, steps: seq<Step>, s: System)
    ensures EndsIn(policy, states, steps, s)
    ensures s.table == map[V := ClaimedRow(Row0(), "worker-1", NOON)]
    ensures s.tasks == [Task(V, 0, CallAnalyze, true, 2, 0)]
    ensures s.queues == [Queue("worker-1", 2, 1, false)]
    ensures s.reclaims == map[V := 0]
  {
    s := System(map[], [], [Queue("worker-1", 2, 2, false)], map[], 0);
    states, steps := [s], [];
    states, steps, s := Extend(policy, states, steps, s, Insert(Row0()));
    assert s.table == map[V := Row0()];
    states, steps, s := Extend(policy, states, steps, s, Acquire(0));
    states, steps, s := Extend(policy, states, steps, s, Claim(0, V, NOON));
    states, steps, s := Extend(policy, states, steps, s, Advance(0, Okay));
    states, steps, s := Extend(policy, states, steps, s, Advance(0, Okay));
  }

  function ConvertingRow(): Video {
    Patched(Patched(ClaimedRow(Row0(), "worker-1", NOON),
                    MetadataTo("h264", 3000, 1_000_000_000), NOON),
            StatusTo(Converting), NOON)
  }

  lemma StartEncoding(policy: Policy) returns (states: seq<System>, steps: seq<Step>, s: System)
    ensures EndsIn(policy, states, steps, s)
    ensures s.table == map[V := ConvertingRow()]
    ensures s.tasks == [Task(V, 0, CallConvert, true, 3, 0)]
    ensures s.queues == [Queue("worker-1", 2, 1, false)]
    ensures s.reclaims == map[V := 0]
  {
    states, steps, s := ClaimAndDownload(policy);
    states, steps, s := Extend(policy, states, steps, s, Advance(0, Analyzed(SOURCE)));
    assert s.tasks == [Task(V, 0, SaveMetadata(SOURCE), true, 2, 0)];
    states, steps, s := Extend(policy, states, steps, s, Advance(0, Stored(NOON)));
    assert s.tasks == [Task(V, 0, MarkConverting, true, 2, 0)];
    states, steps, s := Extend(policy, states, steps, s, Advance(0, Stored(NOON)));
  }

  lemma ConvertingRowIsStale()
    ensures Stale(ConvertingRow(), CUTOFF)
  {
    TextOrderIsTimeOrder(NOON, CUTOFF);
    assert DayNumber(NOON) == DayNumber(CUTOFF);
    hide Text, TextLess;
  }

  /** The encode is still running thirty-one minutes later when the reclaim task runs. */
  lemma ReclaimedWhileEncoding(policy: Policy) returns (states: seq<System>, steps: seq<Step>, s: System)
    ensures EndsIn(policy, states, steps, s)
    ensures s.table == map[V := ReleasedRow(ConvertingRow(), LATER)]
    ensures s.tasks == [Task(V, 0, CallConvert, true, 3, 0)]
    ensures s.queues == [Queue("worker-1", 2, 1, false)]
  {
    states, steps, s := StartEncoding(policy);
    ConvertingRowIsStale();
    hide Stale, ConvertingRow;
    states, steps, s := Extend(policy, states, steps, s, Reclaim(CUTOFF, LATER));
  }

  /** One inaccurate reclaim is enough for two live tasks on one video. */
  lemma DoubleProcessing(policy: Policy) returns (states: seq<System>, steps: seq<Step>, s: System)
    ensures EndsIn(policy, states, steps, s)
    ensures LiveFor(s, 0, V) && LiveFor(s, 1, V)
    ensures s.table == map[V := ClaimedRow(ReleasedRow(ConvertingRow(), LATER), "worker-1", LATER)]
    ensures s.tasks == [Task(V, 0, CallConvert, true, 3, 0), Task(V, 0, MakeDir, true, 0, 0)]
    ensures |s.queues| == 1
  {
    states, steps, s := ReclaimedWhileEncoding(policy);
    states, steps, s := Extend(policy, states, steps, s, Acquire(0));
    states, steps, s := Extend(policy, states, steps, s, Claim(0, V, LATER));
  }

  /**
   The evicted task marks its next stage, which strands the row, and then dies: the job
   is lost.
   */
  lemma LostJob(policy: Policy) returns (states: seq<System>, steps: seq<Step>, s: System, k: nat)
    ensures EndsIn(policy, states, steps, s) && Stuck(s, V)
    ensures k < |steps| && MarksEvicted(states[k], steps[k], V)
  {
    states, steps, s := ReclaimedWhileEncoding(policy);
    states, steps, s := Extend(policy, states, steps, s, Advance(0, Outcome.Converted(7)));
    k := |steps|;
    ghost var before := s;
    states, steps, s := Extend(policy, states, steps, s, Advance(0, Stored(LATER)));
    assert states[k] == before && MarksEvicted(before, steps[k], V);
    assert Unclaimable(s, V) by { StepStrandsIff(policy, before, steps[k], V); }
    states, steps, s := StrandedCanBeLost(policy, states, steps, s, V);
  }

  lemma StuckStep(policy: Policy, s: System, step: Step, v: string)
    requires Stuck(s, v) && Enabled(s, step)
    ensures Stuck(Perform(policy, s, step), v)
  {
    var s' := Perform(policy, s, step);
    forall j: nat ensures !LiveFor(s', j, v) {
      assert !LiveFor(s, j, v);
    }
    if step.Advance? { assert !LiveFor(s, step.task, v); }
  }

  /** No continuation of the run ever brings a stuck row back. */
  lemma {:induction false} StuckForever(
      policy: Policy, states: seq<System>, steps: seq<Step>, v: string, m: nat, n: nat)
    requires IsRun(policy, states, steps) && m <= n < |states|
    requires Stuck(states[m], v)
    ensures Stuck(states[n], v)
  {
    if m < n {
      hide Perform, Enabled, Stuck;
      assert StepAt(policy, states, steps, n - 1);
      StuckForever(policy, states, steps, v, m, n - 1);
      StuckStep(policy, states[n - 1], steps[n - 1], v);
    }
  }

  lemma SecondTaskAnalyzes(policy: Policy) returns (states: seq<System>, steps: seq<Step>, s: System)
    ensures EndsIn(policy, states, steps, s)
    ensures V in s.table && s.table[V].status == Downloading && |s.queues| == 1
    ensures s.tasks == [Task(V, 0, CallConvert, true, 3, 0),
                        Task(V, 0, SaveMetadata(Metadata("av1", 2000, "1080p", 500_000_000)), true, 2, 0)]
  {
    states, steps, s := DoubleProcessing(policy);
    states, steps, s := Extend(policy, states, steps, s, Advance(1, Okay));
    states, steps, s := Extend(policy, states, steps, s, Advance(1, Okay));
    states, steps, s :=
      Extend(policy, states, steps, s, Advance(1, Analyzed(Metadata("av1", 2000, "1080p", 500_000_000))));
  }

  lemma SecondTaskFinishes(policy: Policy) returns (states: seq<System>, steps: seq<Step>, s: System)
    ensures EndsIn(policy, states, steps, s)
    ensures V in s.table && s.table[V].status == Done && |s.queues| == 1
    ensures |s.tasks| == 2 && s.tasks[0] == Task(V, 0, CallConvert, true, 3, 0)
  {
    states, steps, s := SecondTaskAnalyzes(policy);
    states, steps, s := Extend(policy, states, steps, s, Advance(1, Stored(LATER)));
    states, steps, s := Extend(policy, states, steps, s, Advance(1, Stored(LATER)));
  }

  /** The second task finishes the video; then the first one, evicted long ago, fails it. */
  lemma DoneTurnsFailed(policy: Policy)
    returns (states: seq<System>, steps: seq<Step>, s: System, m: nat, k: nat)
    ensures EndsIn(policy, states, steps, s) && m <= k < |steps|
    ensures HasStatus(states[m], V, Done) && HasStatus(s, V, Failed)
    ensures Overwrites(states[k], steps[k], V)
  {
    states, steps, s := SecondTaskFinishes(policy);
    m := |steps|;
    states, steps, s := Extend(policy, states, steps, s, Advance(0, Error("convert failed")));
    states, steps, s := Extend(policy, states, steps, s, Advance(0, Stored(LATER)));
    TerminalHoldsIff(policy, states, steps, V, m, |steps|, Done);
    hide Perform, Enabled, Overwrites;
    assert !HasStatus(states[|steps|], V, Done);
    k :| m <= k < |steps| && Overwrites(states[k], steps[k], V);
  }
}
