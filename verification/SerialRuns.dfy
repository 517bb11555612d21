/**
 Runs whose requests do not overlap, discoveries at any point included: none of their
 writes is late and no owner statement is lost, so the serial guarantees follow from the
 conditions on interleaved runs.
 */
module SerialRuns {
  import opened Videos
  import opened Master
  import opened MasterRaces
  import opened Interleavings
  import opened Tally
  import opened Wrappers

  /** Between its read and its answer. */
  predicate Busy(c: Call) { c.at.Owning? || c.at.Writing? || c.at.Reloading? }

  /** A request reads only while no other one is between its read and its answer. */
  ghost predicate ReadsAlone(s: MasterState, step: MasterStep) {
    step.Proceed? && CanStep(s, step) && s.calls[step.call].at.Reading? ==>
      forall c <- s.calls :: !Busy(c)
  }

  ghost predicate SerialUpTo(states: seq<MasterState>, steps: seq<MasterStep>, n: nat)
    requires n <= |steps| < |states|
  {
    forall k: nat :: k < n ==> ReadsAlone(states[k], steps[k])
  }

  /** The row is as the request read it, except for the owner it recorded itself. */
  ghost predicate RowAsSeen(t: Table, c: Call) {
    && (c.at.Owning? ==> c.id in t && t[c.id] == c.at.seen)
    && (c.at.Writing? ==>
          c.id in t && t[c.id].status == c.at.seen.status && t[c.id].instanceId == Some(c.body.instanceId))
  }

  ghost predicate InOrder(s: MasterState) {
    && (forall i: nat, j: nat :: i < j < |s.calls| ==> !(Busy(s.calls[i]) && Busy(s.calls[j])))
    && (forall c <- s.calls :: RowAsSeen(s.table, c))
  }

  lemma StepStaysInOrder(s: MasterState, step: MasterStep)
    requires CanStep(s, step) && CallsSound(s) && InOrder(s) && ReadsAlone(s, step)
    ensures InOrder(AfterStep(s, step))
  {
    var s' := AfterStep(s, step);
    if step.Proceed? {
      var i := step.call;
      assert s.calls[i] in s.calls && CallSound(s.calls[i]) && RowAsSeen(s.table, s.calls[i]);
      forall j: nat | j < |s.calls| && j != i ensures !(Busy(s'.calls[j]) && Busy(s'.calls[i])) {
        assert s.calls[j] in s.calls;
      }
      forall j: nat | j < |s'.calls| ensures RowAsSeen(s'.table, s'.calls[j]) {
        assert s.calls[j] in s.calls && RowAsSeen(s.table, s.calls[j]);
      }
    } else {
      forall j: nat | j < |s'.calls| ensures RowAsSeen(s'.table, s'.calls[j]) {
        if j < |s.calls| { assert s.calls[j] in s.calls && RowAsSeen(s.table, s.calls[j]); }
      }
    }
  }

  lemma {:induction false} SerialStaysInOrder(states: seq<MasterState>, steps: seq<MasterStep>, n: nat)
    requires IsMasterRun(states, steps) && n < |states| && SerialUpTo(states, steps, n)
    ensures InOrder(states[n])
  {
    if n > 0 {
      assert MasterStepAt(states, steps, n - 1);
      SerialStaysInOrder(states, steps, n - 1);
      CallsStaySound(states, steps, n - 1);
      assert ReadsAlone(states[n - 1], steps[n - 1]);
      hide AfterStep, CanStep, InOrder, ReadsAlone;
      StepStaysInOrder(states[n - 1], steps[n - 1]);
    }
  }

  /** In a serial run every write finds the status that was read, and every owner statement wins. */
  lemma SerialIsTimely(states: seq<MasterState>, steps: seq<MasterStep>, v: string, k: nat)
    requires IsMasterRun(states, steps) && k < |steps| && SerialUpTo(states, steps, k)
    ensures TimelyAt(states[k], steps[k], v) && !LosesOwnership(states[k], steps[k], v)
  {
    SerialStaysInOrder(states, steps, k);
    CallsStaySound(states, steps, k);
    if Writes(states[k], steps[k], v) || LosesOwnership(states[k], steps[k], v) {
      var c := states[k].calls[steps[k].call];
      assert c in states[k].calls && CallSound(c) && RowAsSeen(states[k].table, c);
    }
  }

  /**
   The serial guarantees, from the interleaved conditions: for requests that do not
   overlap, at most four reports are accepted for a video, all from its recorded owner and
   of different rank, and its status climbs and stays once terminal.
   */
  lemma SerialGuarantees(states: seq<MasterState>, steps: seq<MasterStep>, v: string, m: nat, n: nat)
    requires IsMasterRun(states, steps) && m <= n < |states| && SerialUpTo(states, steps, n)
    ensures Sum(states[n].calls, Accepted1(v)) <= 4
    ensures WritersOwn(states[n], v) && WritesOrdered(states[n], v)
    ensures v in states[m].table ==>
              && v in states[n].table
              && Rank(states[m].table[v].status) <= Rank(states[n].table[v].status)
              && (states[m].table[v].status.Terminal() ==>
                    states[n].table[v].status == states[m].table[v].status)
  {
    forall k: nat | k < n
      ensures TimelyAt(states[k], steps[k], v) && !LosesOwnership(states[k], steps[k], v)
    {
      SerialIsTimely(states, steps, v, k);
    }
    hide SerialUpTo, TimelyAt, LosesOwnership;
    AtMostFourConcurrently(states, steps, v, n);
    NoLossKeepsWriters(states, steps, v, n);
    TimelyReportsDiffer(states, steps, v, n);
    if v in states[m].table { HarmlessRunClimbs(states, steps, v, m, n); }
  }
}
