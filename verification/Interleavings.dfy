/**
 What of the master's serial guarantees survives concurrent requests, and exactly when:
 the conditions are on the row a statement finds, which the handler read earlier.
 */
module Interleavings {
  import opened Wrappers
  import opened Videos
  import opened Repositories
  import opened Pipeline
  import opened Master
  import opened MasterRaces
  import opened Tally

  /** The step is the answered status write of a request for `v`. */
  ghost predicate Writes(s: MasterState, step: MasterStep, v: string) {
    && step.Proceed? && CanStep(s, step) && step.db.At?
    && s.calls[step.call].at.Writing? && s.calls[step.call].id == v && v in s.table
  }

  /**
   The status is still the one that was read, or the write is one of the two that an
   overtaken request may make: failing a row that is not terminal, finishing one that is
   downloading or uploading.
   */
  predicate Timely(current: Status, seen: Status, to: Status) {
    || current == seen
    || (to.Failed? && !current.Terminal())
    || (to.Done? && (current.Downloading? || current.Uploading?))
  }

  /** A late write still makes an accepted transition in exactly those cases. */
  lemma LateWriteIsAcceptedIff(c: Call, current: Status)
    requires CallSound(c) && c.at.Writing?
    ensures IsValidTransition(current, c.to) <==> Timely(current, c.at.seen.status, c.to)
  {
  }

  ghost predicate TimelyAt(s: MasterState, step: MasterStep, v: string) {
    Writes(s, step, v) ==>
      Timely(s.table[v].status, s.calls[step.call].at.seen.status, s.calls[step.call].to)
  }

  /** Timely, or a repetition of the status that is already there. */
  ghost predicate HarmlessAt(s: MasterState, step: MasterStep, v: string) {
    Writes(s, step, v) ==> TimelyAt(s, step, v) || s.table[v].status == s.calls[step.call].to
  }

  // ---- the status of a row ----

  ghost predicate Climbs(from: Status, to: Status) { from == to || IsValidTransition(from, to) }

  lemma StepMovesRow(s: MasterState, step: MasterStep, v: string)
    requires CanStep(s, step) && CallsSound(s) && v in s.table
    ensures var s' := AfterStep(s, step);
            && v in s'.table
            && s'.table[v].status == (if Writes(s, step, v) then s.calls[step.call].to else s.table[v].status)
            && (Climbs(s.table[v].status, s'.table[v].status) <==> HarmlessAt(s, step, v))
            && (Writes(s, step, v) ==>
                  (IsValidTransition(s.table[v].status, s'.table[v].status) <==> TimelyAt(s, step, v)))
  {
    if step.Proceed? {
      var c := s.calls[step.call];
      assert CallSound(c);
      if Writes(s, step, v) {
        LateWriteIsAcceptedIff(c, s.table[v].status);
        hide Timely, IsValidTransition;
      }
    }
  }

  ghost predicate ClimbsAt(states: seq<MasterState>, v: string, k: nat)
    requires k + 1 < |states|
  {
    v in states[k].table && v in states[k + 1].table ==>
      Climbs(states[k].table[v].status, states[k + 1].table[v].status)
  }

  /**
   In a run with any interleaving of requests, every change of a row's status is an
   accepted transition if and only if no write hits a row that left the status it was
   read in, save a repetition and the two late writes that are accepted.
   */
  lemma ClimbsIffHarmless(states: seq<MasterState>, steps: seq<MasterStep>, v: string)
    requires IsMasterRun(states, steps)
    ensures (forall k: nat :: k < |steps| ==> ClimbsAt(states, v, k))
            <==> (forall k: nat :: k < |steps| ==> HarmlessAt(states[k], steps[k], v))
  {
    forall k: nat | k < |steps| ensures ClimbsAt(states, v, k) <==> HarmlessAt(states[k], steps[k], v) {
      assert MasterStepAt(states, steps, k);
      CallsStaySound(states, steps, k);
      if v in states[k].table { StepMovesRow(states[k], steps[k], v); }
    }
  }

  /** Such runs keep the serial order: rank never falls, equal rank is equal status, terminal rows stay. */
  lemma {:induction false} HarmlessRunClimbs(
      states: seq<MasterState>, steps: seq<MasterStep>, v: string, m: nat, n: nat)
    requires IsMasterRun(states, steps) && m <= n < |states| && v in states[m].table
    requires forall k: nat :: m <= k < n ==> HarmlessAt(states[k], steps[k], v)
    ensures v in states[n].table
    ensures Rank(states[m].table[v].status) <= Rank(states[n].table[v].status)
    ensures Rank(states[m].table[v].status) == Rank(states[n].table[v].status)
            ==> states[n].table[v].status == states[m].table[v].status
    ensures states[m].table[v].status.Terminal() ==> states[n].table[v].status == states[m].table[v].status
  {
    if m < n {
      HarmlessRunClimbs(states, steps, v, m, n - 1);
      assert MasterStepAt(states, steps, n - 1);
      CallsStaySound(states, steps, n - 1);
      StepMovesRow(states[n - 1], steps[n - 1], v);
      var from, to := states[n - 1].table[v].status, states[n].table[v].status;
      if from != to { TransitionsClimb(from, to); }
    }
  }

  /** A late write that gives a terminal row another status. */
  ghost predicate Revives(s: MasterState, step: MasterStep, v: string) {
    Writes(s, step, v) && s.table[v].status.Terminal() && s.table[v].status != s.calls[step.call].to
  }

  ghost predicate HasStatus(s: MasterState, v: string, status: Status) {
    v in s.table && s.table[v].status == status
  }

  /** A terminal row keeps its status for as long as, and no longer than, no late write revives it. */
  lemma {:induction false} TerminalSurvivesIff(
      states: seq<MasterState>, steps: seq<MasterStep>, v: string, m: nat, n: nat, status: Status)
    requires IsMasterRun(states, steps) && m <= n < |states|
    requires HasStatus(states[m], v, status) && status.Terminal()
    ensures (forall k: nat :: m <= k <= n ==> HasStatus(states[k], v, status))
            <==> (forall k: nat :: m <= k < n ==> !Revives(states[k], steps[k], v))
  {
    if m < n {
      TerminalSurvivesIff(states, steps, v, m, n - 1, status);
      assert MasterStepAt(states, steps, n - 1);
      CallsStaySound(states, steps, n - 1);
      if HasStatus(states[n - 1], v, status) { StepMovesRow(states[n - 1], steps[n - 1], v); }
    }
  }

  /** The race at the end of module MasterRaces is such a write, and one that does not climb. */
  lemma RaceRevives() returns (states: seq<MasterState>, steps: seq<MasterStep>, k: nat)
    ensures IsMasterRun(states, steps) && k < |steps|
    ensures Revives(states[k], steps[k], V) && !HarmlessAt(states[k], steps[k], V)
  {
    var s, m;
    states, steps, s, m := RaceBreaksSerialGuarantees();
    TerminalSurvivesIff(states, steps, V, m, |steps|, Failed);
    assert !HasStatus(states[|steps|], V, Failed);
    k :| m <= k < |steps| && Revives(states[k], steps[k], V);
    CallsStaySound(states, steps, k);
    var c := states[k].calls[steps[k].call];
    assert CallSound(c);
    LateWriteIsAcceptedIff(c, states[k].table[V].status);
  }

  // ---- how many reports are accepted ----

  ghost predicate HasWritten(c: Call, v: string) {
    c.id == v && (c.at.Reloading? || (c.at.Answered? && c.at.response.Ok?))
  }

  ghost predicate IsAccepted(c: Call, v: string) {
    c.id == v && c.at.Answered? && c.at.response.Ok?
  }

  ghost function Written1(v: string): Call -> nat { (c: Call) => if HasWritten(c, v) then 1 else 0 }
  ghost function Accepted1(v: string): Call -> nat { (c: Call) => if IsAccepted(c, v) then 1 else 0 }

  /** A request past its checks is about a row that exists. */
  ghost predicate CallsHaveRows(s: MasterState) {
    forall c <- s.calls :: (c.at.Owning? || c.at.Writing? || HasWritten(c, c.id)) ==> c.id in s.table
  }

  lemma StepKeepsRows(s: MasterState, step: MasterStep)
    requires CanStep(s, step) && CallsHaveRows(s)
    ensures CallsHaveRows(AfterStep(s, step)) && s.table.Keys <= AfterStep(s, step).table.Keys
  {
    var s' := AfterStep(s, step);
    forall c <- s'.calls | c.at.Owning? || c.at.Writing? || HasWritten(c, c.id) ensures c.id in s'.table {
      if step.Proceed? && c !in s.calls { assert s.calls[step.call] in s.calls; }
    }
  }

  lemma {:induction false} RunKeepsRows(states: seq<MasterState>, steps: seq<MasterStep>, n: nat)
    requires IsMasterRun(states, steps) && n < |states|
    ensures CallsHaveRows(states[n])
  {
    if n > 0 {
      assert MasterStepAt(states, steps, n - 1);
      RunKeepsRows(states, steps, n - 1);
      StepKeepsRows(states[n - 1], steps[n - 1]);
    }
  }

  /** A step changes at most its own request, and only an answered write newly has written. */
  lemma StepWrites(s: MasterState, step: MasterStep, v: string)
    requires CanStep(s, step) && CallsHaveRows(s)
    ensures Sum(AfterStep(s, step).calls, Written1(v))
            <= Sum(s.calls, Written1(v)) + (if Writes(s, step, v) then 1 else 0)
  {
    var s' := AfterStep(s, step);
    match step
    case Discover(_) =>
    case Arrive(id, body) => SumAppend(s.calls, Arrived(id, body), Written1(v));
    case Proceed(i, db) =>
      assert s.calls[i] in s.calls;
      SumUpdate(s.calls, i, s'.calls[i], Written1(v));
  }

  /** Writes of `v` in the first `n` steps that are not timely. */
  ghost function UntimelyWrites(states: seq<MasterState>, steps: seq<MasterStep>, v: string, n: nat): nat
    requires n <= |steps| < |states|
  {
    if n == 0 then 0
    else UntimelyWrites(states, steps, v, n - 1) + if TimelyAt(states[n - 1], steps[n - 1], v) then 0 else 1
  }

  ghost function RankOf(s: MasterState, v: string): nat {
    if v in s.table then Rank(s.table[v].status) else 0
  }

  /** A timely write is paid for by the rank it gains, an untimely one loses at most three. */
  lemma StepPaysForWrite(s: MasterState, step: MasterStep, v: string)
    requires CanStep(s, step) && CallsSound(s) && CallsHaveRows(s)
    ensures var s' := AfterStep(s, step);
            Sum(s'.calls, Written1(v)) + RankOf(s, v)
            <= Sum(s.calls, Written1(v)) + RankOf(s', v) + (if TimelyAt(s, step, v) then 0 else 4)
  {
    StepWrites(s, step, v);
    if v in s.table {
      StepMovesRow(s, step, v);
      if Writes(s, step, v) {
        assert CallSound(s.calls[step.call]) && Rank(s.calls[step.call].to) >= 1;
        hide AfterStep, CanStep;
        if TimelyAt(s, step, v) { TransitionsClimb(s.table[v].status, s.calls[step.call].to); }
      }
    }
  }

  lemma {:induction false} WritesBelowRank(states: seq<MasterState>, steps: seq<MasterStep>, v: string, n: nat)
    requires IsMasterRun(states, steps) && n < |states|
    ensures Sum(states[n].calls, Written1(v)) <= RankOf(states[n], v) + 4 * UntimelyWrites(states, steps, v, n)
  {
    if n > 0 {
      hide AfterStep, CanStep, TimelyAt, RankOf, CallsSound, CallsHaveRows, Sum;
      assert MasterStepAt(states, steps, n - 1);
      WritesBelowRank(states, steps, v, n - 1);
      CallsStaySound(states, steps, n - 1);
      RunKeepsRows(states, steps, n - 1);
      StepPaysForWrite(states[n - 1], steps[n - 1], v);
    }
  }

  /**
   Under every interleaving at most four reports are accepted for a video, and four more
   for each untimely write of it.
   */
  lemma AcceptedBound(states: seq<MasterState>, steps: seq<MasterStep>, v: string, n: nat)
    requires IsMasterRun(states, steps) && n < |states|
    ensures Sum(states[n].calls, Accepted1(v)) <= 4 + 4 * UntimelyWrites(states, steps, v, n)
  {
    WritesBelowRank(states, steps, v, n);
    SumAtMost(states[n].calls, Accepted1(v), Written1(v), 1);
  }

  lemma {:induction false} NoneUntimely(states: seq<MasterState>, steps: seq<MasterStep>, v: string, n: nat)
    requires n <= |steps| < |states|
    ensures UntimelyWrites(states, steps, v, n) == 0
            <==> forall k: nat :: k < n ==> TimelyAt(states[k], steps[k], v)
  {
    if n > 0 { NoneUntimely(states, steps, v, n - 1); }
  }

  /** The four-report bound under every interleaving in which all writes are timely. */
  lemma AtMostFourConcurrently(states: seq<MasterState>, steps: seq<MasterStep>, v: string, n: nat)
    requires IsMasterRun(states, steps) && n < |states|
    requires forall k: nat :: k < n ==> TimelyAt(states[k], steps[k], v)
    ensures Sum(states[n].calls, Accepted1(v)) <= 4
  {
    AcceptedBound(states, steps, v, n);
    NoneUntimely(states, steps, v, n);
  }

  /** Each written report is behind the row or at it, and no two report the same rank. */
  ghost predicate WritesOrdered(s: MasterState, v: string) {
    && (forall i: nat :: i < |s.calls| && HasWritten(s.calls[i], v) ==>
          v in s.table && Rank(s.calls[i].to) <= Rank(s.table[v].status))
    && (forall i: nat, j: nat :: i < j < |s.calls| && HasWritten(s.calls[i], v) && HasWritten(s.calls[j], v) ==>
          Rank(s.calls[i].to) != Rank(s.calls[j].to))
  }

  lemma {:induction false} TimelyReportsDiffer(states: seq<MasterState>, steps: seq<MasterStep>, v: string, n: nat)
    requires IsMasterRun(states, steps) && n < |states|
    requires forall k: nat :: k < n ==> TimelyAt(states[k], steps[k], v)
    ensures WritesOrdered(states[n], v)
  {
    if n > 0 {
      assert MasterStepAt(states, steps, n - 1);
      TimelyReportsDiffer(states, steps, v, n - 1);
      CallsStaySound(states, steps, n - 1);
      RunKeepsRows(states, steps, n - 1);
      StepKeepsOrder(states[n - 1], steps[n - 1], v);
    }
  }

  lemma StepKeepsOrder(s: MasterState, step: MasterStep, v: string)
    requires CanStep(s, step) && CallsSound(s) && CallsHaveRows(s) && TimelyAt(s, step, v) && WritesOrdered(s, v)
    ensures WritesOrdered(AfterStep(s, step), v)
  {
    var s' := AfterStep(s, step);
    if v in s.table {
      StepMovesRow(s, step, v);
      if s'.table[v].status != s.table[v].status || Writes(s, step, v) {
        TransitionsClimb(s.table[v].status, s'.table[v].status);
      }
    }
    forall i: nat | i < |s'.calls| && HasWritten(s'.calls[i], v)
      ensures || (i < |s.calls| && HasWritten(s.calls[i], v) && s'.calls[i].to == s.calls[i].to)
              || (step == Proceed(i, step.db) && Writes(s, step, v) && s'.calls[i].to == s.calls[i].to)
    {
      if step.Proceed? { assert s.calls[step.call] in s.calls; }
    }
    hide AfterStep, CanStep, Timely, IsValidTransition;
  }

  // ---- whose reports are accepted ----

  /** The answered owner statement of a request for `v` finds another instance recorded. */
  ghost predicate LosesOwnership(s: MasterState, step: MasterStep, v: string) {
    && step.Proceed? && CanStep(s, step) && step.db.At?
    && s.calls[step.call].at.Owning? && s.calls[step.call].id == v && v in s.table
    && s.table[v].instanceId.Some? && s.table[v].instanceId.value != s.calls[step.call].body.instanceId
  }

  /** Every request for `v` that may write, or has written, comes from the recorded owner. */
  ghost predicate WritersOwn(s: MasterState, v: string) {
    forall c <- s.calls :: c.id == v && (c.at.Writing? || HasWritten(c, v)) ==>
      v in s.table && s.table[v].instanceId == Some(c.body.instanceId)
  }

  lemma StepKeepsWriters(s: MasterState, step: MasterStep, v: string)
    requires CanStep(s, step) && CallsSound(s) && CallsHaveRows(s) && WritersOwn(s, v)
    ensures WritersOwn(AfterStep(s, step), v) <==> !LosesOwnership(s, step, v)
  {
    var s' := AfterStep(s, step);
    if v in s.table { StepKeepsOwner(s, step, v); }
    if LosesOwnership(s, step, v) {
      assert s'.calls[step.call] in s'.calls;
    } else {
      forall c <- s'.calls | c.id == v && (c.at.Writing? || HasWritten(c, v))
        ensures v in s'.table && s'.table[v].instanceId == Some(c.body.instanceId)
      {
        if step.Proceed? && c !in s.calls { assert s.calls[step.call] in s.calls; }
      }
    }
  }

  lemma {:induction false} NoLossKeepsWriters(
      states: seq<MasterState>, steps: seq<MasterStep>, v: string, n: nat)
    requires IsMasterRun(states, steps) && n < |states|
    requires forall k: nat :: k < n ==> !LosesOwnership(states[k], steps[k], v)
    ensures WritersOwn(states[n], v)
  {
    if n > 0 {
      assert MasterStepAt(states, steps, n - 1);
      NoLossKeepsWriters(states, steps, v, n - 1);
      CallsStaySound(states, steps, n - 1);
      RunKeepsRows(states, steps, n - 1);
      StepKeepsWriters(states[n - 1], steps[n - 1], v);
    }
  }

  /**
   In a run with any interleaving, the writers of `v` are its recorded owner at every
   point if and only if no owner statement ever found another instance already recorded.
   */
  lemma OwnersWriteIff(states: seq<MasterState>, steps: seq<MasterStep>, v: string)
    requires IsMasterRun(states, steps)
    ensures (forall n: nat :: n < |states| ==> WritersOwn(states[n], v))
            <==> (forall k: nat :: k < |steps| ==> !LosesOwnership(states[k], steps[k], v))
  {
    if forall k: nat :: k < |steps| ==> !LosesOwnership(states[k], steps[k], v) {
      forall n: nat | n < |states| ensures WritersOwn(states[n], v) {
        NoLossKeepsWriters(states, steps, v, n);
      }
    }
    if forall n: nat :: n < |states| ==> WritersOwn(states[n], v) {
      forall k: nat | k < |steps| ensures !LosesOwnership(states[k], steps[k], v) {
        assert MasterStepAt(states, steps, k) && WritersOwn(states[k + 1], v);
        CallsStaySound(states, steps, k);
        RunKeepsRows(states, steps, k);
        StepKeepsWriters(states[k], steps[k], v);
      }
    }
  }

  /** Then all accepted reports for `v` carry one instance id. */
  lemma AcceptedShareInstance(
      states: seq<MasterState>, steps: seq<MasterStep>, v: string, n: nat, i: nat, j: nat)
    requires IsMasterRun(states, steps) && n < |states|
    requires forall k: nat :: k < n ==> !LosesOwnership(states[k], steps[k], v)
    requires i < |states[n].calls| && j < |states[n].calls|
    requires IsAccepted(states[n].calls[i], v) && IsAccepted(states[n].calls[j], v)
    ensures states[n].calls[i].body.instanceId == states[n].calls[j].body.instanceId
  {
    NoLossKeepsWriters(states, steps, v, n);
    assert states[n].calls[i] in states[n].calls && states[n].calls[j] in states[n].calls;
  }

  // ---- timely writes are not enough for that ----

  ghost predicate TimelyEndsIn(states: seq<MasterState>, steps: seq<MasterStep>, s: MasterState) {
    && MasterEndsIn(states, steps, s)
    && forall k: nat :: k < |steps| ==> TimelyAt(states[k], steps[k], V)
  }

  lemma TimelyExtend(states: seq<MasterState>, steps: seq<MasterStep>, s: MasterState, step: MasterStep)
    returns (states': seq<MasterState>, steps': seq<MasterStep>, s': MasterState)
    requires TimelyEndsIn(states, steps, s) && CanStep(s, step) && TimelyAt(s, step, V)
    ensures TimelyEndsIn(states', steps', s') && s' == AfterStep(s, step)
  {
    assert states[|steps|] == s && forall k: nat :: k < |steps| ==> TimelyAt(states[k], steps[k], V);
    states', steps', s' := MasterExtend(states, steps, s, step);
    assert |states'| == |steps'| + 1 && |states| == |steps| + 1;
    hide *;
    forall k: nat | k < |steps'| ensures TimelyAt(states'[k], steps'[k], V) {
      assert states'[k] == states[k];
      if k < |steps| { assert steps'[k] == steps[k]; }
    }
  }

  /** Both instances read the fresh row; one records itself, then its write is refused. */
  lemma OwnerWithoutWrite() returns (states: seq<MasterState>, steps: seq<MasterStep>, s: MasterState)
    ensures TimelyEndsIn(states, steps, s)
    ensures var row := NewRow(V, V, Pending, 0, T0);
            s == MasterState(map[V := row.(instanceId := Some("worker-a"))],
                             [Call(V, Report("downloading", "worker-a"), Downloading, Answered(InternalError)),
                              Call(V, Report("downloading", "worker-b"), Downloading, Owning(row))])
  {
    s := MasterState(map[], []);
    states, steps := [s], [];
    states, steps, s := TimelyExtend(states, steps, s, Discover(NewRow(V, V, Pending, 0, T0)));
    states, steps, s := TimelyExtend(states, steps, s, Arrive(V, Report("downloading", "worker-a")));
    states, steps, s := TimelyExtend(states, steps, s, Arrive(V, Report("downloading", "worker-b")));
    states, steps, s := TimelyExtend(states, steps, s, Proceed(0, At(T0)));
    states, steps, s := TimelyExtend(states, steps, s, Proceed(1, At(T0)));
    states, steps, s := TimelyExtend(states, steps, s, Proceed(0, At(T0)));
    states, steps, s := TimelyExtend(states, steps, s, Proceed(0, Unavailable("busy")));
  }

  lemma StrangerIsAccepted() returns (states: seq<MasterState>, steps: seq<MasterStep>, s: MasterState)
    ensures TimelyEndsIn(states, steps, s)
    ensures s.table.Keys == {V} && s.table[V].status == Downloading && s.table[V].instanceId == Some("worker-a")
    ensures |s.calls| == 2 && IsAccepted(s.calls[1], V) && s.calls[1].body.instanceId == "worker-b"
  {
    states, steps, s := OwnerWithoutWrite();
    states, steps, s := TimelyExtend(states, steps, s, Proceed(1, At(T0)));
    states, steps, s := TimelyExtend(states, steps, s, Proceed(1, At(T0)));
    states, steps, s := TimelyExtend(states, steps, s, Proceed(1, At(T0)));
  }

  /**
   Two instances are accepted for one video although no write was ever overtaken: the
   condition that matters is on the owner statement.
   */
  lemma TimelyWritesCanMixInstances() returns (states: seq<MasterState>, steps: seq<MasterStep>, s: MasterState)
    ensures TimelyEndsIn(states, steps, s)
    ensures |s.calls| == 3 && IsAccepted(s.calls[1], V) && IsAccepted(s.calls[2], V)
    ensures s.calls[1].body.instanceId != s.calls[2].body.instanceId
  {
    states, steps, s := StrangerIsAccepted();
    states, steps, s := TimelyExtend(states, steps, s, Arrive(V, Report("converting", "worker-a")));
    states, steps, s := TimelyExtend(states, steps, s, Proceed(2, At(T0)));
    states, steps, s := TimelyExtend(states, steps, s, Proceed(2, At(T0)));
    states, steps, s := TimelyExtend(states, steps, s, Proceed(2, At(T0)));
    states, steps, s := TimelyExtend(states, steps, s, Proceed(2, At(T0)));
  }

  // ---- exactly which requests are accepted ----

  ghost predicate PassesChecks(t: Table, c: Call) {
    c.id in t && Refusal(t[c.id], c.to, c.body.instanceId).None?
  }

  /** Every statement of request `i` in the steps from `m` on is answered. */
  ghost predicate AnsweredThrough(steps: seq<MasterStep>, i: nat, m: nat, n: nat)
    requires n <= |steps|
  {
    forall k: nat :: m <= k < n && steps[k].Proceed? && steps[k].call == i ==> steps[k].db.At?
  }

  ghost predicate OnItsWay(s: MasterState, i: nat) {
    && i < |s.calls| && s.calls[i].id in s.table
    && (s.calls[i].at.Owning? || s.calls[i].at.Writing? || s.calls[i].at.Reloading?
        || IsAccepted(s.calls[i], s.calls[i].id))
  }

  ghost predicate TurnedDown(s: MasterState, i: nat) {
    i < |s.calls| && s.calls[i].at.Answered? && !s.calls[i].at.response.Ok?
  }

  lemma {:induction false} RequestProgress(
      states: seq<MasterState>, steps: seq<MasterStep>, i: nat, m: nat, n: nat)
    requires IsMasterRun(states, steps) && m < n <= |steps|
    requires i < |states[m].calls| && states[m].calls[i].at.Reading?
    requires steps[m].Proceed? && steps[m].call == i
    ensures if PassesChecks(states[m].table, states[m].calls[i]) && AnsweredThrough(steps, i, m, n)
            then OnItsWay(states[n], i) else TurnedDown(states[n], i)
  {
    assert MasterStepAt(states, steps, n - 1);
    if m < n - 1 {
      RequestProgress(states, steps, i, m, n - 1);
      var s, step := states[n - 1], steps[n - 1];
      assert AnsweredThrough(steps, i, m, n)
        <==> AnsweredThrough(steps, i, m, n - 1) && (step.Proceed? && step.call == i ==> step.db.At?);
    }
  }

  /**
   Under every interleaving a request is accepted if and only if the row it read passes
   the checks and all its statements are answered, whatever happens to the row meanwhile.
   */
  lemma AcceptedIff(states: seq<MasterState>, steps: seq<MasterStep>, i: nat, m: nat, n: nat)
    requires IsMasterRun(states, steps) && m < n <= |steps|
    requires i < |states[m].calls| && states[m].calls[i].at.Reading?
    requires steps[m].Proceed? && steps[m].call == i
    ensures i < |states[n].calls|
    ensures states[n].calls[i].at.Answered? ==>
              (states[n].calls[i].at.response.Ok?
               <==> PassesChecks(states[m].table, states[m].calls[i]) && AnsweredThrough(steps, i, m, n))
  {
    RequestProgress(states, steps, i, m, n);
  }

  // ---- exactly when all accepted reports are the owner's ----

  /** Once past its checks, a request stays on its way exactly while its statements are answered. */
  lemma {:induction false} StaysOnItsWay(
      states: seq<MasterState>, steps: seq<MasterStep>, i: nat, m: nat, n: nat)
    requires IsMasterRun(states, steps) && m <= n < |states| && OnItsWay(states[m], i)
    ensures if AnsweredThrough(steps, i, m, n) then OnItsWay(states[n], i) else TurnedDown(states[n], i)
  {
    if m < n {
      assert MasterStepAt(states, steps, n - 1);
      StaysOnItsWay(states, steps, i, m, n - 1);
      var step := steps[n - 1];
      assert AnsweredThrough(steps, i, m, n)
        <==> AnsweredThrough(steps, i, m, n - 1) && (step.Proceed? && step.call == i ==> step.db.At?);
    }
  }

  /** The answered owner statement of request `i` for `v`. */
  ghost predicate OwnsAt(s: MasterState, step: MasterStep, i: nat, v: string) {
    && step.Proceed? && step.call == i && CanStep(s, step) && step.db.At?
    && s.calls[i].at.Owning? && s.calls[i].id == v
  }

  /** Every accepted request has an owner statement behind it. */
  lemma {:induction false} OwnerStatementOf(
      states: seq<MasterState>, steps: seq<MasterStep>, i: nat, v: string, n: nat)
    returns (k: nat)
    requires IsMasterRun(states, steps) && n < |states| && i < |states[n].calls|
    requires states[n].calls[i].id == v && (states[n].calls[i].at.Writing? || HasWritten(states[n].calls[i], v))
    ensures k < n && OwnsAt(states[k], steps[k], i, v)
  {
    assert n > 0 && MasterStepAt(states, steps, n - 1);
    if OwnsAt(states[n - 1], steps[n - 1], i, v) {
      k := n - 1;
    } else {
      k := OwnerStatementOf(states, steps, i, v, n - 1);
    }
  }

  /** After its owner statement a request is the owner's for good, or a stranger's for good. */
  lemma OwnerIsDecided(states: seq<MasterState>, steps: seq<MasterStep>, i: nat, v: string, k: nat, n: nat)
    requires IsMasterRun(states, steps) && k < n < |states| && OwnsAt(states[k], steps[k], i, v)
    ensures i < |states[n].calls| && v in states[n].table && OnItsWay(states[k], i)
    ensures states[n].calls[i].id == v
    ensures states[n].table[v].instanceId == Some(states[n].calls[i].body.instanceId)
            <==> !LosesOwnership(states[k], steps[k], v)
  {
    assert MasterStepAt(states, steps, k);
    RunKeepsRows(states, steps, k);
    assert states[k].calls[i] in states[k].calls;
    OwnerIsForever(states, steps, v, k + 1, n);
    CallsPersist(states, steps, i, k, n);
  }

  /** The owner statement of an accepted request loses, and still the request is answered to the end. */
  ghost predicate StrangerCompletes(states: seq<MasterState>, steps: seq<MasterStep>, k: nat, v: string)
    requires k < |steps| < |states|
  {
    && LosesOwnership(states[k], steps[k], v)
    && steps[k].call < |states[|steps|].calls| && states[|steps|].calls[steps[k].call].at.Answered?
    && AnsweredThrough(steps, steps[k].call, k, |steps|)
  }

  ghost predicate AcceptedAreOwners(s: MasterState, v: string) {
    forall i: nat :: i < |s.calls| && IsAccepted(s.calls[i], v) ==>
      v in s.table && s.table[v].instanceId == Some(s.calls[i].body.instanceId)
  }

  /**
   At the end of any run all accepted reports for `v` are its recorded owner's if and only
   if no request that found another owner recorded had all its later statements answered.
   */
  lemma AcceptedAreOwnersIff(states: seq<MasterState>, steps: seq<MasterStep>, v: string)
    requires IsMasterRun(states, steps)
    ensures AcceptedAreOwners(states[|steps|], v)
            <==> forall k: nat :: k < |steps| ==> !StrangerCompletes(states, steps, k, v)
  {
    var n := |steps|;
    if AcceptedAreOwners(states[n], v) {
      forall k: nat | k < n ensures !StrangerCompletes(states, steps, k, v) {
        if StrangerCompletes(states, steps, k, v) {
          var i := steps[k].call;
          assert OwnsAt(states[k], steps[k], i, v);
          OwnerIsDecided(states, steps, i, v, k, n);
          StaysOnItsWay(states, steps, i, k, n);
          assert false;
        }
      }
    }
    if forall k: nat :: k < n ==> !StrangerCompletes(states, steps, k, v) {
      forall i: nat | i < |states[n].calls| && IsAccepted(states[n].calls[i], v)
        ensures v in states[n].table && states[n].table[v].instanceId == Some(states[n].calls[i].body.instanceId)
      {
        var k := OwnerStatementOf(states, steps, i, v, n);
        OwnerIsDecided(states, steps, i, v, k, n);
        StaysOnItsWay(states, steps, i, k, n);
        assert !StrangerCompletes(states, steps, k, v);
      }
    }
  }

  // ---- the four-report bound is lost in a race ----

  /** The owner reports the next status and nobody interferes. */
  lemma OwnerReports(states: seq<MasterState>, steps: seq<MasterStep>, s: MasterState, to: Status)
    returns (states': seq<MasterState>, steps': seq<MasterStep>, s': MasterState)
    requires MasterEndsIn(states, steps, s) && V in s.table
    requires s.table[V].instanceId == Some("worker-a") && IsValidTransition(s.table[V].status, to)
    ensures MasterEndsIn(states', steps', s') && V in s'.table
    ensures s'.table[V].instanceId == Some("worker-a") && s'.table[V].status == to
    ensures |s'.calls| == |s.calls| + 1 && s'.calls[..|s.calls|] == s.calls
    ensures IsAccepted(s'.calls[|s.calls|], V)
  {
    ParsesItsText(to);
    var i := |s.calls|;
    states', steps', s' := MasterExtend(states, steps, s, Arrive(V, Report(StatusText(to), "worker-a")));
    states', steps', s' := MasterExtend(states', steps', s', Proceed(i, At(T0)));
    assert s'.calls[i].at == Owning(s.table[V]);
    states', steps', s' := MasterExtend(states', steps', s', Proceed(i, At(T0)));
    assert s'.calls[i].at == Writing(s.table[V]) && s'.table[V] == s.table[V];
    states', steps', s' := MasterExtend(states', steps', s', Proceed(i, At(T0)));
    assert s'.calls[i].at == Reloading && s'.table[V].status == to;
    states', steps', s' := MasterExtend(states', steps', s', Proceed(i, At(T0)));
  }

  /** After the race the owner goes on: five reports for one video are accepted. */
  lemma FiveCanBeAccepted() returns (states: seq<MasterState>, steps: seq<MasterStep>, s: MasterState)
    ensures MasterEndsIn(states, steps, s) && |s.calls| == 5
    ensures forall i: nat :: i < 5 ==> IsAccepted(s.calls[i], V)
  {
    var m;
    states, steps, s, m := RaceBreaksSerialGuarantees();
    hide AfterStep, CanStep;
    assert s.table[V].instanceId == Some("worker-a");
    states, steps, s := OwnerReports(states, steps, s, Converting);
    states, steps, s := OwnerReports(states, steps, s, Uploading);
    states, steps, s := OwnerReports(states, steps, s, Done);
  }
}
