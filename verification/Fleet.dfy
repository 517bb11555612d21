/**
 One master and any number of workers, each with its own database. Workers fetch the
 master's pending list, insert from it entry by entry, and run their own queues; the
 master serves status reports with interleaved statements.
 */
module Fleet {
  import opened Timestamps
  import opened Videos
  import opened Pipeline
  import opened WorkerSystem
  import opened Master
  import opened MasterRaces
  import opened Sync

  /** `fetched` is the rest of the pending list the coordinator is still working through. */
  datatype Worker = Worker(system: System, fetched: seq<Remote>)

  datatype FleetState = FleetState(master: MasterState, workers: seq<Worker>)

  datatype FleetStep =
    | MasterDoes(step: MasterStep)
    | WorkerDoes(worker: nat, local: Step)
    | Fetch(worker: nat, videos: seq<Video>)
    | SyncEntry(worker: nat)
    | SkipEntry(worker: nat)
    | AbortSync(worker: nat)

  ghost predicate PendingRows(t: Table, videos: seq<Video>) {
    forall v <- videos :: v.id in t && t[v.id] == v && v.status.Pending?
  }

  function RemoteOf(v: Video): Remote { Remote(v.id, v.filePath, v.createdAt, v.updatedAt) }

  function RemotesOf(videos: seq<Video>): seq<Remote> {
    seq(|videos|, i requires 0 <= i < |videos| => RemoteOf(videos[i]))
  }

  ghost predicate FleetEnabled(s: FleetState, step: FleetStep) {
    match step
    case MasterDoes(m) => CanStep(s.master, m)
    case WorkerDoes(w, local) => w < |s.workers| && !local.Insert? && Enabled(s.workers[w].system, local)
    case Fetch(w, videos) => w < |s.workers| && PendingRows(s.master.table, videos)
    case SyncEntry(w) => w < |s.workers| && |s.workers[w].fetched| > 0
    case SkipEntry(w) => w < |s.workers| && |s.workers[w].fetched| > 0
    case AbortSync(w) => w < |s.workers|
  }

  ghost function AfterSync(policy: Policy, w: Worker): Worker
    requires |w.fetched| > 0
  {
    var row := SyncedRow(w.fetched[0]);
    Worker(if Insertable(w.system.table, row) then Perform(policy, w.system, Insert(row)) else w.system,
           w.fetched[1..])
  }

  ghost function FleetAfter(policy: Policy, s: FleetState, step: FleetStep): FleetState
    requires FleetEnabled(s, step)
  {
    match step
    case MasterDoes(m) => s.(master := AfterStep(s.master, m))
    case WorkerDoes(w, local) =>
      s.(workers := s.workers[w := s.workers[w].(system := Perform(policy, s.workers[w].system, local))])
    case Fetch(w, videos) =>
      s.(workers := s.workers[w := s.workers[w].(fetched := RemotesOf(videos))])
    case SyncEntry(w) => s.(workers := s.workers[w := AfterSync(policy, s.workers[w])])
    case SkipEntry(w) =>
      s.(workers := s.workers[w := s.workers[w].(fetched := s.workers[w].fetched[1..])])
    case AbortSync(w) => s.(workers := s.workers[w := s.workers[w].(fetched := [])])
  }

  /** Workers and master move independently, fetches return any pending rows, and a sync may stop at any entry. */
  lemma FleetIsFree(policy: Policy, s: FleetState, w: nat, local: Step, m: MasterStep, videos: seq<Video>)
    requires w < |s.workers|
    ensures CanStep(s.master, m) ==> FleetEnabled(s, MasterDoes(m))
    ensures Enabled(s.workers[w].system, local) && !local.Insert? ==> FleetEnabled(s, WorkerDoes(w, local))
    ensures (forall v <- videos :: v.id in s.master.table && s.master.table[v.id] == v && v.status == Pending) ==>
              FleetEnabled(s, Fetch(w, videos))
    ensures s.workers[w].fetched != [] ==> FleetEnabled(s, SyncEntry(w)) && FleetEnabled(s, SkipEntry(w))
    ensures FleetEnabled(s, AbortSync(w))
            && FleetAfter(policy, s, AbortSync(w)) == s.(workers := s.workers[w := s.workers[w].(fetched := [])])
  {
  }

  ghost predicate FleetStepAt(policy: Policy, states: seq<FleetState>, steps: seq<FleetStep>, i: nat)
    requires i < |steps| < |states|
  {
    FleetEnabled(states[i], steps[i]) && states[i + 1] == FleetAfter(policy, states[i], steps[i])
  }

  ghost predicate IsFleetRun(policy: Policy, states: seq<FleetState>, steps: seq<FleetStep>) {
    && |states| == |steps| + 1
    && states[0].master == MasterState(map[], [])
    && (forall w: nat :: w < |states[0].workers| ==>
          Init(states[0].workers[w].system) && states[0].workers[w].fetched == [])
    && forall i: nat :: i < |steps| ==> FleetStepAt(policy, states, steps, i)
  }

  /** Worker `w` neither has `v` nor holds a pending list that names it. */
  ghost predicate Unaware(s: FleetState, w: nat, v: string)
  {
    && w < |s.workers|
    && v !in s.workers[w].system.table
    && forall r <- s.workers[w].fetched :: r.id != v
  }

  ghost predicate TakenAtMaster(s: FleetState, v: string) {
    && CallsSound(s.master)
    && v in s.master.table && !s.master.table[v].status.Pending?
  }

  lemma LocalStepsAddNothing(policy: Policy, s: System, step: Step)
    requires Enabled(s, step) && !step.Insert?
    ensures Perform(policy, s, step).table.Keys == s.table.Keys
  {
  }

  lemma StepKeepsUnaware(policy: Policy, s: FleetState, step: FleetStep, w: nat, v: string)
    requires FleetEnabled(s, step) && TakenAtMaster(s, v) && Unaware(s, w, v)
    ensures TakenAtMaster(FleetAfter(policy, s, step), v) && Unaware(FleetAfter(policy, s, step), w, v)
  {
    hide Perform, Enabled, AfterStep;
    match step
    case MasterDoes(m) =>
      StepKeepsCallsSound(s.master, m);
      StepKeepsOwner(s.master, m, v);
    case WorkerDoes(u, local) =>
      LocalStepsAddNothing(policy, s.workers[u].system, local);
    case SyncEntry(u) =>
      if u == w { SyncEntryKeepsUnaware(policy, s.workers[w], v); }
    case _ =>
  }

  lemma SyncEntryKeepsUnaware(policy: Policy, w: Worker, v: string)
    requires |w.fetched| > 0 && v !in w.system.table && forall r <- w.fetched :: r.id != v
    ensures v !in AfterSync(policy, w).system.table
  {
    assert w.fetched[0].id != v;
  }

  lemma {:induction false} MasterCallsSound(policy: Policy, states: seq<FleetState>, steps: seq<FleetStep>, n: nat)
    requires IsFleetRun(policy, states, steps) && n < |states|
    ensures CallsSound(states[n].master)
  {
    if n > 0 {
      hide Perform, Enabled, AfterStep, AfterSync;
      assert FleetStepAt(policy, states, steps, n - 1);
      MasterCallsSound(policy, states, steps, n - 1);
      if steps[n - 1].MasterDoes? { StepKeepsCallsSound(states[n - 1].master, steps[n - 1].step); }
    }
  }

  /**
   Cross-worker exclusion: once a video has left `pending` at the master, no sync ever
   inserts it into a worker that neither knew it nor had already fetched it.
   */
  lemma {:induction false} NoLateArrival(
      policy: Policy, states: seq<FleetState>, steps: seq<FleetStep>, w: nat, v: string, m: nat, n: nat)
    requires IsFleetRun(policy, states, steps) && m <= n < |states|
    requires v in states[m].master.table && !states[m].master.table[v].status.Pending?
    requires Unaware(states[m], w, v)
    ensures TakenAtMaster(states[n], v) && Unaware(states[n], w, v)
  {
    if m < n {
      hide FleetEnabled, FleetAfter, Unaware, TakenAtMaster;
      assert FleetStepAt(policy, states, steps, n - 1);
      NoLateArrival(policy, states, steps, w, v, m, n - 1);
      StepKeepsUnaware(policy, states[n - 1], steps[n - 1], w, v);
    } else {
      MasterCallsSound(policy, states, steps, n);
    }
  }

  // ---- the step by which a video enters a worker ----

  /** The coordinator inserts the head of its pending list, and it is `v`. */
  ghost predicate Enters(s: FleetState, step: FleetStep, w: nat, v: string) {
    && step == SyncEntry(w) && FleetEnabled(s, step)
    && s.workers[w].fetched[0].id == v
    && Insertable(s.workers[w].system.table, SyncedRow(s.workers[w].fetched[0]))
  }

  lemma EntersIff(policy: Policy, s: FleetState, step: FleetStep, w: nat, v: string)
    requires FleetEnabled(s, step) && w < |s.workers|
    ensures var s' := FleetAfter(policy, s, step);
            && |s'.workers| == |s.workers|
            && (v in s'.workers[w].system.table <==> v in s.workers[w].system.table || Enters(s, step, w, v))
  {
    hide AfterStep, Insertable;
    match step
    case WorkerDoes(u, local) =>
      LocalStepsAddNothing(policy, s.workers[u].system, local);
      hide Perform, Enabled;
    case _ =>
  }

  ghost predicate Names(fetched: seq<Remote>, v: string) {
    exists r <- fetched :: r.id == v
  }

  // ---- where a worker's videos come from ----

  /** Worker `w` fetches a list that names `v`, which is pending at the master. */
  ghost predicate FetchesPending(s: FleetState, step: FleetStep, w: nat, v: string) {
    && step.Fetch? && step.worker == w && FleetEnabled(s, step)
    && v in s.master.table && s.master.table[v].status.Pending?
    && exists x <- step.videos :: x.id == v
  }

  ghost predicate Knows(s: FleetState, w: nat, v: string) {
    w < |s.workers| && (v in s.workers[w].system.table || Names(s.workers[w].fetched, v))
  }

  lemma StepTeaches(policy: Policy, s: FleetState, step: FleetStep, w: nat, v: string)
    requires FleetEnabled(s, step) && Knows(FleetAfter(policy, s, step), w, v)
    ensures Knows(s, w, v) || FetchesPending(s, step, w, v)
  {
    EntersIff(policy, s, step, w, v);
    hide AfterStep, Insertable, Perform, Enabled;
    if !Knows(s, w, v) {
      var r :| r in FleetAfter(policy, s, step).workers[w].fetched && r.id == v;
      assert r !in s.workers[w].fetched;
      assert step.Fetch? && step.worker == w;
      var i :| 0 <= i < |step.videos| && RemotesOf(step.videos)[i] == r;
      assert step.videos[i] in step.videos;
    }
  }

  /** Whatever a worker knows it fetched while it was pending at the master. */
  lemma {:induction false} KnownWasFetched(
      policy: Policy, states: seq<FleetState>, steps: seq<FleetStep>, w: nat, v: string, n: nat)
    requires IsFleetRun(policy, states, steps) && n < |states| && Knows(states[n], w, v)
    ensures exists k: nat :: k < n && FetchesPending(states[k], steps[k], w, v)
  {
    hide FleetEnabled, FleetAfter, FetchesPending;
    if n > 0 {
      assert FleetStepAt(policy, states, steps, n - 1);
      StepTeaches(policy, states[n - 1], steps[n - 1], w, v);
      if Knows(states[n - 1], w, v) { KnownWasFetched(policy, states, steps, w, v, n - 1); }
    }
  }

  /** Copies of a video, fetched or inserted, have the master's file path and place in the queue. */
  ghost predicate PathsAgree(s: FleetState) {
    forall w: nat :: w < |s.workers| ==> CopiesAgree(s.master.table, s.workers[w])
  }

  ghost predicate CopiesAgree(t: Table, worker: Worker) {
    && (forall v <- worker.system.table ::
          && v in t && worker.system.table[v].filePath == t[v].filePath
          && worker.system.table[v].createdAt == t[v].createdAt)
    && (forall r <- worker.fetched ::
          r.id in t && r.filePath == t[r.id].filePath && r.createdAt == t[r.id].createdAt)
  }

  ghost predicate KeepsPaths(t: Table, t': Table) {
    forall v <- t :: v in t' && t'[v].filePath == t[v].filePath && t'[v].createdAt == t[v].createdAt
  }

  lemma WriteKeepsPaths(t: Table, id: string, w: Write, now: Stamp)
    ensures KeepsPaths(t, Written(t, id, w, now))
  {
  }

  lemma MasterKeepsPaths(s: MasterState, step: MasterStep)
    requires CanStep(s, step)
    ensures KeepsPaths(s.table, AfterStep(s, step).table)
  {
    if step.Proceed? && step.db.At? && s.calls[step.call].at.Writing? {
      var c := s.calls[step.call];
      WriteKeepsPaths(s.table, c.id, ReportedWrite(c.at.seen, c.to, c.body), step.db.now);
      hide Written, ReportedWrite, KeepsPaths;
    }
  }

  lemma LocalStepsKeepPaths(policy: Policy, s: System, step: Step)
    requires Enabled(s, step) && !step.Insert?
    ensures KeepsPaths(s.table, Perform(policy, s, step).table)
  {
    if step.Advance? {
      var t := s.tasks[step.task];
      if WriteAt(t.pc).Some? && step.outcome.Stored? {
        WriteKeepsPaths(s.table, t.video, WriteAt(t.pc).value, step.outcome.now);
      }
      hide Written, WriteAt, AdvancedTask, Accepts;
    }
  }

  lemma CopiesStayAgreed(t: Table, t': Table, worker: Worker, worker': Worker)
    requires CopiesAgree(t, worker) && KeepsPaths(t, t')
    requires worker'.fetched == worker.fetched
    requires worker'.system.table.Keys == worker.system.table.Keys
    requires KeepsPaths(worker.system.table, worker'.system.table)
    ensures CopiesAgree(t', worker')
  {
  }

  lemma SyncKeepsAgreement(policy: Policy, t: Table, worker: Worker)
    requires CopiesAgree(t, worker) && |worker.fetched| > 0
    ensures CopiesAgree(t, AfterSync(policy, worker))
    ensures CopiesAgree(t, worker.(fetched := worker.fetched[1..]))
  {
  }

  lemma FetchAgrees(t: Table, worker: Worker, videos: seq<Video>)
    requires CopiesAgree(t, worker) && PendingRows(t, videos)
    ensures CopiesAgree(t, worker.(fetched := RemotesOf(videos)))
  {
    assert forall x <- RemotesOf(videos) :: exists y <- videos :: x == RemoteOf(y);
  }

  lemma StepKeepsAgreement(policy: Policy, s: FleetState, step: FleetStep)
    requires FleetEnabled(s, step) && PathsAgree(s)
    ensures PathsAgree(FleetAfter(policy, s, step))
  {
    var s' := FleetAfter(policy, s, step);
    forall w: nat | w < |s'.workers| ensures CopiesAgree(s'.master.table, s'.workers[w]) {
      assert CopiesAgree(s.master.table, s.workers[w]);
      match step
      case MasterDoes(m) =>
        MasterKeepsPaths(s.master, m);
        hide AfterStep, CanStep;
        CopiesStayAgreed(s.master.table, s'.master.table, s.workers[w], s'.workers[w]);
      case WorkerDoes(u, local) =>
        LocalStepsAddNothing(policy, s.workers[u].system, local);
        LocalStepsKeepPaths(policy, s.workers[u].system, local);
        hide Perform, Enabled;
        CopiesStayAgreed(s.master.table, s.master.table, s.workers[w], s'.workers[w]);
      case Fetch(u, videos) =>
        assert CopiesAgree(s.master.table, s.workers[u]);
        FetchAgrees(s.master.table, s.workers[u], videos);
        hide CopiesAgree, RemotesOf;
      case SyncEntry(u) =>
        assert CopiesAgree(s.master.table, s.workers[u]);
        SyncKeepsAgreement(policy, s.master.table, s.workers[u]);
        hide CopiesAgree, AfterSync;
      case SkipEntry(u) =>
        assert CopiesAgree(s.master.table, s.workers[u]);
        SyncKeepsAgreement(policy, s.master.table, s.workers[u]);
        hide CopiesAgree, AfterSync;
      case AbortSync(_) =>
    }
  }

  lemma {:induction false} RunKeepsAgreement(
      policy: Policy, states: seq<FleetState>, steps: seq<FleetStep>, n: nat)
    requires IsFleetRun(policy, states, steps) && n < |states|
    ensures PathsAgree(states[n])
  {
    if n > 0 {
      hide FleetEnabled, FleetAfter, PathsAgree;
      assert FleetStepAt(policy, states, steps, n - 1);
      RunKeepsAgreement(policy, states, steps, n - 1);
      StepKeepsAgreement(policy, states[n - 1], steps[n - 1]);
    }
  }

  // ---- exactly which videos can still reach a worker ----

  lemma MasterKeepsSchema(s: MasterState, step: MasterStep)
    requires CanStep(s, step) && Schema(s.table)
    ensures Schema(AfterStep(s, step).table)
  {
    MasterKeepsPaths(s, step);
    if step.Discover? {
      InsertKeepsSchema(s.table, step.video);
    } else {
      OnlyDiscoveryAdds(s, step);
      hide AfterStep, CanStep;
    }
  }

  lemma OnlyDiscoveryAdds(s: MasterState, step: MasterStep)
    requires CanStep(s, step) && !step.Discover? && Schema(s.table)
    ensures var t := AfterStep(s, step).table;
            t.Keys == s.table.Keys && forall id <- t :: t[id].id == id
  {
    if step.Proceed? && step.db.At? && s.calls[step.call].at.Writing? {
      var c := s.calls[step.call];
      hide ReportedWrite;
    }
  }

  lemma {:induction false} RunKeepsSchema(
      policy: Policy, states: seq<FleetState>, steps: seq<FleetStep>, n: nat)
    requires IsFleetRun(policy, states, steps) && n < |states|
    ensures Schema(states[n].master.table)
  {
    if n > 0 {
      hide AfterStep, AfterSync, Perform, Enabled, CanStep, Schema;
      assert FleetStepAt(policy, states, steps, n - 1);
      RunKeepsSchema(policy, states, steps, n - 1);
      if steps[n - 1].MasterDoes? { MasterKeepsSchema(states[n - 1].master, steps[n - 1].step); }
    }
  }

  /** A listed video the worker does not hold can always be inserted: its path is its own. */
  lemma ListedIsInsertable(t: Table, worker: Worker, r: Remote)
    requires Schema(t) && CopiesAgree(t, worker) && r in worker.fetched && r.id !in worker.system.table
    ensures Insertable(worker.system.table, SyncedRow(r))
  {
    forall id <- worker.system.table ensures worker.system.table[id].filePath != r.filePath {
      assert t[id].filePath == worker.system.table[id].filePath && t[r.id].filePath == r.filePath;
    }
  }

  /** The coordinator takes `v` from the head of its pending list. */
  ghost predicate TakesFromList(s: FleetState, step: FleetStep, w: nat, v: string) {
    step == SyncEntry(w) && FleetEnabled(s, step) && s.workers[w].fetched[0].id == v
  }

  /**
   Between two states of a run a worker comes to hold `v` if and only if in between it
   took `v` from the head of its list; no other row is ever in the way of that insert.
   */
  lemma {:induction false} ArrivesIff(
      policy: Policy, states: seq<FleetState>, steps: seq<FleetStep>, w: nat, v: string, m: nat, n: nat)
    requires IsFleetRun(policy, states, steps) && m <= n < |states|
    requires w < |states[m].workers| && v !in states[m].workers[w].system.table
    ensures w < |states[n].workers|
    ensures v in states[n].workers[w].system.table
            <==> exists k: nat :: m <= k < n && TakesFromList(states[k], steps[k], w, v)
  {
    if m < n {
      assert FleetStepAt(policy, states, steps, n - 1);
      ArrivesIff(policy, states, steps, w, v, m, n - 1);
      var s, step := states[n - 1], steps[n - 1];
      EntersIff(policy, s, step, w, v);
      RunKeepsAgreement(policy, states, steps, n - 1);
      RunKeepsSchema(policy, states, steps, n - 1);
      hide FleetAfter, Schema, Insertable;
      if TakesFromList(s, step, w, v) && v !in s.workers[w].system.table {
        assert CopiesAgree(s.master.table, s.workers[w]);
        ListedIsInsertable(s.master.table, s.workers[w], s.workers[w].fetched[0]);
      }
      hide FleetEnabled, CopiesAgree;
    }
  }

  /** A continuation of a run at whose end worker `w` holds `v`. */
  ghost predicate Brings(
      policy: Policy, states: seq<FleetState>, steps: seq<FleetStep>, w: nat, v: string,
      longer: seq<FleetState>, more: seq<FleetStep>)
  {
    && IsFleetRun(policy, longer, more) && states <= longer && steps <= more
    && w < |longer[|more|].workers| && v in longer[|more|].workers[w].system.table
  }

  lemma FleetRunExtends(policy: Policy, states: seq<FleetState>, steps: seq<FleetStep>, step: FleetStep)
    requires IsFleetRun(policy, states, steps) && FleetEnabled(states[|steps|], step)
    ensures IsFleetRun(policy, states + [FleetAfter(policy, states[|steps|], step)], steps + [step])
  {
    var longer, more := states + [FleetAfter(policy, states[|steps|], step)], steps + [step];
    hide FleetAfter, FleetEnabled;
    forall i: nat | i < |more| ensures FleetStepAt(policy, longer, more, i) {
      if i < |steps| { assert FleetStepAt(policy, states, steps, i); }
    }
  }

  /** The worker skips the entries before `v` and inserts `v`. */
  lemma {:induction false} ListedCanArrive(
      policy: Policy, states: seq<FleetState>, steps: seq<FleetStep>, w: nat, v: string)
    returns (longer: seq<FleetState>, more: seq<FleetStep>)
    requires IsFleetRun(policy, states, steps)
    requires var s := states[|steps|];
             w < |s.workers| && v !in s.workers[w].system.table && Names(s.workers[w].fetched, v)
    ensures Brings(policy, states, steps, w, v, longer, more)
    decreases |states[|steps|].workers[w].fetched|
  {
    var s := states[|steps|];
    var worker := s.workers[w];
    var head := worker.fetched[0];
    if head.id == v {
      RunKeepsAgreement(policy, states, steps, |steps|);
      RunKeepsSchema(policy, states, steps, |steps|);
      assert CopiesAgree(s.master.table, worker);
      ListedIsInsertable(s.master.table, worker, head);
      FleetRunExtends(policy, states, steps, SyncEntry(w));
      EntersIff(policy, s, SyncEntry(w), w, v);
      hide FleetAfter;
      longer, more := states + [FleetAfter(policy, s, SyncEntry(w))], steps + [SyncEntry(w)];
    } else {
      var next := FleetAfter(policy, s, SkipEntry(w));
      FleetRunExtends(policy, states, steps, SkipEntry(w));
      assert next.workers[w] == worker.(fetched := worker.fetched[1..]);
      var r :| r in worker.fetched && r.id == v;
      assert r in worker.fetched[1..];
      longer, more := ListedCanArrive(policy, states + [next], steps + [SkipEntry(w)], w, v);
    }
  }

  lemma PendingCanArrive(
      policy: Policy, states: seq<FleetState>, steps: seq<FleetStep>, w: nat, v: string)
    returns (longer: seq<FleetState>, more: seq<FleetStep>)
    requires IsFleetRun(policy, states, steps)
    requires var s := states[|steps|];
             && w < |s.workers| && v !in s.workers[w].system.table
             && v in s.master.table && s.master.table[v].status.Pending?
    ensures Brings(policy, states, steps, w, v, longer, more)
  {
    var s := states[|steps|];
    RunKeepsSchema(policy, states, steps, |steps|);
    var row := s.master.table[v];
    var step := Fetch(w, [row]);
    FleetRunExtends(policy, states, steps, step);
    var next := FleetAfter(policy, s, step);
    assert next.workers[w].fetched == [RemoteOf(row)] && RemoteOf(row) in next.workers[w].fetched;
    longer, more := ListedCanArrive(policy, states + [next], steps + [step], w, v);
  }

  /**
   What a sync can still bring, readable from one state: a video known to the master and
   not held by worker `w` reaches it in some continuation of the run if and only if it is
   on the list `w` is working through or still pending at the master.
   */
  lemma CanArriveIff(policy: Policy, states: seq<FleetState>, steps: seq<FleetStep>, w: nat, v: string)
    requires IsFleetRun(policy, states, steps)
    requires var s := states[|steps|];
             w < |s.workers| && v !in s.workers[w].system.table && v in s.master.table
    ensures var s := states[|steps|];
            (exists longer, more :: Brings(policy, states, steps, w, v, longer, more))
            <==> Names(s.workers[w].fetched, v) || s.master.table[v].status.Pending?
  {
    var s := states[|steps|];
    if Names(s.workers[w].fetched, v) {
      var longer, more := ListedCanArrive(policy, states, steps, w, v);
    } else if s.master.table[v].status.Pending? {
      var longer, more := PendingCanArrive(policy, states, steps, w, v);
    } else {
      forall longer, more ensures !Brings(policy, states, steps, w, v, longer, more) {
        if Brings(policy, states, steps, w, v, longer, more) {
          assert longer[|steps|] == s;
          NoLateArrival(policy, longer, more, w, v, |steps|, |more|);
          assert false;
        }
      }
    }
  }

  /**
   Late arrivals: once `v` has left pending at the master, it can still reach a worker that
   does not hold it if and only if that worker's fetched list names it.
   */
  lemma LateArrivalIff(policy: Policy, states: seq<FleetState>, steps: seq<FleetStep>, w: nat, v: string)
    requires IsFleetRun(policy, states, steps)
    requires var s := states[|steps|];
             && w < |s.workers| && v !in s.workers[w].system.table
             && v in s.master.table && !s.master.table[v].status.Pending?
    ensures (exists longer, more :: Brings(policy, states, steps, w, v, longer, more))
            <==> Names(states[|steps|].workers[w].fetched, v)
  {
    CanArriveIff(policy, states, steps, w, v);
  }
}
