/**
 Two concrete fleet runs with no reclaim in them: every worker pulls the same pending
 rows into a database of its own, and no step of a worker's pipeline tells the master.
 */
module FleetHazards {
  import opened Timestamps
  import opened Videos
  import opened Repositories
  import opened Pipeline
  import opened WorkerSystem
  import opened Exclusion
  import opened MasterRaces
  import opened Fleet

  const CLIP := "movies/clip.mp4"
  const START: Stamp := Civil(2026, 7, 28, 12, 0, 0)
  const POLICY := Policy(1, (message: string) => false)

  function Clip(): Video { NewRow(CLIP, CLIP, Pending, 0, START) }

  function Idle(instance: string): Worker {
    Worker(System(map[], [], [Queue(instance, 1, 1, false)], map[], 0), [])
  }

  /** The worker after it synced the clip, acquired its permit and claimed it. */
  function Holding(instance: string): Worker {
    Worker(System(map[CLIP := ClaimedRow(Clip(), instance, START)],
                  [Task(CLIP, 0, MakeDir, true, 0, 0)], [Queue(instance, 1, 0, false)], map[CLIP := 0], 0), [])
  }

  ghost predicate FleetEndsIn(states: seq<FleetState>, steps: seq<FleetStep>, s: FleetState) {
    && IsFleetRun(POLICY, states, steps) && states[|steps|] == s
    && forall i: nat :: i < |steps| ==> !(steps[i].WorkerDoes? && steps[i].local.Reclaim?)
  }

  lemma FleetExtend(states: seq<FleetState>, steps: seq<FleetStep>, s: FleetState, step: FleetStep)
    returns (states': seq<FleetState>, steps': seq<FleetStep>, s': FleetState)
    requires FleetEndsIn(states, steps, s) && FleetEnabled(s, step)
    requires !(step.WorkerDoes? && step.local.Reclaim?)
    ensures FleetEndsIn(states', steps', s') && s' == FleetAfter(POLICY, s, step)
    ensures states <= states' && steps <= steps'
  {
    s' := FleetAfter(POLICY, s, step);
    states', steps' := states + [s'], steps + [step];
    hide FleetAfter, FleetEnabled;
    forall i: nat | i < |steps'| ensures FleetStepAt(POLICY, states', steps', i) {
      if i < |steps| { assert FleetStepAt(POLICY, states, steps, i); }
    }
  }

  /** The clip is pending at the master and worker 0 has fetched the list that names it. */
  lemma ClipIsFetched() returns (states: seq<FleetState>, steps: seq<FleetStep>, s: FleetState)
    ensures FleetEndsIn(states, steps, s)
    ensures s == FleetState(MasterState(map[CLIP := Clip()], []),
                            [Idle("worker-a").(fetched := [RemoteOf(Clip())]), Idle("worker-b")])
  {
    s := FleetState(MasterState(map[], []), [Idle("worker-a"), Idle("worker-b")]);
    states, steps := [s], [];
    states, steps, s := FleetExtend(states, steps, s, MasterDoes(Discover(Clip())));
    states, steps, s := FleetExtend(states, steps, s, Fetch(0, [Clip()]));
    assert RemotesOf([Clip()]) == [RemoteOf(Clip())];
  }

  lemma FetchedIsClaimed(states: seq<FleetState>, steps: seq<FleetStep>, s: FleetState, w: nat, instance: string)
    returns (states': seq<FleetState>, steps': seq<FleetStep>, s': FleetState)
    requires FleetEndsIn(states, steps, s) && w < |s.workers|
    requires s.workers[w] == Idle(instance).(fetched := [RemoteOf(Clip())])
    ensures FleetEndsIn(states', steps', s') && s' == s.(workers := s.workers[w := Holding(instance)])
  {
    var system := s.workers[w].system;
    states', steps', s' := FleetExtend(states, steps, s, SyncEntry(w));
    assert s'.workers[w] == Worker(system.(table := map[CLIP := Clip()], reclaims := map[CLIP := 0]), []);
    states', steps', s' := FleetExtend(states', steps', s', WorkerDoes(w, Acquire(0)));
    assert s'.workers[w].system.queues == [Queue(instance, 1, 0, true)];
    states', steps', s' := FleetExtend(states', steps', s', WorkerDoes(w, Claim(0, CLIP, START)));
    assert s'.workers[w] == Holding(instance);
    assert s'.workers == s.workers[w := Holding(instance)];
  }

  /** Two workers process one video at once, without any reclaim and without a race at the master. */
  lemma TwoWorkersOneVideo() returns (states: seq<FleetState>, steps: seq<FleetStep>, s: FleetState)
    ensures FleetEndsIn(states, steps, s) && |s.workers| == 2
    ensures LiveFor(s.workers[0].system, 0, CLIP) && LiveFor(s.workers[1].system, 0, CLIP)
    ensures s.master.table == map[CLIP := Clip()]
  {
    states, steps, s := ClipIsFetched();
    states, steps, s := FleetExtend(states, steps, s, Fetch(1, [Clip()]));
    assert RemotesOf([Clip()]) == [RemoteOf(Clip())];
    hide FleetAfter, FleetEnabled, RemotesOf;
    states, steps, s := FetchedIsClaimed(states, steps, s, 0, "worker-a");
    states, steps, s := FetchedIsClaimed(states, steps, s, 1, "worker-b");
  }

  /** A worker inserts a video another worker has already reported on, from the list it fetched earlier. */
  lemma LateArrival() returns (states: seq<FleetState>, steps: seq<FleetStep>, s: FleetState, m: nat)
    ensures FleetEndsIn(states, steps, s) && m < |states|
    ensures states[m].master.table.Keys == {CLIP} && states[m].master.table[CLIP].status == Downloading
    ensures |states[m].workers| == |s.workers| == 2 && CLIP !in states[m].workers[0].system.table
    ensures CLIP in s.workers[0].system.table
  {
    states, steps, s := ClipIsFetched();
    var report := Report("downloading", "worker-b");
    states, steps, s := FleetExtend(states, steps, s, MasterDoes(Arrive(CLIP, report)));
    states, steps, s := FleetExtend(states, steps, s, MasterDoes(Proceed(0, At(START))));
    states, steps, s := FleetExtend(states, steps, s, MasterDoes(Proceed(0, At(START))));
    states, steps, s := FleetExtend(states, steps, s, MasterDoes(Proceed(0, At(START))));
    m := |steps|;
    states, steps, s := FleetExtend(states, steps, s, SyncEntry(0));
  }
}
