/** Who uploads to one name: the claim protocol, the sync protocol and the naming together. */
module UploadTargets {
  import opened Videos
  import opened Pipeline
  import opened WorkerSystem
  import opened Exclusion
  import opened RemotePaths
  import Fleet

  ghost predicate Uploading(s: System, i: nat) {
    i < |s.tasks| && s.tasks[i].alive && s.tasks[i].pc.CallUpload? && s.tasks[i].video in s.table
  }

  function TaskRow(s: System, i: nat): Video
    requires i < |s.tasks| && s.tasks[i].video in s.table
  {
    s.table[s.tasks[i].video]
  }

  function TargetOf(v: Video, codec: string): Remote {
    SplitRemotePath(RemoteConvertedPath(v.filePath, codec))
  }

  /** Two files in one folder that differ at most in their extension. */
  ghost predicate SameStem(a: Video, b: Video) {
    && SplitRemotePath(a.filePath).dir == SplitRemotePath(b.filePath).dir
    && Stem(FileName(a.filePath)) == Stem(FileName(b.filePath))
  }

  /**
   Over one database, while every reclaim finds no live task, two tasks upload to one name
   exactly when their rows, which are then different, share folder and stem. Other workers
   have databases of their own; see below.
   */
  lemma SharedTargetNeedsSameStem(policy: Policy, states: seq<System>, steps: seq<Step>, n: nat, codec: string,
                                  a: nat, b: nat)
    requires IsRun(policy, states, steps) && n < |states| && '/' !in codec
    requires forall v, i: nat :: i < |steps| ==> AccurateFor(states[i], steps[i], v)
    requires a != b && Uploading(states[n], a) && Uploading(states[n], b)
    ensures var s := states[n];
            && s.tasks[a].video != s.tasks[b].video
            && (TargetOf(TaskRow(s, a), codec) == TargetOf(TaskRow(s, b), codec)
                <==> SameStem(TaskRow(s, a), TaskRow(s, b)))
  {
    var s := states[n];
    var v := s.tasks[a].video;
    ExclusiveIffReclaimsAccurate(policy, states, steps, v);
    assert Exclusive(s, v);
    assert LiveFor(s, a, v);
    assert s.tasks[b].video == v ==> LiveFor(s, b, v);
    ConvertedNamesClash(TaskRow(s, a).filePath, TaskRow(s, b).filePath, codec);
  }

  // ---- a fleet: one database per worker ----

  ghost predicate UploadingAt(s: Fleet.FleetState, w: nat, i: nat) {
    w < |s.workers| && Uploading(s.workers[w].system, i)
  }

  function RowAt(s: Fleet.FleetState, w: nat, i: nat): Video
    requires w < |s.workers| && i < |s.workers[w].system.tasks|
    requires s.workers[w].system.tasks[i].video in s.workers[w].system.table
  {
    TaskRow(s.workers[w].system, i)
  }

  /** Worker `w` fetched `v` before state `n`, while it was pending at the master. */
  ghost predicate FetchedBefore(
      states: seq<Fleet.FleetState>, steps: seq<Fleet.FleetStep>, w: nat, v: string, n: nat)
    requires n <= |steps| <= |states|
  {
    exists k: nat :: k < n && Fleet.FetchesPending(states[k], steps[k], w, v)
  }

  /**
   Across workers, for any reclaims: two live upload tasks have one target exactly when
   their rows share folder and stem. If they work on one video, that is so, and each
   worker fetched it while it was pending at the master; no reclaim is needed for it.
   */
  lemma TargetsMeetAcrossWorkers(
      policy: Policy, states: seq<Fleet.FleetState>, steps: seq<Fleet.FleetStep>, n: nat, codec: string,
      w: nat, a: nat, x: nat, b: nat)
    requires Fleet.IsFleetRun(policy, states, steps) && n < |states| && '/' !in codec
    requires w != x && UploadingAt(states[n], w, a) && UploadingAt(states[n], x, b)
    ensures var s := states[n];
            var v := s.workers[w].system.tasks[a].video;
            && (TargetOf(RowAt(s, w, a), codec) == TargetOf(RowAt(s, x, b), codec)
                <==> SameStem(RowAt(s, w, a), RowAt(s, x, b)))
            && (v == s.workers[x].system.tasks[b].video ==>
                  && SameStem(RowAt(s, w, a), RowAt(s, x, b))
                  && FetchedBefore(states, steps, w, v, n) && FetchedBefore(states, steps, x, v, n))
  {
    var s := states[n];
    var v := s.workers[w].system.tasks[a].video;
    ConvertedNamesClash(RowAt(s, w, a).filePath, RowAt(s, x, b).filePath, codec);
    hide RemoteConvertedPath, SplitRemotePath, Fleet.FleetEnabled, Fleet.FetchesPending;
    if v == s.workers[x].system.tasks[b].video {
      Fleet.RunKeepsAgreement(policy, states, steps, n);
      assert Fleet.CopiesAgree(s.master.table, s.workers[w]) && Fleet.CopiesAgree(s.master.table, s.workers[x]);
      Fleet.KnownWasFetched(policy, states, steps, w, v, n);
      Fleet.KnownWasFetched(policy, states, steps, x, v, n);
    }
  }
}
