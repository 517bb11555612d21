/** The queue object: one claim at a time under a semaphore, one spawned task per claim. */
module JobQueues {
  import opened Arithmetic
  import opened Wrappers
  import opened Timestamps
  import opened Videos
  import opened Repositories
  import opened Pipeline
  import opened Jobs
  import opened Processor

  class JobQueue {
    const repository: Repository
    const instanceId: string
    const maxParallelJobs: nat
    /** Free permits of the semaphore. */
    var permits: nat
    /** Videos of the spawned tasks, each holding one permit. */
    var spawned: seq<string>

    ghost predicate Valid()
      reads this
    {
      maxParallelJobs >= 1 && permits + |spawned| == maxParallelJobs
    }

    constructor (repository: Repository, instanceId: string, maxParallelJobs: nat)
      ensures this.repository == repository && this.instanceId == instanceId
      ensures this.maxParallelJobs == (if maxParallelJobs < 1 then 1 else maxParallelJobs)
      ensures Valid() && spawned == []
    {
      this.repository := repository;
      this.instanceId := instanceId;
      this.maxParallelJobs := if maxParallelJobs < 1 then 1 else maxParallelJobs;
      permits := if maxParallelJobs < 1 then 1 else maxParallelJobs;
      spawned := [];
    }

    /** One round of the claim loop, entered once a permit is free. */
    method ClaimAndSpawn(db: Db) returns (r: Result<bool, string>)
      requires Valid() && permits > 0 && Schema(repository.videos)
      modifies this`permits, this`spawned, repository
      ensures Valid() && Schema(repository.videos)
      ensures r == Success(true) ==>
                && db.At?
                && |spawned| == |old(spawned)| + 1 && old(spawned) <= spawned
                && var id := spawned[|old(spawned)|];
                && Oldest(old(repository.videos), id)
                && repository.videos
                   == old(repository.videos)[id :=
                        old(repository.videos)[id].(status := Downloading, instanceId := Some(instanceId),
                                                    claimedAt := Some(db.now), updatedAt := db.now)]
      ensures r != Success(true) ==>
                permits == old(permits) && spawned == old(spawned) && repository.videos == old(repository.videos)
      ensures r == Success(false) ==> PendingIds(repository.videos) == {}
      ensures r.Failure? <==> db.Unavailable?
      ensures r.Failure? ==> r.error == db.error
    {
      permits := permits - 1;
      var claimed := repository.ClaimNextPending(instanceId, db);
      match claimed
      case Success(Some(video)) =>
        spawned := spawned + [video.id];
        return Success(true);
      case Success(None) =>
        permits := permits + 1;
        return Success(false);
      case Failure(e) =>
        permits := permits + 1;
        return Failure(e);
    }

    /** A task is gone, by return or by unwinding: its permit is free again. */
    method DropPermit(i: nat)
      requires Valid() && i < |spawned|
      modifies this`permits, this`spawned
      ensures Valid() && permits == old(permits) + 1
      ensures spawned == old(spawned)[..i] + old(spawned)[i + 1..]
    {
      spawned := spawned[..i] + spawned[i + 1..];
      permits := permits + 1;
    }

    /** The body of a spawned task: run the job, store its failure, drop the permit. */
    method RunSpawned(i: nat, orchestrator: ProcessorOrchestrator, script: Script, db: Db)
      requires Valid() && i < |spawned|
      requires orchestrator.repository == repository && orchestrator.events == [] && orchestrator.writes == 0
      modifies this`permits, this`spawned, repository, orchestrator`events, orchestrator`writes
      ensures Valid() && permits == old(permits) + 1
      ensures repository.videos
              == AfterTask(orchestrator.policy, old(spawned)[i], script, old(repository.videos), db)
    {
      hide RunJob;
      var id := spawned[i];
      var result := orchestrator.ProcessOne(id, script);
      if result.Failure? {
        var stored := repository.FailVideo(id, result.error, db);
      }
      DropPermit(i);
    }

    /**
     Claiming until nothing is pending, or the database has no more answers to give. An
     answered claim takes one row while any is pending, a refused one none; rows are handed
     out once each, oldest first, and every other row is left alone. So with more answers
     than pending rows the queue is drained by exactly one claim per row.
     */
    method DrainPending(db: seq<Db>) returns (claimed: seq<string>, drained: bool)
      requires Schema(repository.videos)
      modifies repository
      ensures OldestFirst(old(repository.videos), claimed)
      ensures OnlyClaimed(old(repository.videos), repository.videos, claimed, instanceId)
      ensures |claimed| == Min(Answered(db), |PendingIds(old(repository.videos))|)
      ensures drained <==> Answered(db) > |PendingIds(old(repository.videos))|
      ensures drained ==> PendingIds(repository.videos) == {}
      ensures |claimed| == |PendingIds(old(repository.videos))| ==>
                multiset(claimed) == multiset(PendingIds(old(repository.videos)))
    {
      claimed := [];
      ghost var t := repository.videos;
      for i := 0 to |db|
        invariant Schema(repository.videos) && DrainedSoFar(t, repository.videos, claimed, instanceId)
        invariant |claimed| == Answered(db[..i])
      {
        ghost var current := repository.videos;
        assert db[..i + 1][..i] == db[..i];
        var next := repository.ClaimNextPending(instanceId, db[i]);
        match next
        case Success(Some(video)) =>
          ClaimDrains(t, current, claimed, video.id, instanceId, db[i].now);
          claimed := claimed + [video.id];
        case Success(None) =>
          AllDrained(t, current, claimed, instanceId);
          AnsweredGrows(db, i + 1);
          return claimed, true;
        case Failure(_) =>
      }
      assert db[..|db|] == db;
      DrainedCount(t, repository.videos, claimed, instanceId);
      if |claimed| == |PendingIds(t)| { AllClaimed(t, claimed); }
      return claimed, false;
    }
  }

  function Answered(db: seq<Db>): nat {
    if db == [] then 0 else Answered(db[..|db| - 1]) + if db[|db| - 1].At? then 1 else 0
  }

  lemma {:induction false} AnsweredGrows(db: seq<Db>, i: nat)
    requires i <= |db|
    ensures Answered(db[..i]) <= Answered(db)
    decreases |db| - i
  {
    if i == |db| {
      assert db[..i] == db;
    } else {
      assert db[..i + 1][..i] == db[..i];
      AnsweredGrows(db, i + 1);
    }
  }

  /** The table a spawned task leaves, the queue's own failure write included. */
  function AfterTask(policy: Policy, id: string, script: Script, t: Table, db: Db): Table {
    var end := RunJob(policy, id, script, Start(t));
    if end.pc.FailAgain? then TableAfterStatement(end.table, id, FailWith(end.pc.message), db) else end.table
  }

  /**
   With a database that answers during the job, a claimed video ends done with the
   script's final size exactly when the script succeeds, and otherwise failed with the
   reported message, whether or not the queue's second failure write gets through.
   */
  lemma SpawnedJobOutcome(policy: Policy, id: string, script: Script, t: Table, db: Db)
    requires Reliable(script) && id in t && t[id].status.Downloading?
    ensures var after := AfterTask(policy, id, script, t, db);
            && OnlyRowChanged(t, after, id)
            && (if JobSucceeds(policy, script) then
                  && after[id].status.Done?
                  && after[id].convertedSizeBytes == Some(AsI64(FinalSize(script)))
                else
                  var end := RunJob(policy, id, script, Start(t));
                  && end.pc.FailAgain? && after[id].status.Failed?
                  && after[id].errorMessage == Some(end.pc.message)
                  && after[id].(updatedAt := end.table[id].updatedAt) == end.table[id])
  {
    JobOutcome(policy, id, script, t);
    hide RunJob, JobSucceeds, Reliable, FinalSize, WellBracketed;
    var end := RunJob(policy, id, script, Start(t));
    if end.pc.FailAgain? {
      FailedTwice(t, end.table, id, end.pc.message, db);
    }
    hide TableAfterStatement, OnlyRowChanged;
  }

  /** Storing the same failure again moves nothing but the row's update time. */
  lemma FailedTwice(t: Table, failed: Table, id: string, m: string, db: Db)
    requires OnlyRowChanged(t, failed, id) && id in failed
    requires failed[id].status.Failed? && failed[id].errorMessage == Some(m)
    ensures var after := TableAfterStatement(failed, id, FailWith(m), db);
            && OnlyRowChanged(t, after, id) && id in after
            && after[id].(updatedAt := failed[id].updatedAt) == failed[id]
  {
  }

  /** Claimed so far, each once and oldest first, and nothing still pending is older. */
  ghost predicate OldestFirst(t: Table, ids: seq<string>) {
    && (forall i: nat :: i < |ids| ==> ids[i] in t && t[ids[i]].status.Pending?)
    && (forall i, j :: 0 <= i < j < |ids| ==> ids[i] != ids[j] && t[ids[i]].createdAt <= t[ids[j]].createdAt)
    && (forall i: nat, id :: i < |ids| && id in t && t[id].status.Pending? && id !in ids ==>
          t[ids[i]].createdAt <= t[id].createdAt)
  }

  /** A pending row as some claim of `instance` leaves it. */
  ghost predicate IsClaimOf(v: Video, claimed: Video, instance: string) {
    && claimed.claimedAt.Some?
    && claimed == v.(status := Downloading, instanceId := Some(instance), claimedAt := claimed.claimedAt,
                     updatedAt := claimed.claimedAt.value)
  }

  /** Exactly the listed rows are claimed. */
  ghost predicate OnlyClaimed(t: Table, current: Table, ids: seq<string>, instance: string) {
    && current.Keys == t.Keys
    && (forall id <- t :: id !in ids ==> current[id] == t[id])
    && (forall i: nat :: i < |ids| ==> ids[i] in t && IsClaimOf(t[ids[i]], current[ids[i]], instance))
  }

  ghost predicate DrainedSoFar(t: Table, current: Table, ids: seq<string>, instance: string) {
    OldestFirst(t, ids) && OnlyClaimed(t, current, ids, instance)
  }

  lemma OneMoreClaimed(t: Table, current: Table, ids: seq<string>, id: string, instance: string, now: Stamp)
    requires OnlyClaimed(t, current, ids, instance) && id in t && id !in ids
    ensures OnlyClaimed(t, Claimed(current, id, instance, now), ids + [id], instance)
  {
    var next, longer := Claimed(current, id, instance, now), ids + [id];
    forall other <- t | other !in longer ensures next[other] == t[other] {
      assert longer[|ids|] == id;
      assert other !in ids;
    }
    forall i: nat | i < |longer|
      ensures longer[i] in t && IsClaimOf(t[longer[i]], next[longer[i]], instance)
    {
      if i < |ids| { assert longer[i] == ids[i] && ids[i] in ids; }
    }
  }

  lemma OldestIsNext(t: Table, ids: seq<string>, id: string)
    requires OldestFirst(t, ids) && id in t && t[id].status.Pending? && id !in ids
    requires forall other <- t :: t[other].status.Pending? && other !in ids ==> t[id].createdAt <= t[other].createdAt
    ensures OldestFirst(t, ids + [id])
  {
    var longer := ids + [id];
    assert forall x :: x in longer <==> x in ids || x == id;
    forall i, j | 0 <= i < j < |longer|
      ensures longer[i] != longer[j] && t[longer[i]].createdAt <= t[longer[j]].createdAt
    {
      if j == |ids| { assert longer[i] == ids[i]; }
    }
  }

  lemma ClaimDrains(t: Table, current: Table, ids: seq<string>, id: string, instance: string, now: Stamp)
    requires DrainedSoFar(t, current, ids, instance) && Oldest(current, id)
    ensures DrainedSoFar(t, Claimed(current, id, instance, now), ids + [id], instance)
  {
    assert id !in ids && current[id] == t[id];
    forall other <- t | t[other].status.Pending? && other !in ids ensures t[id].createdAt <= t[other].createdAt {
      assert current[other] == t[other];
    }
    OldestIsNext(t, ids, id);
    OneMoreClaimed(t, current, ids, id, instance, now);
  }

  function Elements(ids: seq<string>): set<string> { set id <- ids }

  lemma {:induction false} DistinctCount(ids: seq<string>)
    requires forall i, j :: 0 <= i < j < |ids| ==> ids[i] != ids[j]
    ensures multiset(ids) == multiset(Elements(ids)) && |Elements(ids)| == |ids|
    decreases |ids|
  {
    if ids != [] {
      var last := ids[|ids| - 1];
      var rest := ids[..|ids| - 1];
      assert ids == rest + [last];
      DistinctCount(rest);
      assert Elements(ids) == Elements(rest) + {last};
    }
  }

  /** What was handed out is as many pending rows, and no more. */
  lemma DrainedCount(t: Table, current: Table, ids: seq<string>, instance: string)
    requires DrainedSoFar(t, current, ids, instance)
    ensures |ids| <= |PendingIds(t)|
  {
    DistinctCount(ids);
    SubsetSize(Elements(ids), PendingIds(t));
  }

  lemma AllClaimed(t: Table, ids: seq<string>)
    requires OldestFirst(t, ids) && |ids| == |PendingIds(t)|
    ensures multiset(ids) == multiset(PendingIds(t))
  {
    DistinctCount(ids);
    SubsetSize(Elements(ids), PendingIds(t));
  }

  /** When nothing is pending any more, everything that was has been handed out. */
  lemma AllDrained(t: Table, current: Table, ids: seq<string>, instance: string)
    requires DrainedSoFar(t, current, ids, instance) && PendingIds(current) == {}
    ensures multiset(ids) == multiset(PendingIds(t)) && |ids| == |PendingIds(t)|
  {
    DistinctCount(ids);
    forall id ensures id in Elements(ids) <==> id in PendingIds(t) {
      assert id in PendingIds(current) ==> id in PendingIds(t) && id !in ids;
      assert id in PendingIds(t) && id !in ids ==> id in PendingIds(current);
    }
    assert Elements(ids) == PendingIds(t);
  }
}
