/**
 The `videos` table and the effect of every SQL statement issued against it.
 Each statement is one atomic function from table to table; the row's status,
 owner and claim time together are the job queue.
 */
module Videos {
  import opened Wrappers
  import opened Timestamps

  datatype Status = Pending | Downloading | Converting | Uploading | Done | Failed {
    predicate InProgress() { Downloading? || Converting? || Uploading? }
    predicate Terminal() { Done? || Failed? }
  }

  datatype Video = Video(
    id: string,
    filePath: string,
    status: Status,
    originalCodec: Option<string>,
    originalBitrateKbps: Option<int>,
    originalSizeBytes: Option<int>,
    convertedSizeBytes: Option<int>,
    instanceId: Option<string>,
    errorMessage: Option<string>,
    createdAt: int,
    updatedAt: Stamp,
    claimedAt: Option<Stamp>,
    attempts: nat,
    lastRetryTime: Option<Stamp>)

  type Table = map<string, Video>

  /** The row INSERT leaves behind: five bound columns, defaults elsewhere. */
  function NewRow(id: string, filePath: string, status: Status, createdAt: int, updatedAt: Stamp): Video {
    Video(id, filePath, status, None, None, None, None, None, None, createdAt, updatedAt, None, 0, None)
  }

  /** PRIMARY KEY(id) and UNIQUE(file_path). */
  ghost predicate Schema(t: Table) {
    && (forall id <- t :: t[id].id == id)
    && (forall a <- t, b <- t :: t[a].filePath == t[b].filePath ==> a == b)
  }

  /** INSERT succeeds exactly when neither constraint would be broken. */
  predicate Insertable(t: Table, v: Video) {
    v.id !in t && forall id <- t :: t[id].filePath != v.filePath
  }

  function Inserted(t: Table, v: Video): Table {
    t[v.id := NewRow(v.id, v.filePath, v.status, v.createdAt, v.updatedAt)]
  }

  lemma InsertKeepsSchema(t: Table, v: Video)
    requires Schema(t) && Insertable(t, v)
    ensures Schema(Inserted(t, v))
  {
  }

  // ---- single-row updates ----

  /** The UPDATE statements the pipeline and the status handler issue on one row. */
  datatype Write =
    | StatusTo(status: Status)
    | MetadataTo(codec: string, bitrateKbps: int, sizeBytes: int)
    | ResultTo(size: int, outcome: Status)
    | FailWith(message: string)
    | CountAttempt

  function Patched(v: Video, w: Write, now: Stamp): Video {
    match w
    case StatusTo(s) => v.(status := s, updatedAt := now)
    case MetadataTo(c, b, n) =>
      v.(originalCodec := Some(c), originalBitrateKbps := Some(b), originalSizeBytes := Some(n), updatedAt := now)
    case ResultTo(n, s) => v.(convertedSizeBytes := Some(n), status := s, updatedAt := now)
    case FailWith(m) => v.(status := Failed, errorMessage := Some(m), updatedAt := now)
    case CountAttempt => v.(attempts := v.attempts + 1, lastRetryTime := Some(now), updatedAt := now)
  }

  /** `UPDATE ... WHERE id = ?`: no matching row means no change. */
  function Written(t: Table, id: string, w: Write, now: Stamp): Table {
    if id in t then t[id := Patched(t[id], w, now)] else t
  }

  /** `SET instance_id = COALESCE(instance_id, ?)` */
  function WithOwner(v: Video, instance: string): Video {
    if v.instanceId.None? then v.(instanceId := Some(instance)) else v
  }

  function Owned(t: Table, id: string, instance: string): Table {
    if id in t then t[id := WithOwner(t[id], instance)] else t
  }

  // ---- claiming and reclaiming ----

  /** A row that `ORDER BY created_at LIMIT 1` may return; ties are not broken. */
  predicate Oldest(t: Table, id: string) {
    && id in t && t[id].status.Pending?
    && forall other <- t :: t[other].status.Pending? ==> t[id].createdAt <= t[other].createdAt
  }

  function ClaimedRow(v: Video, instance: string, now: Stamp): Video {
    v.(status := Downloading, instanceId := Some(instance), claimedAt := Some(now), updatedAt := now)
  }

  function Claimed(t: Table, id: string, instance: string, now: Stamp): Table
    requires id in t
  {
    t[id := ClaimedRow(t[id], instance, now)]
  }

  /** The WHERE clause of `reclaim_stale_jobs`, comparing rendered timestamps. */
  predicate Stale(v: Video, cutoff: Stamp) {
    v.status.InProgress() && v.claimedAt.Some? && TextLess(Text(v.claimedAt.value), Text(cutoff))
  }

  function ReleasedRow(v: Video, now: Stamp): Video {
    v.(status := Pending, instanceId := None, claimedAt := None, updatedAt := now)
  }

  function Reclaimed(t: Table, cutoff: Stamp, now: Stamp): Table {
    map id <- t :: if Stale(t[id], cutoff) then ReleasedRow(t[id], now) else t[id]
  }

  function StaleIds(t: Table, cutoff: Stamp): set<string> {
    set id <- t | Stale(t[id], cutoff)
  }

  // ---- facts about the statements ----

  /** A non-empty set of pending rows has an oldest one, so a claim finds it. */
  lemma {:induction false} OldestExists(t: Table, pending: set<string>)
    requires pending != {} && pending <= t.Keys
    requires forall id <- pending :: t[id].status.Pending?
    ensures exists id <- pending :: forall other <- pending :: t[id].createdAt <= t[other].createdAt
    decreases |pending|
  {
    var x :| x in pending;
    var rest := pending - {x};
    if rest != {} {
      OldestExists(t, rest);
      var y :| y in rest && forall other <- rest :: t[y].createdAt <= t[other].createdAt;
      var best := if t[x].createdAt <= t[y].createdAt then x else y;
      assert best in pending && forall other <- pending :: t[best].createdAt <= t[other].createdAt by {
        forall other <- pending ensures t[best].createdAt <= t[other].createdAt {
          assert other == x || other in rest;
        }
      }
    } else {
      assert pending == {x};
    }
  }

  function PendingIds(t: Table): set<string> {
    set id <- t | t[id].status.Pending?
  }

  lemma ClaimFindsARow(t: Table)
    ensures PendingIds(t) != {} <==> exists id :: Oldest(t, id)
  {
    if PendingIds(t) != {} {
      OldestExists(t, PendingIds(t));
      var id :| id in PendingIds(t) && forall other <- PendingIds(t) :: t[id].createdAt <= t[other].createdAt;
      assert Oldest(t, id);
    } else {
      forall id ensures !Oldest(t, id) {
        assert id in t && t[id].status.Pending? ==> id in PendingIds(t);
      }
    }
  }

  const STALE_JOB_SECONDS := 1800

  /**
   The reclaim cutoff is sound and nearly complete. With `cutoff` thirty minutes before
   `now`, a row the statement selects was claimed more than thirty minutes ago, and an
   in-progress row claimed at least thirty minutes and one second ago is selected.
   */
  lemma ReclaimCutoff(v: Video, claim: Instant, now: Instant, cutoff: Instant)
    requires claim.Valid() && now.Valid() && cutoff.Valid()
    requires v.claimedAt == Some(claim.stamp)
    requires cutoff.Nanos() + STALE_JOB_SECONDS * 1_000_000_000 == now.Nanos()
    ensures Stale(v, cutoff.stamp) ==> claim.Nanos() + 30 * 60 * 1_000_000_000 < now.Nanos()
    ensures v.status.InProgress() && claim.Nanos() + (30 * 60 + 1) * 1_000_000_000 <= now.Nanos()
            ==> Stale(v, cutoff.stamp)
  {
    TextOrderIsTimeOrder(claim.stamp, cutoff.stamp);
  }
}
