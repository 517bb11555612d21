/** The repository object: one shared table, every method one atomic statement. */
module Repositories {
  import opened Wrappers
  import opened Timestamps
  import opened Videos

  /** How the database answers a statement: executed at a time, or not at all. */
  datatype Db = At(now: Stamp) | Unavailable(error: string)

  class Repository {
    var videos: Table

    constructor ()
      ensures videos == map[]
    {
      videos := map[];
    }

    method InsertVideo(video: Video, db: Db) returns (r: Result<(), string>)
      modifies this
      ensures r.Success? <==> db.At? && Insertable(old(videos), video)
      ensures db.Unavailable? ==> r == Failure(db.error)
      ensures videos == if r.Success? then Inserted(old(videos), video) else old(videos)
      ensures r.Success? ==>
                && video.id !in old(videos)
                && (forall id <- old(videos) :: old(videos)[id].filePath != video.filePath)
                && videos == old(videos)[video.id :=
                     Video(video.id, video.filePath, video.status, None, None, None, None, None, None,
                           video.createdAt, video.updatedAt, None, 0, None)]
    {
      match db
      case Unavailable(e) => r := Failure(e);
      case At(_) =>
        if Insertable(videos, video) {
          videos := Inserted(videos, video);
          r := Success(());
        } else {
          r := Failure("UNIQUE constraint failed");
        }
    }

    method GetVideo(id: string, db: Db) returns (r: Result<Option<Video>, string>)
      ensures r.Success? <==> db.At?
      ensures db.Unavailable? ==> r == Failure(db.error)
      ensures r.Success? ==> r.value == if id in videos then Some(videos[id]) else None
    {
      if db.Unavailable? {
        return Failure(db.error);
      }
      if id in videos {
        return Success(Some(videos[id]));
      }
      return Success(None);
    }

    /** `LIMIT` without `ORDER BY`: any selection of pending rows of the right size. */
    method GetPendingVideos(limit: nat, db: Db) returns (r: Result<seq<Video>, string>)
      requires Schema(videos)
      ensures r.Success? <==> db.At?
      ensures db.Unavailable? ==> r == Failure(db.error)
      ensures r.Success? ==>
                && (forall v <- r.value :: v.id in videos && videos[v.id] == v && v.status.Pending?)
                && (forall i, j :: 0 <= i < j < |r.value| ==> r.value[i].id != r.value[j].id)
                && |r.value| == (if limit < |PendingIds(videos)| then limit else |PendingIds(videos)|)
    {
      if db.Unavailable? {
        return Failure(db.error);
      }
      var rest := PendingIds(videos);
      var found: seq<Video> := [];
      while |found| < limit && rest != {}
        invariant |found| <= limit
        invariant |found| + |rest| == |PendingIds(videos)| && rest <= PendingIds(videos)
        invariant forall v <- found :: v.id in PendingIds(videos) && v.id !in rest && videos[v.id] == v
        invariant forall i, j :: 0 <= i < j < |found| ==> found[i].id != found[j].id
        decreases rest
      {
        var id :| id in rest;
        found := found + [videos[id]];
        rest := rest - {id};
      }
      return Success(found);
    }

    /** The oldest pending row becomes the caller's, in one statement. */
    method ClaimNextPending(instanceId: string, db: Db) returns (r: Result<Option<Video>, string>)
      requires Schema(videos)
      modifies this
      ensures r.Success? <==> db.At?
      ensures db.Unavailable? ==> r == Failure(db.error)
      ensures r.Success? && r.value.Some? ==>
                var v := r.value.value;
                && Oldest(old(videos), v.id)
                && (forall id <- old(videos) :: old(videos)[id].status.Pending? ==>
                      old(videos)[v.id].createdAt <= old(videos)[id].createdAt)
                && old(videos)[v.id].status.Pending?
                && v == old(videos)[v.id].(status := Downloading, instanceId := Some(instanceId),
                                           claimedAt := Some(db.now), updatedAt := db.now)
                && videos == old(videos)[v.id := v]
                && videos == Claimed(old(videos), v.id, instanceId, db.now)
      ensures r.Success? && r.value.None? ==> PendingIds(old(videos)) == {}
      ensures r.Failure? || r.value.None? ==> videos == old(videos)
      ensures Schema(videos)
    {
      if db.Unavailable? {
        return Failure(db.error);
      }
      ClaimFindsARow(videos);
      if PendingIds(videos) == {} {
        return Success(None);
      }
      var id :| id in videos && Oldest(videos, id);
      videos := Claimed(videos, id, instanceId, db.now);
      return Success(Some(videos[id]));
    }

    /** Releases every stale row and returns the released rows, as they are now. */
    method ReclaimStaleJobs(olderThan: Instant, db: Db) returns (r: Result<Table, string>)
      modifies this
      ensures r.Success? <==> db.At?
      ensures db.Unavailable? ==> r == Failure(db.error)
      ensures videos == if db.At? then Reclaimed(old(videos), olderThan.stamp, db.now) else old(videos)
      ensures videos.Keys == old(videos).Keys
      ensures r.Success? ==>
                && (forall id <- old(videos) ::
                      id in r.value <==>
                        && old(videos)[id].status in {Downloading, Converting, Uploading}
                        && old(videos)[id].claimedAt.Some?
                        && TextLess(Text(old(videos)[id].claimedAt.value), Text(olderThan.stamp)))
                && (forall id <- r.value ::
                      && id in old(videos) && r.value[id] == videos[id]
                      && videos[id] == old(videos)[id].(status := Pending, instanceId := None, claimedAt := None,
                                                        updatedAt := db.now))
                && (forall id <- old(videos) :: id !in r.value ==> videos[id] == old(videos)[id])
    {
      if db.Unavailable? {
        return Failure(db.error);
      }
      var stale := StaleIds(videos, olderThan.stamp);
      videos := Reclaimed(videos, olderThan.stamp, db.now);
      return Success(map id <- stale :: videos[id]);
    }

    method SetVideoOwnerIfUnclaimed(id: string, instanceId: string, db: Db) returns (r: Result<(), string>)
      modifies this
      ensures r.Success? <==> db.At?
      ensures db.Unavailable? ==> r == Failure(db.error)
      ensures videos == if db.At? then Owned(old(videos), id, instanceId) else old(videos)
      ensures videos.Keys == old(videos).Keys
      ensures forall v <- old(videos) :: v != id || old(videos)[v].instanceId.Some? ==> videos[v] == old(videos)[v]
      ensures db.At? && id in old(videos) && old(videos)[id].instanceId.None? ==>
                videos[id] == old(videos)[id].(instanceId := Some(instanceId))
    {
      if db.Unavailable? {
        return Failure(db.error);
      }
      videos := Owned(videos, id, instanceId);
      return Success(());
    }

    /** Shared shape of the single-row UPDATE statements. */
    method Execute(id: string, w: Write, db: Db) returns (r: Result<(), string>)
      modifies this
      ensures r == if db.At? then Success(()) else Failure(db.error)
      ensures videos == if db.At? then Written(old(videos), id, w, db.now) else old(videos)
    {
      if db.Unavailable? {
        return Failure(db.error);
      }
      videos := Written(videos, id, w, db.now);
      return Success(());
    }

    method UpdateVideoStatus(id: string, status: Status, db: Db) returns (r: Result<(), string>)
      modifies this
      ensures r == if db.At? then Success(()) else Failure(db.error)
      ensures videos == if db.At? then Written(old(videos), id, StatusTo(status), db.now) else old(videos)
      ensures videos == if db.Unavailable? || id !in old(videos) then old(videos)
                        else old(videos)[id := old(videos)[id].(status := status, updatedAt := db.now)]
    {
      r := Execute(id, StatusTo(status), db);
    }

    method UpdateVideoMetadata(id: string, codec: string, bitrateKbps: int, sizeBytes: int, db: Db)
      returns (r: Result<(), string>)
      modifies this
      ensures r == if db.At? then Success(()) else Failure(db.error)
      ensures videos == if db.At? then Written(old(videos), id, MetadataTo(codec, bitrateKbps, sizeBytes), db.now)
                        else old(videos)
      ensures videos == if db.Unavailable? || id !in old(videos) then old(videos)
                        else old(videos)[id :=
                               old(videos)[id].(originalCodec := Some(codec),
                                                originalBitrateKbps := Some(bitrateKbps),
                                                originalSizeBytes := Some(sizeBytes), updatedAt := db.now)]
    {
      r := Execute(id, MetadataTo(codec, bitrateKbps, sizeBytes), db);
    }

    method UpdateVideoResult(id: string, convertedSizeBytes: int, status: Status, db: Db)
      returns (r: Result<(), string>)
      modifies this
      ensures r == if db.At? then Success(()) else Failure(db.error)
      ensures videos == if db.At? then Written(old(videos), id, ResultTo(convertedSizeBytes, status), db.now)
                        else old(videos)
      ensures videos == if db.Unavailable? || id !in old(videos) then old(videos)
                        else old(videos)[id :=
                               old(videos)[id].(convertedSizeBytes := Some(convertedSizeBytes), status := status,
                                                updatedAt := db.now)]
    {
      r := Execute(id, ResultTo(convertedSizeBytes, status), db);
    }

    method FailVideo(id: string, errorMessage: string, db: Db) returns (r: Result<(), string>)
      modifies this
      ensures r == if db.At? then Success(()) else Failure(db.error)
      ensures videos == if db.At? then Written(old(videos), id, FailWith(errorMessage), db.now) else old(videos)
      ensures videos == if db.Unavailable? || id !in old(videos) then old(videos)
                        else old(videos)[id :=
                               old(videos)[id].(status := Failed, errorMessage := Some(errorMessage),
                                                updatedAt := db.now)]
    {
      r := Execute(id, FailWith(errorMessage), db);
    }

    /** Unlike the other updates this one fetches the row, so a missing id is an error. */
    method IncrementAttempts(id: string, db: Db) returns (r: Result<nat, string>)
      modifies this
      ensures r.Success? <==> db.At? && id in old(videos)
      ensures db.Unavailable? ==> r == Failure(db.error)
      ensures r.Success? ==> r.value == old(videos)[id].attempts + 1
      ensures videos == if db.At? then Written(old(videos), id, CountAttempt, db.now) else old(videos)
      ensures videos == if db.Unavailable? || id !in old(videos) then old(videos)
                        else old(videos)[id := old(videos)[id].(attempts := old(videos)[id].attempts + 1,
                                                                lastRetryTime := Some(db.now), updatedAt := db.now)]
    {
      if db.Unavailable? {
        return Failure(db.error);
      }
      if id !in videos {
        return Failure("no rows returned");
      }
      videos := Written(videos, id, CountAttempt, db.now);
      return Success(videos[id].attempts);
    }
  }
}
