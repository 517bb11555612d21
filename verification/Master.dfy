/**
 The master's `POST /api/videos/{id}/status`: validate, read, check owner and
 transition, record the owner, write, reload. Requests one after another here; their
 interleavings are in module MasterRaces.
 */
module Master {
  import opened Timestamps
  import opened Wrappers
  import opened Videos
  import opened Repositories
  import opened Pipeline

  datatype StatusUpdate = StatusUpdate(
    status: string,
    instanceId: string,
    errorMessage: Option<string>,
    convertedSizeBytes: Option<int>)

  datatype Response = Ok(video: Video) | BadRequest | NotFound | Conflict | InternalError

  function StatusText(s: Status): string {
    match s
    case Pending => "pending"
    case Downloading => "downloading"
    case Converting => "converting"
    case Uploading => "uploading"
    case Done => "done"
    case Failed => "failed"
  }

  function ParseStatus(s: string): Option<Status> {
    if s == "pending" then Some(Pending)
    else if s == "downloading" then Some(Downloading)
    else if s == "converting" then Some(Converting)
    else if s == "uploading" then Some(Uploading)
    else if s == "done" then Some(Done)
    else if s == "failed" then Some(Failed)
    else None
  }

  lemma ParsesItsText(s: Status)
    ensures ParseStatus(StatusText(s)) == Some(s)
  {
  }

  /** The decision on the row as read; None means go ahead. */
  function Refusal(seen: Video, to: Status, instanceId: string): Option<Response> {
    if seen.instanceId.Some? && seen.instanceId.value != instanceId then Some(Conflict)
    else if !IsValidTransition(seen.status, to) then Some(BadRequest)
    else None
  }

  function ReportedWrite(seen: Video, to: Status, body: StatusUpdate): Write {
    if to.Failed? then
      FailWith(if body.errorMessage.Some? then body.errorMessage.value
               else "unspecified failure reported by worker")
    else if to.Done? then
      ResultTo(if body.convertedSizeBytes.Some? then body.convertedSizeBytes.value
               else if seen.convertedSizeBytes.Some? then seen.convertedSizeBytes.value
               else 0, Done)
    else StatusTo(to)
  }

  /** Answers of the database to the handler's four statements. */
  datatype Answers = Answers(read: Db, own: Db, write: Db, reload: Db)

  function Handle(t: Table, id: string, body: StatusUpdate, db: Answers): (Table, Response) {
    var to := ParseStatus(body.status);
    if to.None? then (t, BadRequest)
    else if db.read.Unavailable? then (t, InternalError)
    else if id !in t then (t, NotFound)
    else
      var seen := t[id];
      var refused := Refusal(seen, to.value, body.instanceId);
      if refused.Some? then (t, refused.value)
      else if db.own.Unavailable? then (t, InternalError)
      else
        var owned := Owned(t, id, body.instanceId);
        if db.write.Unavailable? then (owned, InternalError)
        else
          var done := Written(owned, id, ReportedWrite(seen, to.value, body), db.write.now);
          if db.reload.Unavailable? then (done, InternalError) else (done, Ok(done[id]))
  }

  const VALID_STATUSES: set<string> := {"pending", "downloading", "converting", "uploading", "done", "failed"}

  const ACCEPTED_TRANSITIONS: set<(string, string)> := {
    ("pending", "downloading"), ("downloading", "converting"), ("downloading", "done"),
    ("converting", "uploading"), ("uploading", "done"),
    ("pending", "failed"), ("downloading", "failed"), ("converting", "failed"), ("uploading", "failed")
  }

  /** What the documented request stores on a row that accepts it, defaults included. */
  function StoredReport(v: Video, body: StatusUpdate, now: Stamp): Video {
    var owned := v.(instanceId := Some(body.instanceId), updatedAt := now);
    match body.status
    case "downloading" => owned.(status := Downloading)
    case "converting" => owned.(status := Converting)
    case "uploading" => owned.(status := Uploading)
    case "done" =>
      owned.(status := Done,
             convertedSizeBytes := match (body.convertedSizeBytes, v.convertedSizeBytes)
                                   case (Some(n), _) => Some(n)
                                   case (None, Some(n)) => Some(n)
                                   case (None, None) => Some(0))
    case "failed" =>
      owned.(status := Failed,
             errorMessage := if body.errorMessage.Some? then body.errorMessage
                             else Some("unspecified failure reported by worker"))
    case _ => v
  }

  /** The answer and the effect of one request, told without the handler's own helpers. */
  ghost predicate AnsweredAsDocumented(
      t: Table, id: string, body: StatusUpdate, db: Answers, t': Table, response: Response)
  {
    var valid, read := body.status in VALID_STATUSES, db.read.At?;
    var foreign := id in t && t[id].instanceId.Some? && t[id].instanceId.value != body.instanceId;
    var accepted := id in t && (StatusText(t[id].status), body.status) in ACCEPTED_TRANSITIONS;
    var allowed := valid && read && id in t && !foreign && accepted;
    && (response.NotFound? <==> valid && read && id !in t)
    && (response.Conflict? <==> valid && read && foreign)
    && (response.BadRequest? <==> !valid || (read && id in t && !foreign && !accepted))
    && (response.Ok? <==> allowed && db.own.At? && db.write.At? && db.reload.At?)
    && (response.Ok? ==> id in t' && response.video == t'[id])
    && t' == (if !allowed || db.own.Unavailable? then t
              else if db.write.Unavailable? then t[id := t[id].(instanceId := Some(body.instanceId))]
              else t[id := StoredReport(t[id], body, db.write.now)])
  }

  lemma HandleAsDocumented(t: Table, id: string, body: StatusUpdate, db: Answers)
    ensures var (t', response) := Handle(t, id, body, db);
            AnsweredAsDocumented(t, id, body, db, t', response)
  {
    TransitionTexts(if id in t then t[id].status else Pending, body.status);
    var to := ParseStatus(body.status);
    if id in t && to.Some? && to.value != Pending && t[id].instanceId in {None, Some(body.instanceId)} {
      if db.write.At? { ReportIsStored(t[id], to.value, body, db.write.now); }
      OwnerIsStored(t[id], body.instanceId);
    }
    assert to == Some(Pending) && id in t ==> !IsValidTransition(t[id].status, Pending);
    hide ParseStatus, StatusText, IsValidTransition, ReportedWrite, StoredReport, Patched, WithOwner;
  }

  lemma OwnerIsStored(v: Video, instance: string)
    requires v.instanceId in {None, Some(instance)}
    ensures WithOwner(v, instance) == v.(instanceId := Some(instance))
  {
  }

  lemma ReportIsStored(v: Video, to: Status, body: StatusUpdate, now: Stamp)
    requires ParseStatus(body.status) == Some(to) && to != Pending
    requires v.instanceId in {None, Some(body.instanceId)}
    ensures Patched(WithOwner(v, body.instanceId), ReportedWrite(v, to, body), now) == StoredReport(v, body, now)
  {
  }

  /** The whitelist, pair by pair, on the texts of the statuses. */
  lemma TransitionTexts(from: Status, to: string)
    ensures ParseStatus(to).Some? <==> to in VALID_STATUSES
    ensures (StatusText(from), to) in ACCEPTED_TRANSITIONS
            <==> ParseStatus(to).Some? && IsValidTransition(from, ParseStatus(to).value)
  {
  }

  class MasterApi {
    const repository: Repository

    constructor (repository: Repository)
      ensures this.repository == repository
    {
      this.repository := repository;
    }

    method UpdateVideoStatus(id: string, body: StatusUpdate, db: Answers) returns (response: Response)
      modifies repository
      ensures (repository.videos, response) == Handle(old(repository.videos), id, body, db)
      ensures AnsweredAsDocumented(old(repository.videos), id, body, db, repository.videos, response)
    {
      HandleAsDocumented(repository.videos, id, body, db);
      hide AnsweredAsDocumented;
      var to := ParseStatus(body.status);
      if to.None? {
        return BadRequest;
      }
      var found := repository.GetVideo(id, db.read);
      if found.Failure? {
        return InternalError;
      }
      if found.value.None? {
        return NotFound;
      }
      var video := found.value.value;
      if video.instanceId.Some? && video.instanceId.value != body.instanceId {
        return Conflict;
      }
      if !IsValidTransition(video.status, to.value) {
        return BadRequest;
      }
      var owned := repository.SetVideoOwnerIfUnclaimed(id, body.instanceId, db.own);
      if owned.Failure? {
        return InternalError;
      }
      var written: Result<(), string>;
      if to.value.Failed? {
        var message := if body.errorMessage.Some? then body.errorMessage.value
                       else "unspecified failure reported by worker";
        written := repository.FailVideo(id, message, db.write);
      } else if to.value.Done? {
        var size := if body.convertedSizeBytes.Some? then body.convertedSizeBytes.value
                    else if video.convertedSizeBytes.Some? then video.convertedSizeBytes.value
                    else 0;
        written := repository.UpdateVideoResult(id, size, Done, db.write);
      } else {
        written := repository.UpdateVideoStatus(id, to.value, db.write);
      }
      if written.Failure? {
        return InternalError;
      }
      var updated := repository.GetVideo(id, db.reload);
      if updated.Failure? {
        return InternalError;
      }
      return Ok(updated.value.value);
    }
  }

  // ---- serial requests ----

  /** Position of a status on the way to a terminal one. */
  function Rank(s: Status): (r: nat)
    ensures r <= 4
  {
    match s
    case Pending => 0
    case Downloading => 1
    case Converting => 2
    case Uploading => 3
    case Done => 4
    case Failed => 4
  }

  lemma TransitionsClimb(from: Status, to: Status)
    requires IsValidTransition(from, to)
    ensures Rank(from) < Rank(to)
  {
  }

  datatype Request = Request(id: string, body: StatusUpdate, db: Answers)

  /** Requests served one after another. */
  ghost predicate Served(tables: seq<Table>, requests: seq<Request>, responses: seq<Response>) {
    && |tables| == |requests| + 1 && |responses| == |requests|
    && forall i: nat :: i < |requests| ==> ServedAt(tables, requests, responses, i)
  }

  ghost predicate ServedAt(tables: seq<Table>, requests: seq<Request>, responses: seq<Response>, i: nat)
    requires i < |requests| == |responses| < |tables|
  {
    (tables[i + 1], responses[i]) == Handle(tables[i], requests[i].id, requests[i].body, requests[i].db)
  }

  /** A refused request (4xx) changes nothing. */
  lemma RefusedChangesNothing(t: Table, id: string, body: StatusUpdate, db: Answers)
    requires var r := Handle(t, id, body, db).1; r.BadRequest? || r.NotFound? || r.Conflict?
    ensures Handle(t, id, body, db).0 == t
  {
  }

  /** An owner is recorded before the first status change. */
  ghost predicate OwnedOnceMoved(v: Video) {
    !v.status.Pending? ==> v.instanceId.Some?
  }

  /**
   What one request can do to a row: nothing, record its owner, or, once owned by the
   reporter, climb to the reported status. A recorded owner stays and is the only one
   whose reports change or answer anything.
   */
  lemma HandleMovesRow(t: Table, id: string, body: StatusUpdate, db: Answers, v: string)
    requires v in t && OwnedOnceMoved(t[v])
    ensures var (t', r) := Handle(t, id, body, db);
            && v in t' && OwnedOnceMoved(t'[v])
            && (t[v].instanceId.Some? ==> t'[v].instanceId == t[v].instanceId)
            && (t'[v].status != t[v].status ==>
                  && id == v && IsValidTransition(t[v].status, t'[v].status)
                  && t'[v].instanceId == Some(body.instanceId))
            && (t'[v].status == t[v].status ==> t'[v].convertedSizeBytes == t[v].convertedSizeBytes)
            && (r.Ok? && id == v ==>
                  && t'[v].status != t[v].status && t'[v].instanceId == Some(body.instanceId)
                  && ParseStatus(body.status) == Some(t'[v].status) && r.video == t'[v])
  {
    if id != v {
      OtherRowsStay(t, id, body, db, v);
      hide Handle;
    }
  }

  lemma OtherRowsStay(t: Table, id: string, body: StatusUpdate, db: Answers, v: string)
    requires v in t && v != id
    ensures var t' := Handle(t, id, body, db).0;
            v in t' && t'[v] == t[v]
  {
  }

  lemma {:induction false} RowOverTime(
      tables: seq<Table>, requests: seq<Request>, responses: seq<Response>, v: string, m: nat, n: nat)
    requires Served(tables, requests, responses) && m <= n < |tables|
    requires v in tables[m] && OwnedOnceMoved(tables[m][v])
    ensures v in tables[n] && OwnedOnceMoved(tables[n][v])
    ensures tables[m][v].instanceId.Some? ==> tables[n][v].instanceId == tables[m][v].instanceId
    ensures Rank(tables[m][v].status) <= Rank(tables[n][v].status)
    ensures Rank(tables[m][v].status) == Rank(tables[n][v].status)
            ==> tables[n][v].status == tables[m][v].status
                && tables[n][v].convertedSizeBytes == tables[m][v].convertedSizeBytes
  {
    if m < n {
      RowOverTime(tables, requests, responses, v, m, n - 1);
      assert ServedAt(tables, requests, responses, n - 1);
      var q := requests[n - 1];
      HandleMovesRow(tables[n - 1], q.id, q.body, q.db, v);
      hide Handle;
      if tables[n][v].status != tables[n - 1][v].status {
        TransitionsClimb(tables[n - 1][v].status, tables[n][v].status);
      }
    }
  }

  predicate AcceptedFor(request: Request, response: Response, v: string) {
    response.Ok? && request.id == v
  }

  /** All accepted reports for a video come from one instance and climb strictly. */
  lemma AcceptedReportsAgree(
      tables: seq<Table>, requests: seq<Request>, responses: seq<Response>, v: string, i: nat, j: nat)
    requires Served(tables, requests, responses) && i < j < |requests|
    requires v in tables[0] && OwnedOnceMoved(tables[0][v])
    requires AcceptedFor(requests[i], responses[i], v) && AcceptedFor(requests[j], responses[j], v)
    ensures requests[i].body.instanceId == requests[j].body.instanceId
    ensures ParseStatus(requests[i].body.status).Some? && ParseStatus(requests[j].body.status).Some?
    ensures Rank(ParseStatus(requests[i].body.status).value) < Rank(ParseStatus(requests[j].body.status).value)
  {
    hide Handle;
    RowOverTime(tables, requests, responses, v, 0, i);
    RowOverTime(tables, requests, responses, v, 0, j);
    assert ServedAt(tables, requests, responses, i) && ServedAt(tables, requests, responses, j);
    HandleMovesRow(tables[i], requests[i].id, requests[i].body, requests[i].db, v);
    HandleMovesRow(tables[j], requests[j].id, requests[j].body, requests[j].db, v);
    RowOverTime(tables, requests, responses, v, i + 1, j);
    TransitionsClimb(tables[j][v].status, tables[j + 1][v].status);
  }

  function AcceptedCount(requests: seq<Request>, responses: seq<Response>, v: string): nat
    requires |requests| == |responses|
  {
    if |requests| == 0 then 0
    else
      var n := |requests| - 1;
      AcceptedCount(requests[..n], responses[..n], v)
      + (if AcceptedFor(requests[n], responses[n], v) then 1 else 0)
  }

  lemma {:induction false} AcceptedCountBelowRank(
      tables: seq<Table>, requests: seq<Request>, responses: seq<Response>, v: string, n: nat)
    requires Served(tables, requests, responses) && n <= |requests|
    requires v in tables[0] && OwnedOnceMoved(tables[0][v])
    ensures v in tables[n] && OwnedOnceMoved(tables[n][v])
    ensures AcceptedCount(requests[..n], responses[..n], v) + Rank(tables[0][v].status)
            <= Rank(tables[n][v].status)
  {
    if n > 0 {
      AcceptedCountBelowRank(tables, requests, responses, v, n - 1);
      assert ServedAt(tables, requests, responses, n - 1);
      var q := requests[n - 1];
      HandleMovesRow(tables[n - 1], q.id, q.body, q.db, v);
      hide Handle;
      if tables[n][v].status != tables[n - 1][v].status {
        TransitionsClimb(tables[n - 1][v].status, tables[n][v].status);
      }
      assert requests[..n][..n - 1] == requests[..n - 1] && responses[..n][..n - 1] == responses[..n - 1];
    }
  }

  /** At most four reports are ever accepted for a video. */
  lemma AtMostFourAccepted(
      tables: seq<Table>, requests: seq<Request>, responses: seq<Response>, v: string)
    requires Served(tables, requests, responses)
    requires v in tables[0] && OwnedOnceMoved(tables[0][v])
    ensures AcceptedCount(requests, responses, v) <= 4 - Rank(tables[0][v].status)
  {
    var n := |requests|;
    AcceptedCountBelowRank(tables, requests, responses, v, n);
    assert requests[..n] == requests && responses[..n] == responses;
  }

  /** A terminal row keeps its status, size and owner for good. */
  lemma TerminalRowsAreFixed(
      tables: seq<Table>, requests: seq<Request>, responses: seq<Response>, v: string, m: nat, n: nat)
    requires Served(tables, requests, responses) && m <= n < |tables|
    requires v in tables[m] && OwnedOnceMoved(tables[m][v]) && tables[m][v].status.Terminal()
    ensures v in tables[n]
            && tables[n][v].status == tables[m][v].status
            && tables[n][v].convertedSizeBytes == tables[m][v].convertedSizeBytes
            && tables[n][v].instanceId == tables[m][v].instanceId
  {
    RowOverTime(tables, requests, responses, v, m, n);
  }
}
