/**
 The orchestrator object: statement by statement what one worker does for one claimed
 video. Every method is proved to follow the small-step program, so that whatever holds
 of the program holds of the object.
 */
module Processor {
  import opened Arithmetic
  import opened Wrappers
  import opened Videos
  import opened Repositories
  import opened Pipeline
  import opened Jobs

  /** Where the program goes on once the metadata is stored. */
  function AfterMetadata(m: Metadata): Pc {
    if ShouldConvert(m) then MarkConverting else SaveSkipped(m.filesizeBytes)
  }

  class ProcessorOrchestrator {
    const repository: Repository
    const policy: Policy
    /** Events sent to the progress display. */
    var events: seq<Event>
    /** Database statements issued for the current job. */
    var writes: nat

    constructor (repository: Repository, policy: Policy)
      ensures this.repository == repository && this.policy == policy
      ensures events == [] && writes == 0
    {
      this.repository := repository;
      this.policy := policy;
      events := [];
      writes := 0;
    }

    ghost function State(pc: Pc): JobState
      reads this, repository
    {
      JobState(pc, repository.videos, writes, events)
    }

    ghost function Rest(id: string, script: Script, pc: Pc): JobState
      reads this, repository
    {
      RunJob(policy, id, script, State(pc))
    }

    method Send(e: Event)
      modifies this`events
      ensures events == old(events) + [e]
    {
      events := events + [e];
    }

    /** The next statement of the job, as the database answers it. */
    method Statement(id: string, w: Write, script: Script) returns (r: Result<(), string>)
      modifies this`writes, repository
      ensures writes == old(writes) + 1
      ensures var db := script.db(old(writes));
              && r == (if db.At? then Success(()) else Failure(db.error))
              && repository.videos
                 == if db.At? then Written(old(repository.videos), id, w, db.now) else old(repository.videos)
    {
      var db := script.db(writes);
      writes := writes + 1;
      match w
      case StatusTo(s) => r := repository.UpdateVideoStatus(id, s, db);
      case MetadataTo(c, b, n) => r := repository.UpdateVideoMetadata(id, c, b, n, db);
      case ResultTo(n, s) => r := repository.UpdateVideoResult(id, n, s, db);
      case FailWith(m) => r := repository.FailVideo(id, m, db);
      case CountAttempt =>
        var n := repository.IncrementAttempts(id, db);
        // the count is only logged
        r := if db.At? then Success(()) else Failure(db.error);
    }

    /**
     Retry loop around one network stage. It stops where any loop with this limit and
     classifier stops, issues one attempt increment per retry, annotates the final error
     exactly if it was retryable and not the first, and leaves the rest of the job
     unchanged (`size` is the converted size an upload still has to store).
     */
    method RunStageWithRetry(id: string, stage: Stage, size: nat, script: Script)
      returns (r: Result<(), string>, ghost calls: nat)
      requires stage.Download? || stage.Upload?
      modifies this`writes, repository
      ensures Retry.StopsAfter(OpOf(stage, script), policy.retryable, Max(1, policy.maxAttempts), calls)
      ensures writes == old(writes) + calls - 1
      ensures id in old(repository.videos) && (forall k: nat :: script.db(k).At?) ==>
                && id in repository.videos
                && repository.videos[id].attempts == old(repository.videos)[id].attempts + calls - 1
      ensures var last := OpOf(stage, script)(calls - 1);
              if last.Success? then r == last
              else r == Failure(if policy.retryable(last.error) && calls > 1 then
                                  (if stage.Download? then "download" else "upload")
                                  + " failed after " + Decimal(calls) + " attempts: " + last.error
                                else last.error)
      ensures old(Rest(id, script, CallPc(stage, 0, size)))
              == if r.Success? then
                   RunJob(policy, id, script,
                     JobState(AfterStage(stage, size), repository.videos, writes,
                              events + [StageCompleted(stage)]
                              + (if stage.Download? then [StageStarted(Analyze)] else [])))
                 else
                   RunJob(policy, id, script,
                     JobState(Fail(r.error), repository.videos, writes,
                              events + [StageFailed(stage, r.error)] + [JobFailed(r.error)]))
    {
      hide RunJob, Decimal;
      var op := OpOf(stage, script);
      var attempt := 0;
      while true
        invariant attempt < policy.Limit()
        invariant forall j: nat :: j < attempt ==> op(j).Failure? && policy.retryable(op(j).error)
        invariant writes == old(writes) + attempt
        invariant id in old(repository.videos) && (forall k: nat :: script.db(k).At?) ==>
                    && id in repository.videos
                    && repository.videos[id].attempts == old(repository.videos)[id].attempts + attempt
        invariant old(Rest(id, script, CallPc(stage, 0, size))) == Rest(id, script, CallPc(stage, attempt, size))
        decreases policy.Limit() - attempt
      {
        ghost var k, videos := attempt, repository.videos;
        attempt := attempt + 1;
        calls := attempt;
        var outcome := op(attempt - 1);
        if outcome.Success? {
          StageEnds(policy, id, script, stage, k, size, videos, writes, events);
          return outcome, calls;
        }
        var message := outcome.error;
        var retryable := policy.retryable(message);
        if retryable && attempt < policy.Limit() {
          RetryUnfolds(policy, id, script, stage, k, size, videos, writes, events);
          var counted := Statement(id, CountAttempt, script);
          continue;
        }
        StageEnds(policy, id, script, stage, k, size, videos, writes, events);
        if retryable && attempt > 1 {
          return Failure(stage.Name() + " failed after " + Decimal(attempt) + " attempts: " + message), calls;
        }
        return Failure(message), calls;
      }
    }

    /** `StageCompleted` or `StageFailed`, according to the result. */
    method EndStage<T>(stage: Stage, r: Result<T, string>)
      modifies this`events
      ensures events == old(events) + [if r.Success? then StageCompleted(stage) else StageFailed(stage, r.error)]
    {
      match r
      case Success(_) => Send(StageCompleted(stage));
      case Failure(m) => Send(StageFailed(stage, m));
    }

    /** What a finished `process_one_inner` leaves to be done by `process_one`. */
    ghost function Pending(r: Result<nat, string>): JobState
      reads this, repository
    {
      match r
      case Success(n) => JobState(Exit(Completed(n)), repository.videos, writes, events + [JobCompleted])
      case Failure(m) => JobState(Fail(m), repository.videos, writes, events + [JobFailed(m)])
    }

    /** Download, analyze, store the metadata. */
    method Fetch(id: string, script: Script) returns (r: Result<Metadata, string>)
      modifies this`events, this`writes, repository
      ensures old(Rest(id, script, MakeDir))
              == RunJob(policy, id, script,
                        match r
                        case Success(m) => State(AfterMetadata(m))
                        case Failure(e) => Pending(Failure(e)))
    {
      ghost var start := State(MakeDir);
      if script.makeDir.Failure? {
        assert StepJob(policy, id, script, start)
               == Pending(Failure("failed to create work dir: " + script.makeDir.error));
        return Failure("failed to create work dir: " + script.makeDir.error);
      }
      Send(StageStarted(Download));
      assert StepJob(policy, id, script, start) == State(CallDownload(0));
      hide RunJob, StepJob;
      var downloaded, calls := RunStageWithRetry(id, Download, 0, script);
      EndStage(Download, downloaded);
      if downloaded.Failure? {
        return Failure(downloaded.error);
      }
      Send(StageStarted(Analyze));
      r := AnalyzeAndSave(id, script);
    }

    method AnalyzeAndSave(id: string, script: Script) returns (r: Result<Metadata, string>)
      modifies this`events, this`writes, repository
      ensures r == match (script.analyze, script.db(old(writes)))
                   case (Failure(e), _) => Failure(e)
                   case (_, Unavailable(e)) => Failure("failed to persist metadata: " + e)
                   case (Success(m), At(_)) => Success(m)
      ensures old(Rest(id, script, CallAnalyze))
              == RunJob(policy, id, script,
                        match r
                        case Success(m) => State(AfterMetadata(m))
                        case Failure(e) => Pending(Failure(e)))
    {
      ghost var start := State(CallAnalyze);
      var analyzed := script.analyze;
      EndStage(Analyze, analyzed);
      if analyzed.Failure? {
        assert StepJob(policy, id, script, start) == Pending(Failure(analyzed.error));
        return Failure(analyzed.error);
      }
      var meta := analyzed.value;
      assert StepJob(policy, id, script, start) == State(SaveMetadata(meta));
      ghost var saving := State(SaveMetadata(meta));
      assert RunJob(policy, id, script, start) == RunJob(policy, id, script, saving);
      hide RunJob, StepJob;
      var saved := Statement(id, MetadataTo(meta.codec, AsI32(meta.bitrateKbps), AsI64(meta.filesizeBytes)), script);
      if saved.Failure? {
        RefusedUnfolds(policy, id, script, saving);
        return Failure("failed to persist metadata: " + saved.error);
      }
      StoredUnfolds(policy, id, script, saving, []);
      assert saving.events + [] == events;
      return Success(meta);
    }

    /** Convert, upload, store the result. */
    method ConvertAndUpload(id: string, script: Script) returns (r: Result<nat, string>)
      modifies this`events, this`writes, repository
      ensures script.db(old(writes)).Unavailable? ==>
                r == Failure("failed to update status: " + script.db(old(writes)).error)
      ensures script.db(old(writes)).At? && script.convert.Failure? ==> r == Failure(script.convert.error)
      ensures r.Success? ==> script.convert == Success(r.value)
      ensures old(Rest(id, script, MarkConverting)) == RunJob(policy, id, script, Pending(r))
    {
      ghost var start := State(MarkConverting);
      var marked := Statement(id, StatusTo(Converting), script);
      if marked.Failure? {
        RefusedUnfolds(policy, id, script, start);
        return Failure("failed to update status: " + marked.error);
      }
      Send(StageStarted(Convert));
      StoredUnfolds(policy, id, script, start, [StageStarted(Convert)]);
      ghost var converting := State(CallConvert);
      var converted := script.convert;
      EndStage(Convert, converted);
      if converted.Failure? {
        assert StepJob(policy, id, script, converting) == Pending(Failure(converted.error));
        return Failure(converted.error);
      }
      var size := converted.value;
      assert StepJob(policy, id, script, converting) == State(MarkUploading(size));
      assert RunJob(policy, id, script, converting) == Rest(id, script, MarkUploading(size));
      hide RunJob, StepJob;
      r := UploadConverted(id, size, script);
    }

    method UploadConverted(id: string, size: nat, script: Script) returns (r: Result<nat, string>)
      modifies this`events, this`writes, repository
      ensures script.db(old(writes)).Unavailable? ==>
                r == Failure("failed to update status: " + script.db(old(writes)).error)
      ensures r.Success? ==> r.value == size
      ensures old(Rest(id, script, MarkUploading(size))) == RunJob(policy, id, script, Pending(r))
    {
      hide RunJob, StepJob;
      ghost var start := State(MarkUploading(size));
      var marked := Statement(id, StatusTo(Uploading), script);
      if marked.Failure? {
        RefusedUnfolds(policy, id, script, start);
        return Failure("failed to update status: " + marked.error);
      }
      Send(StageStarted(Upload));
      StoredUnfolds(policy, id, script, start, [StageStarted(Upload)]);
      var uploaded, calls := RunStageWithRetry(id, Upload, size, script);
      EndStage(Upload, uploaded);
      if uploaded.Failure? {
        return Failure(uploaded.error);
      }
      assert events + [] == events;
      r := StoreResult(id, SaveDone(size), size, script);
    }

    /** The last statement of a successful job, after an upload or instead of one. */
    method StoreResult(id: string, ghost pc: Pc, size: nat, script: Script) returns (r: Result<nat, string>)
      requires pc == SaveDone(size) || pc == SaveSkipped(size)
      modifies this`writes, repository
      ensures events == old(events)
      ensures r == if script.db(old(writes)).At? then Success(size)
                   else Failure("failed to persist result: " + script.db(old(writes)).error)
      ensures old(Rest(id, script, pc)) == RunJob(policy, id, script, Pending(r))
    {
      hide RunJob, StepJob;
      ghost var saving := State(pc);
      var stored := Statement(id, ResultTo(AsI64(size), Done), script);
      if stored.Failure? {
        RefusedUnfolds(policy, id, script, saving);
        return Failure("failed to persist result: " + stored.error);
      }
      StoredUnfolds(policy, id, script, saving, [JobCompleted]);
      return Success(size);
    }

    method ProcessOneInner(id: string, script: Script) returns (r: Result<nat, string>)
      modifies this`events, this`writes, repository
      ensures old(Rest(id, script, MakeDir)) == RunJob(policy, id, script, Pending(r))
    {
      hide RunJob, StepJob;
      var fetched := Fetch(id, script);
      if fetched.Failure? {
        return Failure(fetched.error);
      }
      var meta := fetched.value;
      if !ShouldConvert(meta) {
        r := StoreResult(id, SaveSkipped(meta.filesizeBytes), meta.filesizeBytes, script);
      } else {
        r := ConvertAndUpload(id, script);
      }
    }

    /**
     The whole job of one claimed video: table and events end exactly where the small-step
     program ends, and the result is the one the program returns.
     */
    method ProcessOne(id: string, script: Script) returns (r: Result<(), string>)
      requires events == [] && writes == 0
      modifies this`events, this`writes, repository
      ensures var end := RunJob(policy, id, script, Start(old(repository.videos)));
              && repository.videos == end.table && events == end.events && writes == end.writes
              && (r.Success? <==> end.pc.Exit?)
              && (r.Failure? ==> end.pc == FailAgain(r.error))
    {
      Send(JobStarted);
      assert State(MakeDir) == Start(repository.videos);
      var inner := ProcessOneInner(id, script);
      match inner
      case Success(n) =>
        Send(JobCompleted);
        return Success(());
      case Failure(m) =>
        Send(JobFailed(m));
        ghost var failing := State(Fail(m));
        var stored := Statement(id, FailWith(m), script);
        assert failing.events + [] + [] == events;
        assert StepJob(policy, id, script, failing) == State(FailAgain(m));
        return Failure(m);
    }
  }
}
