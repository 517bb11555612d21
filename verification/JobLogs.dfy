/**
 What a whole job leaves behind, told from the script alone: the exact log of lifecycle
 events, whether the file was converted, and the metadata columns of the row. The
 database answers throughout.
 */
module JobLogs {
  import opened Wrappers
  import opened Videos
  import opened Pipeline
  import opened Jobs

  lemma BracketsAre()
    ensures Brackets(1) == [StageStarted(Download), StageCompleted(Download)]
    ensures Brackets(2) == Brackets(1) + [StageStarted(Analyze), StageCompleted(Analyze)]
    ensures Brackets(3) == Brackets(2) + [StageStarted(Convert), StageCompleted(Convert)]
    ensures Brackets(4) == Brackets(3) + [StageStarted(Upload), StageCompleted(Upload)]
  {
  }

  // ---- the log ----

  function StageFailureLog(stage: Stage, done: nat, m: string): seq<Event>
    requires done <= 4
  {
    [JobStarted] + Brackets(done) + [StageStarted(stage), StageFailed(stage, m), JobFailed(m)]
  }

  /** The log of a failing job, by the operation that failed. */
  ghost predicate FailureLog(policy: Policy, script: Script, m: string, events: seq<Event>) {
    && (script.makeDir.Failure? ==> events == [JobStarted, JobFailed(m)])
    && (script.makeDir.Success? && !StageSucceeds(policy, script.download) ==>
          events == StageFailureLog(Download, 0, m))
    && (Downloaded(policy, script) && script.analyze.Failure? ==> events == StageFailureLog(Analyze, 1, m))
    && (Decided(policy, script, true) && script.convert.Failure? ==> events == StageFailureLog(Convert, 2, m))
    && (Decided(policy, script, true) && script.convert.Success? && !StageSucceeds(policy, script.upload) ==>
          events == StageFailureLog(Upload, 3, m))
  }

  /** The log of a job that succeeds. */
  function SuccessLog(converted: bool): seq<Event> {
    [JobStarted] + Brackets(if converted then 4 else 2) + [JobCompleted]
  }

  ghost predicate LogFits(policy: Policy, script: Script, pc: Pc, events: seq<Event>) {
    match pc
    case Fail(m) => FailureLog(policy, script, m, events)
    case FailAgain(m) => FailureLog(policy, script, m, events)
    case Exit(JobError(m)) => FailureLog(policy, script, m, events)
    case Exit(Completed(_)) => script.analyze.Success? && events == SuccessLog(!KeepsAsIs(script.analyze.value))
    case _ => EventsFit(pc, events)
  }

  lemma FailingCallFits(policy: Policy, script: Script, pc: Pc, m: string, events: seq<Event>)
    requires pc.StageAt().Some? && EventsFit(pc, events) && Reached(policy, script, pc)
    requires match pc
             case CallDownload(_) => !StageSucceeds(policy, script.download)
             case CallAnalyze => script.analyze.Failure?
             case CallConvert => script.convert.Failure?
             case CallUpload(_, _) => !StageSucceeds(policy, script.upload)
    ensures FailureLog(policy, script, m, Sent(pc, Fail(m), events))
  {
    hide StageSucceeds, KeepsAsIs, Trying;
    var k := StagesDone(pc);
    var stage := pc.StageAt().value;
    assert STAGES[k] == stage;
    assert Sent(pc, Fail(m), events) == StageFailureLog(stage, k, m);
  }

  lemma StepLogFits(policy: Policy, script: Script, pc: Pc, writes: nat, events: seq<Event>)
    requires !Returned(pc) && Reliable(script) && Reached(policy, script, pc) && LogFits(policy, script, pc, events)
    ensures var next := Next(policy, pc, OutcomeAt(script, pc, writes));
            LogFits(policy, script, next, Sent(pc, next, events))
  {
    assert script.db(writes).At?;
    var o := OutcomeAt(script, pc, writes);
    var next := Next(policy, pc, o);
    if pc.Fail? || pc.SaveSkipped? || pc.SaveDone? || (pc.MakeDir? && next.Fail?) {
      EndingLogFits(policy, script, pc, writes, events);
    } else {
      StepReaches(policy, script, pc, writes);
      if next.Fail? {
        CallFails(policy, script, pc, writes);
        hide Reached, EventsFit, Sent, Next, OutcomeAt;
        FailingCallFits(policy, script, pc, next.message, events);
      } else {
        StepEventsFit(policy, pc, o, events);
        hide Reached, EventsFit, Sent, OutcomeAt, FailureLog, KeepsAsIs, ShouldConvert;
      }
    }
  }

  lemma EndingLogFits(policy: Policy, script: Script, pc: Pc, writes: nat, events: seq<Event>)
    requires pc.Fail? || pc.SaveSkipped? || pc.SaveDone? || (pc.MakeDir? && script.makeDir.Failure?)
    requires script.db(writes).At? && Reached(policy, script, pc) && LogFits(policy, script, pc, events)
    ensures var next := Next(policy, pc, OutcomeAt(script, pc, writes));
            LogFits(policy, script, next, Sent(pc, next, events))
  {
    var next := Next(policy, pc, OutcomeAt(script, pc, writes));
    hide FailsWith, StageSucceeds, ShouldConvert;
    match pc
    case MakeDir => assert Sent(pc, next, events) == [JobStarted, JobFailed(next.message)];
    case Fail(m) => assert Sent(pc, next, events) == events;
    case SaveSkipped(_) => assert Sent(pc, next, events) == SuccessLog(false);
    case SaveDone(_) => assert Sent(pc, next, events) == SuccessLog(true);
  }

  /** With a database that answers, only a stage fails a running job. */
  lemma CallFails(policy: Policy, script: Script, pc: Pc, writes: nat)
    requires !Returned(pc) && !pc.Fail? && !pc.MakeDir? && Reliable(script) && Reached(policy, script, pc)
    requires Next(policy, pc, OutcomeAt(script, pc, writes)).Fail?
    ensures pc.StageAt().Some?
    ensures match pc
            case CallDownload(_) => !StageSucceeds(policy, script.download)
            case CallAnalyze => script.analyze.Failure?
            case CallConvert => script.convert.Failure?
            case CallUpload(_, _) => !StageSucceeds(policy, script.upload)
  {
    assert script.db(writes).At?;
    match pc
    case CallDownload(k) => FinalFailure(policy, script.download, k);
    case CallUpload(k, _) => FinalFailure(policy, script.upload, k);
    case _ =>
  }

  lemma {:induction false} RunLogFits(policy: Policy, id: string, script: Script, js: JobState)
    requires Reliable(script) && Reached(policy, script, js.pc) && LogFits(policy, script, js.pc, js.events)
    ensures var end := RunJob(policy, id, script, js);
            LogFits(policy, script, end.pc, end.events)
    decreases Phase(js.pc), Left(policy, js.pc)
  {
    if !Returned(js.pc) {
      StepReaches(policy, script, js.pc, js.writes);
      StepLogFits(policy, script, js.pc, js.writes, js.events);
      StepDescends(policy, id, script, js);
      var next := StepJob(policy, id, script, js);
      assert Reached(policy, script, next.pc) && LogFits(policy, script, next.pc, next.events);
      hide Reached, LogFits, StepJob, Phase, Left, Reliable;
      RunLogFits(policy, id, script, next);
    }
  }

  /** The whole log of a job is the one its script calls for. */
  lemma JobLogIs(policy: Policy, id: string, script: Script, table: Table)
    requires Reliable(script) && id in table && table[id].status.Downloading?
    ensures var end := RunJob(policy, id, script, Start(table));
            if JobSucceeds(policy, script) then end.events == SuccessLog(!KeepsAsIs(script.analyze.value))
            else end.pc.FailAgain? && FailureLog(policy, script, end.pc.message, end.events)
  {
    JobOutcome(policy, id, script, table);
    assert [JobStarted] + Brackets(0) == [JobStarted];
    RunLogFits(policy, id, script, Start(table));
    hide RunJob, JobSucceeds, WellBracketed, FailsWith, FailureLog;
  }

  /**
   Whether a file is converted, in plain figures: once it is downloaded and analyzed, the
   conversion is started exactly if the codec is not av1, or the file is larger than two
   gigabytes, or it has more than 5000 kbps at 1080p. Otherwise the row ends done with the
   source's size.
   */
  lemma ConvertsIff(policy: Policy, id: string, script: Script, table: Table)
    requires Reliable(script) && id in table && table[id].status.Downloading?
    requires script.makeDir.Success? && StageSucceeds(policy, script.download) && script.analyze.Success?
    ensures var end := RunJob(policy, id, script, Start(table));
            var m := script.analyze.value;
            var converts := m.codec != "av1" || m.filesizeBytes > 2_000_000_000
                            || (m.bitrateKbps > 5000 && m.resolution == "1080p");
            && (StageStarted(Convert) in end.events <==> converts)
            && (!converts ==>
                  && id in end.table && end.table[id].status == Done
                  && end.table[id].convertedSizeBytes == Some(AsI64(m.filesizeBytes)))
  {
    JobLogIs(policy, id, script, table);
    JobOutcome(policy, id, script, table);
    hide RunJob, StageSucceeds, WellBracketed, FailsWith, SuccessLog, StageFailureLog;
    LogsTellConversion(RunJob(policy, id, script, Start(table)).pc);
  }

  lemma LogsTellConversion(pc: Pc)
    ensures StageStarted(Convert) in SuccessLog(true) && StageStarted(Convert) !in SuccessLog(false)
    ensures pc.FailAgain? ==> StageStarted(Convert) in StageFailureLog(Convert, 2, pc.message)
    ensures pc.FailAgain? ==> StageStarted(Convert) in StageFailureLog(Upload, 3, pc.message)
  {
    BracketsAre();
    assert SuccessLog(true)[5] == StageStarted(Convert) by {
      assert Brackets(4)[4] == StageStarted(Convert);
    }
    if pc.FailAgain? {
      assert StageFailureLog(Convert, 2, pc.message)[5] == StageStarted(Convert);
      assert StageFailureLog(Upload, 3, pc.message)[5] == StageStarted(Convert);
    }
  }

  // ---- the metadata columns ----

  ghost predicate HasMetadata(v: Video, m: Metadata) {
    && v.originalCodec == Some(m.codec)
    && v.originalBitrateKbps == Some(AsI32(m.bitrateKbps))
    && v.originalSizeBytes == Some(AsI64(m.filesizeBytes))
  }

  predicate BeforeMetadata(pc: Pc) {
    pc.MakeDir? || pc.CallDownload? || pc.BumpDownload? || pc.CallAnalyze? || pc.SaveMetadata?
  }

  ghost predicate ColumnsFit(policy: Policy, id: string, script: Script, js: JobState) {
    && id in js.table
    && (!BeforeMetadata(js.pc) && Downloaded(policy, script) && script.analyze.Success? ==>
          HasMetadata(js.table[id], script.analyze.value))
  }

  lemma StepColumnsFit(policy: Policy, id: string, script: Script, js: JobState)
    requires !Returned(js.pc) && Reliable(script) && Reached(policy, script, js.pc)
    requires ColumnsFit(policy, id, script, js)
    ensures ColumnsFit(policy, id, script, StepJob(policy, id, script, js))
  {
    assert script.db(js.writes).At?;
    match js.pc
    case CallDownload(k) =>
      if script.download(k).Failure? && !RetriesAgain(policy, k + 1, script.download(k).error) {
        FinalFailure(policy, script.download, k);
      }
    case _ => hide StageSucceeds, KeepsAsIs, FailsWith, Sent;
  }

  lemma {:induction false} RunColumnsFit(policy: Policy, id: string, script: Script, js: JobState)
    requires Reliable(script) && Reached(policy, script, js.pc) && ColumnsFit(policy, id, script, js)
    ensures ColumnsFit(policy, id, script, RunJob(policy, id, script, js))
    decreases Phase(js.pc), Left(policy, js.pc)
  {
    if !Returned(js.pc) {
      StepReaches(policy, script, js.pc, js.writes);
      StepColumnsFit(policy, id, script, js);
      StepDescends(policy, id, script, js);
      var next := StepJob(policy, id, script, js);
      assert Reached(policy, script, next.pc);
      hide Reached, ColumnsFit, StepJob, Phase, Left, Reliable;
      RunColumnsFit(policy, id, script, next);
    }
  }

  /** A job whose analysis got through leaves codec, bitrate and size in the row, however it ends. */
  lemma JobStoresMetadata(policy: Policy, id: string, script: Script, table: Table)
    requires Reliable(script) && id in table && table[id].status.Downloading?
    requires script.makeDir.Success? && StageSucceeds(policy, script.download) && script.analyze.Success?
    ensures var end := RunJob(policy, id, script, Start(table));
            id in end.table && HasMetadata(end.table[id], script.analyze.value)
  {
    RunColumnsFit(policy, id, script, Start(table));
    ReturnedByFailing(policy, id, script, Start(table));
    hide RunJob, StageSucceeds, HasMetadata;
  }
}
