/**
 One undisturbed job from claim to result, as the iteration of the small-step program
 under a script of stage outcomes and database answers, and what it amounts to.
 */
module Jobs {
  import opened Arithmetic
  import opened Wrappers
  import opened Videos
  import opened Repositories
  import opened Pipeline
  import opened Retry

  /** `download(k)` and `upload(k)` are the outcomes of call k; `db(k)` answers statement k. */
  datatype Script = Script(
    makeDir: Result<(), string>,
    download: nat -> Result<(), string>,
    analyze: Result<Metadata, string>,
    convert: Result<nat, string>,
    upload: nat -> Result<(), string>,
    db: nat -> Db)

  /** Lifecycle events in the order they are sent. */
  datatype Event =
    | JobStarted
    | JobCompleted
    | JobFailed(error: string)
    | StageStarted(stage: Stage)
    | StageCompleted(stage: Stage)
    | StageFailed(stage: Stage, error: string)

  datatype JobState = JobState(pc: Pc, table: Table, writes: nat, events: seq<Event>)

  function OfResult(r: Result<(), string>): Outcome {
    if r.Success? then Okay else Error(r.error)
  }

  function OfDb(db: Db): Outcome {
    match db
    case At(now) => Stored(now)
    case Unavailable(e) => Error(e)
  }

  function OutcomeAt(script: Script, pc: Pc, writes: nat): (o: Outcome)
    requires !pc.Exit?
    ensures Accepts(pc, o)
  {
    match pc
    case MakeDir => OfResult(script.makeDir)
    case CallDownload(k) => OfResult(script.download(k))
    case CallUpload(k, _) => OfResult(script.upload(k))
    case CallAnalyze => if script.analyze.Success? then Analyzed(script.analyze.value) else Error(script.analyze.error)
    case CallConvert => if script.convert.Success? then Converted(script.convert.value) else Error(script.convert.error)
    case _ => OfDb(script.db(writes))
  }

  function Leaving(pc: Pc, next: Pc): seq<Event> {
    if pc.StageAt().None? || next.BumpDownload? || next.BumpUpload? then []
    else if next.Fail? then [StageFailed(pc.StageAt().value, next.message)]
    else [StageCompleted(pc.StageAt().value)]
  }

  function Entering(pc: Pc, next: Pc): seq<Event> {
    if next.Fail? then [JobFailed(next.message)]
    else if next.Exit? && next.result.Completed? then [JobCompleted]
    else if next.StageAt().Some? && !pc.BumpDownload? && !pc.BumpUpload? then [StageStarted(next.StageAt().value)]
    else []
  }

  function Sent(pc: Pc, next: Pc, events: seq<Event>): seq<Event> {
    events + Leaving(pc, next) + Entering(pc, next)
  }

  function StepJob(policy: Policy, id: string, script: Script, js: JobState): JobState
    requires !js.pc.Exit?
  {
    var o := OutcomeAt(script, js.pc, js.writes);
    var next := Next(policy, js.pc, o);
    JobState(next,
             TableAfter(js.table, id, js.pc, o),
             js.writes + (if WriteAt(js.pc).Some? then 1 else 0),
             Sent(js.pc, next, js.events))
  }

  predicate InsideStage(pc: Pc) {
    pc.StageAt().Some? || pc.BumpDownload? || pc.BumpUpload?
  }

  /** `process_one` returns here; the queue's own failure write comes after. */
  predicate Returned(pc: Pc) {
    pc.FailAgain? || pc.Exit?
  }

  function Phase(pc: Pc): nat {
    match pc
    case MakeDir => 12
    case CallDownload(_) => 11
    case BumpDownload(_) => 11
    case CallAnalyze => 10
    case SaveMetadata(_) => 9
    case MarkConverting => 8
    case CallConvert => 7
    case MarkUploading(_) => 6
    case CallUpload(_, _) => 5
    case BumpUpload(_, _) => 5
    case SaveSkipped(_) => 4
    case SaveDone(_) => 4
    case Fail(_) => 2
    case FailAgain(_) => 1
    case Exit(_) => 0
  }

  /** Operations a retried stage may still perform. */
  function Left(policy: Policy, pc: Pc): nat {
    var n := policy.Limit();
    match pc
    case CallDownload(k) => if k < n then 2 * (n - k) else 0
    case BumpDownload(k) => 1 + if k < n then 2 * (n - k) else 0
    case CallUpload(k, _) => if k < n then 2 * (n - k) else 0
    case BumpUpload(k, _) => 1 + if k < n then 2 * (n - k) else 0
    case _ => 0
  }

  function RunJob(policy: Policy, id: string, script: Script, js: JobState): JobState
    decreases Phase(js.pc), Left(policy, js.pc)
  {
    if Returned(js.pc) then js else RunJob(policy, id, script, StepJob(policy, id, script, js))
  }

  lemma StepDescends(policy: Policy, id: string, script: Script, js: JobState)
    requires !Returned(js.pc)
    ensures var next := StepJob(policy, id, script, js).pc;
            Phase(next) < Phase(js.pc) || (Phase(next) == Phase(js.pc) && Left(policy, next) < Left(policy, js.pc))
  {
  }

  // ---- the program seen from one statement of the orchestrator ----

  /** Program points and outcomes of the two retried stages. */
  function CallPc(stage: Stage, k: nat, size: nat): Pc {
    if stage.Upload? then CallUpload(k, size) else CallDownload(k)
  }

  function AfterStage(stage: Stage, size: nat): Pc {
    if stage.Upload? then SaveDone(size) else CallAnalyze
  }

  function OpOf(stage: Stage, script: Script): nat -> Result<(), string> {
    if stage.Upload? then script.upload else script.download
  }

  function TableAfterStatement(t: Table, id: string, w: Write, db: Db): Table {
    if db.At? then Written(t, id, w, db.now) else t
  }

  lemma RetryUnfolds(policy: Policy, id: string, script: Script, stage: Stage, k: nat, size: nat,
                     t: Table, writes: nat, events: seq<Event>)
    requires stage.Download? || stage.Upload?
    requires OpOf(stage, script)(k).Failure? && RetriesAgain(policy, k + 1, OpOf(stage, script)(k).error)
    ensures RunJob(policy, id, script, JobState(CallPc(stage, k, size), t, writes, events))
            == RunJob(policy, id, script,
                      JobState(CallPc(stage, k + 1, size),
                               TableAfterStatement(t, id, CountAttempt, script.db(writes)), writes + 1, events))
  {
    var call := JobState(CallPc(stage, k, size), t, writes, events);
    var bump := StepJob(policy, id, script, call);
    assert bump.events == events;
    var again := StepJob(policy, id, script, bump);
    assert again.events == events;
  }

  /** The end of a retried stage, seen from its first call. */
  lemma StageEnds(policy: Policy, id: string, script: Script, stage: Stage, k: nat, size: nat,
                  t: Table, writes: nat, events: seq<Event>)
    requires stage.Download? || stage.Upload?
    requires var o := OpOf(stage, script)(k); o.Failure? ==> !RetriesAgain(policy, k + 1, o.error)
    ensures var o := OpOf(stage, script)(k);
            RunJob(policy, id, script, JobState(CallPc(stage, k, size), t, writes, events))
            == RunJob(policy, id, script,
                      if o.Success? then
                        var next := AfterStage(stage, size);
                        JobState(next, t, writes,
                                 events + [StageCompleted(stage)]
                                 + (if stage.Download? then [StageStarted(Analyze)] else []))
                      else
                        var m := Annotated(policy, stage, k + 1, o.error);
                        JobState(Fail(m), t, writes, events + [StageFailed(stage, m)] + [JobFailed(m)]))
  {
  }

  /** A statement the program cannot do without was refused. */
  lemma RefusedUnfolds(policy: Policy, id: string, script: Script, js: JobState)
    requires WriteAt(js.pc).Some? && !Returned(js.pc) && !js.pc.Fail? && !InsideStage(js.pc)
    requires script.db(js.writes).Unavailable?
    ensures var next := Next(policy, js.pc, OfDb(script.db(js.writes)));
            && next.Fail?
            && RunJob(policy, id, script, js)
               == RunJob(policy, id, script,
                         JobState(next, js.table, js.writes + 1, js.events + [JobFailed(next.message)]))
  {
    assert js.events + [] == js.events;
  }

  /** A statement was executed; `sent` are the events up to the next one. */
  lemma StoredUnfolds(policy: Policy, id: string, script: Script, js: JobState, sent: seq<Event>)
    requires WriteAt(js.pc).Some? && !Returned(js.pc) && !InsideStage(js.pc)
    requires script.db(js.writes).At?
    requires sent == Entering(js.pc, Next(policy, js.pc, OfDb(script.db(js.writes))))
    ensures RunJob(policy, id, script, js)
            == RunJob(policy, id, script,
                      JobState(Next(policy, js.pc, OfDb(script.db(js.writes))),
                               Written(js.table, id, WriteAt(js.pc).value, script.db(js.writes).now),
                               js.writes + 1, js.events + sent))
  {
    assert js.events + [] == js.events;
  }

  function Start(table: Table): JobState {
    JobState(MakeDir, table, 0, [JobStarted])
  }

  // ---- what a script means, without running it ----

  /** Some call within the limit succeeds and every earlier one failed retryably. */
  ghost predicate StageSucceeds(policy: Policy, op: nat -> Result<(), string>) {
    exists k: nat :: k < Max(1, policy.maxAttempts) && op(k).Success? && RetriedBefore(policy, op, k)
  }

  ghost predicate RetriedBefore(policy: Policy, op: nat -> Result<(), string>, k: nat) {
    forall j: nat :: j < k ==> op(j).Failure? && policy.retryable(op(j).error)
  }

  /** A failing call that is final cannot be followed by a later success. */
  lemma FinalFailure(policy: Policy, op: nat -> Result<(), string>, k: nat)
    requires k < policy.Limit() && RetriedBefore(policy, op, k) && op(k).Failure?
    requires !RetriesAgain(policy, k + 1, op(k).error)
    ensures !StageSucceeds(policy, op)
  {
    forall m: nat | m < policy.Limit() && RetriedBefore(policy, op, m) ensures op(m).Failure? {
    }
  }

  ghost predicate ConvertsAndUploads(policy: Policy, script: Script) {
    script.convert.Success? && StageSucceeds(policy, script.upload)
  }

  /** Whether the job of this script succeeds, given a database that always answers. */
  ghost predicate JobSucceeds(policy: Policy, script: Script) {
    && script.makeDir.Success?
    && StageSucceeds(policy, script.download)
    && script.analyze.Success?
    && (!KeepsAsIs(script.analyze.value) ==> ConvertsAndUploads(policy, script))
  }

  /** The size a successful job reports: the source's if conversion was skipped. */
  function FinalSize(script: Script): nat
    requires script.analyze.Success?
    requires !KeepsAsIs(script.analyze.value) ==> script.convert.Success?
  {
    if KeepsAsIs(script.analyze.value) then script.analyze.value.filesizeBytes else script.convert.value
  }

  ghost predicate Downloaded(policy: Policy, script: Script) {
    script.makeDir.Success? && StageSucceeds(policy, script.download)
  }

  ghost predicate Decided(policy: Policy, script: Script, convert: bool) {
    && Downloaded(policy, script) && script.analyze.Success?
    && KeepsAsIs(script.analyze.value) == !convert
  }

  ghost predicate ConvertedTo(policy: Policy, script: Script, n: nat) {
    Decided(policy, script, true) && script.convert == Success(n)
  }

  ghost predicate Trying(policy: Policy, op: nat -> Result<(), string>, k: nat) {
    k < policy.Limit() && RetriedBefore(policy, op, k)
  }

  /** The stage stops at call `calls` with an error, reported as `m`; `name` is the stage's. */
  ghost predicate StageFailsWith(
      policy: Policy, op: nat -> Result<(), string>, name: string, calls: nat, m: string)
  {
    && StopsAfter(op, policy.retryable, Max(1, policy.maxAttempts), calls)
    && op(calls - 1).Failure?
    && var e := op(calls - 1).error;
       m == if policy.retryable(e) && calls > 1 then name + " failed after " + Decimal(calls) + " attempts: " + e else e
  }

  /** The message a failing script is reported with. */
  ghost predicate FailsWith(policy: Policy, script: Script, m: string) {
    || (script.makeDir.Failure? && m == "failed to create work dir: " + script.makeDir.error)
    || (script.makeDir.Success? && exists calls: nat :: StageFailsWith(policy, script.download, "download", calls, m))
    || (Downloaded(policy, script) && script.analyze == Failure(m))
    || (Decided(policy, script, true) && script.convert == Failure(m))
    || (Decided(policy, script, true) && script.convert.Success?
        && exists calls: nat :: StageFailsWith(policy, script.upload, "upload", calls, m))
  }

  /** What reaching `pc` says about the script. */
  ghost predicate Reached(policy: Policy, script: Script, pc: Pc) {
    match pc
    case MakeDir => true
    case CallDownload(k) => script.makeDir.Success? && Trying(policy, script.download, k)
    case BumpDownload(k) => script.makeDir.Success? && Trying(policy, script.download, k)
    case CallAnalyze => Downloaded(policy, script)
    case SaveMetadata(m) => Downloaded(policy, script) && script.analyze == Success(m)
    case SaveSkipped(n) => Decided(policy, script, false) && n == script.analyze.value.filesizeBytes
    case MarkConverting => Decided(policy, script, true)
    case CallConvert => Decided(policy, script, true)
    case MarkUploading(n) => ConvertedTo(policy, script, n)
    case CallUpload(k, n) => ConvertedTo(policy, script, n) && Trying(policy, script.upload, k)
    case BumpUpload(k, n) => ConvertedTo(policy, script, n) && Trying(policy, script.upload, k)
    case SaveDone(n) => ConvertedTo(policy, script, n) && StageSucceeds(policy, script.upload)
    case Exit(Completed(n)) => JobSucceeds(policy, script) && n == FinalSize(script)
    case Exit(JobError(m)) => !JobSucceeds(policy, script) && FailsWith(policy, script, m)
    case Fail(m) => !JobSucceeds(policy, script) && FailsWith(policy, script, m)
    case FailAgain(m) => !JobSucceeds(policy, script) && FailsWith(policy, script, m)
  }

  ghost predicate Reliable(script: Script) {
    forall k: nat :: script.db(k).At?
  }

  lemma StepReaches(policy: Policy, script: Script, pc: Pc, writes: nat)
    requires !pc.Exit? && Reliable(script) && Reached(policy, script, pc)
    ensures Reached(policy, script, Next(policy, pc, OutcomeAt(script, pc, writes)))
  {
    assert script.db(writes).At?;
    hide StageSucceeds, StageFailsWith, Trying, Annotated, KeepsAsIs, ShouldConvert;
    match pc
    case MakeDir => FirstTry(policy, script.download);
    case CallDownload(k) => TryOnce(policy, Download, script.download, k);
    case BumpDownload(_) =>
    case SaveMetadata(m) => ConvertsUnlessKept(m);
    case MarkUploading(_) => FirstTry(policy, script.upload);
    case CallUpload(k, _) => TryOnce(policy, Upload, script.upload, k);
    case _ =>
  }

  lemma FirstTry(policy: Policy, op: nat -> Result<(), string>)
    ensures Trying(policy, op, 0)
  {
  }

  /** One call of a retried stage: it succeeds, is retried, or decides the stage's failure. */
  lemma TryOnce(policy: Policy, stage: Stage, op: nat -> Result<(), string>, k: nat)
    requires Trying(policy, op, k) && (stage.Download? || stage.Upload?)
    ensures if op(k).Success? then StageSucceeds(policy, op)
            else if RetriesAgain(policy, k + 1, op(k).error) then Trying(policy, op, k + 1)
            else
              && !StageSucceeds(policy, op)
              && StageFailsWith(policy, op, if stage.Download? then "download" else "upload", k + 1,
                                Annotated(policy, stage, k + 1, op(k).error))
  {
    if op(k).Failure? && !RetriesAgain(policy, k + 1, op(k).error) {
      FinalFailure(policy, op, k);
    }
  }

  // ---- event brackets ----

  const STAGES: seq<Stage> := [Download, Analyze, Convert, Upload]

  /** The first `k` stages, each started and completed. */
  function Brackets(k: nat): seq<Event>
    requires k <= 4
  {
    if k == 0 then [] else Brackets(k - 1) + [StageStarted(STAGES[k - 1]), StageCompleted(STAGES[k - 1])]
  }

  /** Stages finished, or finished before the one being run, at `pc`. */
  function StagesDone(pc: Pc): (k: nat)
    ensures k <= 4
  {
    match pc
    case MakeDir => 0
    case CallDownload(_) => 0
    case BumpDownload(_) => 0
    case CallAnalyze => 1
    case SaveMetadata(_) => 2
    case SaveSkipped(_) => 2
    case MarkConverting => 2
    case CallConvert => 2
    case MarkUploading(_) => 3
    case CallUpload(_, _) => 3
    case BumpUpload(_, _) => 3
    case _ => 4
  }

  /** A complete event log: brackets over a prefix of the stages, then exactly one job event. */
  ghost predicate WellBracketed(events: seq<Event>, result: JobResult) {
    match result
    case Completed(_) => events == [JobStarted] + Brackets(2) + [JobCompleted]
                      || events == [JobStarted] + Brackets(4) + [JobCompleted]
    case JobError(m) =>
      exists k: nat :: k <= 4 && FailedAfter(events, k, m)
  }

  ghost predicate FailedAfter(events: seq<Event>, k: nat, m: string)
    requires k <= 4
  {
    || events == [JobStarted] + Brackets(k) + [JobFailed(m)]
    || (k < 4 && events == [JobStarted] + Brackets(k)
                           + [StageStarted(STAGES[k]), StageFailed(STAGES[k], m), JobFailed(m)])
  }

  ghost predicate EventsFit(pc: Pc, events: seq<Event>) {
    match pc
    case Fail(m) => WellBracketed(events, JobError(m))
    case FailAgain(m) => WellBracketed(events, JobError(m))
    case Exit(r) => WellBracketed(events, r)
    case _ =>
      var k := StagesDone(pc);
      if InsideStage(pc) then k < 4 && events == [JobStarted] + Brackets(k) + [StageStarted(STAGES[k])]
      else events == [JobStarted] + Brackets(k)
  }

  lemma FailureFits(events: seq<Event>, k: nat, m: string)
    requires k <= 4 && FailedAfter(events, k, m)
    ensures WellBracketed(events, JobError(m))
  {
  }

  lemma FailureEventsFit(policy: Policy, pc: Pc, o: Outcome, events: seq<Event>)
    requires !Returned(pc) && Accepts(pc, o) && EventsFit(pc, events) && Next(policy, pc, o).Fail?
    ensures EventsFit(Next(policy, pc, o), Sent(pc, Next(policy, pc, o), events))
  {
    var m := Next(policy, pc, o).message;
    var k := StagesDone(pc);
    var sent := Sent(pc, Next(policy, pc, o), events);
    if pc.StageAt().Some? {
      assert sent == [JobStarted] + Brackets(k) + [StageStarted(STAGES[k]), StageFailed(STAGES[k], m), JobFailed(m)];
    } else {
      assert sent == [JobStarted] + Brackets(k) + [JobFailed(m)];
    }
    FailureFits(sent, k, m);
  }

  lemma StepEventsFit(policy: Policy, pc: Pc, o: Outcome, events: seq<Event>)
    requires !Returned(pc) && Accepts(pc, o) && EventsFit(pc, events)
    ensures EventsFit(Next(policy, pc, o), Sent(pc, Next(policy, pc, o), events))
  {
    var next := Next(policy, pc, o);
    var k := StagesDone(pc);
    if next.Fail? {
      FailureEventsFit(policy, pc, o, events);
    } else if pc.StageAt().Some? && !next.BumpDownload? && !next.BumpUpload? {
      assert Brackets(k + 1) == Brackets(k) + [StageStarted(STAGES[k]), StageCompleted(STAGES[k])];
      assert events + [StageCompleted(STAGES[k])] == [JobStarted] + Brackets(k + 1);
    } else if pc.Fail? {
      assert Sent(pc, next, events) == events;
    }
  }

  // ---- the outcome of a job ----

  ghost predicate OnlyRowChanged(t: Table, t': Table, id: string) {
    t'.Keys == t.Keys && forall other <- t :: other != id ==> t'[other] == t[other]
  }

  /** Everything a job's own writes never touch. */
  ghost predicate SameClaim(v: Video, w: Video) {
    && w.id == v.id && w.filePath == v.filePath && w.createdAt == v.createdAt
    && w.instanceId == v.instanceId && w.claimedAt == v.claimedAt
  }

  ghost predicate Fits(id: string, js: JobState) {
    id in js.table && Matches(js.pc, js.table[id]) && EventsFit(js.pc, js.events)
  }

  lemma StepFits(policy: Policy, id: string, script: Script, js: JobState)
    requires !Returned(js.pc) && Fits(id, js)
    ensures Fits(id, StepJob(policy, id, script, js))
    ensures OnlyRowChanged(js.table, StepJob(policy, id, script, js).table, id)
    ensures SameClaim(js.table[id], StepJob(policy, id, script, js).table[id])
  {
    var o := OutcomeAt(script, js.pc, js.writes);
    var next := StepJob(policy, id, script, js);
    StepMatches(policy, js.pc, o, js.table[id]);
    StepEventsFit(policy, js.pc, o, js.events);
    assert next.table == TableAfter(js.table, id, js.pc, o);
    hide EventsFit, Sent, Next, OutcomeAt;
    assert next.table[id] == RowAfter(js.table[id], js.pc, o);
  }

  lemma {:induction false} RunFits(policy: Policy, id: string, script: Script, js: JobState)
    requires Fits(id, js)
    ensures var end := RunJob(policy, id, script, js);
            && Returned(end.pc) && OnlyRowChanged(js.table, end.table, id) && Fits(id, end)
            && SameClaim(js.table[id], end.table[id])
    decreases Phase(js.pc), Left(policy, js.pc)
  {
    if !Returned(js.pc) {
      StepFits(policy, id, script, js);
      StepDescends(policy, id, script, js);
      hide Fits, StepJob, Phase, Left;
      RunFits(policy, id, script, StepJob(policy, id, script, js));
    }
  }

  lemma {:induction false} RunReaches(policy: Policy, id: string, script: Script, js: JobState)
    requires Reliable(script) && Reached(policy, script, js.pc)
    ensures Reached(policy, script, RunJob(policy, id, script, js).pc)
    decreases Phase(js.pc), Left(policy, js.pc)
  {
    if !Returned(js.pc) {
      StepReaches(policy, script, js.pc, js.writes);
      StepDescends(policy, id, script, js);
      assert Reached(policy, script, StepJob(policy, id, script, js).pc);
      hide Reached, StepJob, Phase, Left, Reliable;
      RunReaches(policy, id, script, StepJob(policy, id, script, js));
    }
  }

  /** A returned job whose last failure write went through leaves a terminal row. */
  lemma {:induction false} ReliableFailureIsStored(policy: Policy, id: string, script: Script, js: JobState)
    requires id in js.table && Reliable(script) && !Returned(js.pc)
    ensures var end := RunJob(policy, id, script, js);
            end.pc.FailAgain? ==>
              id in end.table && end.table[id].status.Failed?
              && end.table[id].errorMessage == Some(end.pc.message)
    decreases Phase(js.pc), Left(policy, js.pc)
  {
    assert script.db(js.writes).At?;
    var next := StepJob(policy, id, script, js);
    assert id in next.table;
    if !Returned(next.pc) {
      hide Next, OutcomeAt, Sent, Reliable;
      ReliableFailureIsStored(policy, id, script, next);
    }
  }

  /**
   Whatever the database answers: no other row changes, the events are bracketed to match
   the result, success means the row is done with the reported size, and an error means
   it is failed with the reported message or, if no failure write got through, still in
   progress.
   */
  lemma AnyJobOutcome(policy: Policy, id: string, script: Script, table: Table)
    requires id in table && table[id].status.Downloading?
    ensures var end := RunJob(policy, id, script, Start(table));
            && OnlyRowChanged(table, end.table, id) && SameClaim(table[id], end.table[id])
            && (match end.pc
                case Exit(Completed(n)) =>
                  && end.table[id].status.Done? && end.table[id].convertedSizeBytes == Some(AsI64(n))
                  && WellBracketed(end.events, Completed(n))
                case FailAgain(m) =>
                  && (end.table[id].status.InProgress()
                      || (end.table[id].status.Failed? && end.table[id].errorMessage == Some(m)))
                  && WellBracketed(end.events, JobError(m))
                case _ => false)
  {
    var js := Start(table);
    assert js.events == [JobStarted] + Brackets(0);
    RunFits(policy, id, script, js);
    ReturnedByFailing(policy, id, script, js);
    hide RunJob, WellBracketed, OnlyRowChanged;
  }

  /**
   Job outcome agrees with the database. For every script and a database that answers:
   the job succeeds exactly when the script says so, and then the row is done with the
   script's final size; otherwise the row is failed with the reported message. Either
   way no other row changes and the events are bracketed to match the result.
   */
  lemma JobOutcome(policy: Policy, id: string, script: Script, table: Table)
    requires Reliable(script) && id in table && table[id].status.Downloading?
    ensures var end := RunJob(policy, id, script, Start(table));
            && OnlyRowChanged(table, end.table, id)
            && (if JobSucceeds(policy, script) then
                  && end.pc == Exit(Completed(FinalSize(script)))
                  && end.table[id].status.Done?
                  && end.table[id].convertedSizeBytes == Some(AsI64(FinalSize(script)))
                  && WellBracketed(end.events, Completed(FinalSize(script)))
                else
                  && end.pc.FailAgain?
                  && end.table[id].status.Failed?
                  && end.table[id].errorMessage == Some(end.pc.message)
                  && FailsWith(policy, script, end.pc.message)
                  && WellBracketed(end.events, JobError(end.pc.message)))
  {
    var js := Start(table);
    assert js.events == [JobStarted] + Brackets(0);
    RunFits(policy, id, script, js);
    RunReaches(policy, id, script, js);
    ReliableFailureIsStored(policy, id, script, js);
    ReturnedByFailing(policy, id, script, js);
  }

  /** `process_one` itself never reaches the queue's own exit point. */
  lemma {:induction false} ReturnedByFailing(policy: Policy, id: string, script: Script, js: JobState)
    requires !Returned(js.pc)
    ensures var pc := RunJob(policy, id, script, js).pc; pc.FailAgain? || (pc.Exit? && pc.result.Completed?)
    decreases Phase(js.pc), Left(policy, js.pc)
  {
    var next := StepJob(policy, id, script, js);
    if !Returned(next.pc) {
      hide Next, OutcomeAt, Sent;
      ReturnedByFailing(policy, id, script, next);
    }
  }
}
