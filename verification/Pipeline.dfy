/**
 The program one worker task runs for one claimed video, as a small-step machine:
 download, analyze, convert, upload, with a database write between stages, retries
 around the two network stages, and two failure writes on the way out.

 A step consumes one outcome of the operation at the current program point. Which
 outcome occurs is up to the environment: any stage may fail with any message and any
 database write may be refused.
 */
module Pipeline {
  import opened Wrappers
  import opened Timestamps
  import opened Videos

  /** What the analyzer measured; widths are u32 and u64. */
  datatype Metadata = Metadata(codec: string, bitrateKbps: nat, resolution: string, filesizeBytes: nat)

  predicate ShouldConvert(m: Metadata) {
    || m.codec != "av1"
    || m.filesizeBytes > 2_000_000_000
    || (m.bitrateKbps > 5000 && m.resolution == "1080p")
  }

  /** What is left alone: an av1 file of at most two gigabytes, and at 1080p of at most 5000 kbps. */
  predicate KeepsAsIs(m: Metadata) {
    && m.codec == "av1" && m.filesizeBytes <= 2_000_000_000
    && (m.resolution == "1080p" ==> m.bitrateKbps <= 5000)
  }

  lemma ConvertsUnlessKept(m: Metadata)
    ensures ShouldConvert(m) <==> !KeepsAsIs(m)
  {
  }

  /** The casts keep small values, stay in their width, and lose only multiples of it. */
  lemma CastsKeepSmallValues(n: nat)
    ensures n < 0x8000_0000_0000_0000 ==> AsI64(n) == n
    ensures -0x8000_0000_0000_0000 <= AsI64(n) < 0x8000_0000_0000_0000
    ensures exists k :: AsI64(n) == n + k * 0x1_0000_0000_0000_0000
    ensures n < 0x8000_0000 ==> AsI32(n) == n
    ensures -0x8000_0000 <= AsI32(n) < 0x8000_0000
    ensures exists k :: AsI32(n) == n + k * 0x1_0000_0000
  {
    var q64, q32 := n / 0x1_0000_0000_0000_0000, n / 0x1_0000_0000;
    assert AsI64(n) == n + (if AsI64(n) < 0 then -q64 - 1 else -q64) * 0x1_0000_0000_0000_0000;
    assert AsI32(n) == n + (if AsI32(n) < 0 then -q32 - 1 else -q32) * 0x1_0000_0000;
  }

  /** `as i64` on a u64. */
  function AsI64(n: nat): int {
    var r := n % 0x1_0000_0000_0000_0000;
    if r < 0x8000_0000_0000_0000 then r else r - 0x1_0000_0000_0000_0000
  }

  /** `as i32` on a u32. */
  function AsI32(n: nat): int {
    var r := n % 0x1_0000_0000;
    if r < 0x8000_0000 then r else r - 0x1_0000_0000
  }

  /** Retry limit and message classifier; every result holds for any classifier. */
  datatype Policy = Policy(maxAttempts: nat, retryable: string -> bool) {
    function Limit(): (n: nat)
      ensures n >= 1
    {
      if maxAttempts < 1 then 1 else maxAttempts
    }
  }

  datatype Stage = Download | Analyze | Convert | Upload {
    function Name(): string {
      match this
      case Download => "download"
      case Analyze => "analyze"
      case Convert => "convert"
      case Upload => "upload"
    }
  }

  datatype JobResult = Completed(size: nat) | JobError(message: string)

  /**
   Program points. `calls` is the number of finished calls of the retried stage and
   `size` the converted size still to be stored once the upload is through.
   */
  datatype Pc =
    | MakeDir
    | CallDownload(calls: nat)
    | BumpDownload(calls: nat)
    | CallAnalyze
    | SaveMetadata(meta: Metadata)
    | SaveSkipped(size: nat)
    | MarkConverting
    | CallConvert
    | MarkUploading(size: nat)
    | CallUpload(calls: nat, size: nat)
    | BumpUpload(calls: nat, size: nat)
    | SaveDone(size: nat)
    | Fail(message: string)
    | FailAgain(message: string)
    | Exit(result: JobResult)
  {
    /** Stage whose implementation is called at this point. */
    function StageAt(): Option<Stage> {
      match this
      case CallDownload(_) => Some(Download)
      case CallAnalyze => Some(Analyze)
      case CallConvert => Some(Convert)
      case CallUpload(_, _) => Some(Upload)
      case _ => None
    }
  }

  /** What the environment makes of the operation at a program point. */
  datatype Outcome =
    | Okay
    | Analyzed(meta: Metadata)
    | Converted(size: nat)
    | Stored(now: Stamp)
    | Error(message: string)

  /** The database write issued at `pc`, if it is a write. */
  function WriteAt(pc: Pc): Option<Write> {
    match pc
    case BumpDownload(_) => Some(CountAttempt)
    case BumpUpload(_, _) => Some(CountAttempt)
    case SaveMetadata(m) => Some(MetadataTo(m.codec, AsI32(m.bitrateKbps), AsI64(m.filesizeBytes)))
    case SaveSkipped(n) => Some(ResultTo(AsI64(n), Done))
    case MarkConverting => Some(StatusTo(Converting))
    case MarkUploading(_) => Some(StatusTo(Uploading))
    case SaveDone(n) => Some(ResultTo(AsI64(n), Done))
    case Fail(m) => Some(FailWith(m))
    case FailAgain(m) => Some(FailWith(m))
    case _ => None
  }

  /** The outcomes the operation at `pc` can have. */
  predicate Accepts(pc: Pc, o: Outcome) {
    match pc
    case Exit(_) => false
    case MakeDir => o.Okay? || o.Error?
    case CallDownload(_) => o.Okay? || o.Error?
    case CallUpload(_, _) => o.Okay? || o.Error?
    case CallAnalyze => o.Analyzed? || o.Error?
    case CallConvert => o.Converted? || o.Error?
    case _ => o.Stored? || o.Error?
  }

  function Decimal(n: nat): string {
    if n < 10 then [DIGITS[n]] else Decimal(n / 10) + [DIGITS[n % 10]]
  }

  /** The final error of a retried stage after `attempt` calls. */
  function Annotated(policy: Policy, stage: Stage, attempt: nat, message: string): string {
    if policy.retryable(message) && attempt > 1 then
      stage.Name() + " failed after " + Decimal(attempt) + " attempts: " + message
    else
      message
  }

  predicate RetriesAgain(policy: Policy, attempt: nat, message: string) {
    policy.retryable(message) && attempt < policy.Limit()
  }

  function Next(policy: Policy, pc: Pc, o: Outcome): Pc
    requires Accepts(pc, o)
  {
    match pc
    case MakeDir =>
      if o.Error? then Fail("failed to create work dir: " + o.message) else CallDownload(0)
    case CallDownload(k) =>
      if o.Okay? then CallAnalyze
      else if RetriesAgain(policy, k + 1, o.message) then BumpDownload(k + 1)
      else Fail(Annotated(policy, Download, k + 1, o.message))
    case BumpDownload(k) => CallDownload(k)
    case CallAnalyze =>
      if o.Error? then Fail(o.message) else SaveMetadata(o.meta)
    case SaveMetadata(m) =>
      if o.Error? then Fail("failed to persist metadata: " + o.message)
      else if ShouldConvert(m) then MarkConverting
      else SaveSkipped(m.filesizeBytes)
    case SaveSkipped(n) =>
      if o.Error? then Fail("failed to persist result: " + o.message) else Exit(Completed(n))
    case MarkConverting =>
      if o.Error? then Fail("failed to update status: " + o.message) else CallConvert
    case CallConvert =>
      if o.Error? then Fail(o.message) else MarkUploading(o.size)
    case MarkUploading(n) =>
      if o.Error? then Fail("failed to update status: " + o.message) else CallUpload(0, n)
    case CallUpload(k, n) =>
      if o.Okay? then SaveDone(n)
      else if RetriesAgain(policy, k + 1, o.message) then BumpUpload(k + 1, n)
      else Fail(Annotated(policy, Upload, k + 1, o.message))
    case BumpUpload(k, n) => CallUpload(k, n)
    case SaveDone(n) =>
      if o.Error? then Fail("failed to persist result: " + o.message) else Exit(Completed(n))
    case Fail(m) => FailAgain(m)
    case FailAgain(m) => Exit(JobError(m))
  }

  /** The table after the step; a refused write, like a stage call, leaves it alone. */
  function TableAfter(t: Table, id: string, pc: Pc, o: Outcome): Table {
    if WriteAt(pc).Some? && o.Stored? then Written(t, id, WriteAt(pc).value, o.now) else t
  }

  // ---- which row a program point belongs to ----

  /** The row a task at `pc` expects to find when nobody else writes to it. */
  predicate Matches(pc: Pc, v: Video) {
    match pc
    case MakeDir => v.status.Downloading?
    case CallDownload(_) => v.status.Downloading?
    case BumpDownload(_) => v.status.Downloading?
    case CallAnalyze => v.status.Downloading?
    case SaveMetadata(_) => v.status.Downloading?
    case SaveSkipped(_) => v.status.Downloading?
    case MarkConverting => v.status.Downloading?
    case CallConvert => v.status.Converting?
    case MarkUploading(_) => v.status.Converting?
    case CallUpload(_, _) => v.status.Uploading?
    case BumpUpload(_, _) => v.status.Uploading?
    case SaveDone(_) => v.status.Uploading?
    case Fail(_) => v.status.InProgress()
    case FailAgain(m) => v.status.InProgress() || (v.status.Failed? && v.errorMessage == Some(m))
    case Exit(Completed(n)) => v.status.Done? && v.convertedSizeBytes == Some(AsI64(n))
    case Exit(JobError(m)) => v.status.InProgress() || (v.status.Failed? && v.errorMessage == Some(m))
  }

  function RowAfter(v: Video, pc: Pc, o: Outcome): Video {
    if WriteAt(pc).Some? && o.Stored? then Patched(v, WriteAt(pc).value, o.now) else v
  }

  /** Transitions the master accepts; see `update_video_status`. */
  predicate IsValidTransition(from: Status, to: Status) {
    if to.Failed? then !from.Done? && !from.Failed?
    else
      || (from.Pending? && to.Downloading?)
      || (from.Downloading? && to.Converting?)
      || (from.Downloading? && to.Done?)
      || (from.Converting? && to.Uploading?)
      || (from.Uploading? && to.Done?)
  }

  /**
   One step of an undisturbed task: the row keeps matching, claim and owner stay, the
   status either stays or makes a transition the master accepts, a terminal status
   stays, and the converted size is stored exactly when the row becomes done.
   */
  lemma StepMatches(policy: Policy, pc: Pc, o: Outcome, v: Video)
    requires Accepts(pc, o) && Matches(pc, v)
    ensures var w := RowAfter(v, pc, o);
            && Matches(Next(policy, pc, o), w)
            && w.claimedAt == v.claimedAt && w.instanceId == v.instanceId
            && w.id == v.id && w.filePath == v.filePath && w.createdAt == v.createdAt
            && !w.status.Pending?
            && (w.status != v.status ==> IsValidTransition(v.status, w.status))
            && (v.status.Terminal() ==> w.status == v.status && w.convertedSizeBytes == v.convertedSizeBytes)
            && (if w.status.Done? && !v.status.Done? then w.convertedSizeBytes.Some?
                else w.convertedSizeBytes == v.convertedSizeBytes)
  {
  }
}
