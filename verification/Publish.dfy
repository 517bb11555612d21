/**
 Publishing a converted file on the share: put it under a temporary name, check its size,
 rename it into place. Every command may fail, also after taking effect, and the process
 may stop between any two of them.
 */
module Publish {
  import opened Arithmetic
  import opened Retry
  import opened Wrappers
  import opened Backoff
  import opened RemotePaths
  import opened Texts
  import opened ListedSize

  newtype byte = b: int | 0 <= b < 256
  type File = seq<byte>
  type Share = map<Remote, File>

  function Slot(share: Share, r: Remote): Option<File> {
    if r in share then Some(share[r]) else None
  }

  function WithFile(share: Share, r: Remote, file: Option<File>): (s: Share)
    ensures Slot(s, r) == file
    ensures forall other | other != r :: Slot(s, other) == Slot(share, other)
  {
    match file
    case Some(f) => share[r := f]
    case None => share - {r}
  }

  datatype SmbError =
    | CommandFailed(message: string)
    | NotFound(remote: Remote)
    | SizeMismatch(expected: nat, actual: nat)
    | Io(message: string)

  /** A finished put leaves some prefix of the local file; a failed one may leave the old file. */
  datatype PutOutcome = PutDone(len: nat) | PutFailed(left: Option<nat>, message: string)

  /** A rename is atomic, but its success may go unreported. */
  datatype RenameOutcome = Renamed | RenamedUnreported(message: string) | NotRenamed(message: string)

  function Prefix(f: File, n: nat): (p: File)
    ensures p <= f && (|p| == |f| ==> p == f)
  {
    if n < |f| then f[..n] else f
  }

  function AfterPut(temp: Option<File>, local: File, o: PutOutcome): Option<File> {
    match o
    case PutDone(n) => Some(Prefix(local, n))
    case PutFailed(Some(n), _) => Some(Prefix(local, n))
    case PutFailed(None, _) => temp
  }

  // ---- any number of uploaders of one remote name ----

  datatype Phase = Idle | Sizing | Cleaning | Renaming

  datatype Uploader = Uploader(local: File, phase: Phase)

  datatype World = World(temp: Option<File>, published: Option<File>, uploaders: seq<Uploader>)

  datatype Act =
    | Put(put: PutOutcome)
    | Measure(listed: bool)
    | Remove(removed: bool)
    | Rename(rename: RenameOutcome)
    | Stop

  predicate CanDo(w: World, u: nat, a: Act) {
    && u < |w.uploaders|
    && match a
       case Put(_) => w.uploaders[u].phase.Idle?
       case Measure(_) => w.uploaders[u].phase.Sizing?
       case Remove(_) => w.uploaders[u].phase.Cleaning?
       case Rename(_) => w.uploaders[u].phase.Renaming?
       case Stop => true
  }

  function InPhase(w: World, u: nat, p: Phase): World
    requires u < |w.uploaders|
  {
    w.(uploaders := w.uploaders[u := w.uploaders[u].(phase := p)])
  }

  function Do(w: World, u: nat, a: Act): World
    requires CanDo(w, u, a)
  {
    var local := w.uploaders[u].local;
    match a
    case Put(o) => InPhase(w, u, if o.PutDone? then Sizing else Idle).(temp := AfterPut(w.temp, local, o))
    case Measure(listed) =>
      InPhase(w, u, if !listed || w.temp.None? then Idle
                    else if |w.temp.value| == |local| then Renaming
                    else Cleaning)
    case Remove(removed) => InPhase(w, u, Idle).(temp := if removed then None else w.temp)
    case Rename(o) =>
      if o.NotRenamed? || w.temp.None? then InPhase(w, u, Idle)
      else InPhase(w, u, Idle).(temp := None, published := w.temp)
    case Stop => InPhase(w, u, Idle)
  }

  /** An uploader may stop between any two commands, and every command may fail. */
  lemma CommandsMayFail(w: World, u: nat, message: string)
    requires u < |w.uploaders|
    ensures CanDo(w, u, Stop) && Do(w, u, Stop) == w.(uploaders := w.uploaders[u := w.uploaders[u].(phase := Idle)])
    ensures match w.uploaders[u].phase
            case Idle => forall left :: CanDo(w, u, Put(PutFailed(left, message)))
            case Sizing => CanDo(w, u, Measure(false))
            case Cleaning => CanDo(w, u, Remove(false))
            case Renaming => CanDo(w, u, Rename(NotRenamed(message))) && CanDo(w, u, Rename(RenamedUnreported(message)))
  {
  }

  /** The rename command reports success only when it had something to rename. */
  predicate ReportsSuccess(w: World, u: nat, a: Act) {
    CanDo(w, u, a) && a.Rename? && a.rename.Renamed? && w.temp.Some?
  }

  /**
   Some outcome of a put of `file` leaves `v` about to publish what is not its own: while
   `v` is renaming, any content but its own; while it is sizing, other content of its size.
   */
  predicate Endangers(file: File, v: Uploader) {
    match v.phase
    case Renaming => v.local != [] || file != []
    case Sizing => |file| >= |v.local| && file[..|v.local|] != v.local
    case _ => false
  }

  ghost predicate QuietPut(w: World, u: nat)
    requires u < |w.uploaders|
  {
    forall v: nat :: v < |w.uploaders| && v != u ==> !Endangers(w.uploaders[u].local, w.uploaders[v])
  }

  ghost predicate Quiet(w: World, u: nat, a: Act)
    requires CanDo(w, u, a)
  {
    a.Put? ==> QuietPut(w, u)
  }

  ghost predicate StepAt(worlds: seq<World>, acts: seq<(nat, Act)>, i: nat)
    requires |worlds| == |acts| + 1 && i < |acts|
  {
    CanDo(worlds[i], acts[i].0, acts[i].1) && worlds[i + 1] == Do(worlds[i], acts[i].0, acts[i].1)
  }

  ghost predicate IsRun(worlds: seq<World>, acts: seq<(nat, Act)>) {
    && |worlds| == |acts| + 1
    && (forall u: nat :: u < |worlds[0].uploaders| ==> worlds[0].uploaders[u].phase.Idle?)
    && (forall i: nat :: i < |acts| ==> StepAt(worlds, acts, i))
  }

  ghost predicate QuietAt(worlds: seq<World>, acts: seq<(nat, Act)>, i: nat)
    requires |worlds| == |acts| + 1 && i < |acts|
  {
    CanDo(worlds[i], acts[i].0, acts[i].1) && Quiet(worlds[i], acts[i].0, acts[i].1)
  }

  ghost predicate QuietRun(worlds: seq<World>, acts: seq<(nat, Act)>)
    requires |worlds| == |acts| + 1
  {
    forall i: nat :: i < |acts| ==> QuietAt(worlds, acts, i)
  }

  /** No uploader is about to publish, as its own, what is not its own file. */
  ghost predicate Sound(w: World) {
    forall u: nat :: u < |w.uploaders| && w.temp.Some? ==>
      && (w.uploaders[u].phase.Sizing? && |w.temp.value| == |w.uploaders[u].local| ==>
            w.temp.value == w.uploaders[u].local)
      && (w.uploaders[u].phase.Renaming? ==> w.temp.value == w.uploaders[u].local)
  }

  /** The final name holds what it held at first, or one uploader's entire file. */
  ghost predicate WholeOrOld(first: World, w: World) {
    || w.published == first.published
    || exists u: nat :: u < |w.uploaders| && w.published == Some(w.uploaders[u].local)
  }

  ghost predicate SameFiles(a: World, b: World) {
    && |a.uploaders| == |b.uploaders|
    && forall u: nat :: u < |a.uploaders| ==> a.uploaders[u].local == b.uploaders[u].local
  }

  lemma StepStaysSound(first: World, w: World, u: nat, a: Act)
    requires Sound(w) && CanDo(w, u, a) && Quiet(w, u, a) && WholeOrOld(first, w)
    ensures Sound(Do(w, u, a)) && WholeOrOld(first, Do(w, u, a)) && SameFiles(w, Do(w, u, a))
    ensures ReportsSuccess(w, u, a) ==> Do(w, u, a).published == Some(w.uploaders[u].local)
  {
    var w' := Do(w, u, a);
    assert SameFiles(w, w');
    if w'.published != w.published {
      assert w'.published == Some(w'.uploaders[u].local);
    }
  }

  /**
   Publish safety over whole runs. As long as no put endangers another, then at every point,
   across failed commands, lost acknowledgements, stops and retries, the final name holds
   its first content or one uploader's entire file, and a reported success means the
   reporter's entire file is there.
   */
  lemma {:induction false} QuietPublishIsWhole(worlds: seq<World>, acts: seq<(nat, Act)>, k: nat)
    requires IsRun(worlds, acts) && QuietRun(worlds, acts) && k < |worlds|
    ensures Sound(worlds[k]) && WholeOrOld(worlds[0], worlds[k]) && SameFiles(worlds[0], worlds[k])
    ensures k > 0 && ReportsSuccess(worlds[k - 1], acts[k - 1].0, acts[k - 1].1) ==>
              worlds[k].published == Some(worlds[k - 1].uploaders[acts[k - 1].0].local)
  {
    if k > 0 {
      QuietPublishIsWhole(worlds, acts, k - 1);
      assert StepAt(worlds, acts, k - 1) && QuietAt(worlds, acts, k - 1);
      StepStaysSound(worlds[0], worlds[k - 1], acts[k - 1].0, acts[k - 1].1);
    }
  }

  lemma {:induction false} UploadersStay(worlds: seq<World>, acts: seq<(nat, Act)>, k: nat)
    requires IsRun(worlds, acts) && k < |worlds|
    ensures SameFiles(worlds[0], worlds[k])
  {
    if k > 0 {
      UploadersStay(worlds, acts, k - 1);
      assert StepAt(worlds, acts, k - 1);
    }
  }

  /** One uploader per remote name needs no further condition. */
  lemma SingleUploaderIsSafe(worlds: seq<World>, acts: seq<(nat, Act)>, k: nat)
    requires IsRun(worlds, acts) && |worlds[0].uploaders| == 1 && k < |worlds|
    ensures worlds[k].published in {worlds[0].published, Some(worlds[0].uploaders[0].local)}
    ensures k > 0 && ReportsSuccess(worlds[k - 1], acts[k - 1].0, acts[k - 1].1) ==>
              worlds[k].published == Some(worlds[0].uploaders[0].local)
  {
    forall i: nat | i < |acts| ensures QuietAt(worlds, acts, i) {
      UploadersStay(worlds, acts, i);
      assert StepAt(worlds, acts, i);
    }
    QuietPublishIsWhole(worlds, acts, k);
    if k > 0 { assert StepAt(worlds, acts, k - 1); }
  }

  /**
   Two uploaders of one name, as when two workers hold one video: the second one's put
   lands between the first one's size check and rename, and a torn file is published
   with success reported.
   */
  lemma TwoUploadersCanTear() returns (worlds: seq<World>, acts: seq<(nat, Act)>)
    ensures IsRun(worlds, acts) && |worlds| == 5 && |worlds[0].uploaders| == 2
    ensures forall u: nat :: u < 2 ==> worlds[4].published != Some(worlds[0].uploaders[u].local)
    ensures worlds[4].published == Some([3]) && worlds[0].published == None
    ensures ReportsSuccess(worlds[3], acts[3].0, acts[3].1)
  {
    var w0 := World(None, None, [Uploader([1, 2], Idle), Uploader([3, 4], Idle)]);
    acts := [(0, Put(PutDone(2))), (0, Measure(true)), (1, Put(PutDone(1))), (0, Rename(Renamed))];
    var w1 := Do(w0, 0, acts[0].1);
    assert w1 == World(Some([1, 2]), None, [Uploader([1, 2], Sizing), Uploader([3, 4], Idle)]);
    var w2 := Do(w1, 0, acts[1].1);
    assert w2 == World(Some([1, 2]), None, [Uploader([1, 2], Renaming), Uploader([3, 4], Idle)]);
    var w3 := Do(w2, 1, acts[2].1);
    assert [3, 4][..1] == [3];
    assert w3 == World(Some([3]), None, [Uploader([1, 2], Renaming), Uploader([3, 4], Sizing)]);
    var w4 := Do(w3, 0, acts[3].1);
    worlds := [w0, w1, w2, w3, w4];
  }

  // ---- exactly when a put is safe ----

  /** The last act reports success although the final name does not hold the reporter's file. */
  ghost predicate EndsMisreported(worlds: seq<World>, acts: seq<(nat, Act)>) {
    && |acts| > 0 && |worlds| == |acts| + 1
    && var (u, a) := acts[|acts| - 1];
       && ReportsSuccess(worlds[|acts| - 1], u, a)
       && worlds[|acts|].published != Some(worlds[|acts| - 1].uploaders[u].local)
  }

  /** A continuation by a put of `u` and no further put, at whose end someone is misled. */
  ghost predicate MisleadsAfterPut(
      worlds: seq<World>, acts: seq<(nat, Act)>, u: nat, longer: seq<World>, more: seq<(nat, Act)>)
  {
    && IsRun(longer, more) && worlds <= longer && acts < more
    && more[|acts|].0 == u && more[|acts|].1.Put?
    && (forall i :: |acts| < i < |more| ==> !more[i].1.Put?)
    && EndsMisreported(longer, more)
  }

  lemma RunExtends(worlds: seq<World>, acts: seq<(nat, Act)>, u: nat, a: Act)
    requires IsRun(worlds, acts) && CanDo(worlds[|acts|], u, a)
    ensures IsRun(worlds + [Do(worlds[|acts|], u, a)], acts + [(u, a)])
  {
    var longer, more := worlds + [Do(worlds[|acts|], u, a)], acts + [(u, a)];
    hide Do;
    forall i: nat | i < |more| ensures StepAt(longer, more, i) {
      if i < |acts| { assert StepAt(worlds, acts, i); }
    }
  }

  /** The put that goes wrong for an endangered `v`. */
  function TearingPut(file: File, v: Uploader): PutOutcome {
    PutDone(if v.phase.Sizing? then |v.local| else if v.local != [] then 0 else |file|)
  }

  lemma TearingPutTears(w: World, u: nat, v: nat)
    requires u < |w.uploaders| && v < |w.uploaders| && u != v && w.uploaders[u].phase.Idle?
    requires Endangers(w.uploaders[u].local, w.uploaders[v])
    ensures var a := Put(TearingPut(w.uploaders[u].local, w.uploaders[v]));
            && CanDo(w, u, a)
            && var w' := Do(w, u, a);
               && |w'.uploaders| == |w.uploaders| && w'.uploaders[v] == w.uploaders[v]
               && w'.temp.Some? && w'.temp.value != w.uploaders[v].local
               && (w.uploaders[v].phase.Sizing? ==> |w'.temp.value| == |w.uploaders[v].local|)
  {
    var file := w.uploaders[u].local;
    assert |file| == |w.uploaders[v].local| ==> file[..|file|] == file;
  }

  /** A put that endangers someone has an outcome after which that one is misled. */
  lemma LoudPutMisleads(worlds: seq<World>, acts: seq<(nat, Act)>, u: nat, v: nat)
    returns (longer: seq<World>, more: seq<(nat, Act)>)
    requires IsRun(worlds, acts)
    requires var w := worlds[|acts|];
             && u < |w.uploaders| && v < |w.uploaders| && u != v && w.uploaders[u].phase.Idle?
             && Endangers(w.uploaders[u].local, w.uploaders[v])
    ensures MisleadsAfterPut(worlds, acts, u, longer, more)
  {
    var w := worlds[|acts|];
    var put := Put(TearingPut(w.uploaders[u].local, w.uploaders[v]));
    TearingPutTears(w, u, v);
    RunExtends(worlds, acts, u, put);
    var torn := Do(w, u, put);
    longer, more := worlds + [torn], acts + [(u, put)];
    hide IsRun, TearingPut;
    if w.uploaders[v].phase.Sizing? {
      RunExtends(longer, more, v, Measure(true));
      torn := Do(torn, v, Measure(true));
      longer, more := longer + [torn], more + [(v, Measure(true))];
    }
    RunExtends(longer, more, v, Rename(Renamed));
    longer, more := longer + [Do(torn, v, Rename(Renamed))], more + [(v, Rename(Renamed))];
  }

  /**
   The condition is exact. After any run of quiet puts, a next put by `u` can mislead
   someone, by some outcome of it and commands other than puts, if and only if it
   endangers another uploader.
   */
  lemma PutIsSafeIff(worlds: seq<World>, acts: seq<(nat, Act)>, u: nat)
    requires IsRun(worlds, acts) && QuietRun(worlds, acts)
    requires u < |worlds[|acts|].uploaders| && worlds[|acts|].uploaders[u].phase.Idle?
    ensures QuietPut(worlds[|acts|], u)
            <==> !exists longer, more :: MisleadsAfterPut(worlds, acts, u, longer, more)
  {
    if !QuietPut(worlds[|acts|], u) {
      var w := worlds[|acts|];
      var v: nat :| v < |w.uploaders| && v != u && Endangers(w.uploaders[u].local, w.uploaders[v]);
      var longer, more := LoudPutMisleads(worlds, acts, u, v);
    } else {
      forall longer, more ensures !MisleadsAfterPut(worlds, acts, u, longer, more) {
        if MisleadsAfterPut(worlds, acts, u, longer, more) {
          QuietContinuation(worlds, acts, u, longer, more);
          QuietPublishIsWhole(longer, more, |more|);
          assert false;
        }
      }
    }
  }

  lemma QuietContinuation(
      worlds: seq<World>, acts: seq<(nat, Act)>, u: nat, longer: seq<World>, more: seq<(nat, Act)>)
    requires IsRun(worlds, acts) && QuietRun(worlds, acts) && MisleadsAfterPut(worlds, acts, u, longer, more)
    requires u < |worlds[|acts|].uploaders| && QuietPut(worlds[|acts|], u)
    ensures QuietRun(longer, more)
  {
    hide Do;
    forall i: nat | i < |more| ensures QuietAt(longer, more, i) {
      assert StepAt(longer, more, i);
      if i < |acts| { assert QuietAt(worlds, acts, i) && longer[i] == worlds[i] && more[i] == acts[i]; }
      if i == |acts| { assert longer[i] == worlds[i]; }
    }
  }

  // ---- one uploader's code ----

  /**
   How each command of one upload attempt turns out; `listing` is the server's reply about
   the temporary file, given its true size.
   */
  datatype UploadScript = UploadScript(
    put: PutOutcome, listing: nat -> Result<string, string>, deleted: bool, rename: RenameOutcome)

  /** What the size check makes of a reply. */
  function SizeIn(reply: Result<string, string>, file: string): Option<nat> {
    match reply
    case Success(text) => ParseLsSize(Lines(text), file)
    case Failure(_) => None
  }

  /** Replies may fail or be unreadable, but no other size is read from them. */
  ghost predicate TrueSizes(script: UploadScript, file: string) {
    forall n: nat :: SizeIn(script.listing(n), file) in {None, Some(n)}
  }

  /** Listings as servers print them are such replies, and are read unless the name is indented. */
  lemma PrintedListingIsTrue(before: seq<string>, row: Row, rest: seq<string>)
    requires row.Valid()
    requires forall line <- before :: '\n' !in line && LineSize(WithoutReturn(line), row.name) == None
    ensures var reply := Success(Unlines(before + ([row.Text()] + rest)));
            SizeIn(reply, row.name) == if IsWhite(row.name[0]) then None else Some(row.size)
  {
    ListedSizeIsRead(before, row, rest);
  }

  /** The name the file is put under first. */
  function Uploading(target: Remote): Remote { Remote(target.dir, target.file + ".uploading") }

  /** What one attempt reports, from the outcomes of its commands alone. */
  function UploadResult(local: Option<File>, target: Remote, script: UploadScript): Result<(), SmbError> {
    match local
    case None => Failure(Io("no metadata"))
    case Some(f) =>
      match script.put
      case PutFailed(_, message) => Failure(CommandFailed(message))
      case PutDone(len) =>
        var there := if len < |f| then len else |f|;
        var reply := script.listing(there);
        match (reply, SizeIn(reply, Uploading(target).file))
        case (Failure(message), _) => Failure(CommandFailed(message))
        case (Success(_), None) => Failure(NotFound(Uploading(target)))
        case (Success(_), Some(n)) =>
          if n != |f| then Failure(SizeMismatch(|f|, n))
          else
            match script.rename
            case Renamed => Success(())
            case RenamedUnreported(message) => Failure(CommandFailed(message))
            case NotRenamed(message) => Failure(CommandFailed(message))
  }

  /** The share as one uploader of `target` sees it between two attempts. */
  function WorldOf(share: Share, target: Remote, local: File): World {
    World(Slot(share, Uploading(target)), Slot(share, target), [Uploader(local, Idle)])
  }

  /** One attempt of the only uploader in the step relation. */
  function AttemptIn(w: World, target: Remote, script: UploadScript): World
    requires |w.uploaders| == 1 && w.uploaders[0].phase.Idle?
  {
    var put := Do(w, 0, Put(script.put));
    if put.uploaders[0].phase.Idle? || put.temp.None? then put
    else
      var listed := SizeIn(script.listing(|put.temp.value|), Uploading(target).file).Some?;
      var sized := Do(put, 0, Measure(listed));
      if sized.uploaders[0].phase.Idle? then sized
      else if sized.uploaders[0].phase.Cleaning? then Do(sized, 0, Remove(script.deleted))
      else if sized.uploaders[0].phase.Renaming? then Do(sized, 0, Rename(script.rename))
      else sized
  }

  /** Where one attempt ends, from the outcomes of its commands alone. */
  lemma AttemptEnds(w: World, target: Remote, script: UploadScript, local: File)
    requires w.uploaders == [Uploader(local, Idle)]
    ensures var put := AfterPut(w.temp, local, script.put);
            AttemptIn(w, target, script)
            == if script.put.PutFailed? || SizeIn(script.listing(|put.value|), Uploading(target).file).None? then
                 w.(temp := put)
               else if |put.value| != |local| then
                 w.(temp := if script.deleted then None else put)
               else if script.rename.NotRenamed? then
                 w.(temp := put)
               else
                 w.(temp := None, published := put)
  {
  }

  /** Nothing but the two names may differ, and the final one holds old content or the whole file. */
  ghost predicate Safe(before: Share, now: Share, target: Remote, local: File) {
    && Slot(now, target) in {Slot(before, target), Some(local)}
    && forall r | r != target && r != Temporary(target) :: Slot(now, r) == Slot(before, r)
  }

  lemma SafeAgain(a: Share, b: Share, c: Share, target: Remote, local: File)
    requires Safe(a, b, target, local) && Safe(b, c, target, local)
    ensures Safe(a, c, target, local)
  {
  }

  class SmbClient {
    var share: Share
    /** Every state of the share so far, which is what a stop could leave behind. */
    ghost var history: seq<Share>

    constructor (share: Share)
      ensures this.share == share && history == [share]
    {
      this.share := share;
      history := [share];
    }

    method Command(changed: Share)
      modifies this
      ensures share == changed && history == old(history) + [changed]
    {
      share := changed;
      history := history + [changed];
    }

    /**
     One call of `upload_file`. `local` is absent when its metadata cannot be read. At
     every state passed through the final name holds what it held before or the entire
     local file, and `Ok` means the entire file.
     */
    method UploadFile(local: Option<File>, remotePath: string, script: UploadScript) returns (r: Result<(), SmbError>)
      requires TrueSizes(script, Temporary(SplitRemotePath(remotePath)).file)
      modifies this
      ensures old(history) <= history
      ensures local.None? ==> r.Failure? && share == old(share)
      ensures r == UploadResult(local, SplitRemotePath(remotePath), script)
      ensures local.Some? && script.put.PutFailed? ==>
                Slot(share, Uploading(SplitRemotePath(remotePath)))
                == match script.put.left
                   case None => Slot(old(share), Uploading(SplitRemotePath(remotePath)))
                   case Some(n) => Some(if n < |local.value| then local.value[..n] else local.value)
      ensures local.Some? ==>
                var target := SplitRemotePath(remotePath);
                WorldOf(share, target, local.value)
                == AttemptIn(WorldOf(old(share), target, local.value), target, script)
      ensures var file := Temporary(SplitRemotePath(remotePath)).file;
              && (r.Success? <==>
                    && local.Some? && script.put.PutDone? && script.put.len >= |local.value|
                    && SizeIn(script.listing(|local.value|), file) == Some(|local.value|)
                    && script.rename.Renamed?)
              && (IsWhite(file[0]) ==> r.Failure?)
      ensures var target := SplitRemotePath(remotePath);
              local.Some? ==>
                && (forall i :: |old(history)| <= i < |history| ==> Safe(old(share), history[i], target, local.value))
                && Safe(old(share), share, target, local.value)
                && (r.Success? ==> Slot(share, target) == local && Slot(share, Temporary(target)) == None)
                && (r.Failure? && r.error.SizeMismatch? ==>
                      && script.put.PutDone?
                      && r.error.expected == |local.value| && r.error.actual == script.put.len < |local.value|
                      && Slot(share, target) == Slot(old(share), target)
                      && (script.deleted ==> Slot(share, Temporary(target)) == None))
    {
      if local.None? {
        return Failure(Io("no metadata"));
      }
      var expected := |local.value|;
      var target := SplitRemotePath(remotePath);
      var temp := Temporary(target);
      AttemptEnds(WorldOf(share, target, local.value), target, script, local.value);
      hide AttemptIn, Do, InPhase;

      Command(WithFile(share, temp, AfterPut(Slot(share, temp), local.value, script.put)));
      if script.put.PutFailed? {
        return Failure(CommandFailed(script.put.message));
      }

      var reply := script.listing(|share[temp]|);
      if reply.Failure? {
        return Failure(CommandFailed(reply.error));
      }
      var listed := ParseLsSize(Lines(reply.value), temp.file);
      if IsWhite(temp.file[0]) { NoSizeAnywhere(Lines(reply.value), temp.file); }
      if listed.None? {
        return Failure(NotFound(temp));
      }
      assert SizeIn(reply, temp.file) in {None, Some(|share[temp]|)};
      var actual := listed.value;
      if actual != expected {
        if script.deleted {
          Command(WithFile(share, temp, None));
        }
        return Failure(SizeMismatch(expected, actual));
      }

      match script.rename
      case NotRenamed(e) =>
        return Failure(CommandFailed(e));
      case Renamed =>
        Command(WithFile(WithFile(share, target, Slot(share, temp)), temp, None));
        return Success(());
      case RenamedUnreported(e) =>
        Command(WithFile(WithFile(share, target, Slot(share, temp)), temp, None));
        return Failure(CommandFailed(e));
    }

    /** The upload stage's retry loop around it: the same promise for the whole loop. */
    method UploadWithRetries(config: RetryConfig, retryable: SmbError -> bool, local: Option<File>, remotePath: string,
                             scripts: nat -> UploadScript)
      returns (r: Result<(), SmbError>, calls: nat)
      requires forall k: nat :: TrueSizes(scripts(k), Temporary(SplitRemotePath(remotePath)).file)
      modifies this
      ensures old(history) <= history
      ensures StopsAfter((k: nat) => UploadResult(local, SplitRemotePath(remotePath), scripts(k)), retryable,
                         Max(1, config.maxAttempts), calls)
      ensures r == UploadResult(local, SplitRemotePath(remotePath), scripts(calls - 1))
      ensures local.None? ==> r.Failure? && share == old(share)
      ensures IsWhite(Temporary(SplitRemotePath(remotePath)).file[0]) ==> r.Failure?
      ensures var target := SplitRemotePath(remotePath);
              local.Some? ==>
                && (forall i :: |old(history)| <= i < |history| ==> Safe(old(share), history[i], target, local.value))
                && Safe(old(share), share, target, local.value)
                && (r.Success? ==> Slot(share, target) == local && Slot(share, Temporary(target)) == None)
    {
      hide UploadResult, TrueSizes, AttemptIn, WorldOf;
      calls := 0;
      ghost var target := SplitRemotePath(remotePath);
      while true
        invariant calls < config.Limit() && old(history) <= history
        invariant forall j: nat :: j < calls ==>
                    var e := UploadResult(local, target, scripts(j)); e.Failure? && retryable(e.error)
        invariant local.None? ==> share == old(share)
        invariant local.Some? ==>
            && Safe(old(share), share, target, local.value)
            && (forall i :: |old(history)| <= i < |history| ==> Safe(old(share), history[i], target, local.value))
        decreases config.Limit() - calls
      {
        ghost var before, states := share, |history|;
        r := UploadFile(local, remotePath, scripts(calls));
        calls := calls + 1;
        if local.Some? {
          forall i | states <= i < |history| ensures Safe(old(share), history[i], target, local.value) {
            SafeAgain(old(share), before, history[i], target, local.value);
          }
          SafeAgain(old(share), before, share, target, local.value);
        }
        if r.Success? || !retryable(r.error) || calls == config.Limit() {
          return;
        }
      }
    }
  }
}
