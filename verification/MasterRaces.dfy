/**
 The same handler with its four database statements interleaved: any number of
 concurrent requests, plus discovery inserting new videos.
 */
module MasterRaces {
  import opened Wrappers
  import opened Timestamps
  import opened Videos
  import opened Repositories
  import opened Pipeline
  import opened Master

  /** Progress of one request; `seen` is the row as it was read. */
  datatype Progress =
    | Reading
    | Owning(seen: Video)
    | Writing(seen: Video)
    | Reloading
    | Answered(response: Response)

  datatype Call = Call(id: string, body: StatusUpdate, to: Status, at: Progress)

  datatype MasterState = MasterState(table: Table, calls: seq<Call>)

  datatype MasterStep =
    | Discover(video: Video)
    | Arrive(id: string, body: StatusUpdate)
    | Proceed(call: nat, db: Db)

  predicate CanStep(s: MasterState, step: MasterStep) {
    match step
    case Discover(v) => Insertable(s.table, v) && v.status.Pending?
    case Arrive(_, _) => true
    case Proceed(i, _) => i < |s.calls| && !s.calls[i].at.Answered?
  }

  /** One statement of one request. */
  function Statement(t: Table, c: Call, db: Db): (Table, Progress)
    requires !c.at.Answered?
  {
    if db.Unavailable? then (t, Answered(InternalError))
    else match c.at
      case Reading =>
        if c.id !in t then (t, Answered(NotFound))
        else
          var refused := Refusal(t[c.id], c.to, c.body.instanceId);
          (t, if refused.Some? then Answered(refused.value) else Owning(t[c.id]))
      case Owning(seen) => (Owned(t, c.id, c.body.instanceId), Writing(seen))
      case Writing(seen) => (Written(t, c.id, ReportedWrite(seen, c.to, c.body), db.now), Reloading)
      case Reloading => (t, Answered(if c.id in t then Ok(t[c.id]) else NotFound))
  }

  function Arrived(id: string, body: StatusUpdate): Call {
    match ParseStatus(body.status)
    case None => Call(id, body, Pending, Answered(BadRequest))
    case Some(to) => Call(id, body, to, Reading)
  }

  function AfterStep(s: MasterState, step: MasterStep): MasterState
    requires CanStep(s, step)
  {
    match step
    case Discover(v) => s.(table := Inserted(s.table, v))
    case Arrive(id, body) => s.(calls := s.calls + [Arrived(id, body)])
    case Proceed(i, db) =>
      var (t, at) := Statement(s.table, s.calls[i], db);
      MasterState(t, s.calls[i := s.calls[i].(at := at)])
  }

  /** Requests arrive at any time, any open one may go on with any answer, and new videos may appear. */
  lemma RequestsAreFree(s: MasterState, i: nat, id: string, body: StatusUpdate, db: Db, video: Video)
    ensures CanStep(s, Arrive(id, body))
    ensures i < |s.calls| && !s.calls[i].at.Answered? ==> CanStep(s, Proceed(i, db))
    ensures (&& video.status.Pending? && video.id !in s.table
             && forall id <- s.table :: s.table[id].filePath != video.filePath) ==> CanStep(s, Discover(video))
  {
  }

  ghost predicate MasterStepAt(states: seq<MasterState>, steps: seq<MasterStep>, i: nat)
    requires i < |steps| < |states|
  {
    CanStep(states[i], steps[i]) && states[i + 1] == AfterStep(states[i], steps[i])
  }

  ghost predicate IsMasterRun(states: seq<MasterState>, steps: seq<MasterStep>) {
    && |states| == |steps| + 1
    && states[0] == MasterState(map[], [])
    && forall i: nat :: i < |steps| ==> MasterStepAt(states, steps, i)
  }

  /** The atomic handler is the interleaved one run without interruption, for every answer of the database. */
  lemma SerialIsUninterrupted(t: Table, id: string, body: StatusUpdate, db: Answers)
    ensures var c := Arrived(id, body);
            if c.at.Answered? then (t, c.at.response) == Handle(t, id, body, db)
            else
              var (t1, p1) := Statement(t, c, db.read);
              if p1.Answered? then (t1, p1.response) == Handle(t, id, body, db)
              else
                var (t2, p2) := Statement(t1, c.(at := p1), db.own);
                if p2.Answered? then (t2, p2.response) == Handle(t, id, body, db)
                else
                  var (t3, p3) := Statement(t2, c.(at := p2), db.write);
                  if p3.Answered? then (t3, p3.response) == Handle(t, id, body, db)
                  else
                    var (t4, p4) := Statement(t3, c.(at := p3), db.reload);
                    p4.Answered? && (t4, p4.response) == Handle(t, id, body, db)
  {
  }

  // ---- invariants under every interleaving ----

  /** A request past its checks is about to write a status other than pending. */
  ghost predicate CallSound(c: Call) {
    (c.at.Owning? || c.at.Writing?) ==>
      IsValidTransition(c.at.seen.status, c.to)
      && (c.at.seen.instanceId.Some? ==> c.at.seen.instanceId.value == c.body.instanceId)
  }

  ghost predicate CallsSound(s: MasterState) {
    forall c <- s.calls :: CallSound(c)
  }

  lemma StepKeepsCallsSound(s: MasterState, step: MasterStep)
    requires CanStep(s, step) && CallsSound(s)
    ensures CallsSound(AfterStep(s, step))
  {
    var s' := AfterStep(s, step);
    forall c <- s'.calls ensures CallSound(c) {
      if step.Proceed? && c !in s.calls {
        assert CallSound(s.calls[step.call]);
      }
    }
  }

  /** Whatever else is in flight, one statement never changes a recorded owner or revives a row to pending. */
  lemma StepKeepsOwner(s: MasterState, step: MasterStep, v: string)
    requires CanStep(s, step) && CallsSound(s) && v in s.table
    ensures var t' := AfterStep(s, step).table;
            && v in t'
            && (s.table[v].instanceId.Some? ==> t'[v].instanceId == s.table[v].instanceId)
            && (!s.table[v].status.Pending? ==> !t'[v].status.Pending?)
  {
    if step.Proceed? { assert CallSound(s.calls[step.call]); }
  }

  lemma {:induction false} CallsStaySound(states: seq<MasterState>, steps: seq<MasterStep>, n: nat)
    requires IsMasterRun(states, steps) && n < |states|
    ensures CallsSound(states[n])
  {
    if n > 0 {
      assert MasterStepAt(states, steps, n - 1);
      CallsStaySound(states, steps, n - 1);
      StepKeepsCallsSound(states[n - 1], steps[n - 1]);
    }
  }

  /** In every run: a recorded owner never changes and no row returns to pending. */
  lemma {:induction false} OwnerIsForever(states: seq<MasterState>, steps: seq<MasterStep>, v: string, m: nat, n: nat)
    requires IsMasterRun(states, steps) && m <= n < |states| && v in states[m].table
    ensures v in states[n].table
    ensures states[m].table[v].instanceId.Some?
            ==> states[n].table[v].instanceId == states[m].table[v].instanceId
    ensures !states[m].table[v].status.Pending? ==> !states[n].table[v].status.Pending?
  {
    if m < n {
      hide AfterStep, CanStep;
      assert MasterStepAt(states, steps, n - 1);
      OwnerIsForever(states, steps, v, m, n - 1);
      CallsStaySound(states, steps, n - 1);
      StepKeepsOwner(states[n - 1], steps[n - 1], v);
    }
  }

  // ---- who can be accepted ----

  lemma {:induction false} CallsPersist(states: seq<MasterState>, steps: seq<MasterStep>, i: nat, m: nat, n: nat)
    requires IsMasterRun(states, steps) && m <= n < |states| && i < |states[m].calls|
    ensures i < |states[n].calls|
    ensures states[n].calls[i] == states[m].calls[i].(at := states[n].calls[i].at)
    ensures states[m].calls[i].at.Answered? ==> states[n].calls[i] == states[m].calls[i]
  {
    if m < n {
      assert MasterStepAt(states, steps, n - 1);
      CallsPersist(states, steps, i, m, n - 1);
    }
  }

  /** Once an owner is recorded, a request that has yet to read can only succeed for that owner. */
  ghost predicate BarredUnlessOwner(s: MasterState, i: nat, owner: string) {
    i < |s.calls| &&
    (s.calls[i].at.Reading?
     || s.calls[i].body.instanceId == owner
     || (s.calls[i].at.Answered? && !s.calls[i].at.response.Ok?))
  }

  lemma {:induction false} LateReadersAreBarred(
      states: seq<MasterState>, steps: seq<MasterStep>, i: nat, owner: string, m: nat, n: nat)
    requires IsMasterRun(states, steps) && m <= n < |states|
    requires i < |states[m].calls| && states[m].calls[i].at.Reading?
    requires states[m].calls[i].id in states[m].table
    requires states[m].table[states[m].calls[i].id].instanceId == Some(owner)
    ensures BarredUnlessOwner(states[n], i, owner)
  {
    if m < n {
      assert MasterStepAt(states, steps, n - 1);
      LateReadersAreBarred(states, steps, i, owner, m, n - 1);
      CallsPersist(states, steps, i, m, n - 1);
      OwnerIsForever(states, steps, states[m].calls[i].id, m, n - 1);
    }
  }

  /**
   Under every interleaving, a request whose read comes after the owner was recorded is
   accepted only if it comes from that owner.
   */
  lemma OnlyTheOwnerIsAccepted(
      states: seq<MasterState>, steps: seq<MasterStep>, i: nat, owner: string, m: nat, n: nat)
    requires IsMasterRun(states, steps) && m <= n < |states|
    requires i < |states[m].calls| && states[m].calls[i].at.Reading?
    requires states[m].calls[i].id in states[m].table
    requires states[m].table[states[m].calls[i].id].instanceId == Some(owner)
    ensures i < |states[n].calls|
    ensures states[n].calls[i].at.Answered? && states[n].calls[i].at.response.Ok?
            ==> states[n].calls[i].body.instanceId == owner
  {
    LateReadersAreBarred(states, steps, i, owner, m, n);
  }

  // ---- what interleaving does break ----

  const V := "movies/shared.mp4"
  const T0: Stamp := Civil(2026, 7, 28, 12, 0, 0)

  function Report(status: string, instance: string): StatusUpdate {
    StatusUpdate(status, instance, None, None)
  }

  ghost predicate MasterEndsIn(states: seq<MasterState>, steps: seq<MasterStep>, s: MasterState) {
    IsMasterRun(states, steps) && states[|steps|] == s
  }

  lemma MasterExtend(states: seq<MasterState>, steps: seq<MasterStep>, s: MasterState, step: MasterStep)
    returns (states': seq<MasterState>, steps': seq<MasterStep>, s': MasterState)
    requires MasterEndsIn(states, steps, s) && CanStep(s, step)
    ensures MasterEndsIn(states', steps', s') && s' == AfterStep(s, step)
    ensures states <= states' && steps' == steps + [step]
  {
    s' := AfterStep(s, step);
    states', steps' := states + [s'], steps + [step];
    forall i: nat | i < |steps'| ensures MasterStepAt(states', steps', i) {
      if i < |steps| { assert MasterStepAt(states, steps, i); }
    }
  }

  lemma TwoReadersSeePending()
    returns (states: seq<MasterState>, steps: seq<MasterStep>, s: MasterState)
    ensures MasterEndsIn(states, steps, s)
    ensures var row := NewRow(V, V, Pending, 0, T0);
            s == MasterState(map[V := row],
                             [Call(V, Report("downloading", "worker-a"), Downloading, Owning(row)),
                              Call(V, Report("failed", "worker-b"), Failed, Owning(row))])
  {
    s := MasterState(map[], []);
    states, steps := [s], [];
    states, steps, s := MasterExtend(states, steps, s, Discover(NewRow(V, V, Pending, 0, T0)));
    states, steps, s := MasterExtend(states, steps, s, Arrive(V, Report("downloading", "worker-a")));
    states, steps, s := MasterExtend(states, steps, s, Arrive(V, Report("failed", "worker-b")));
    states, steps, s := MasterExtend(states, steps, s, Proceed(0, At(T0)));
    states, steps, s := MasterExtend(states, steps, s, Proceed(1, At(T0)));
  }

  lemma SecondWriterFails()
    returns (states: seq<MasterState>, steps: seq<MasterStep>, s: MasterState)
    ensures MasterEndsIn(states, steps, s)
    ensures V in s.table && s.table[V].status == Failed && s.table[V].instanceId == Some("worker-a")
    ensures |s.calls| == 2
    ensures s.calls[0].id == V && s.calls[0].to == Downloading && s.calls[0].at.Writing?
    ensures s.calls[0].body == Report("downloading", "worker-a")
    ensures s.calls[1].id == V && s.calls[1].at.Reloading? && s.calls[1].body.instanceId == "worker-b"
  {
    states, steps, s := TwoReadersSeePending();
    states, steps, s := MasterExtend(states, steps, s, Proceed(0, At(T0)));
    states, steps, s := MasterExtend(states, steps, s, Proceed(1, At(T0)));
    states, steps, s := MasterExtend(states, steps, s, Proceed(1, At(T0)));
  }

  /**
   The serial guarantees fail under interleaving: two workers that both read a fresh row
   are both accepted, and a failed row goes back to downloading.
   */
  lemma RaceBreaksSerialGuarantees()
    returns (states: seq<MasterState>, steps: seq<MasterStep>, s: MasterState, m: nat)
    ensures MasterEndsIn(states, steps, s) && m < |states|
    ensures V in states[m].table && states[m].table[V].status == Failed
    ensures V in s.table && s.table[V].status == Downloading && s.table[V].instanceId == Some("worker-a")
    ensures |s.calls| == 2 && s.calls[0].body.instanceId != s.calls[1].body.instanceId
    ensures forall i :: 0 <= i < 2 ==> s.calls[i].id == V && s.calls[i].at.Answered? && s.calls[i].at.response.Ok?
  {
    states, steps, s := SecondWriterFails();
    m := |steps|;
    states, steps, s := MasterExtend(states, steps, s, Proceed(0, At(T0)));
    states, steps, s := MasterExtend(states, steps, s, Proceed(1, At(T0)));
    states, steps, s := MasterExtend(states, steps, s, Proceed(0, At(T0)));
  }
}
