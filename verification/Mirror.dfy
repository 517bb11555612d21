/**
 Relaying a worker's status changes to the master. In any run of the worker system, the
 changes of a video that is not reclaimed form a chain the master accepts link by link;
 delivered in order, with any replays in between, they keep the master's row equal to
 the worker's as of the last delivered change.
 */
module Mirror {
  import opened Wrappers
  import opened Videos
  import opened Pipeline
  import opened WorkerSystem
  import opened Exclusion
  import opened ClaimAccounting
  import opened Master

  /** What master and worker are expected to agree on. */
  datatype View = View(status: Status, size: Option<int>, owner: Option<string>, error: Option<string>)

  function ViewOf(v: Video): View {
    View(v.status, v.convertedSizeBytes, v.instanceId, if v.status.Failed? then v.errorMessage else None)
  }

  /** The report the coordinator sends for a row that just changed status. */
  function ReportOf(v: Video): StatusUpdate {
    StatusUpdate(StatusText(v.status),
                 if v.instanceId.Some? then v.instanceId.value else "",
                 if v.status.Failed? then v.errorMessage else None,
                 if v.status.Done? then v.convertedSizeBytes else None)
  }

  // ---- the worker's side: changes form a chain ----

  /** A row that has not been reclaimed since it was inserted. */
  ghost predicate Tracked(v: Video) {
    && (v.status.Pending? <==> v.instanceId.None?)
    && (v.status.Done? <==> v.convertedSizeBytes.Some?)
    && (v.status.Failed? ==> v.errorMessage.Some?)
  }

  /** One link: an accepted transition that keeps the owner once there is one. */
  ghost predicate Link(a: Video, b: Video) {
    && Tracked(a) && Tracked(b)
    && IsValidTransition(a.status, b.status)
    && (a.instanceId.Some? ==> b.instanceId == a.instanceId)
  }

  lemma StepLinks(policy: Policy, s: System, step: Step, v: string)
    requires Sane(s) && Enabled(s, step) && v in s.table && Exclusive(s, v)
    requires Tracked(s.table[v]) && !Takes(s, step, v)
    ensures var s' := Perform(policy, s, step);
            && v in s'.table
            && (if s'.table[v].status == s.table[v].status then
                  Tracked(s'.table[v]) && ViewOf(s'.table[v]) == ViewOf(s.table[v])
                else Link(s.table[v], s'.table[v]))
  {
    if step.Advance? && s.tasks[step.task].video == v {
      assert LiveFor(s, step.task, v);
      AdvanceLinks(policy, s.tasks[step.task].pc, step.outcome, s.table[v]);
    }
  }

  lemma AdvanceLinks(policy: Policy, pc: Pc, o: Outcome, row: Video)
    requires Accepts(pc, o) && Matches(pc, row) && Tracked(row)
    ensures var row' := RowAfter(row, pc, o);
            if row'.status == row.status then Tracked(row') && ViewOf(row') == ViewOf(row) else Link(row, row')
  {
  }

  /** The rows of `v` at insertion and after each status change up to state `n`. */
  ghost function Changes(states: seq<System>, v: string, n: nat): seq<Video>
    requires n < |states|
  {
    if v !in states[n].table then []
    else if n == 0 || v !in states[n - 1].table then [states[n].table[v]]
    else if states[n].table[v].status != states[n - 1].table[v].status then
      Changes(states, v, n - 1) + [states[n].table[v]]
    else Changes(states, v, n - 1)
  }

  ghost predicate Chain(changes: seq<Video>) {
    && |changes| > 0
    && changes[0].status.Pending? && Tracked(changes[0])
    && forall i: nat :: i < |changes| - 1 ==> Link(changes[i], changes[i + 1])
  }

  ghost predicate Unreclaimed(states: seq<System>, steps: seq<Step>, v: string, n: nat)
    requires n <= |steps| <= |states|
  {
    forall k: nat :: k < n ==> !Takes(states[k], steps[k], v)
  }

  lemma InsertedRowIsTracked(policy: Policy, s: System, step: Step, v: string)
    requires Enabled(s, step) && v !in s.table && v in Perform(policy, s, step).table
    ensures Perform(policy, s, step).table[v].status.Pending? && Tracked(Perform(policy, s, step).table[v])
  {
  }

  lemma ChainExtends(changes: seq<Video>, row: Video)
    requires Chain(changes) && Link(changes[|changes| - 1], row)
    ensures Chain(changes + [row])
  {
    var longer := changes + [row];
    forall i: nat | i < |longer| - 1 ensures Link(longer[i], longer[i + 1]) {
      if i < |changes| - 1 { assert Link(changes[i], changes[i + 1]); }
    }
  }

  /** The changes recorded so far are a chain that ends in the current view. */
  ghost predicate ChainTo(changes: seq<Video>, row: Video) {
    Chain(changes) && Tracked(row) && ViewOf(changes[|changes| - 1]) == ViewOf(row)
  }

  lemma ChainToExtends(changes: seq<Video>, row: Video, row': Video)
    requires ChainTo(changes, row) && Link(row, row')
    ensures ChainTo(changes + [row'], row')
  {
    SameViewLinks(changes[|changes| - 1], row, row');
    ChainExtends(changes, row');
  }

  lemma StepLinksInRun(policy: Policy, states: seq<System>, steps: seq<Step>, v: string, n: nat)
    requires IsRun(policy, states, steps) && n < |steps| && v in states[n].table
    requires Unreclaimed(states, steps, v, n + 1) && Tracked(states[n].table[v])
    ensures v in states[n + 1].table
    ensures var row, row' := states[n].table[v], states[n + 1].table[v];
            if row'.status == row.status then Tracked(row') && ViewOf(row') == ViewOf(row) else Link(row, row')
  {
    hide Perform, Enabled, Link;
    assert StepAt(policy, states, steps, n);
    RunIsSane(policy, states, steps, n);
    AccurateReclaimsSuffice(policy, states, steps, v, n);
    StepLinks(policy, states[n], steps[n], v);
  }

  lemma {:induction false} ChangesChain(policy: Policy, states: seq<System>, steps: seq<Step>, v: string, n: nat)
    requires IsRun(policy, states, steps) && n < |states| && v in states[n].table
    requires Unreclaimed(states, steps, v, n)
    ensures ChainTo(Changes(states, v, n), states[n].table[v])
  {
    assert n > 0;
    assert StepAt(policy, states, steps, n - 1);
    hide Perform, Enabled;
    if v !in states[n - 1].table {
      InsertedRowIsTracked(policy, states[n - 1], steps[n - 1], v);
    } else {
      ChangesChain(policy, states, steps, v, n - 1);
      assert ChainTo(Changes(states, v, n - 1), states[n - 1].table[v]);
      StepLinksInRun(policy, states, steps, v, n - 1);
      hide Chain, Link;
      if states[n].table[v].status != states[n - 1].table[v].status {
        ChainToExtends(Changes(states, v, n - 1), states[n - 1].table[v], states[n].table[v]);
      }
    }
  }

  lemma SameViewLinks(a: Video, b: Video, c: Video)
    requires Tracked(a) && ViewOf(a) == ViewOf(b) && Link(b, c)
    ensures Link(a, c)
  {
  }

  // ---- the master's side: deliveries ----

  /**
   What reaches the master: the report of one of the changes, with the answers of its
   database to each statement; another request that is not the owner's own on `v`; or the
   discovery of a further video.
   */
  datatype Event = Delivery(change: nat, db: Answers) | Other(request: Request) | Discovery(video: Video)

  /** `marks[k]` is the last change stored at the master before event k. */
  datatype Relay = Relay(events: seq<Event>, marks: seq<nat>, tables: seq<Table>, responses: seq<Response>)

  /** The statements up to the status write are answered. */
  predicate Stores(db: Answers) { db.read.At? && db.own.At? && db.write.At? }

  /** A request for another video, or for `v` from an instance that is not its recorded owner. */
  predicate Foreign(t: Table, v: string, q: Request) {
    || q.id != v
    || (v in t && t[v].instanceId.Some? && t[v].instanceId.value != q.body.instanceId)
  }

  /**
   A delivery is the next change not stored yet, for the first time or again, or any one
   stored before. Only an answered status write moves the mark.
   */
  ghost predicate RelayStep(v: string, changes: seq<Video>, r: Relay, k: nat)
    requires k < |r.events| == |r.responses| && |r.marks| == |r.tables| == |r.events| + 1
  {
    match r.events[k]
    case Delivery(j, db) =>
      && 1 <= j <= r.marks[k] + 1 && j < |changes|
      && r.marks[k + 1] == (if j == r.marks[k] + 1 && Stores(db) then j else r.marks[k])
      && (r.tables[k + 1], r.responses[k]) == Handle(r.tables[k], v, ReportOf(changes[j]), db)
    case Other(q) =>
      && Foreign(r.tables[k], v, q) && r.marks[k + 1] == r.marks[k]
      && (r.tables[k + 1], r.responses[k]) == Handle(r.tables[k], q.id, q.body, q.db)
    case Discovery(video) =>
      && Insertable(r.tables[k], video) && r.marks[k + 1] == r.marks[k]
      && r.tables[k + 1] == Inserted(r.tables[k], video)
  }

  ghost predicate IsRelay(v: string, changes: seq<Video>, r: Relay) {
    && |r.events| == |r.responses| && |r.marks| == |r.tables| == |r.events| + 1
    && r.marks[0] == 0
    && |changes| > 0 && v in r.tables[0] && ViewOf(r.tables[0][v]) == ViewOf(changes[0])
    && forall k: nat :: k < |r.events| ==> RelayStep(v, changes, r, k)
  }

  /**
   A relay can always go on: with the next change or any earlier one, with a request of
   somebody else or with a discovery, however the statements are answered.
   */
  lemma RelayGoesOn(v: string, changes: seq<Video>, r: Relay, event: Event) returns (r': Relay)
    requires IsRelay(v, changes, r)
    requires match event
             case Delivery(j, _) => 1 <= j <= r.marks[|r.events|] + 1 && j < |changes|
             case Other(q) =>
               var t := r.tables[|r.events|];
               q.id != v || (v in t && t[v].instanceId.Some? && t[v].instanceId.value != q.body.instanceId)
             case Discovery(video) =>
               video.id !in r.tables[|r.events|]
               && forall id <- r.tables[|r.events|] :: r.tables[|r.events|][id].filePath != video.filePath
    ensures IsRelay(v, changes, r') && r'.events == r.events + [event]
    ensures r.marks <= r'.marks && r.tables <= r'.tables && r.responses <= r'.responses
  {
    var n := |r.events|;
    var t, mark := r.tables[n], r.marks[n];
    var (next, response) :=
      match event
      case Delivery(j, db) => Handle(t, v, ReportOf(changes[j]), db)
      case Other(q) => Handle(t, q.id, q.body, q.db)
      case Discovery(video) => (Inserted(t, video), InternalError);
    if event.Delivery? && event.change == mark + 1 && Stores(event.db) { mark := mark + 1; }
    r' := Relay(r.events + [event], r.marks + [mark], r.tables + [next], r.responses + [response]);
    hide Handle, ReportOf, Stores, Inserted, ViewOf;
    forall k: nat | k < n + 1 ensures RelayStep(v, changes, r', k) {
      if k < n { assert RelayStep(v, changes, r, k); }
    }
  }

  lemma {:induction false} ChainClimbs(changes: seq<Video>, i: nat, j: nat)
    requires Chain(changes) && i < j < |changes|
    ensures Rank(changes[i].status) < Rank(changes[j].status)
  {
    if i < j - 1 { ChainClimbs(changes, i, j - 1); }
    assert Link(changes[j - 1], changes[j - 1 + 1]);
    TransitionsClimb(changes[j - 1].status, changes[j].status);
  }

  /**
   The master's row shows change `a`, or it already has the owner of the next change `b`
   as well, whose report was refused half way.
   */
  ghost predicate Shows(row: Video, a: Video, next: Option<Video>) {
    || ViewOf(row) == ViewOf(a)
    || (next.Some? && a.instanceId.None? && ViewOf(row) == ViewOf(a).(owner := next.value.instanceId))
  }

  /**
   A delivery of the next change carries the view over exactly if the status write is
   answered, and is accepted exactly if all statements are; otherwise the row still shows
   the old change.
   */
  lemma NextDelivery(t: Table, v: string, a: Video, b: Video, db: Answers)
    requires v in t && Link(a, b) && Shows(t[v], a, Some(b))
    ensures var (t', response) := Handle(t, v, ReportOf(b), db);
            && v in t'
            && (if Stores(db) then ViewOf(t'[v]) == ViewOf(b) else Shows(t'[v], a, Some(b)))
            && (response.Ok? <==> Stores(db) && db.reload.At?)
  {
    ParsesItsText(b.status);
  }

  /** A replay of a change that is not ahead of the master's status is refused and changes nothing. */
  lemma ReplayIsRefused(t: Table, v: string, b: Video, db: Answers)
    requires v in t && Rank(b.status) <= Rank(t[v].status)
    ensures var (t', response) := Handle(t, v, ReportOf(b), db);
            !response.Ok? && t' == t
  {
    ParsesItsText(b.status);
    if IsValidTransition(t[v].status, b.status) { TransitionsClimb(t[v].status, b.status); }
  }

  /** Requests that are not the owner's leave the row alone. */
  lemma ForeignLeavesRow(t: Table, v: string, q: Request)
    requires v in t && Foreign(t, v, q)
    ensures var t' := Handle(t, q.id, q.body, q.db).0;
            v in t' && t'[v] == t[v]
  {
    if q.id != v {
      OtherRowsStay(t, q.id, q.body, q.db, v);
      hide Handle;
    }
  }

  /** A delivery is accepted exactly if it is the next change and fully answered; a replay changes nothing. */
  ghost predicate AnsweredRight(r: Relay, k: nat)
    requires k < |r.events| == |r.responses| && |r.marks| == |r.tables| == |r.events| + 1
  {
    r.events[k].Delivery? ==>
      var next := r.events[k].change == r.marks[k] + 1;
      && (r.responses[k].Ok? <==> next && Stores(r.events[k].db) && r.events[k].db.reload.At?)
      && (!next ==> r.tables[k + 1] == r.tables[k])
  }

  /** The change after the mark, if there is one. */
  function After(changes: seq<Video>, m: nat): Option<Video> {
    if m + 1 < |changes| then Some(changes[m + 1]) else None
  }

  ghost predicate ShowsMark(changes: seq<Video>, v: string, t: Table, m: nat) {
    m < |changes| && v in t && Shows(t[v], changes[m], After(changes, m))
  }

  lemma EventMirrors(v: string, changes: seq<Video>, r: Relay, k: nat)
    requires Chain(changes) && IsRelay(v, changes, r) && k < |r.events|
    requires ShowsMark(changes, v, r.tables[k], r.marks[k])
    ensures ShowsMark(changes, v, r.tables[k + 1], r.marks[k + 1])
    ensures AnsweredRight(r, k)
  {
    assert RelayStep(v, changes, r, k);
    hide Handle, ReportOf;
    var m := r.marks[k];
    match r.events[k]
    case Delivery(j, db) =>
      if j == m + 1 {
        assert Link(changes[m], changes[m + 1]);
        NextDelivery(r.tables[k], v, changes[m], changes[j], db);
      } else {
        if j < m { ChainClimbs(changes, j, m); }
        ReplayIsRefused(r.tables[k], v, changes[j], db);
      }
    case Other(q) => ForeignLeavesRow(r.tables[k], v, q);
    case Discovery(_) =>
  }

  lemma {:induction false} RelayMirrors(v: string, changes: seq<Video>, r: Relay, k: nat)
    requires Chain(changes) && IsRelay(v, changes, r) && k <= |r.events|
    ensures ShowsMark(changes, v, r.tables[k], r.marks[k])
  {
    if k > 0 {
      RelayMirrors(v, changes, r, k - 1);
      EventMirrors(v, changes, r, k - 1);
    }
  }

  /** Same status, size and owner, and the same error once failed. */
  ghost predicate Agree(a: Video, b: Video) {
    && a.status == b.status && a.convertedSizeBytes == b.convertedSizeBytes && a.instanceId == b.instanceId
    && (a.status == Failed ==> a.errorMessage == b.errorMessage)
  }

  /** From the first stored change on the owner is recorded and the row shows the mark exactly. */
  lemma {:induction false} ChainIsOwned(changes: seq<Video>, m: nat)
    requires Chain(changes) && 0 < m < |changes|
    ensures changes[m].instanceId.Some?
  {
    assert Link(changes[m - 1], changes[m - 1 + 1]);
  }

  /**
   Mirroring. Take any run of the worker system in which `v` is not reclaimed, and any
   relay of its status changes so far, in order with arbitrary retries and replays, for any
   answers of the master's database, among any other videos' requests, discoveries and
   foreign requests for `v`. After each event the master's row shows the last change whose
   status write was answered: the same status, size, owner and error, except that before
   the first one the owner may already be recorded. A delivery is accepted exactly if it is
   the next change and fully answered, and a replay changes nothing. Once all changes are
   stored the master agrees with the worker's current row.
   */
  lemma MasterMirrorsWorker(
      policy: Policy, states: seq<System>, steps: seq<Step>, v: string, n: nat, r: Relay, k: nat)
    requires IsRun(policy, states, steps) && n < |states| && v in states[n].table
    requires Unreclaimed(states, steps, v, n)
    requires IsRelay(v, Changes(states, v, n), r) && k <= |r.events|
    ensures var changes := Changes(states, v, n);
            && ShowsMark(changes, v, r.tables[k], r.marks[k])
            && (r.marks[k] > 0 ==> Agree(r.tables[k][v], changes[r.marks[k]]))
            && (r.marks[k] == |changes| - 1 ==> Agree(r.tables[k][v], states[n].table[v]))
            && (k < |r.events| ==> AnsweredRight(r, k))
  {
    ChangesChain(policy, states, steps, v, n);
    var changes := Changes(states, v, n);
    RelayMirrors(v, changes, r, k);
    if r.marks[k] > 0 { ChainIsOwned(changes, r.marks[k]); }
    if k < |r.events| { EventMirrors(v, changes, r, k); }
  }
}
