/** Pulling the master's pending videos into a worker's own table. */
module Sync {
  import opened Wrappers
  import opened Timestamps
  import opened Videos
  import opened Repositories

  /** The part of a pending-video response the worker uses. */
  datatype Remote = Remote(id: string, filePath: string, createdAt: int, updatedAt: Stamp)

  function SyncedRow(r: Remote): Video {
    NewRow(r.id, r.filePath, Pending, r.createdAt, r.updatedAt)
  }

  /** One entry: known ids are skipped, a taken file path makes the insert fail. */
  function SyncOne(t: Table, r: Remote): Table {
    if Insertable(t, SyncedRow(r)) then Inserted(t, SyncedRow(r)) else t
  }

  function SyncAll(t: Table, remotes: seq<Remote>): Table
    decreases |remotes|
  {
    if |remotes| == 0 then t else SyncAll(SyncOne(t, remotes[0]), remotes[1..])
  }

  ghost predicate Extends(t: Table, t': Table) {
    forall id <- t :: id in t' && t'[id] == t[id]
  }

  lemma SyncOneIs(t: Table, r: Remote)
    ensures SyncOne(t, r) == if Insertable(t, SyncedRow(r)) then Inserted(t, SyncedRow(r)) else t
  {
  }

  lemma ExtendsItself(t: Table)
    ensures Extends(t, t)
  {
  }

  lemma InsertExtends(t: Table, current: Table, v: Video)
    requires Schema(current) && Extends(t, current) && Insertable(current, v)
    ensures Schema(Inserted(current, v)) && Extends(t, Inserted(current, v))
    ensures |Inserted(current, v)| == |current| + 1
  {
    InsertKeepsSchema(current, v);
    assert Inserted(current, v).Keys == current.Keys + {v.id};
  }

  lemma KnownIsSkipped(t: Table, r: Remote)
    requires r.id in t
    ensures SyncOne(t, r) == t
  {
  }

  /** The first `n` entries, with lookup 2i and insert 2i + 1 as the database answers them. */
  function SyncedUpTo(t: Table, remotes: seq<Remote>, db: nat -> Db, n: nat): Table
    requires n <= |remotes|
  {
    if n == 0 then t
    else
      var before := SyncedUpTo(t, remotes, db, n - 1);
      if db(2 * (n - 1) + 1).At? then SyncOne(before, remotes[n - 1]) else before
  }

  lemma {:induction false} SyncAllAppend(t: Table, rows: seq<Remote>, r: Remote)
    ensures SyncAll(t, rows + [r]) == SyncOne(SyncAll(t, rows), r)
    decreases |rows|
  {
    hide SyncOne;
    if rows == [] {
      assert (rows + [r])[1..] == [];
    } else {
      assert (rows + [r])[1..] == rows[1..] + [r];
      SyncAllAppend(SyncOne(t, rows[0]), rows[1..], r);
    }
  }

  ghost predicate AlwaysAnswers(db: nat -> Db) {
    forall k: nat :: db(k).At?
  }

  /** When every answer comes, the batch is the plain fold over the list. */
  lemma {:induction false} AnsweredIsAll(t: Table, remotes: seq<Remote>, db: nat -> Db, n: nat)
    requires n <= |remotes| && AlwaysAnswers(db)
    ensures SyncedUpTo(t, remotes, db, n) == SyncAll(t, remotes[..n])
  {
    hide SyncOne;
    if n > 0 {
      AnsweredIsAll(t, remotes, db, n - 1);
      assert remotes[..n] == remotes[..n - 1] + [remotes[n - 1]];
      SyncAllAppend(t, remotes[..n - 1], remotes[n - 1]);
    }
  }

  ghost predicate LookupsAnswered(db: nat -> Db, n: nat) {
    forall j: nat :: j < n ==> db(2 * j).At?
  }

  /** The lookup of entry `i` is the first one that is not answered. */
  ghost predicate StopsAt(db: nat -> Db, n: nat, i: nat) {
    i < n && db(2 * i).Unavailable? && LookupsAnswered(db, i)
  }

  /** The batch after `n` entries: every lookup answered, the table as it should be, `inserted` rows new. */
  ghost predicate SyncedSoFar(t: Table, current: Table, remotes: seq<Remote>, db: nat -> Db, n: nat, inserted: nat) {
    && n <= |remotes| && Schema(current) && Extends(t, current) && |current| == |t| + inserted
    && LookupsAnswered(db, n)
    && current == SyncedUpTo(t, remotes, db, n)
  }

  lemma SyncStarts(t: Table, remotes: seq<Remote>, db: nat -> Db)
    requires Schema(t)
    ensures SyncedSoFar(t, t, remotes, db, 0, 0)
  {
  }

  lemma SyncSkips(t: Table, current: Table, remotes: seq<Remote>, db: nat -> Db, n: nat, inserted: nat)
    requires SyncedSoFar(t, current, remotes, db, n, inserted)
    requires n < |remotes| && db(2 * n).At? && remotes[n].id in current
    ensures SyncedSoFar(t, current, remotes, db, n + 1, inserted)
  {
    KnownIsSkipped(current, remotes[n]);
    hide Schema, Extends, SyncOne;
  }

  lemma SyncInserts(t: Table, current: Table, remotes: seq<Remote>, db: nat -> Db, n: nat, inserted: nat)
    requires SyncedSoFar(t, current, remotes, db, n, inserted)
    requires n < |remotes| && db(2 * n).At?
    ensures var video := SyncedRow(remotes[n]);
            if db(2 * n + 1).At? && Insertable(current, video) then
              SyncedSoFar(t, Inserted(current, video), remotes, db, n + 1, inserted + 1)
            else
              SyncedSoFar(t, current, remotes, db, n + 1, inserted)
  {
    var video := SyncedRow(remotes[n]);
    SyncOneIs(current, remotes[n]);
    hide Schema, Extends, SyncOne, Insertable, Inserted;
    if Insertable(current, video) { InsertExtends(t, current, video); }
  }

  lemma FailedSync(t: Table, current: Table, remotes: seq<Remote>, db: nat -> Db, n: nat, inserted: nat)
    requires SyncedSoFar(t, current, remotes, db, n, inserted)
    requires n < |remotes| && db(2 * n).Unavailable?
    ensures Schema(current) && Extends(t, current) && current == SyncedUpTo(t, remotes, db, n)
    ensures StopsAt(db, |remotes|, n) && !AlwaysAnswers(db)
  {
  }

  lemma FinishedSync(t: Table, current: Table, remotes: seq<Remote>, db: nat -> Db, inserted: nat)
    requires SyncedSoFar(t, current, remotes, db, |remotes|, inserted)
    ensures Schema(current) && Extends(t, current) && |current| == |t| + inserted
    ensures LookupsAnswered(db, |remotes|)
    ensures current == SyncedUpTo(t, remotes, db, |remotes|)
    ensures AlwaysAnswers(db) ==> current == SyncAll(t, remotes)
  {
    hide Schema, Extends, SyncOne;
    if AlwaysAnswers(db) {
      AnsweredIsAll(t, remotes, db, |remotes|);
      assert remotes[..|remotes|] == remotes;
    }
  }

  class Coordinator {
    const repository: Repository

    constructor (repository: Repository)
      ensures this.repository == repository
    {
      this.repository := repository;
    }

    /**
     `sync_with_master`, given the master's answer and the database's answers (two per
     entry). Existing rows never change and the returned count is exactly the number of
     rows added; a failing lookup aborts the batch, a failing insert skips its entry.
     */
    method SyncWithMaster(pending: Result<seq<Remote>, string>, db: nat -> Db) returns (r: Result<nat, string>)
      requires Schema(repository.videos)
      modifies repository
      ensures Schema(repository.videos)
      ensures Extends(old(repository.videos), repository.videos)
      ensures r.Success? ==> |repository.videos| == |old(repository.videos)| + r.value
      ensures pending.Failure? ==> r == Failure(pending.error) && repository.videos == old(repository.videos)
      ensures pending.Success? && r.Success? ==>
                && LookupsAnswered(db, |pending.value|)
                && repository.videos == SyncedUpTo(old(repository.videos), pending.value, db, |pending.value|)
      ensures pending.Success? && r.Failure? ==>
                exists i: nat ::
                  && StopsAt(db, |pending.value|, i)
                  && r.error == "local DB error: " + db(2 * i).error
                  && repository.videos == SyncedUpTo(old(repository.videos), pending.value, db, i)
      ensures pending.Success? && AlwaysAnswers(db) ==>
                r.Success? && repository.videos == SyncAll(old(repository.videos), pending.value)
    {
      if pending.Failure? {
        return Failure(pending.error);
      }
      ghost var t := repository.videos;
      var remotes := pending.value;
      var inserted, i := 0, 0;
      SyncStarts(t, remotes, db);
      hide SyncedSoFar, LookupsAnswered, SyncedUpTo, SyncAll, StopsAt, AlwaysAnswers;
      hide Schema, Extends, Insertable, Inserted;
      while i < |remotes|
        invariant i <= |remotes| && SyncedSoFar(t, repository.videos, remotes, db, i, inserted)
      {
        var remote := remotes[i];
        var known := repository.GetVideo(remote.id, db(2 * i));
        if known.Failure? {
          FailedSync(t, repository.videos, remotes, db, i, inserted);
          return Failure("local DB error: " + known.error);
        }
        if known.value.Some? {
          SyncSkips(t, repository.videos, remotes, db, i, inserted);
          i := i + 1;
          continue;
        }
        SyncInserts(t, repository.videos, remotes, db, i, inserted);
        var stored := repository.InsertVideo(SyncedRow(remote), db(2 * i + 1));
        if stored.Success? {
          inserted := inserted + 1;
        }
        i := i + 1;
      }
      FinishedSync(t, repository.videos, remotes, db, inserted);
      return Success(inserted);
    }
  }

  /** Nothing more to do for `r`: its id is known or its path is taken. */
  ghost predicate SettledIn(t: Table, r: Remote) {
    r.id in t || exists id <- t :: t[id].filePath == r.filePath
  }

  lemma {:induction false} SyncAllSettles(t: Table, remotes: seq<Remote>)
    requires Schema(t)
    ensures var t' := SyncAll(t, remotes);
            && Schema(t') && Extends(t, t')
            && forall r <- remotes :: SettledIn(t', r)
    decreases |remotes|
  {
    if |remotes| > 0 {
      var t1 := SyncOne(t, remotes[0]);
      SyncAllSettles(t1, remotes[1..]);
      var t' := SyncAll(t, remotes);
      assert SettledIn(t1, remotes[0]);
      assert SettledIn(t', remotes[0]) by {
        if remotes[0].id !in t1 {
          var id :| id in t1 && t1[id].filePath == remotes[0].filePath;
          assert id in t' && t'[id].filePath == remotes[0].filePath;
        }
      }
      forall r <- remotes ensures SettledIn(t', r) {
        if r != remotes[0] { assert r in remotes[1..]; }
      }
    }
  }

  lemma {:induction false} SettledIsIdle(t: Table, remotes: seq<Remote>)
    requires forall r <- remotes :: SettledIn(t, r)
    ensures SyncAll(t, remotes) == t
  {
    if |remotes| > 0 {
      assert SettledIn(t, remotes[0]);
      assert SyncOne(t, remotes[0]) == t;
      SettledIsIdle(t, remotes[1..]);
    }
  }

  /** Syncing the same list again adds nothing, whatever duplicates and path clashes it has. */
  lemma SecondSyncAddsNothing(t: Table, remotes: seq<Remote>)
    requires Schema(t)
    ensures SyncAll(SyncAll(t, remotes), remotes) == SyncAll(t, remotes)
  {
    SyncAllSettles(t, remotes);
    SettledIsIdle(SyncAll(t, remotes), remotes);
  }

  /** Only videos on the list are added, as fresh pending rows. */
  lemma {:induction false} OnlyListedAreAdded(t: Table, remotes: seq<Remote>, id: string)
    requires id !in t && id in SyncAll(t, remotes)
    ensures exists r <- remotes ::
              && r.id == id
              && SyncAll(t, remotes)[id]
                 == Video(r.id, r.filePath, Pending, None, None, None, None, None, None,
                          r.createdAt, r.updatedAt, None, 0, None)
    decreases |remotes|
  {
    var t1 := SyncOne(t, remotes[0]);
    if id in t1 {
      AddedStays(t1, remotes[1..], id);
      assert remotes[0] in remotes;
    } else {
      OnlyListedAreAdded(t1, remotes[1..], id);
    }
  }

  lemma {:induction false} AddedStays(t: Table, remotes: seq<Remote>, id: string)
    requires id in t
    ensures id in SyncAll(t, remotes) && SyncAll(t, remotes)[id] == t[id]
    decreases |remotes|
  {
    if |remotes| > 0 { AddedStays(SyncOne(t, remotes[0]), remotes[1..], id); }
  }
}
