/** Scanning the share for videos the table does not know yet. */
module Discovery {
  import opened Wrappers
  import opened Timestamps
  import opened Videos
  import opened Repositories
  import Sync
  import Listing
  import Texts

  /** Listed videos whose path is not an id yet, in listing order, repetitions included. */
  function Candidates(files: seq<string>, isVideo: string -> bool, t: Table): seq<string> {
    if files == [] then []
    else (if isVideo(files[0]) && files[0] !in t then [files[0]] else []) + Candidates(files[1..], isVideo, t)
  }

  lemma {:induction false} CandidatesAre(files: seq<string>, isVideo: string -> bool, t: Table)
    ensures forall p :: p in Candidates(files, isVideo, t) <==> p in files && isVideo(p) && p !in t
    decreases |files|
  {
    if files != [] { CandidatesAre(files[1..], isVideo, t); }
  }

  /** Listing order is kept, and each listed path is judged on its own. */
  lemma {:induction false} CandidatesInOrder(a: seq<string>, b: seq<string>, isVideo: string -> bool, t: Table)
    ensures Candidates(a + b, isVideo, t) == Candidates(a, isVideo, t) + Candidates(b, isVideo, t)
    decreases |a|
  {
    if a == [] {
      assert a + b == b;
    } else {
      var here := if isVideo(a[0]) && a[0] !in t then [a[0]] else [];
      CandidatesInOrder(a[1..], b, isVideo, t);
      assert (a + b)[1..] == a[1..] + b && (a + b)[0] == a[0];
      assert Candidates(a, isVideo, t) == here + Candidates(a[1..], isVideo, t);
      assert Candidates(a + b, isVideo, t) == here + Candidates(a[1..] + b, isVideo, t);
      hide Candidates;
    }
  }

  lemma OneCandidate(path: string, isVideo: string -> bool, t: Table)
    ensures Candidates([path], isVideo, t) == if isVideo(path) && path !in t then [path] else []
  {
    assert [path][1..] == [];
  }

  /** A discovered video's id is its path. */
  function Row(path: string, time: (int, Stamp)): Sync.Remote {
    Sync.Remote(path, path, time.0, time.1)
  }

  function Rows(paths: seq<string>, clock: nat -> (int, Stamp)): (rows: seq<Sync.Remote>)
    ensures |rows| == |paths| && forall i :: 0 <= i < |paths| ==> rows[i] == Row(paths[i], clock(i))
  {
    seq(|paths|, i requires 0 <= i < |paths| => Row(paths[i], clock(i)))
  }

  /** The first `n` inserts, each as the database answers it. */
  function StoredUpTo(t: Table, rows: seq<Sync.Remote>, db: nat -> Db, n: nat): Table
    requires n <= |rows|
  {
    if n == 0 then t
    else
      var before := StoredUpTo(t, rows, db, n - 1);
      if db(n - 1).At? then Sync.SyncOne(before, rows[n - 1]) else before
  }

  /** What a scan stores when every insert is answered. */
  function Discovered(t: Table, files: seq<string>, isVideo: string -> bool, clock: nat -> (int, Stamp)): Table {
    Sync.SyncAll(t, Rows(Candidates(files, isVideo, t), clock))
  }

  class VideoDiscovery {
    const repository: Repository
    const basePath: string

    constructor (repository: Repository, basePath: string)
      ensures this.repository == repository && this.basePath == basePath
    {
      this.repository := repository;
      this.basePath := basePath;
    }

    /** The insert loop; a failed insert is logged and skipped. */
    method InsertNew(rows: seq<Sync.Remote>, db: nat -> Db)
      requires Schema(repository.videos)
      modifies repository
      ensures Schema(repository.videos) && Sync.Extends(old(repository.videos), repository.videos)
      ensures repository.videos == StoredUpTo(old(repository.videos), rows, db, |rows|)
    {
      ghost var t := repository.videos;
      Sync.ExtendsItself(t);
      hide Schema, Insertable, Inserted, Sync.Extends, Sync.SyncOne;
      for i := 0 to |rows|
        invariant Schema(repository.videos) && Sync.Extends(t, repository.videos)
        invariant repository.videos == StoredUpTo(t, rows, db, i)
      {
        var video := Sync.SyncedRow(rows[i]);
        Sync.SyncOneIs(repository.videos, rows[i]);
        if Insertable(repository.videos, video) { Sync.InsertExtends(t, repository.videos, video); }
        var stored := repository.InsertVideo(video, db(i));
      }
    }

    /**
     `discover_videos`, given the listing text, any extension filter and the database's
     answers: the count is that of the candidates, whatever was stored.
     */
    method DiscoverVideos(output: Result<string, string>, isVideo: string -> bool, clock: nat -> (int, Stamp),
                          lookup: Db, db: nat -> Db)
      returns (r: Result<nat, string>)
      requires Schema(repository.videos)
      modifies repository
      ensures Schema(repository.videos) && Sync.Extends(old(repository.videos), repository.videos)
      ensures r.Success? <==> output.Success? && lookup.At?
      ensures r.Failure? ==> repository.videos == old(repository.videos)
      ensures r.Success? ==>
                var files := Listing.Paths(Texts.Lines(output.value), basePath);
                var t := old(repository.videos);
                var found := Candidates(files, isVideo, t);
                && r.value == |found|
                && repository.videos == StoredUpTo(t, Rows(found, clock), db, |found|)
                && Counted(t, repository.videos, found, AllAnswered(db, |found|))
    {
      if output.Failure? {
        return Failure("Failed to list NAS files: " + output.error);
      }
      var files := Listing.ParseSmbclientLs(output.value, basePath);
      if lookup.Unavailable? {
        return Failure("Failed to load existing videos: " + lookup.error);
      }
      ghost var t := repository.videos;
      var found := Candidates(files, isVideo, repository.videos);
      CandidatesAre(files, isVideo, t);
      CountedUpTo(t, found, clock, db, |found|);
      assert found[..|found|] == found;
      hide Schema, Candidates, StoredUpTo, Counted, AllAnswered, Sync.Extends;
      Sync.ExtendsItself(t);
      if |found| == 0 {
        NoneStored(t, Rows(found, clock), db);
        return Success(0);
      }
      InsertNew(Rows(found, clock), db);
      return Success(|found|);
    }
  }

  predicate PathIsFree(t: Table, path: string) {
    forall id <- t :: t[id].filePath != path
  }

  /** No row already uses one of the paths under another id. */
  predicate PathsAreFree(t: Table, paths: seq<string>) {
    forall p <- paths :: PathIsFree(t, p)
  }

  predicate Distinct(paths: seq<string>) {
    forall i, j :: 0 <= i < j < |paths| ==> paths[i] != paths[j]
  }

  predicate AllAnswered(db: nat -> Db, n: nat) {
    forall i: nat :: i < n ==> db(i).At?
  }

  ghost predicate AllIn(paths: seq<string>, t: Table) { forall p <- paths :: p in t }

  /** Inserted so far: the old rows, and fresh pending rows that are their own path. */
  ghost predicate OnlyPathsAdded(t: Table, current: Table, paths: seq<string>) {
    && Sync.Extends(t, current)
    && forall id <- current :: id in t ||
         (&& id in paths
          && current[id] == Video(id, id, Pending, None, None, None, None, None, None,
                                  current[id].createdAt, current[id].updatedAt, None, 0, None))
  }

  /** An answered insert adds its row exactly if its path is new and no other row's. */
  lemma InsertIsExact(t: Table, current: Table, paths: seq<string>, r: Sync.Remote)
    requires OnlyPathsAdded(t, current, paths) && r.id == r.filePath && r.id !in t
    ensures var next := Sync.SyncOne(current, r);
            && (if r.id !in current && PathIsFree(t, r.id) then
                  next.Keys == current.Keys + {r.id} && |next| == |current| + 1
                else next == current)
            && OnlyPathsAdded(t, next, paths + [r.id])
  {
    if r.id !in current && PathIsFree(t, r.id) {
      assert Insertable(current, Sync.SyncedRow(r));
      assert Sync.SyncOne(current, r).Keys == current.Keys + {r.id};
    } else if r.id !in current {
      var id :| id in t && t[id].filePath == r.id;
      assert current[id] == t[id];
    }
    assert forall p :: p in paths + [r.id] <==> p in paths || p == r.id;
  }

  lemma DistinctExtends(paths: seq<string>, p: string)
    ensures Distinct(paths + [p]) <==> Distinct(paths) && p !in paths
  {
    var longer := paths + [p];
    if Distinct(longer) {
      assert longer[|paths|] == p;
      forall i, j | 0 <= i < j < |paths| ensures paths[i] != paths[j] {
        assert longer[i] == paths[i] && longer[j] == paths[j];
      }
      forall i | 0 <= i < |paths| ensures paths[i] != p {
        assert longer[i] == paths[i];
      }
    }
  }

  /** The size of the table after the candidates `paths`, and when it grew by all of them. */
  ghost predicate Counted(t: Table, after: Table, paths: seq<string>, answered: bool) {
    && OnlyPathsAdded(t, after, paths)
    && |after| <= |t| + |paths|
    && (|after| == |t| + |paths| <==> Distinct(paths) && PathsAreFree(t, paths) && answered)
    && (|after| == |t| + |paths| ==> AllIn(paths, after))
  }

  lemma CountedGrows(t: Table, before: Table, listed: seq<string>, r: Sync.Remote, all: bool, answered: bool)
    requires Counted(t, before, listed, all) && r.id == r.filePath && r.id !in t
    ensures Counted(t, if answered then Sync.SyncOne(before, r) else before, listed + [r.id], all && answered)
  {
    CountStep(t, before, listed, r, answered);
    FreeExtends(t, listed, r.id);
    DistinctExtends(listed, r.id);
    hide Sync.SyncOne, Distinct, PathsAreFree, PathIsFree, AllIn, OnlyPathsAdded;
  }

  lemma {:induction false} CountedUpTo(
      t: Table, paths: seq<string>, clock: nat -> (int, Stamp), db: nat -> Db, n: nat)
    requires n <= |paths| && forall p <- paths :: p !in t
    ensures Counted(t, StoredUpTo(t, Rows(paths, clock), db, n), paths[..n], AllAnswered(db, n))
  {
    hide Counted, Sync.SyncOne;
    if n > 0 {
      CountedUpTo(t, paths, clock, db, n - 1);
      assert paths[..n] == paths[..n - 1] + [paths[n - 1]] && paths[n - 1] in paths;
      var rows := Rows(paths, clock);
      CountedGrows(t, StoredUpTo(t, rows, db, n - 1), paths[..n - 1], rows[n - 1],
                   AllAnswered(db, n - 1), db(n - 1).At?);
      assert AllAnswered(db, n) <==> AllAnswered(db, n - 1) && db(n - 1).At?;
    } else {
      CountedNone(t);
    }
  }

  lemma NoneStored(t: Table, rows: seq<Sync.Remote>, db: nat -> Db)
    ensures StoredUpTo(t, rows, db, 0) == t
  {
  }

  lemma CountedNone(t: Table)
    ensures Counted(t, t, [], true)
  {
  }

  /**
   The returned count is the number of rows added exactly when no path is listed twice,
   none is already some other row's path and every insert is answered; otherwise it is
   larger.
   */
  lemma CountIsExactIff(t: Table, paths: seq<string>, clock: nat -> (int, Stamp), db: nat -> Db)
    requires forall p <- paths :: p !in t
    ensures var after := StoredUpTo(t, Rows(paths, clock), db, |paths|);
            && |after| <= |t| + |paths|
            && (|after| == |t| + |paths|
                <==> Distinct(paths) && PathsAreFree(t, paths) && AllAnswered(db, |paths|))
  {
    CountedUpTo(t, paths, clock, db, |paths|);
    assert paths[..|paths|] == paths;
  }

  lemma FreeExtends(t: Table, paths: seq<string>, p: string)
    ensures PathsAreFree(t, paths + [p]) <==> PathsAreFree(t, paths) && PathIsFree(t, p)
  {
    hide PathIsFree;
    assert forall q :: q in paths + [p] <==> q in paths || q == p;
  }

  /** The count stays exact over one more candidate only if it was, and its insert adds a row. */
  lemma CountStep(t: Table, before: Table, listed: seq<string>, r: Sync.Remote, answered: bool)
    requires OnlyPathsAdded(t, before, listed) && r.id == r.filePath && r.id !in t
    requires |before| <= |t| + |listed|
    requires |before| == |t| + |listed| ==> AllIn(listed, before)
    ensures var after := if answered then Sync.SyncOne(before, r) else before;
            && OnlyPathsAdded(t, after, listed + [r.id])
            && |after| <= |t| + |listed| + 1
            && (|after| == |t| + |listed| + 1
                <==> |before| == |t| + |listed| && answered && r.id !in listed && PathIsFree(t, r.id))
            && (|after| == |t| + |listed| + 1 ==> AllIn(listed + [r.id], after))
  {
    InsertIsExact(t, before, listed, r);
    assert forall q :: q in listed + [r.id] <==> q in listed || q == r.id;
    hide Sync.SyncOne, PathIsFree, Sync.Extends;
  }

  /** Every row a scan added comes from one answered insert, with that insert's times. */
  lemma {:induction false} AddedRowsAreTimed(
      t: Table, paths: seq<string>, clock: nat -> (int, Stamp), db: nat -> Db, n: nat, id: string)
    requires n <= |paths| && id !in t && id in StoredUpTo(t, Rows(paths, clock), db, n)
    ensures exists i: nat ::
              && i < n && paths[i] == id && db(i).At?
              && StoredUpTo(t, Rows(paths, clock), db, n)[id]
                 == Video(id, id, Pending, None, None, None, None, None, None, clock(i).0, clock(i).1, None, 0, None)
  {
    if n > 0 {
      var rows := Rows(paths, clock);
      var before := StoredUpTo(t, rows, db, n - 1);
      if id in before {
        AddedRowsAreTimed(t, paths, clock, db, n - 1, id);
      } else {
        assert rows[n - 1] == Row(paths[n - 1], clock(n - 1));
      }
    }
  }

  /** Answered inserts store what a sync of the same rows would. */
  lemma {:induction false} AnsweredIsSyncAll(t: Table, rows: seq<Sync.Remote>, db: nat -> Db, n: nat)
    requires n <= |rows| && AllAnswered(db, n)
    ensures StoredUpTo(t, rows, db, n) == Sync.SyncAll(t, rows[..n])
  {
    if n > 0 {
      AnsweredIsSyncAll(t, rows, db, n - 1);
      assert rows[..n] == rows[..n - 1] + [rows[n - 1]];
      Sync.SyncAllAppend(t, rows[..n - 1], rows[n - 1]);
    }
  }

  /** A second scan of the same listing changes nothing, though it may still report candidates. */
  lemma SecondScanAddsNothing(t: Table, files: seq<string>, isVideo: string -> bool,
                              clock: nat -> (int, Stamp), later: nat -> (int, Stamp))
    requires Schema(t)
    ensures var t' := Discovered(t, files, isVideo, clock);
            Discovered(t', files, isVideo, later) == t'
  {
    var found := Candidates(files, isVideo, t);
    var rows := Rows(found, clock);
    var t' := Sync.SyncAll(t, rows);
    Sync.SyncAllSettles(t, rows);
    var again := Rows(Candidates(files, isVideo, t'), later);
    CandidatesAre(files, isVideo, t);
    CandidatesAre(files, isVideo, t');
    hide Candidates;
    forall r <- again ensures Sync.SettledIn(t', r) {
      assert r.id !in t';
      assert r.id !in t;
      assert r.id in found;
      var i :| 0 <= i < |found| && found[i] == r.id;
      assert rows[i] in rows && Sync.SettledIn(t', rows[i]);
    }
    Sync.SettledIsIdle(t', again);
  }

  /** Two copies of one path are counted twice and stored once, whatever the database answers. */
  lemma CountCanExceedInserts(clock: nat -> (int, Stamp), db: nat -> Db)
    ensures var found := Candidates(["/a.mkv", "/a.mkv"], _ => true, map[]);
            found == ["/a.mkv", "/a.mkv"] && |StoredUpTo(map[], Rows(found, clock), db, 2)| < 2
  {
    var files := ["/a.mkv", "/a.mkv"];
    assert files[1..] == ["/a.mkv"] && files[1..][1..] == [];
    assert Candidates(files[1..], _ => true, map[]) == ["/a.mkv"];
    CountIsExactIff(map[], files, clock, db);
    assert files[0] == files[1];
  }

  /** A new path whose insert is refused is counted and not stored. */
  lemma RefusedInsertIsCounted(t: Table, path: string, clock: nat -> (int, Stamp), db: nat -> Db)
    requires path !in t && db(0).Unavailable?
    ensures var found := Candidates([path], _ => true, t);
            found == [path] && StoredUpTo(t, Rows(found, clock), db, 1) == t
  {
    assert [path][1..] == [];
    assert StoredUpTo(t, Rows([path], clock), db, 0) == t;
  }
}
