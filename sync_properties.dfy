/**
 * What the synchronisation of Client/SyncEngine.cs guarantees about the server it talks to:
 * it keeps the server's records well formed and only ever adds to them, it leaves the remote
 * record of every directory it visits with the local last write time, it touches a directory's
 * files only when that directory was modified, and once it has run, running it again on the
 * unchanged tree changes nothing.
 */
module SyncProperties {
  import opened Wrappers
  import opened Text
  import opened Entities
  import opened Sync

  // -----------------------------------------------------------------------------------------
  // Growth: records are never removed, renamed or re-parented, and calls are only appended.

  /** Same id, name and parent. */
  predicate SameDirSlot(a: BackedUpDirectory, b: BackedUpDirectory) {
    a.id == b.id && a.name == b.name && a.parentId == b.parentId
  }

  /** Same id, name and parent. */
  predicate SameFileSlot(a: BackedUpFile, b: BackedUpFile) {
    a.id == b.id && a.name == b.name && a.parentId == b.parentId
  }

  /** `r2` extends `r`: every record of `r` is still there under the same id, name and parent,
      every root still resolves to the same directory, and the call log only grew. */
  ghost predicate Grows(r: Remote, r2: Remote) {
    && |r.dirs| <= |r2.dirs|
    && (forall j :: 0 <= j < |r.dirs| ==> SameDirSlot(r.dirs[j], r2.dirs[j]))
    && (forall k | k in r.roots :: k in r2.roots && r2.roots[k] == r.roots[k])
    && |r.files| <= |r2.files|
    && (forall j :: 0 <= j < |r.files| ==> SameFileSlot(r.files[j], r2.files[j]))
    && r.calls <= r2.calls
    && r2.refusing == r.refusing
  }

  lemma GrowsTrans(a: Remote, b: Remote, c: Remote)
    requires Grows(a, b) && Grows(b, c)
    ensures Grows(a, c)
  {
  }

  /** A parent id the walk may pass: none, or an existing directory. */
  ghost predicate ParentOk(r: Remote, parentId: Option<int>) {
    parentId.None? || 1 <= parentId.value <= |r.dirs|
  }

  /** A lookup that succeeded still succeeds, with the same directory, on a grown server. */
  lemma FindStable(r: Remote, r2: Remote, q: DirQuery)
    requires Grows(r, r2)
    requires r.FindIndex(q).Some?
    ensures r2.FindIndex(q) == r.FindIndex(q)
  {
    if q.ByName? {
      var k := r.FindIndex(q).value;
      assert IsChild(r2.dirs[k], q.parentId, q.name) by {
        assert SameDirSlot(r.dirs[k], r2.dirs[k]);
      }
      forall j | 0 <= j < k
        ensures !IsChild(r2.dirs[j], q.parentId, q.name)
      {
        assert SameDirSlot(r.dirs[j], r2.dirs[j]);
      }
    }
  }

  // -----------------------------------------------------------------------------------------
  // The server operations

  lemma AddDirectoryFacts(r: Remote, name: string, parentId: Option<int>, q: DirQuery) returns (r1: Remote, rec: BackedUpDirectory)
    requires r.Valid() && ParentOk(r, parentId)
    requires q.ByPath? ==> q.path !in r.roots
    ensures r1 == r.AddDirectory(name, parentId, q).0 && rec == r.AddDirectory(name, parentId, q).1
    ensures r1.Valid() && Grows(r, r1)
    ensures r1.dirs == r.dirs + [rec] && r1.files == r.files
    ensures rec.id == |r.dirs| + 1 && rec.name == name && rec.parentId == parentId && rec.modified == MinTime
  {
    r1, rec := r.AddDirectory(name, parentId, q).0, r.AddDirectory(name, parentId, q).1;
  }

  lemma UpdateDirectoryFacts(r: Remote, id: int, modified: Time)
    requires r.Valid()
    ensures var r1 := r.UpdateDirectory(id, modified);
      && r1.Valid() && Grows(r, r1)
      && |r1.dirs| == |r.dirs| && r1.roots == r.roots && r1.files == r.files
      && (forall j :: 0 <= j < |r.dirs| && j != id - 1 ==> r1.dirs[j] == r.dirs[j])
      && (1 <= id <= |r.dirs| ==> r1.dirs[id - 1].modified == modified && !r1.dirs[id - 1].deleted)
      && r1.calls == r.calls + [UpdateDirectoryCall(id, modified)]
  {
  }

  lemma UploadFacts(r: Remote, path: string, f: BackedUpFile)
    requires r.Valid()
    ensures r.Upload(path, f).0.Valid() && Grows(r, r.Upload(path, f).0)
    ensures r.Upload(path, f).0.dirs == r.dirs && r.Upload(path, f).0.roots == r.roots
    ensures r.Upload(path, f).0.calls == r.calls + [UploadCall(path, f)]
  {
  }

  lemma DeleteFilesFacts(r: Remote, batch: seq<BackedUpFile>)
    requires r.Valid()
    ensures var r1 := r.DeleteFiles(batch);
      && r1.Valid() && Grows(r, r1)
      && r1.dirs == r.dirs && r1.roots == r.roots
      && r1.calls == r.calls + [DeleteFilesCall(batch)]
    ensures var r1 := r.DeleteFiles(batch);
      && |r1.files| == |r.files|
      && forall i :: 0 <= i < |r.files| ==>
           && r1.files[i].(deleted := false) == r.files[i].(deleted := false)
           && (r1.files[i].deleted <==> r.files[i].deleted || exists f :: f in batch && f.id == i + 1)
  {
  }

  // -----------------------------------------------------------------------------------------
  // The steps of one directory

  /** The lookup-or-add keeps the server well formed and yields the directory's record, which
      comes after its parent. */
  lemma ResolveFacts(r: Remote, d: LocalDir, parentId: Option<int>) returns (r1: Remote, rec: BackedUpDirectory)
    requires r.Valid() && ParentOk(r, parentId)
    ensures r1 == Resolve(r, d, parentId).0 && rec == Resolve(r, d, parentId).1
    ensures r1.Valid() && Grows(r, r1) && r1.files == r.files
    ensures |r1.dirs| >= |r.dirs| && (forall j :: 0 <= j < |r.dirs| ==> r1.dirs[j] == r.dirs[j])
    ensures 1 <= rec.id <= |r1.dirs| && r1.dirs[rec.id - 1] == rec
    ensures r1.FindIndex(Query(d.path, parentId)) == Some(rec.id - 1)
    ensures parentId.Some? ==> rec.id > parentId.value
  {
    var q := Query(d.path, parentId);
    FindAfterResolve(r, d, parentId);
    if r.Find(q).None? {
      r1, rec := AddDirectoryFacts(r, LastComponent(d.path), parentId, q);
    } else {
      r1, rec := r, r.Find(q).value;
    }
  }

  lemma FileUpdateFacts(r: Remote, dirId: int, listed: seq<BackedUpFile>, f: LocalFile)
    requires r.Valid()
    ensures var r1 := FileUpdate(r, dirId, listed, f).0;
      r1.Valid() && Grows(r, r1) && r1.dirs == r.dirs && r1.roots == r.roots
  {
    var name := FileName(f.path);
    var up := UploadDecision(FirstByName(listed, name), dirId, name, f.lastWrite);
    if up.Some? {
      UploadFacts(r, f.path, up.value);
    }
  }

  lemma {:induction false} UploadPassFacts(r: Remote, dirId: int, listed: seq<BackedUpFile>, locals: seq<LocalFile>)
    requires r.Valid()
    ensures var r1 := UploadPass(r, dirId, listed, locals);
      r1.Valid() && Grows(r, r1) && r1.dirs == r.dirs && r1.roots == r.roots
  {
    if locals != [] {
      var prev := UploadPass(r, dirId, listed, locals[..|locals| - 1]);
      UploadPassFacts(r, dirId, listed, locals[..|locals| - 1]);
      FileUpdateFacts(prev, dirId, listed, locals[|locals| - 1]);
      GrowsTrans(r, prev, UploadPass(r, dirId, listed, locals));
    }
  }

  /** The file pass of a modified directory changes only file records. */
  lemma FilesPassFacts(r: Remote, dirId: int, d: LocalDir)
    requires r.Valid()
    ensures var r1 := FilesPass(r, dirId, d);
      r1.Valid() && Grows(r, r1) && r1.dirs == r.dirs && r1.roots == r.roots
  {
    var listed := FilesOf(r.files, dirId);
    var r1 := DeletionPass(r, listed, d.files);
    if |FilesToDelete(listed, LocalNames(d.files))| > 0 {
      DeleteFilesFacts(r, FilesToDelete(listed, LocalNames(d.files)));
    }
    assert r1.Valid() && Grows(r, r1) && r1.dirs == r.dirs && r1.roots == r.roots;
    UploadPassFacts(r1, dirId, listed, d.files);
    GrowsTrans(r, r1, UploadPass(r1, dirId, listed, d.files));
  }

  /** Before the recursion: the directory's record exists, after its parent, and the records up
      to the parent are as they were. */
  lemma VisitFacts(r: Remote, d: LocalDir, parentId: Option<int>) returns (r2: Remote, rec: BackedUpDirectory)
    requires r.Valid() && ParentOk(r, parentId)
    ensures r2 == Visit(r, d, parentId).0 && rec == Visit(r, d, parentId).1
    ensures r2.Valid() && Grows(r, r2)
    ensures |r2.dirs| >= |r.dirs| && (forall j :: 0 <= j < |r.dirs| ==> r2.dirs[j] == r.dirs[j])
    ensures 1 <= rec.id <= |r2.dirs| && r2.dirs[rec.id - 1] == rec
    ensures r2.FindIndex(Query(d.path, parentId)) == Some(rec.id - 1)
    ensures parentId.Some? ==> rec.id > parentId.value
  {
    var r1;
    r1, rec := ResolveFacts(r, d, parentId);
    if WasModified(rec, d) {
      r2 := FilesPass(r1, rec.id, d);
      FilesPassFacts(r1, rec.id, d);
      GrowsTrans(r, r1, r2);
      FindStable(r1, r2, Query(d.path, parentId));
    } else {
      r2 := r1;
    }
  }

  /** After the recursion: only the directory's own record may change. */
  lemma CommitFacts(r: Remote, rec: BackedUpDirectory, d: LocalDir)
    requires r.Valid()
    ensures var r1 := Commit(r, rec, d);
      && r1.Valid() && Grows(r, r1) && |r1.dirs| == |r.dirs| && r1.roots == r.roots
      && (forall j :: 0 <= j < |r.dirs| && j != rec.id - 1 ==> r1.dirs[j] == r.dirs[j])
      && (WasModified(rec, d) && 1 <= rec.id <= |r.dirs| ==> r1.dirs[rec.id - 1].modified == d.lastWrite)
      && (!WasModified(rec, d) ==> r1 == r)
  {
    if WasModified(rec, d) {
      UpdateDirectoryFacts(r, rec.id, d.lastWrite);
    }
  }

  /** A directory found unmodified has no file diffed: its visit leaves every file record as it
      was and sends nothing but, for a directory not found, its AddDirectory. */
  lemma UnmodifiedSkipsFiles(r: Remote, d: LocalDir, parentId: Option<int>)
    requires !WasModified(Visit(r, d, parentId).1, d)
    ensures Visit(r, d, parentId).0.files == r.files
    ensures r.calls <= Visit(r, d, parentId).0.calls
    ensures forall i :: |r.calls| <= i < |Visit(r, d, parentId).0.calls| ==> Visit(r, d, parentId).0.calls[i].AddDirectoryCall?
  {
  }

  /**
   * The walk keeps the server well formed and only adds to it, and the walk under the parent
   * `p` leaves the records up to `p` (the parent and everything created before it) as they were.
   */
  lemma {:induction false} SynchronisedGrows(r: Remote, d: LocalDir, parentId: Option<int>)
    requires r.Valid() && ParentOk(r, parentId)
    ensures var r1 := Synchronised(r, d, parentId);
      && r1.Valid() && Grows(r, r1)
      && (parentId.Some? ==> forall j :: 0 <= j < parentId.value ==> r1.dirs[j] == r.dirs[j])
    decreases d, 1
  {
    var r2, rec := VisitFacts(r, d, parentId);
    var r3 := SynchronisedAll(r2, d.subdirs, rec.id);
    SynchronisedAllGrows(r2, d.subdirs, rec.id);
    CommitFacts(r3, rec, d);
    GrowsTrans(r, r2, r3);
    GrowsTrans(r, r3, Commit(r3, rec, d));
  }

  lemma {:induction false} SynchronisedAllGrows(r: Remote, subdirs: seq<LocalDir>, p: int)
    requires r.Valid() && 1 <= p <= |r.dirs|
    ensures var r1 := SynchronisedAll(r, subdirs, p);
      && r1.Valid() && Grows(r, r1)
      && forall j :: 0 <= j < p ==> r1.dirs[j] == r.dirs[j]
    decreases subdirs, 0
  {
    if subdirs != [] {
      var prev := SynchronisedAll(r, subdirs[..|subdirs| - 1], p);
      SynchronisedAllGrows(r, subdirs[..|subdirs| - 1], p);
      SynchronisedGrows(prev, subdirs[|subdirs| - 1], Some(p));
      GrowsTrans(r, prev, SynchronisedAll(r, subdirs, p));
    }
  }

  // -----------------------------------------------------------------------------------------
  // Post-order commit and convergence

  /**
   * After the walk of `d`, the lookup of `d` finds a record whose Modified is `d`'s last write
   * time: the commit comes after the subdirectories, which never touch the records up to
   * their parent.
   */
  lemma SynchronisedSettles(r: Remote, d: LocalDir, parentId: Option<int>)
    requires r.Valid() && ParentOk(r, parentId)
    ensures var r1 := Synchronised(r, d, parentId);
      && r1.Find(Query(d.path, parentId)).Some?
      && r1.Find(Query(d.path, parentId)).value.modified == d.lastWrite
  {
    var q := Query(d.path, parentId);
    var r2, rec := VisitFacts(r, d, parentId);
    var r3 := SynchronisedAll(r2, d.subdirs, rec.id);
    SynchronisedAllGrows(r2, d.subdirs, rec.id);
    FindStable(r2, r3, q);
    CommitFacts(r3, rec, d);
    FindStable(r3, Commit(r3, rec, d), q);
  }

  /** The remote record of `d` and, recursively, of each of its subdirectories (looked up under
      the record's id) carries the local last write time. */
  ghost predicate Converged(r: Remote, d: LocalDir, parentId: Option<int>)
    decreases d
  {
    match r.Find(Query(d.path, parentId))
    case None => false
    case Some(rec) =>
      && rec.modified == d.lastWrite
      && forall i :: 0 <= i < |d.subdirs| ==> Converged(r, d.subdirs[i], Some(rec.id))
  }

  /** Idempotence: on a converged server the walk finds every directory unmodified, so it adds,
      uploads, deletes and commits nothing. */
  lemma {:induction false} SynchronisedIdempotent(r: Remote, d: LocalDir, parentId: Option<int>)
    requires Converged(r, d, parentId)
    ensures Synchronised(r, d, parentId) == r
    decreases d, 1
  {
    var rec := r.Find(Query(d.path, parentId)).value;
    assert Visit(r, d, parentId) == (r, rec);
    SynchronisedAllIdempotent(r, d.subdirs, rec.id);
  }

  lemma {:induction false} SynchronisedAllIdempotent(r: Remote, subdirs: seq<LocalDir>, p: int)
    requires forall i :: 0 <= i < |subdirs| ==> Converged(r, subdirs[i], Some(p))
    ensures SynchronisedAll(r, subdirs, p) == r
    decreases subdirs, 0
  {
    if subdirs != [] {
      var init := subdirs[..|subdirs| - 1];
      assert forall i :: 0 <= i < |init| ==> init[i] == subdirs[i];
      SynchronisedAllIdempotent(r, init, p);
      SynchronisedIdempotent(r, subdirs[|subdirs| - 1], Some(p));
    }
  }

  // -----------------------------------------------------------------------------------------
  // Containment of directories, and what a walk may change

  /** Directory record `i` is record `k` or lies, through its chain of parents, inside it. */
  ghost predicate Descends(dirs: seq<BackedUpDirectory>, i: int, k: int)
    decreases i
  {
    && 0 <= i < |dirs|
    && (|| i == k
        || (dirs[i].parentId.Some? && 1 <= dirs[i].parentId.value <= i
            && Descends(dirs, dirs[i].parentId.value - 1, k)))
  }

  /** A record lies inside records no later than itself. */
  lemma {:induction false} DescendsAbove(dirs: seq<BackedUpDirectory>, i: int, k: int)
    requires Descends(dirs, i, k)
    ensures k <= i
    decreases i
  {
    if i != k {
      DescendsAbove(dirs, dirs[i].parentId.value - 1, k);
    }
  }

  lemma {:induction false} DescendsTrans(dirs: seq<BackedUpDirectory>, i: int, j: int, k: int)
    requires Descends(dirs, i, j) && Descends(dirs, j, k)
    ensures Descends(dirs, i, k)
    decreases i
  {
    if i != j {
      DescendsTrans(dirs, dirs[i].parentId.value - 1, j, k);
    }
  }

  /** Containment among existing records is the same on a grown server. */
  lemma {:induction false} DescendsGrow(r: Remote, r2: Remote, i: int, k: int)
    requires Grows(r, r2) && 0 <= i < |r.dirs|
    ensures Descends(r.dirs, i, k) <==> Descends(r2.dirs, i, k)
    decreases i
  {
    assert SameDirSlot(r.dirs[i], r2.dirs[i]);
    if i != k && r.dirs[i].parentId.Some? && 1 <= r.dirs[i].parentId.value <= i {
      DescendsGrow(r, r2, r.dirs[i].parentId.value - 1, k);
    }
  }

  /** Two different children of one parent have nothing inside in common. */
  lemma {:induction false} DescendsDisjoint(r: Remote, j: int, a: int, b: int, p: int)
    requires r.Valid()
    requires 0 <= a < |r.dirs| && 0 <= b < |r.dirs| && a != b
    requires r.dirs[a].parentId == Some(p) && r.dirs[b].parentId == Some(p)
    requires Descends(r.dirs, j, a) && Descends(r.dirs, j, b)
    ensures false
    decreases j
  {
    if j == a {
      DescendsAbove(r.dirs, p - 1, b);
    } else if j == b {
      DescendsAbove(r.dirs, p - 1, a);
    } else {
      DescendsDisjoint(r, r.dirs[j].parentId.value - 1, a, b, p);
    }
  }

  /** Among the records of `r`, those `r1` changes all lie inside record `k`. */
  ghost predicate ChangesWithin(r: Remote, r1: Remote, k: int) {
    && |r.dirs| <= |r1.dirs|
    && forall j {:trigger Descends(r1.dirs, j, k)} :: 0 <= j < |r.dirs| && r1.dirs[j] != r.dirs[j] ==> Descends(r1.dirs, j, k)
  }

  /** A child record lies inside its parent. */
  lemma ChildDescends(r: Remote, c: int, p: int)
    requires r.Valid() && 0 <= c < |r.dirs| && r.dirs[c].parentId == Some(p)
    ensures Descends(r.dirs, c, p - 1)
  {
    assert Descends(r.dirs, p - 1, p - 1);
  }

  /** Changes inside `kb`, itself inside `m`, after changes inside `m`, are changes inside `m`. */
  lemma ChangesWithinCompose(r: Remote, r1: Remote, r2: Remote, kb: int, m: int)
    requires ChangesWithin(r, r1, m) && ChangesWithin(r1, r2, kb) && Grows(r1, r2)
    requires Descends(r2.dirs, kb, m)
    ensures ChangesWithin(r, r2, m)
  {
    forall j | 0 <= j < |r.dirs| && r2.dirs[j] != r.dirs[j]
      ensures Descends(r2.dirs, j, m)
    {
      if r1.dirs[j] != r.dirs[j] {
        DescendsGrow(r1, r2, j, m);
      } else {
        DescendsTrans(r2.dirs, j, kb, m);
      }
    }
  }

  /** Changing only record `k` itself, the record `q` finds, is a change inside `k`. */
  lemma ChangesWithinOwn(r: Remote, r1: Remote, r2: Remote, q: DirQuery, k: int)
    requires ChangesWithin(r, r1, k) && Grows(r1, r2) && |r2.dirs| == |r1.dirs| && 0 <= k < |r1.dirs|
    requires r1.FindIndex(q) == Some(k)
    requires forall j :: 0 <= j < |r1.dirs| && j != k ==> r2.dirs[j] == r1.dirs[j]
    ensures r2.FindIndex(q) == Some(k) && ChangesWithin(r, r2, k)
  {
    FindStable(r1, r2, q);
    forall j | 0 <= j < |r.dirs| && r2.dirs[j] != r.dirs[j]
      ensures Descends(r2.dirs, j, k)
    {
      if j != k {
        DescendsGrow(r1, r2, j, k);
      }
    }
  }

  /**
   * The walk of `d` changes, among the records that existed before, only the record it
   * resolves `d` to and records inside it.
   */
  lemma {:induction false} SynchronisedFrame(r: Remote, d: LocalDir, parentId: Option<int>)
    requires r.Valid() && ParentOk(r, parentId)
    ensures var r1 := Synchronised(r, d, parentId);
      && r1.FindIndex(Query(d.path, parentId)).Some?
      && ChangesWithin(r, r1, r1.FindIndex(Query(d.path, parentId)).value)
    decreases d, 1
  {
    var r3, rec := SubtreeFrame(r, d, parentId);
    var r4 := Commit(r3, rec, d);
    SynchronisedSteps(r, d, parentId);
    CommitFacts(r3, rec, d);
    ChangesWithinOwn(r, r3, r4, Query(d.path, parentId), rec.id - 1);
  }

  /** SynchronisedAsync is the visit, the subdirectories, then the commit. */
  lemma SynchronisedSteps(r: Remote, d: LocalDir, parentId: Option<int>)
    ensures Synchronised(r, d, parentId)
            == Commit(SynchronisedAll(Visit(r, d, parentId).0, d.subdirs, Visit(r, d, parentId).1.id), Visit(r, d, parentId).1, d)
  {
  }

  /** The first two steps of SynchronisedFrame: the visit and the walk of the subdirectories. */
  lemma {:induction false} SubtreeFrame(r: Remote, d: LocalDir, parentId: Option<int>) returns (r3: Remote, rec: BackedUpDirectory)
    requires r.Valid() && ParentOk(r, parentId)
    ensures rec == Visit(r, d, parentId).1 && r3 == SynchronisedAll(Visit(r, d, parentId).0, d.subdirs, rec.id)
    ensures r3.Valid() && 1 <= rec.id <= |r3.dirs|
    ensures r3.FindIndex(Query(d.path, parentId)) == Some(rec.id - 1)
    ensures ChangesWithin(r, r3, rec.id - 1)
    decreases d, 0
  {
    var q := Query(d.path, parentId);
    var r2;
    r2, rec := VisitFacts(r, d, parentId);
    r3 := SynchronisedAll(r2, d.subdirs, rec.id);
    SynchronisedAllGrows(r2, d.subdirs, rec.id);
    SynchronisedAllFrame(r2, d.subdirs, rec.id);
    FindStable(r2, r3, q);
  }

  /** The walk of the subdirectories of the directory with id `p` changes, among the records
      that existed before, only records inside that directory. */
  lemma {:induction false} SynchronisedAllFrame(r: Remote, subdirs: seq<LocalDir>, p: int)
    requires r.Valid() && 1 <= p <= |r.dirs|
    ensures ChangesWithin(r, SynchronisedAll(r, subdirs, p), p - 1)
    decreases subdirs, 0
  {
    if subdirs != [] {
      var init := subdirs[..|subdirs| - 1];
      var last := subdirs[|subdirs| - 1];
      var prev := SynchronisedAll(r, init, p);
      SynchronisedAllGrows(r, init, p);
      SynchronisedAllFrame(r, init, p);
      var r1 := Synchronised(prev, last, Some(p));
      SynchronisedGrows(prev, last, Some(p));
      SynchronisedFrame(prev, last, Some(p));
      var kb := r1.FindIndex(Query(last.path, Some(p))).value;
      ChildDescends(r1, kb, p);
      ChangesWithinCompose(r, prev, r1, kb, p - 1);
    }
  }

  // -----------------------------------------------------------------------------------------
  // Convergence

  /** No two subdirectories of one directory share a name. */
  ghost predicate DistinctNames(subdirs: seq<LocalDir>) {
    forall i, j :: 0 <= i < j < |subdirs| ==> LastComponent(subdirs[i].path) != LastComponent(subdirs[j].path)
  }

  /** A local tree as a file system lists it: sibling directories have distinct names. */
  ghost predicate WellFormed(d: LocalDir)
    decreases d
  {
    DistinctNames(d.subdirs) && forall i :: 0 <= i < |d.subdirs| ==> WellFormed(d.subdirs[i])
  }

  /** Convergence of `d` depends only on the records inside the one `d` resolves to. */
  lemma {:induction false} ConvergedFrame(r: Remote, r1: Remote, d: LocalDir, parentId: Option<int>)
    requires r.Valid() && Grows(r, r1) && Converged(r, d, parentId)
    requires forall j :: 0 <= j < |r.dirs| && Descends(r.dirs, j, r.FindIndex(Query(d.path, parentId)).value) ==>
               r1.dirs[j] == r.dirs[j]
    ensures Converged(r1, d, parentId)
    decreases d
  {
    var q := Query(d.path, parentId);
    var k := r.FindIndex(q).value;
    FindStable(r, r1, q);
    assert Descends(r.dirs, k, k);
    var rec := r.dirs[k];
    forall i | 0 <= i < |d.subdirs|
      ensures Converged(r1, d.subdirs[i], Some(rec.id))
    {
      var sub := d.subdirs[i];
      var ks := r.FindIndex(Query(sub.path, Some(rec.id))).value;
      ChildDescends(r, ks, rec.id);
      forall j | 0 <= j < |r.dirs| && Descends(r.dirs, j, ks)
        ensures r1.dirs[j] == r.dirs[j]
      {
        DescendsTrans(r.dirs, j, ks, k);
      }
      ConvergedFrame(r, r1, sub, Some(rec.id));
    }
  }

  /** Converged, one level at a time. */
  lemma ConvergedIntro(r: Remote, d: LocalDir, parentId: Option<int>, k: nat)
    requires r.FindIndex(Query(d.path, parentId)) == Some(k)
    requires r.dirs[k].modified == d.lastWrite
    requires forall i :: 0 <= i < |d.subdirs| ==> Converged(r, d.subdirs[i], Some(r.dirs[k].id))
    ensures Converged(r, d, parentId)
  {
  }

  /** Changing only the record `k` keeps the subdirectories of the directory with id k + 1
      converged. */
  lemma CommitKeepsChildren(r: Remote, r1: Remote, subdirs: seq<LocalDir>, k: nat)
    requires r.Valid() && Grows(r, r1) && |r1.dirs| == |r.dirs|
    requires forall j :: 0 <= j < |r.dirs| && j != k ==> r1.dirs[j] == r.dirs[j]
    requires forall i :: 0 <= i < |subdirs| ==> Converged(r, subdirs[i], Some(k + 1))
    ensures forall i :: 0 <= i < |subdirs| ==> Converged(r1, subdirs[i], Some(k + 1))
  {
    forall i | 0 <= i < |subdirs|
      ensures Converged(r1, subdirs[i], Some(k + 1))
    {
      var ks := r.FindIndex(Query(subdirs[i].path, Some(k + 1))).value;
      ChildDescends(r, ks, k + 1);
      forall j | 0 <= j < |r.dirs| && Descends(r.dirs, j, ks)
        ensures r1.dirs[j] == r.dirs[j]
      {
        DescendsAbove(r.dirs, j, ks);
        DescendsAbove(r.dirs, ks, k);
      }
      ConvergedFrame(r, r1, subdirs[i], Some(k + 1));
    }
  }

  /** A walk that changes only records inside the directory `kb` keeps a sibling of a different
      name converged. */
  lemma SiblingKeepsConverged(r: Remote, r1: Remote, a: LocalDir, p: int, kb: nat, nameB: string)
    requires r.Valid() && r1.Valid() && Grows(r, r1)
    requires Converged(r, a, Some(p)) && ChangesWithin(r, r1, kb)
    requires kb < |r1.dirs| && IsChild(r1.dirs[kb], p, nameB) && LastComponent(a.path) != nameB
    ensures Converged(r1, a, Some(p))
  {
    var qa := Query(a.path, Some(p));
    var ka := r.FindIndex(qa).value;
    FindStable(r, r1, qa);
    forall j | 0 <= j < |r.dirs| && Descends(r.dirs, j, ka)
      ensures r1.dirs[j] == r.dirs[j]
    {
      if r1.dirs[j] != r.dirs[j] {
        DescendsGrow(r, r1, j, ka);
        DescendsDisjoint(r1, j, ka, kb, p);
      }
    }
    ConvergedFrame(r, r1, a, Some(p));
  }

  /** The first two steps of SynchronisedConverges. */
  lemma {:induction false} SubtreeConverges(r: Remote, d: LocalDir, parentId: Option<int>) returns (r3: Remote, rec: BackedUpDirectory)
    requires r.Valid() && ParentOk(r, parentId) && WellFormed(d)
    ensures rec == Visit(r, d, parentId).1 && r3 == SynchronisedAll(Visit(r, d, parentId).0, d.subdirs, rec.id)
    ensures r3.Valid() && 1 <= rec.id <= |r3.dirs| && r3.dirs[rec.id - 1].id == rec.id
    ensures r3.FindIndex(Query(d.path, parentId)) == Some(rec.id - 1)
    ensures !WasModified(rec, d) ==> r3.dirs[rec.id - 1] == rec
    ensures forall i :: 0 <= i < |d.subdirs| ==> Converged(r3, d.subdirs[i], Some(rec.id))
    decreases d, 0
  {
    var r2;
    r2, rec := VisitFacts(r, d, parentId);
    r3 := SynchronisedAll(r2, d.subdirs, rec.id);
    SynchronisedAllGrows(r2, d.subdirs, rec.id);
    SynchronisedAllConverges(r2, d.subdirs, rec.id);
    FindStable(r2, r3, Query(d.path, parentId));
  }

  /**
   * Convergence: after the walk of a well-formed tree, the record of every directory in it
   * carries the local last write time, so a second walk of the unchanged tree does nothing
   * (SynchronisedIdempotent).
   */
  lemma {:induction false} SynchronisedConverges(r: Remote, d: LocalDir, parentId: Option<int>)
    requires r.Valid() && ParentOk(r, parentId) && WellFormed(d)
    ensures Converged(Synchronised(r, d, parentId), d, parentId)
    decreases d, 1
  {
    var r3, rec := SubtreeConverges(r, d, parentId);
    CommitConverges(r3, rec, d, parentId);
  }

  /** The last step of SynchronisedConverges: the commit of `d`'s own record. */
  lemma CommitConverges(r3: Remote, rec: BackedUpDirectory, d: LocalDir, parentId: Option<int>)
    requires r3.Valid() && 1 <= rec.id <= |r3.dirs| && r3.dirs[rec.id - 1].id == rec.id
    requires r3.FindIndex(Query(d.path, parentId)) == Some(rec.id - 1)
    requires !WasModified(rec, d) ==> r3.dirs[rec.id - 1] == rec
    requires forall i :: 0 <= i < |d.subdirs| ==> Converged(r3, d.subdirs[i], Some(rec.id))
    ensures Converged(Commit(r3, rec, d), d, parentId)
  {
    var k := rec.id - 1;
    var r4 := Commit(r3, rec, d);
    CommitFacts(r3, rec, d);
    CommitKeepsChildren(r3, r4, d.subdirs, k);
    FindStable(r3, r4, Query(d.path, parentId));
    ConvergedIntro(r4, d, parentId, k);
  }

  lemma {:induction false} SynchronisedAllConverges(r: Remote, subdirs: seq<LocalDir>, p: int)
    requires r.Valid() && 1 <= p <= |r.dirs|
    requires DistinctNames(subdirs) && forall i :: 0 <= i < |subdirs| ==> WellFormed(subdirs[i])
    ensures forall i :: 0 <= i < |subdirs| ==> Converged(SynchronisedAll(r, subdirs, p), subdirs[i], Some(p))
    decreases subdirs, 0
  {
    if subdirs != [] {
      var n := |subdirs| - 1;
      var init := subdirs[..n];
      InitKeepsShape(subdirs, init);
      var prev := SynchronisedAll(r, init, p);
      SynchronisedAllGrows(r, init, p);
      SynchronisedAllConverges(r, init, p);
      assert forall i :: 0 <= i < n ==> Converged(prev, subdirs[i], Some(p)) by {
        assert forall i :: 0 <= i < n ==> init[i] == subdirs[i];
      }
      var r1, kb := LastSubdirectoryConverges(prev, subdirs[n], p);
      SiblingsStayConverged(prev, r1, subdirs, p, kb);
    }
  }

  /** All but the last of some siblings still have distinct names and are well formed. */
  lemma InitKeepsShape(subdirs: seq<LocalDir>, init: seq<LocalDir>)
    requires |subdirs| > 0 && init == subdirs[..|subdirs| - 1]
    requires DistinctNames(subdirs) && forall i :: 0 <= i < |subdirs| ==> WellFormed(subdirs[i])
    ensures DistinctNames(init) && forall i :: 0 <= i < |init| ==> WellFormed(init[i])
  {
    assert forall i :: 0 <= i < |init| ==> init[i] == subdirs[i];
  }

  /** The walk of the last subdirectory, in the facts SynchronisedAllConverges needs. */
  lemma LastSubdirectoryConverges(prev: Remote, last: LocalDir, p: int) returns (r1: Remote, kb: nat)
    requires prev.Valid() && 1 <= p <= |prev.dirs| && WellFormed(last)
    ensures r1 == Synchronised(prev, last, Some(p))
    ensures r1.Valid() && Grows(prev, r1) && Converged(r1, last, Some(p))
    ensures kb < |r1.dirs| && IsChild(r1.dirs[kb], p, LastComponent(last.path)) && ChangesWithin(prev, r1, kb)
    decreases last, 2
  {
    r1 := Synchronised(prev, last, Some(p));
    SynchronisedGrows(prev, last, Some(p));
    SynchronisedConverges(prev, last, Some(p));
    SynchronisedFrame(prev, last, Some(p));
    kb := r1.FindIndex(Query(last.path, Some(p))).value;
  }

  /** The last subdirectory's walk keeps its earlier siblings, of other names, converged. */
  lemma SiblingsStayConverged(prev: Remote, r1: Remote, subdirs: seq<LocalDir>, p: int, kb: nat)
    requires |subdirs| > 0 && DistinctNames(subdirs)
    requires prev.Valid() && r1.Valid() && Grows(prev, r1) && ChangesWithin(prev, r1, kb)
    requires kb < |r1.dirs| && IsChild(r1.dirs[kb], p, LastComponent(subdirs[|subdirs| - 1].path))
    requires forall i :: 0 <= i < |subdirs| - 1 ==> Converged(prev, subdirs[i], Some(p))
    requires Converged(r1, subdirs[|subdirs| - 1], Some(p))
    ensures forall i :: 0 <= i < |subdirs| ==> Converged(r1, subdirs[i], Some(p))
  {
    var n := |subdirs| - 1;
    forall i | 0 <= i < n
      ensures Converged(r1, subdirs[i], Some(p))
    {
      SiblingKeepsConverged(prev, r1, subdirs[i], p, kb, LastComponent(subdirs[n].path));
    }
  }

  // -----------------------------------------------------------------------------------------
  // The failing walk and the walk that does not fail

  /** Every listed record is one of the server's files. */
  ghost predicate ListedExist(r: Remote, listed: seq<BackedUpFile>) {
    forall f | f in listed :: 1 <= f.id <= |r.files|
  }

  /** With no refusing path the file loop goes through and is UploadPass. */
  lemma {:induction false} UploadRunOk(r: Remote, dirId: int, listed: seq<BackedUpFile>, locals: seq<LocalFile>)
    requires r.Valid() && r.refusing == {} && 1 <= dirId <= |r.dirs| && ListedExist(r, listed)
    ensures UploadRun(r, dirId, listed, locals) == Outcome(UploadPass(r, dirId, listed, locals), true)
  {
    if locals != [] {
      var init := locals[..|locals| - 1];
      UploadRunOk(r, dirId, listed, init);
      var prev := UploadPass(r, dirId, listed, init);
      UploadPassFacts(r, dirId, listed, init);
    }
  }

  /** With no refusing path the visit goes through and is Visit. */
  lemma VisitRunOk(r: Remote, d: LocalDir, parentId: Option<int>)
    requires r.Valid() && r.refusing == {} && ParentOk(r, parentId)
    ensures VisitRun(r, d, parentId) == (Outcome(Visit(r, d, parentId).0, true), Visit(r, d, parentId).1)
  {
    var r1, rec := ResolveFacts(r, d, parentId);
    if WasModified(rec, d) {
      var listed := FilesOf(r1.files, rec.id);
      var r2 := DeletionPass(r1, listed, d.files);
      if |FilesToDelete(listed, LocalNames(d.files))| > 0 {
        DeleteFilesFacts(r1, FilesToDelete(listed, LocalNames(d.files)));
      }
      assert r2.Valid() && Grows(r1, r2) && r2.dirs == r1.dirs;
      assert ListedExist(r2, listed) by {
        forall f | f in listed
          ensures 1 <= f.id <= |r2.files|
        {
          var i :| 0 <= i < |r1.files| && r1.files[i] == f;
        }
      }
      UploadRunOk(r2, rec.id, listed, d.files);
    }
  }

  /** With no refusing path the walk goes through and is Synchronised: every convergence and
      idempotence lemma about Synchronised is about the walk SynchroniseAsync makes. */
  lemma {:induction false} SyncRunOk(r: Remote, d: LocalDir, parentId: Option<int>)
    requires r.Valid() && r.refusing == {} && ParentOk(r, parentId)
    ensures SyncRun(r, d, parentId) == Outcome(Synchronised(r, d, parentId), true)
    decreases d, 1
  {
    VisitRunOk(r, d, parentId);
    var r2, rec := VisitFacts(r, d, parentId);
    SyncAllRunOk(r2, d.subdirs, rec.id);
  }

  lemma {:induction false} SyncAllRunOk(r: Remote, subdirs: seq<LocalDir>, p: int)
    requires r.Valid() && r.refusing == {} && 1 <= p <= |r.dirs|
    ensures SyncAllRun(r, subdirs, p) == Outcome(SynchronisedAll(r, subdirs, p), true)
    decreases subdirs, 0
  {
    if subdirs != [] {
      var init := subdirs[..|subdirs| - 1];
      SyncAllRunOk(r, init, p);
      var prev := SynchronisedAll(r, init, p);
      SynchronisedAllGrows(r, init, p);
      SyncRunOk(prev, subdirs[|subdirs| - 1], Some(p));
    }
  }

  /** The file loop, stopped or not, changes only file records. */
  lemma {:induction false} UploadRunGrows(r: Remote, dirId: int, listed: seq<BackedUpFile>, locals: seq<LocalFile>)
    requires r.Valid()
    ensures var r1 := UploadRun(r, dirId, listed, locals).remote;
      r1.Valid() && Grows(r, r1) && r1.dirs == r.dirs && r1.roots == r.roots
  {
    if locals != [] {
      var init := locals[..|locals| - 1];
      var prev := UploadRun(r, dirId, listed, init);
      UploadRunGrows(r, dirId, listed, init);
      if prev.ok {
        FileUpdateFacts(prev.remote, dirId, listed, locals[|locals| - 1]);
        GrowsTrans(r, prev.remote, UploadRun(r, dirId, listed, locals).remote);
      }
    }
  }

  /** The visit, stopped or not: the directory's record exists, after its parent, and nothing
      up to the parent changes. */
  lemma VisitRunGrows(r: Remote, d: LocalDir, parentId: Option<int>) returns (r2: Remote, rec: BackedUpDirectory)
    requires r.Valid() && ParentOk(r, parentId)
    ensures r2 == VisitRun(r, d, parentId).0.remote && rec == VisitRun(r, d, parentId).1
    ensures r2.Valid() && Grows(r, r2)
    ensures |r2.dirs| >= |r.dirs| && (forall j :: 0 <= j < |r.dirs| ==> r2.dirs[j] == r.dirs[j])
    ensures 1 <= rec.id <= |r2.dirs| && r2.dirs[rec.id - 1] == rec
    ensures r2.FindIndex(Query(d.path, parentId)) == Some(rec.id - 1)
    ensures parentId.Some? ==> rec.id > parentId.value
  {
    var r1;
    r1, rec := ResolveFacts(r, d, parentId);
    r2 := VisitRun(r, d, parentId).0.remote;
    if WasModified(rec, d) {
      var listed := FilesOf(r1.files, rec.id);
      var rd := DeletionPass(r1, listed, d.files);
      if |FilesToDelete(listed, LocalNames(d.files))| > 0 {
        DeleteFilesFacts(r1, FilesToDelete(listed, LocalNames(d.files)));
      }
      UploadRunGrows(rd, rec.id, listed, d.files);
      GrowsTrans(r1, rd, r2);
      GrowsTrans(r, r1, r2);
      FindStable(r1, r2, Query(d.path, parentId));
    }
  }

  /** The walk, stopped or not, keeps the server well formed, only adds to it, and leaves the
      records up to the parent as they were. */
  lemma {:induction false} SyncRunGrows(r: Remote, d: LocalDir, parentId: Option<int>)
    requires r.Valid() && ParentOk(r, parentId)
    ensures var r1 := SyncRun(r, d, parentId).remote;
      && r1.Valid() && Grows(r, r1)
      && (parentId.Some? ==> forall j :: 0 <= j < parentId.value ==> r1.dirs[j] == r.dirs[j])
    decreases d, 1
  {
    var r2, rec := VisitRunGrows(r, d, parentId);
    if VisitRun(r, d, parentId).0.ok {
      var s := SyncAllRun(r2, d.subdirs, rec.id);
      SyncAllRunGrows(r2, d.subdirs, rec.id);
      GrowsTrans(r, r2, s.remote);
      if s.ok {
        CommitFacts(s.remote, rec, d);
        GrowsTrans(r, s.remote, Commit(s.remote, rec, d));
      }
    }
  }

  lemma {:induction false} SyncAllRunGrows(r: Remote, subdirs: seq<LocalDir>, p: int)
    requires r.Valid() && 1 <= p <= |r.dirs|
    ensures var r1 := SyncAllRun(r, subdirs, p).remote;
      && r1.Valid() && Grows(r, r1)
      && forall j :: 0 <= j < p ==> r1.dirs[j] == r.dirs[j]
    decreases subdirs, 0
  {
    if subdirs != [] {
      var init := subdirs[..|subdirs| - 1];
      var prev := SyncAllRun(r, init, p);
      SyncAllRunGrows(r, init, p);
      if prev.ok {
        SyncRunGrows(prev.remote, subdirs[|subdirs| - 1], Some(p));
        GrowsTrans(r, prev.remote, SyncAllRun(r, subdirs, p).remote);
      }
    }
  }

  /**
   * A walk that fails, in the directory's own files or anywhere below it, leaves the
   * directory's record as the visit found or created it: its Modified is not advanced, so a
   * modified directory is still modified for the next walk, which checks its files again.
   */
  lemma {:induction false} FailedWalkSkipsCommit(r: Remote, d: LocalDir, parentId: Option<int>)
    requires r.Valid() && ParentOk(r, parentId)
    requires !SyncRun(r, d, parentId).ok
    ensures SyncRun(r, d, parentId).remote.Find(Query(d.path, parentId)) == Some(VisitRun(r, d, parentId).1)
    ensures WasModified(VisitRun(r, d, parentId).1, d) ==>
              SyncRun(r, d, parentId).remote.Find(Query(d.path, parentId)).value.modified != d.lastWrite
  {
    var q := Query(d.path, parentId);
    var r2, rec := VisitRunGrows(r, d, parentId);
    if VisitRun(r, d, parentId).0.ok {
      var s := SyncAllRun(r2, d.subdirs, rec.id);
      SyncAllRunGrows(r2, d.subdirs, rec.id);
      FindStable(r2, s.remote, q);
    }
  }

  /** A walk that does not fail commits the directory's record when it was modified. */
  lemma CompletedWalkCommits(r: Remote, d: LocalDir, parentId: Option<int>)
    requires r.Valid() && ParentOk(r, parentId)
    requires SyncRun(r, d, parentId).ok
    ensures SyncRun(r, d, parentId).remote.Find(Query(d.path, parentId)).Some?
    ensures SyncRun(r, d, parentId).remote.Find(Query(d.path, parentId)).value.modified == d.lastWrite
  {
    var q := Query(d.path, parentId);
    var r2, rec := VisitRunGrows(r, d, parentId);
    var s := SyncAllRun(r2, d.subdirs, rec.id);
    SyncAllRunGrows(r2, d.subdirs, rec.id);
    FindStable(r2, s.remote, q);
    CommitFacts(s.remote, rec, d);
    FindStable(s.remote, Commit(s.remote, rec, d), q);
  }

  /** The failure happens: a first walk of a directory whose subdirectory holds a refused file
      stops, and the directory is left with its Modified unset. */
  lemma RefusedUploadStopsWalk()
    ensures var r := Remote([], map[], [], {"s/b/f"}, []);
            var d := LocalDir("s", 1, [], [LocalDir("s/b", 1, [LocalFile("s/b/f", 1)], [])]);
            && r.Valid()
            && !SyncRun(r, d, None).ok
            && SyncRun(r, d, None).remote.Find(ByPath("s")) == Some(BackedUpDirectory(1, "s", None, MinTime, false))
  {
    var r := Remote([], map[], [], {"s/b/f"}, []);
    var d := LocalDir("s", 1, [], [LocalDir("s/b", 1, [LocalFile("s/b/f", 1)], [])]);
    var sub := d.subdirs[0];
    assert Query("s", None) == ByPath("s");
    var (v, rec) := VisitRun(r, d, None);
    assert rec == BackedUpDirectory(1, "s", None, MinTime, false);
    assert v.ok;
    assert LastComponent("s/b") == "b";
    assert FileName("s/b/f") == "f";
    var (v2, rec2) := VisitRun(v.remote, sub, Some(1));
    assert v.remote.Find(ByName(1, "b")).None? by {
      assert v.remote.dirs == [rec];
      assert !IsChild(rec, 1, "b");
    }
    assert rec2.id == 2 && WasModified(rec2, sub);
    var rd := DeletionPass(Resolve(v.remote, sub, Some(1)).0, [], sub.files);
    assert FilesOf(Resolve(v.remote, sub, Some(1)).0.files, 2) == [];
    assert sub.files[..0] == [];
    assert FileUpdate(rd, 2, [], sub.files[0]).1.None?;
    assert UploadRun(rd, 2, [], sub.files[..0]) == Outcome(rd, true);
    assert v2 == UploadRun(rd, 2, [], sub.files);
    assert !v2.ok;
    assert d.subdirs[..0] == [];
    FailedWalkSkipsCommit(r, d, None);
  }

  // -----------------------------------------------------------------------------------------
  // A deleted file restored with its old last write time

  /** The server of RestoredFileNotUploadedAgain: root "s", last committed at 100, holding "f"
      uploaded with Modified 100. */
  predicate IsStart(r: Remote) {
    r == Remote([BackedUpDirectory(1, "s", None, 100, false)], map["s" := 1],
                [BackedUpFile(1, "f", 1, 100, false)], {}, [])
  }

  /** The server after the first run: "s" committed at 200, "f" deleted with Modified 100. */
  predicate IsAfterDeletion(r: Remote) {
    r == Remote([BackedUpDirectory(1, "s", None, 200, false)], map["s" := 1],
                [BackedUpFile(1, "f", 1, 100, true)], {},
                [DeleteFilesCall([BackedUpFile(1, "f", 1, 100, false)]), UpdateDirectoryCall(1, 200)])
  }

  /** The root is found by its path, with its stored record. */
  lemma StartLookup(r: Remote)
    requires IsStart(r)
    ensures Resolve(r, LocalDir("s", 200, [], []), None) == (r, BackedUpDirectory(1, "s", None, 100, false))
  {
    assert Query("s", None) == ByPath("s");
  }

  /** The root lists "f" with the Modified of its upload. */
  lemma StartListing(r: Remote)
    requires IsStart(r)
    ensures FilesOf(r.files, 1) == [BackedUpFile(1, "f", 1, 100, false)]
  {
    assert r.files == [] + [BackedUpFile(1, "f", 1, 100, false)];
  }

  /** With no local file left, "f" is the batch, and the server marks it deleted. */
  lemma StartDeletion(r: Remote, rd: Remote)
    requires IsStart(r)
    requires rd == Remote(r.dirs, r.roots, [BackedUpFile(1, "f", 1, 100, true)], {},
                          [DeleteFilesCall([BackedUpFile(1, "f", 1, 100, false)])])
    ensures DeletionPass(r, [BackedUpFile(1, "f", 1, 100, false)], []) == rd
  {
    var g := BackedUpFile(1, "f", 1, 100, false);
    assert FilesToDelete([g], []) == [g] by {
      assert [g][..0] == [];
    }
    assert r.DeleteFiles([g]) == rd;
  }

  /** The first run, committed at 200. */
  lemma DeletionRun(r: Remote, r1: Remote)
    requires IsStart(r) && IsAfterDeletion(r1)
    ensures SyncRun(r, LocalDir("s", 200, [], []), None) == Outcome(r1, true)
  {
    var rd := Remote(r.dirs, r.roots, [BackedUpFile(1, "f", 1, 100, true)], {},
                     [DeleteFilesCall([BackedUpFile(1, "f", 1, 100, false)])]);
    StartLookup(r);
    StartListing(r);
    StartDeletion(r, rd);
    assert VisitRun(r, LocalDir("s", 200, [], []), None) == (Outcome(rd, true), BackedUpDirectory(1, "s", None, 100, false));
  }

  /** The deleted "f" is still listed, with Modified 100, and the local "s/f" keeps it out of
      the batch. */
  lemma RestoreListing(r1: Remote)
    requires IsAfterDeletion(r1)
    ensures FilesOf(r1.files, 1) == [BackedUpFile(1, "f", 1, 100, true)]
    ensures DeletionPass(r1, [BackedUpFile(1, "f", 1, 100, true)], [LocalFile("s/f", 100)]) == r1
  {
    var h := BackedUpFile(1, "f", 1, 100, true);
    assert r1.files == [] + [h];
    assert LocalNames([LocalFile("s/f", 100)]) == ["f"] by {
      assert FileName("s/f") == "f";
    }
    assert [h][..0] == [];
  }

  /** The local "s/f" is not newer than the listed record: nothing is uploaded. */
  lemma RestoreUploads(r1: Remote)
    requires IsAfterDeletion(r1)
    ensures UploadRun(r1, 1, [BackedUpFile(1, "f", 1, 100, true)], [LocalFile("s/f", 100)]) == Outcome(r1, true)
  {
    var h := BackedUpFile(1, "f", 1, 100, true);
    var fs := [LocalFile("s/f", 100)];
    assert FileName("s/f") == "f";
    assert fs[..0] == [];
    assert FileUpdate(r1, 1, [h], fs[0]) == (r1, Some(h));
  }

  /** The visit of the second run: the directory is found, nothing is deleted or uploaded. */
  lemma RestoreVisit(r1: Remote)
    requires IsAfterDeletion(r1)
    ensures VisitRun(r1, LocalDir("s", 300, [LocalFile("s/f", 100)], []), None)
            == (Outcome(r1, true), BackedUpDirectory(1, "s", None, 200, false))
  {
    assert Query("s", None) == ByPath("s");
    RestoreListing(r1);
    RestoreUploads(r1);
  }

  /** The server after the second run: "s" committed at 300, "f" still deleted. */
  predicate IsAfterRestore(r: Remote) {
    r == Remote([BackedUpDirectory(1, "s", None, 300, false)], map["s" := 1],
                [BackedUpFile(1, "f", 1, 100, true)], {},
                [DeleteFilesCall([BackedUpFile(1, "f", 1, 100, false)]), UpdateDirectoryCall(1, 200),
                 UpdateDirectoryCall(1, 300)])
  }

  /** The second run: only the directory's Modified is sent. */
  lemma RestoreRun(r1: Remote, r2: Remote)
    requires IsAfterDeletion(r1) && IsAfterRestore(r2)
    ensures SyncRun(r1, LocalDir("s", 300, [LocalFile("s/f", 100)], []), None) == Outcome(r2, true)
  {
    RestoreVisit(r1);
  }

  /** A file deleted on the server keeps the Modified of its last upload: restored with that
      last write time, it is not uploaded again, and the server keeps it deleted. */
  lemma RestoredFileNotUploadedAgain(r: Remote, r1: Remote, r2: Remote)
    requires IsStart(r) && IsAfterDeletion(r1) && IsAfterRestore(r2)
    ensures SyncRun(r, LocalDir("s", 200, [], []), None) == Outcome(r1, true)
    ensures SyncRun(r1, LocalDir("s", 300, [LocalFile("s/f", 100)], []), None) == Outcome(r2, true)
    ensures r2.files == r1.files && r2.calls == r1.calls + [UpdateDirectoryCall(1, 300)]
  {
    DeletionRun(r, r1);
    RestoreRun(r1, r2);
  }
}
