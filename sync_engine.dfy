/**
 * Client/SyncEngine.cs: the start-up reconciliation of a local directory tree with the backup
 * server. The local tree is an input value (its timestamps are what Directory.GetLastWriteTimeUtc
 * reports); the server is the abstract state `Remote` that the HTTP calls read and change, with
 * a log of the state-changing calls the client makes, in order.
 */
module Sync {
  import opened Wrappers
  import opened Text
  import opened Entities

  // -----------------------------------------------------------------------------------------
  // The local tree

  /** A local file: its full path and last write time. */
  datatype LocalFile = LocalFile(path: string, lastWrite: Time)

  /** A local directory: its full path, last write time, files and subdirectories, in the order
      Directory.GetFiles and Directory.GetDirectories list them. */
  datatype LocalDir = LocalDir(path: string, lastWrite: Time, files: seq<LocalFile>, subdirs: seq<LocalDir>)

  // -----------------------------------------------------------------------------------------
  // The server as the client sees it

  /** BUDirectoryInfo as GetDirectoryInfo builds it: a root by its path (with '/' separators),
      any other directory by its parent's id and its name. */
  datatype DirQuery = ByPath(path: string) | ByName(parentId: int, name: string)

  /** A state-changing request the client sends. */
  datatype Call =
    | AddDirectoryCall(name: string, parentId: Option<int>)
    | UpdateDirectoryCall(id: int, modified: Time)
    | UploadCall(path: string, file: BackedUpFile)
    | DeleteFilesCall(batch: seq<BackedUpFile>)

  /**
   * The backup server: directory and file records with their effective Modified and Deleted,
   * the id of the root directory each full path resolves to, the local paths whose upload it
   * answers with an error status (a file already at the destination, a failed store, a lost
   * connection: the model does not say which), and the log of the calls received. A record's
   * id is its position plus one.
   */
  datatype Remote = Remote(dirs: seq<BackedUpDirectory>, roots: map<string, int>,
                           files: seq<BackedUpFile>, refusing: set<string>, calls: seq<Call>)
  {
    /** Ids are positions plus one, a directory's parent precedes it, roots and file parents
        name existing directories. */
    ghost predicate Valid() {
      && (forall i :: 0 <= i < |dirs| ==> dirs[i].id == i + 1)
      && (forall i :: 0 <= i < |dirs| && dirs[i].parentId.Some? ==> 1 <= dirs[i].parentId.value <= i)
      && (forall p | p in roots :: 1 <= roots[p] <= |dirs|)
      && (forall i :: 0 <= i < |files| ==> files[i].id == i + 1 && 1 <= files[i].parentId <= |dirs|)
    }

    /** The position of the directory a query resolves to. */
    function FindIndex(q: DirQuery): (k: Option<nat>)
      ensures k.Some? ==> k.value < |dirs|
      ensures q.ByName? && k.Some? ==> IsChild(dirs[k.value], q.parentId, q.name)
      ensures q.ByName? ==> forall j :: 0 <= j < |dirs| && (k.None? || j < k.value) ==> !IsChild(dirs[j], q.parentId, q.name)
      ensures q.ByPath? ==> (k.Some? <==> q.path in roots && 1 <= roots[q.path] <= |dirs|)
      ensures q.ByPath? && k.Some? ==> k.value == roots[q.path] - 1
    {
      match q
      case ByPath(path) => if path in roots && 1 <= roots[path] <= |dirs| then Some(roots[path] - 1) else None
      case ByName(p, name) => FirstChild(dirs, p, name, 0)
    }

    /** The record a query resolves to (GetDirectory / GetDirectoryWithFiles). */
    function Find(q: DirQuery): Option<BackedUpDirectory> {
      match FindIndex(q)
      case None => None
      case Some(k) => Some(dirs[k])
    }

    /** AddDirectory: a new record with no Modified yet; a new root is what its path resolves to
        from then on. */
    function AddDirectory(name: string, parentId: Option<int>, lookup: DirQuery): (Remote, BackedUpDirectory) {
      var d := BackedUpDirectory(|dirs| + 1, name, parentId, MinTime, false);
      (this.(dirs := dirs + [d],
             roots := if lookup.ByPath? then roots[lookup.path := d.id] else roots,
             calls := calls + [AddDirectoryCall(name, parentId)]),
       d)
    }

    /** UpdateDirectory: the directory's effective Modified becomes the one sent, and it is no
        longer deleted. */
    function UpdateDirectory(id: int, modified: Time): Remote {
      var c := calls + [UpdateDirectoryCall(id, modified)];
      if 1 <= id <= |dirs| then this.(dirs := dirs[id - 1 := dirs[id - 1].(modified := modified, deleted := false)], calls := c)
      else this.(calls := c)
    }

    /** UploadFile: a record with an id updates that file's Modified; one without an id is added
        under its parent. The server answers with the stored record, or with an error status
        (None) for a refusing path or an unknown id or parent, and then stores nothing. */
    function Upload(path: string, f: BackedUpFile): (Remote, Option<BackedUpFile>) {
      var c := calls + [UploadCall(path, f)];
      if path in refusing then (this.(calls := c), None)
      else if f.id > 0 then
        if f.id <= |files| then
          (this.(files := files[f.id - 1 := files[f.id - 1].(modified := f.modified, deleted := false)], calls := c), Some(f))
        else (this.(calls := c), None)
      else if 1 <= f.parentId <= |dirs| then
        var g := f.(id := |files| + 1, deleted := false);
        (this.(files := files + [g], calls := c), Some(g))
      else (this.(calls := c), None)
    }

    /** DeleteFiles: every file of the batch becomes deleted. Its Modified stays the greatest one
        of its history: the Deleted entry carries the default Modified, which the listing, ordered
        by Modified, never picks over an uploaded one. */
    function DeleteFiles(batch: seq<BackedUpFile>): Remote {
      var ids := set f | f in batch :: f.id;
      this.(files := seq(|files|, i requires 0 <= i < |files| =>
                           if i + 1 in ids then files[i].(deleted := true) else files[i]),
            calls := calls + [DeleteFilesCall(batch)])
    }
  }

  /** `d` is the directory `name` under the directory with id `p`. */
  predicate IsChild(d: BackedUpDirectory, p: int, name: string) {
    d.parentId == Some(p) && d.name == name
  }

  /** Directories.FirstOrDefault(d => d.ParentId == p && d.Name == name), searched from `from`. */
  function FirstChild(dirs: seq<BackedUpDirectory>, p: int, name: string, from: nat): (k: Option<nat>)
    requires from <= |dirs|
    ensures k.Some? ==> from <= k.value < |dirs| && IsChild(dirs[k.value], p, name)
    ensures forall j :: from <= j < |dirs| && (k.None? || j < k.value) ==> !IsChild(dirs[j], p, name)
    decreases |dirs| - from
  {
    if from == |dirs| then None
    else if IsChild(dirs[from], p, name) then Some(from)
    else FirstChild(dirs, p, name, from + 1)
  }

  /** The files a directory lookup with files lists for the directory with id `id`. */
  function FilesOf(files: seq<BackedUpFile>, id: int): (r: seq<BackedUpFile>)
    ensures forall f :: f in r <==> f in files && f.parentId == id
  {
    if files == [] then []
    else FilesOf(files[..|files| - 1], id) + (if files[|files| - 1].parentId == id then [files[|files| - 1]] else [])
  }

  // -----------------------------------------------------------------------------------------
  // The decisions of the synchronisation

  /** GetDirectoryInfo's choice: a root (no parent id) by its full path with '\' turned into
      '/', any other directory by (parent id, directory name). */
  function Query(path: string, parentId: Option<int>): (q: DirQuery)
    ensures parentId.None? <==> q.ByPath?
    ensures q.ByPath? ==> |q.path| == |path| && forall i :: 0 <= i < |path| ==> q.path[i] == (if path[i] == '\\' then '/' else path[i])
    ensures q.ByName? ==> q.parentId == parentId.value && q.name == LastComponent(path)
  {
    match parentId
    case None => ByPath(ReplaceChar(path, '\\', '/'))
    case Some(p) => ByName(p, LastComponent(path))
  }

  /** The file names of the local files (existingFileNames), in order. */
  function LocalNames(locals: seq<LocalFile>): (names: seq<string>)
    ensures |names| == |locals|
    ensures forall i :: 0 <= i < |locals| ==> names[i] == FileName(locals[i].path)
  {
    if locals == [] then []
    else
      var init := locals[..|locals| - 1];
      assert forall i :: 0 <= i < |init| ==> init[i] == locals[i];
      LocalNames(init) + [FileName(locals[|locals| - 1].path)]
  }

  /** filesToDelete: the remote files whose name is not among the local names, in order. */
  function FilesToDelete(remoteFiles: seq<BackedUpFile>, names: seq<string>): (batch: seq<BackedUpFile>)
    ensures forall f :: f in batch <==> f in remoteFiles && f.name !in names
    ensures |batch| <= |remoteFiles|
  {
    if remoteFiles == [] then []
    else
      var last := remoteFiles[|remoteFiles| - 1];
      FilesToDelete(remoteFiles[..|remoteFiles| - 1], names) + (if last.name in names then [] else [last])
  }

  /** CheckForDeletedFiles: one DeleteFiles request with the whole batch, none when it is empty. */
  function DeletionPass(r: Remote, remoteFiles: seq<BackedUpFile>, locals: seq<LocalFile>): Remote {
    var batch := FilesToDelete(remoteFiles, LocalNames(locals));
    if |batch| > 0 then r.DeleteFiles(batch) else r
  }

  /** The position of the first file called `name` at or after `from`. */
  function FirstIndexByName(fs: seq<BackedUpFile>, name: string, from: nat): (k: Option<nat>)
    requires from <= |fs|
    ensures k.Some? ==> from <= k.value < |fs| && fs[k.value].name == name
    ensures forall j :: from <= j < |fs| && (k.None? || j < k.value) ==> fs[j].name != name
    decreases |fs| - from
  {
    if from == |fs| then None
    else if fs[from].name == name then Some(from)
    else FirstIndexByName(fs, name, from + 1)
  }

  /** directory.Files.FirstOrDefault(f => f.Name == name). */
  function FirstByName(fs: seq<BackedUpFile>, name: string): (r: Option<BackedUpFile>)
    ensures r.None? <==> forall j :: 0 <= j < |fs| ==> fs[j].name != name
    ensures r.Some? ==> exists i :: 0 <= i < |fs| && fs[i] == r.value && r.value.name == name
                                    && forall j :: 0 <= j < i ==> fs[j].name != name
  {
    match FirstIndexByName(fs, name, 0)
    case None => None
    case Some(k) => Some(fs[k])
  }

  /**
   * UpdateFile's choice for the local file `name` last written at `lastWrite`: a file the
   * directory does not list is uploaded as a new record under the directory with the local
   * time; a listed one only when the local time is strictly later, with that time.
   */
  function UploadDecision(existing: Option<BackedUpFile>, dirId: int, name: string, lastWrite: Time): (up: Option<BackedUpFile>)
    ensures existing.None? ==> up == Some(BackedUpFile(0, name, dirId, lastWrite, false))
    ensures existing.Some? ==> (up.Some? <==> lastWrite > existing.value.modified)
    ensures existing.Some? && up.Some? ==> up.value == existing.value.(modified := lastWrite)
  {
    match existing
    case None => Some(BackedUpFile(0, name, dirId, lastWrite, false))
    case Some(f) => if lastWrite > f.modified then Some(f.(modified := lastWrite)) else None
  }

  /** UpdateFile: the remote after the file is dealt with, and the record UpdateFile returns
      (the server's answer after an upload, the listed record otherwise). */
  function FileUpdate(r: Remote, dirId: int, remoteFiles: seq<BackedUpFile>, f: LocalFile): (Remote, Option<BackedUpFile>) {
    var name := FileName(f.path);
    var existing := FirstByName(remoteFiles, name);
    match UploadDecision(existing, dirId, name, f.lastWrite)
    case None => (r, existing)
    case Some(up) => r.Upload(f.path, up)
  }

  /** The foreach over the local files calling UpdateFile, against the listing fetched before. */
  function UploadPass(r: Remote, dirId: int, remoteFiles: seq<BackedUpFile>, locals: seq<LocalFile>): Remote {
    if locals == [] then r
    else FileUpdate(UploadPass(r, dirId, remoteFiles, locals[..|locals| - 1]), dirId, remoteFiles, locals[|locals| - 1]).0
  }

  /** What the lookup of `d` yields: the record found, or the one AddDirectory creates. */
  function Resolve(r: Remote, d: LocalDir, parentId: Option<int>): (Remote, BackedUpDirectory) {
    var q := Query(d.path, parentId);
    match r.Find(q)
    case Some(x) => (r, x)
    case None => r.AddDirectory(LastComponent(d.path), parentId, q)
  }

  /** dirWasModified: the remote record's Modified differs from the local last write time. */
  predicate WasModified(rec: BackedUpDirectory, d: LocalDir) {
    rec.modified != d.lastWrite
  }

  /** The files of a modified directory: deletions first, then one UpdateFile per local file. */
  function FilesPass(r: Remote, dirId: int, d: LocalDir): Remote {
    var listed := FilesOf(r.files, dirId);
    UploadPass(DeletionPass(r, listed, d.files), dirId, listed, d.files)
  }

  /** The part of SynchroniseAsync before the recursion: the directory resolved, and its files
      dealt with if it was modified. */
  function Visit(r: Remote, d: LocalDir, parentId: Option<int>): (Remote, BackedUpDirectory) {
    var (r1, rec) := Resolve(r, d, parentId);
    (if WasModified(rec, d) then FilesPass(r1, rec.id, d) else r1, rec)
  }

  /** The part after the recursion: a modified directory's Modified becomes its last write time. */
  function Commit(r: Remote, rec: BackedUpDirectory, d: LocalDir): Remote {
    if WasModified(rec, d) then r.UpdateDirectory(rec.id, d.lastWrite) else r
  }

  /**
   * SynchroniseAsync(directoryPath, parentId): resolve the directory; if it was modified, diff
   * its files; recurse into every subdirectory with the directory's id; finally, and only if it
   * was modified, commit the local last write time as its Modified.
   */
  function Synchronised(r: Remote, d: LocalDir, parentId: Option<int>): Remote
    decreases d, 1
  {
    var (r2, rec) := Visit(r, d, parentId);
    Commit(SynchronisedAll(r2, d.subdirs, rec.id), rec, d)
  }

  /** The foreach over the subdirectories, each synchronised under the parent id `p`. */
  function SynchronisedAll(r: Remote, subdirs: seq<LocalDir>, p: int): Remote
    decreases subdirs, 0
  {
    if subdirs == [] then r
    else Synchronised(SynchronisedAll(r, subdirs[..|subdirs| - 1], p), subdirs[|subdirs| - 1], Some(p))
  }

  // -----------------------------------------------------------------------------------------
  // The walk with its failure: an upload answered with an error status makes UpdateFile
  // deserialise null, which throws; the exception leaves every enclosing SynchroniseAsync, so
  // nothing more is sent, and in particular no enclosing directory is committed.

  /** Where a walk leaves the server, and whether it got to the end without an exception. */
  datatype Outcome = Outcome(remote: Remote, ok: bool)

  /** A failed walk sent nothing after the upload that was refused. */
  predicate EndsInRefusal(o: Outcome) {
    !o.ok ==> |o.remote.calls| > 0 && o.remote.calls[|o.remote.calls| - 1].UploadCall?
  }

  /** The foreach over the local files calling UpdateFile, stopped by the first refusal. */
  function UploadRun(r: Remote, dirId: int, listed: seq<BackedUpFile>, locals: seq<LocalFile>): (o: Outcome)
    ensures EndsInRefusal(o)
  {
    if locals == [] then Outcome(r, true)
    else
      var prev := UploadRun(r, dirId, listed, locals[..|locals| - 1]);
      if !prev.ok then prev
      else
        var (r1, rec) := FileUpdate(prev.remote, dirId, listed, locals[|locals| - 1]);
        assert rec.None? ==> r1.calls == prev.remote.calls + [UploadCall(locals[|locals| - 1].path, UploadDecision(FirstByName(listed, FileName(locals[|locals| - 1].path)), dirId, FileName(locals[|locals| - 1].path), locals[|locals| - 1].lastWrite).value)];
        Outcome(r1, rec.Some?)
  }

  /** Visit with its failure: the files of a modified directory may stop at a refusal. */
  function VisitRun(r: Remote, d: LocalDir, parentId: Option<int>): (res: (Outcome, BackedUpDirectory))
    ensures EndsInRefusal(res.0)
  {
    var (r1, rec) := Resolve(r, d, parentId);
    if WasModified(rec, d) then
      var listed := FilesOf(r1.files, rec.id);
      (UploadRun(DeletionPass(r1, listed, d.files), rec.id, listed, d.files), rec)
    else (Outcome(r1, true), rec)
  }

  /** SynchroniseAsync with its failure: the commit of `d` happens only when its files and all
      its subdirectories went through. */
  function SyncRun(r: Remote, d: LocalDir, parentId: Option<int>): (o: Outcome)
    ensures EndsInRefusal(o)
    decreases d, 1
  {
    var (v, rec) := VisitRun(r, d, parentId);
    if !v.ok then v
    else
      var s := SyncAllRun(v.remote, d.subdirs, rec.id);
      if !s.ok then s else Outcome(Commit(s.remote, rec, d), true)
  }

  /** The foreach over the subdirectories, stopped by the first failure. */
  function SyncAllRun(r: Remote, subdirs: seq<LocalDir>, p: int): (o: Outcome)
    ensures EndsInRefusal(o)
    decreases subdirs, 0
  {
    if subdirs == [] then Outcome(r, true)
    else
      var prev := SyncAllRun(r, subdirs[..|subdirs| - 1], p);
      if !prev.ok then prev else SyncRun(prev.remote, subdirs[|subdirs| - 1], Some(p))
  }

  /** Once the file loop has failed, the remaining files are not looked at. */
  lemma {:induction false} UploadRunStops(r: Remote, dirId: int, listed: seq<BackedUpFile>, locals: seq<LocalFile>, i: nat)
    requires i <= |locals| && !UploadRun(r, dirId, listed, locals[..i]).ok
    ensures UploadRun(r, dirId, listed, locals) == UploadRun(r, dirId, listed, locals[..i])
  {
    if i < |locals| {
      var init := locals[..|locals| - 1];
      assert init[..i] == locals[..i];
      UploadRunStops(r, dirId, listed, init, i);
    } else {
      assert locals[..i] == locals;
    }
  }

  /** Once a subdirectory's walk has failed, the remaining subdirectories are not walked. */
  lemma {:induction false} SyncAllRunStops(r: Remote, subdirs: seq<LocalDir>, p: int, k: nat)
    requires k <= |subdirs| && !SyncAllRun(r, subdirs[..k], p).ok
    ensures SyncAllRun(r, subdirs, p) == SyncAllRun(r, subdirs[..k], p)
  {
    if k < |subdirs| {
      var init := subdirs[..|subdirs| - 1];
      assert init[..k] == subdirs[..k];
      SyncAllRunStops(r, init, p, k);
    } else {
      assert subdirs[..k] == subdirs;
    }
  }

  /** The constructor's trimming of the server URI: one trailing '/' removed; the empty URI
      makes the indexing throw. */
  function TrimServerUri(uri: string): (r: Result<string, string>)
    ensures r.Ok? <==> uri != ""
    ensures r.Ok? ==> r.value + (if uri[|uri| - 1] == '/' then "/" else "") == uri
    ensures r.Ok? ==> |r.value| == |uri| - (if uri[|uri| - 1] == '/' then 1 else 0)
  {
    if uri == "" then Err("index out of range")
    else if uri[|uri| - 1] == '/' then Ok(uri[..|uri| - 1])
    else Ok(uri)
  }

  // -----------------------------------------------------------------------------------------
  // The engine

  class SyncEngine {
    /** _serverUri, trimmed. */
    const serverUri: string
    const user: string
    /** The server the engine talks to. */
    var remote: Remote

    constructor (serverUri: string, user: string, remote: Remote)
      requires TrimServerUri(serverUri).Ok?
      ensures this.serverUri == TrimServerUri(serverUri).value && this.user == user && this.remote == remote
    {
      var trimmed := serverUri;
      if trimmed[|trimmed| - 1] == '/' {
        trimmed := trimmed[..|trimmed| - 1];
      }
      this.serverUri := trimmed;
      this.user := user;
      this.remote := remote;
    }

    /** GetDirectoryInfo: the record the query resolves to, with its files when asked for. */
    method GetDirectoryInfo(path: string, parentId: Option<int>, includeFiles: bool) returns (dir: Option<BackedUpDirectory>, files: seq<BackedUpFile>)
      ensures dir == remote.Find(Query(path, parentId))
      ensures files == if includeFiles && dir.Some? then FilesOf(remote.files, dir.value.id) else []
    {
      var q := if parentId.None? then ByPath(ReplaceChar(path, '\\', '/')) else ByName(parentId.value, LastComponent(path));
      dir := remote.Find(q);
      files := if includeFiles && dir.Some? then FilesOf(remote.files, dir.value.id) else [];
    }

    /** AddDirectory: the record the server creates for `name` under `parentId`. */
    method AddDirectory(name: string, parentId: Option<int>, lookup: DirQuery) returns (dir: BackedUpDirectory)
      modifies this`remote
      ensures (remote, dir) == old(remote).AddDirectory(name, parentId, lookup)
    {
      var res := remote.AddDirectory(name, parentId, lookup);
      remote := res.0;
      dir := res.1;
    }

    /** UpdateDirectory: sends the record with its new Modified. */
    method UpdateDirectory(dir: BackedUpDirectory)
      modifies this`remote
      ensures remote == old(remote).UpdateDirectory(dir.id, dir.modified)
    {
      remote := remote.UpdateDirectory(dir.id, dir.modified);
    }

    /** Upload: sends the record and the file; the server's answer, or None when it refuses. */
    method Upload(path: string, f: BackedUpFile) returns (answer: Option<BackedUpFile>)
      modifies this`remote
      ensures (remote, answer) == old(remote).Upload(path, f)
    {
      var res := remote.Upload(path, f);
      remote := res.0;
      answer := res.1;
    }

    /** CheckForDeletedFiles: collects the local names, then the listed files not among them,
        and sends them in one batch if there are any. */
    method CheckForDeletedFiles(listed: seq<BackedUpFile>, locals: seq<LocalFile>)
      modifies this`remote
      ensures remote == DeletionPass(old(remote), listed, locals)
    {
      var names := ExistingFileNames(locals);
      var batch := CollectFilesToDelete(listed, names);
      if |batch| > 0 {
        remote := remote.DeleteFiles(batch);
      }
    }

    /** UpdateFile: looks the file up by name in the listing and uploads it when it is new or
        newer. */
    method UpdateFile(dirId: int, listed: seq<BackedUpFile>, f: LocalFile) returns (rec: Option<BackedUpFile>)
      modifies this`remote
      ensures (remote, rec) == FileUpdate(old(remote), dirId, listed, f)
    {
      var name := FileName(f.path);
      rec := FirstByName(listed, name);
      if rec.None? {
        var added := BackedUpFile(0, name, dirId, f.lastWrite, false);
        rec := Upload(f.path, added);
      } else if f.lastWrite > rec.value.modified {
        var changed := rec.value.(modified := f.lastWrite);
        rec := Upload(f.path, changed);
      }
    }

    /** SynchroniseAsync: the whole walk. It answers true when it gets to the end; false stands
        for the exception a refused upload raises, which stops the walk where it happened. */
    method Synchronise(d: LocalDir, parentId: Option<int>) returns (ok: bool)
      modifies this`remote
      ensures Outcome(remote, ok) == SyncRun(old(remote), d, parentId)
      decreases d, 1
    {
      ghost var r0 := remote;
      var dir := ResolveDirectory(d, parentId);
      var modified := dir.modified != d.lastWrite;
      if modified {
        FindAfterResolve(r0, d, parentId);
        var again, listed := GetDirectoryInfo(d.path, parentId, true);
        dir := again.value;
        ok := SynchroniseFiles(dir.id, listed, d.files);
        if !ok {
          return;
        }
      }
      ok := SynchroniseSubdirectories(d.subdirs, dir.id);
      if !ok {
        return;
      }
      if modified {
        dir := dir.(modified := d.lastWrite);
        UpdateDirectory(dir);
      }
    }

    /** The lookup at the head of SynchroniseAsync, with AddDirectory when it finds nothing. */
    method ResolveDirectory(d: LocalDir, parentId: Option<int>) returns (dir: BackedUpDirectory)
      modifies this`remote
      ensures (remote, dir) == Resolve(old(remote), d, parentId)
    {
      var found, _ := GetDirectoryInfo(d.path, parentId, false);
      if found.Some? {
        dir := found.value;
      } else {
        dir := AddDirectory(LastComponent(d.path), parentId, Query(d.path, parentId));
      }
    }

    /** The files of a modified directory: CheckForDeletedFiles, then UpdateFile for each local
        file, all against one listing. */
    method SynchroniseFiles(dirId: int, listed: seq<BackedUpFile>, locals: seq<LocalFile>) returns (ok: bool)
      modifies this`remote
      ensures Outcome(remote, ok) == UploadRun(DeletionPass(old(remote), listed, locals), dirId, listed, locals)
    {
      CheckForDeletedFiles(listed, locals);
      ok := UpdateFiles(dirId, listed, locals);
    }

    /** The foreach over the local files calling UpdateFile; a refused upload (the null answer
        DeserializeObject throws on) ends it. */
    method UpdateFiles(dirId: int, listed: seq<BackedUpFile>, locals: seq<LocalFile>) returns (ok: bool)
      modifies this`remote
      ensures Outcome(remote, ok) == UploadRun(old(remote), dirId, listed, locals)
    {
      ghost var r := remote;
      ok := true;
      var i := 0;
      while i < |locals|
        invariant 0 <= i <= |locals|
        invariant Outcome(remote, true) == UploadRun(r, dirId, listed, locals[..i])
      {
        assert locals[..i + 1][..i] == locals[..i];
        var rec := UpdateFile(dirId, listed, locals[i]);
        i := i + 1;
        if rec.None? {
          ok := false;
          UploadRunStops(r, dirId, listed, locals, i);
          return;
        }
      }
      assert locals[..|locals|] == locals;
    }

    /** The foreach over the subdirectories of SynchroniseAsync. */
    method SynchroniseSubdirectories(subdirs: seq<LocalDir>, p: int) returns (ok: bool)
      modifies this`remote
      ensures Outcome(remote, ok) == SyncAllRun(old(remote), subdirs, p)
      decreases subdirs, 0
    {
      ghost var r := remote;
      ok := true;
      var k := 0;
      while k < |subdirs|
        invariant 0 <= k <= |subdirs|
        invariant Outcome(remote, true) == SyncAllRun(r, subdirs[..k], p)
      {
        assert subdirs[..k + 1][..k] == subdirs[..k];
        ok := Synchronise(subdirs[k], Some(p));
        k := k + 1;
        if !ok {
          SyncAllRunStops(r, subdirs, p, k);
          return;
        }
      }
      assert subdirs[..|subdirs|] == subdirs;
    }
  }

  /** The first foreach of CheckForDeletedFiles: the file name of every local file, in order. */
  method ExistingFileNames(locals: seq<LocalFile>) returns (names: seq<string>)
    ensures names == LocalNames(locals)
  {
    names := [];
    var i := 0;
    while i < |locals|
      invariant 0 <= i <= |locals|
      invariant names == LocalNames(locals[..i])
    {
      assert locals[..i + 1][..i] == locals[..i];
      names := names + [FileName(locals[i].path)];
      i := i + 1;
    }
    assert locals[..|locals|] == locals;
  }

  /** The second foreach of CheckForDeletedFiles: every listed file whose name no local file
      has, in listing order. */
  method CollectFilesToDelete(listed: seq<BackedUpFile>, names: seq<string>) returns (batch: seq<BackedUpFile>)
    ensures batch == FilesToDelete(listed, names)
  {
    batch := [];
    var j := 0;
    while j < |listed|
      invariant 0 <= j <= |listed|
      invariant batch == FilesToDelete(listed[..j], names)
    {
      assert listed[..j + 1][..j] == listed[..j];
      if listed[j].name !in names {
        batch := batch + [listed[j]];
      }
      j := j + 1;
    }
    assert listed[..|listed|] == listed;
  }

  /** The second lookup of a directory finds the record the first one resolved to. */
  lemma FindAfterResolve(r: Remote, d: LocalDir, parentId: Option<int>)
    ensures var (r1, rec) := Resolve(r, d, parentId); r1.Find(Query(d.path, parentId)) == Some(rec)
  {
    var q := Query(d.path, parentId);
    if r.Find(q).None? {
      FindAfterAdd(r, LastComponent(d.path), parentId, q);
    }
  }

  /** A directory added because its lookup failed is what the lookup finds from then on. */
  lemma FindAfterAdd(r: Remote, name: string, parentId: Option<int>, q: DirQuery)
    requires r.Find(q).None?
    requires q.ByPath? <==> parentId.None?
    requires q.ByName? ==> q == ByName(parentId.value, name)
    ensures var (r1, rec) := r.AddDirectory(name, parentId, q); r1.Find(q) == Some(rec)
  {
    if q.ByName? {
      var (r1, rec) := r.AddDirectory(name, parentId, q);
      var k := FirstChild(r1.dirs, q.parentId, name, 0);
      assert r1.dirs[|r.dirs|] == rec;
    }
  }
}
