/**
 * ServerApi/Database/DatabaseService.cs with the entity shapes of ServerApi/Database/Model.cs:
 * the server's store of directory and file records with their append-only histories. A record's
 * row holds only its name and parent; its Modified and Deleted are whatever its history says.
 * Every table is a sequence whose keys are positions plus one, each operation is one
 * SaveChanges (all of it is stored, or none of it), and the clocks are parameters.
 *
 * Foreign keys are enforced, as the SQLite and MySQL providers do: a row naming a parent or an
 * owning record that does not exist makes SaveChanges throw and nothing is stored.
 */
module Database {
  import opened Wrappers
  import opened Text
  import opened Entities

  // -----------------------------------------------------------------------------------------
  // Tables and histories

  /** A row of the Directories table; its Id is its position plus one. */
  datatype DirectoryRow = DirectoryRow(name: string, parentId: Option<int>)

  /** A row of the Files table; its Id is its position plus one. */
  datatype FileRow = FileRow(name: string, parentId: int)

  /** A row of DirectoryHistory or FileHistory: the record it belongs to and what it says. */
  datatype History = History(entityId: int, modified: Time, lastSeen: Time, deleted: bool)

  /** The exceptions the operations can throw. */
  datatype DbError =
    | InvalidData            // InvalidDataException: a file without a parent
    | ForeignKeyViolation    // SaveChanges refused a row naming a record that does not exist
    | NullReference          // a member access on null

  /** DateTime.UtcNow and the local offset that DateTime.Now adds to it. */
  datatype Clock = Clock(utc: Time, offset: int) {
    /** DateTime.Now. */
    function Now(): Time {
      utc + offset
    }
  }

  /** The column a history query orders by, descending. */
  datatype Order = ByLastSeen | ByModified

  function Key(e: History, o: Order): Time {
    match o
    case ByLastSeen => e.lastSeen
    case ByModified => e.modified
  }

  /** Some entry of `h` belongs to record `id`. */
  ghost predicate Recorded(h: seq<History>, id: int) {
    exists j :: 0 <= j < |h| && h[j].entityId == id
  }

  /** Entry `j` is the one `OrderByDescending(key).FirstOrDefault(entityId == id)` yields: an
      entry of `id` with the greatest key, and the earliest of those (the ordering is stable). */
  ghost predicate FirstOfGreatest(h: seq<History>, id: int, o: Order, j: int) {
    && 0 <= j < |h| && h[j].entityId == id
    && (forall i :: 0 <= i < |h| && h[i].entityId == id ==> Key(h[i], o) <= Key(h[j], o))
    && (forall i :: 0 <= i < j && h[i].entityId == id ==> Key(h[i], o) < Key(h[j], o))
  }

  /** The history query: the position of the entry it picks, None when `id` has no entry. */
  function Pick(h: seq<History>, id: int, o: Order): (k: Option<nat>)
    ensures k.Some? ==> k.value < |h| && h[k.value].entityId == id
  {
    if h == [] then None
    else
      var prev := Pick(h[..|h| - 1], id, o);
      var e := h[|h| - 1];
      if e.entityId == id && (prev.None? || Key(e, o) > Key(h[prev.value], o)) then Some(|h| - 1) else prev
  }

  /** The query finds an entry exactly when the record has one, and the entry it finds is the
      first of those with the greatest key. */
  lemma {:induction false} PickSpec(h: seq<History>, id: int, o: Order)
    ensures Pick(h, id, o).None? <==> !Recorded(h, id)
    ensures Pick(h, id, o).Some? ==> FirstOfGreatest(h, id, o, Pick(h, id, o).value)
    decreases |h|
  {
    if h != [] {
      var init := h[..|h| - 1];
      PickSpec(init, id, o);
      if Recorded(h, id) && !Recorded(init, id) {
        assert h[|h| - 1].entityId == id;
      }
      if Recorded(init, id) {
        var j :| 0 <= j < |init| && init[j].entityId == id;
        assert h[j] == init[j];
      }
    }
  }

  /** The query picks exactly one entry: the one FirstOfGreatest describes. */
  lemma PickUnique(h: seq<History>, id: int, o: Order, j: int)
    requires FirstOfGreatest(h, id, o, j)
    ensures Pick(h, id, o) == Some(j)
  {
    PickSpec(h, id, o);
  }

  /** An entry later than every earlier entry of its record is the one the query picks. */
  lemma NewestEntryWins(h: seq<History>, e: History, o: Order)
    requires forall j :: 0 <= j < |h| && h[j].entityId == e.entityId ==> Key(h[j], o) < Key(e, o)
    ensures Pick(h + [e], e.entityId, o) == Some(|h|)
  {
    assert (h + [e])[..|h|] == h;
  }

  /** An entry no later than an earlier entry of its record changes nothing the query sees. */
  lemma ShadowedEntry(h: seq<History>, e: History, o: Order, j: int)
    requires 0 <= j < |h| && h[j].entityId == e.entityId && Key(e, o) <= Key(h[j], o)
    ensures Pick(h + [e], e.entityId, o) == Pick(h, e.entityId, o)
  {
    assert (h + [e])[..|h|] == h;
    PickSpec(h, e.entityId, o);
  }

  /** Entries appended for other records leave a record's pick where it was. */
  lemma {:induction false} OtherEntries(h: seq<History>, extra: seq<History>, id: int, o: Order)
    requires forall j :: 0 <= j < |extra| ==> extra[j].entityId != id
    ensures Pick(h + extra, id, o) == Pick(h, id, o)
    decreases |extra|
  {
    if extra == [] {
      assert h + extra == h;
    } else {
      var init := extra[..|extra| - 1];
      assert (h + extra)[..|h + extra| - 1] == h + init;
      OtherEntries(h, init, id, o);
    }
  }

  /** Appending entries keeps every record recorded. */
  lemma RecordedAppend(h: seq<History>, extra: seq<History>, n: int)
    requires forall id :: 1 <= id <= n ==> Recorded(h, id)
    ensures forall id :: 1 <= id <= n ==> Recorded(h + extra, id)
  {
    forall id | 1 <= id <= n
      ensures Recorded(h + extra, id)
    {
      assert Recorded(h, id);
      var j :| 0 <= j < |h| && h[j].entityId == id;
      assert (h + extra)[j] == h[j];
    }
  }

  /** The entries of the records a SaveChanges adds, one per record. */
  function Entries(ids: seq<int>, modified: Time, now: Time, deleted: bool): (es: seq<History>)
    ensures |es| == |ids|
    ensures forall k :: 0 <= k < |ids| ==> es[k] == History(ids[k], modified, now, deleted)
  {
    seq(|ids|, k requires 0 <= k < |ids| => History(ids[k], modified, now, deleted))
  }

  // -----------------------------------------------------------------------------------------
  // Directory lookups and the path walk

  /** Directories.FirstOrDefault(d => d.Name == name && d.ParentId == parentId), in key order;
      a null parent matches the roots. */
  function FirstDirectory(rows: seq<DirectoryRow>, name: string, parentId: Option<int>): (k: Option<nat>)
    ensures k.Some? ==> k.value < |rows| && rows[k.value] == DirectoryRow(name, parentId)
    ensures forall j :: 0 <= j < |rows| && (k.None? || j < k.value) ==> rows[j] != DirectoryRow(name, parentId)
  {
    if rows == [] then None
    else
      var prev := FirstDirectory(rows[..|rows| - 1], name, parentId);
      if prev.Some? then prev
      else if rows[|rows| - 1] == DirectoryRow(name, parentId) then Some(|rows| - 1)
      else None
  }

  /** Parents precede their children. */
  ghost predicate ParentsPrecede(rows: seq<DirectoryRow>) {
    forall i :: 0 <= i < |rows| && rows[i].parentId.Some? ==> 1 <= rows[i].parentId.value <= i
  }

  /** Every history entry names one of the `n` records. */
  ghost predicate KeysExist(h: seq<History>, n: int) {
    forall j :: 0 <= j < |h| ==> 1 <= h[j].entityId <= n
  }

  /** Every one of the `n` records has a history entry. */
  ghost predicate AllRecorded(h: seq<History>, n: int) {
    forall id :: 1 <= id <= n ==> Recorded(h, id)
  }

  /** The directory tables the path walk reads and extends. */
  datatype DirTables = DirTables(rows: seq<DirectoryRow>, hist: seq<History>)

  ghost predicate DirTablesValid(t: DirTables) {
    ParentsPrecede(t.rows) && KeysExist(t.hist, |t.rows|) && AllRecorded(t.hist, |t.rows|)
  }

  /** A parent the walk may pass: none, or an existing directory. */
  ghost predicate ParentExists(rows: seq<DirectoryRow>, parentId: Option<int>) {
    parentId.None? || 1 <= parentId.value <= |rows|
  }

  /** One component of GetDirectory(path): the directory `name` under `parentId`, created with a
      history entry carrying the default Modified when it does not exist. */
  function WalkStep(t: DirTables, name: string, parentId: Option<int>, now: Time): (DirTables, int) {
    match FirstDirectory(t.rows, name, parentId)
    case Some(k) => (t, k + 1)
    case None =>
      var id := |t.rows| + 1;
      (DirTables(t.rows + [DirectoryRow(name, parentId)], t.hist + [History(id, MinTime, now, false)]), id)
  }

  /** The foreach of GetDirectory(path) over the components from `from` on, starting under
      `parentId`: the tables afterwards and the final value of `parentId`. */
  function Walk(t: DirTables, comps: seq<string>, from: nat, parentId: Option<int>, now: Time): (DirTables, Option<int>)
    requires from <= |comps|
    decreases |comps| - from
  {
    if from == |comps| then (t, parentId)
    else
      var step := WalkStep(t, comps[from], parentId, now);
      Walk(step.0, comps, from + 1, Some(step.1), now)
  }

  /** The directory the components from `from` on name under `parentId`, if they all exist. */
  function Lookup(rows: seq<DirectoryRow>, comps: seq<string>, from: nat, parentId: Option<int>): Option<int>
    requires from <= |comps|
    decreases |comps| - from
  {
    if from == |comps| then parentId
    else
      match FirstDirectory(rows, comps[from], parentId)
      case None => None
      case Some(k) => Lookup(rows, comps, from + 1, Some(k + 1))
  }

  /** A new directory under an existing parent, with its entry, keeps the tables valid. */
  lemma AddRowValid(t: DirTables, row: DirectoryRow, e: History)
    requires DirTablesValid(t) && ParentExists(t.rows, row.parentId) && e.entityId == |t.rows| + 1
    ensures DirTablesValid(DirTables(t.rows + [row], t.hist + [e]))
  {
    RecordedAppend(t.hist, [e], |t.rows|);
    assert (t.hist + [e])[|t.hist|] == e;
  }

  /** A directory not yet present is found at the end once appended. */
  lemma FirstDirectoryAppend(rows: seq<DirectoryRow>, row: DirectoryRow)
    requires FirstDirectory(rows, row.name, row.parentId).None?
    ensures FirstDirectory(rows + [row], row.name, row.parentId) == Some(|rows|)
  {
    assert (rows + [row])[..|rows|] == rows;
  }

  /** One step only appends: a new directory under an existing parent, with one entry, or nothing. */
  lemma WalkStepFacts(t: DirTables, name: string, parentId: Option<int>, now: Time) returns (t1: DirTables, id: int)
    requires DirTablesValid(t) && ParentExists(t.rows, parentId)
    ensures t1 == WalkStep(t, name, parentId, now).0 && id == WalkStep(t, name, parentId, now).1
    ensures DirTablesValid(t1) && 1 <= id <= |t1.rows|
    ensures FirstDirectory(t1.rows, name, parentId) == Some(id - 1)
    ensures t.rows <= t1.rows && t.hist <= t1.hist
    ensures t1 == t || (t1.rows == t.rows + [DirectoryRow(name, parentId)] && t1.hist == t.hist + [History(|t1.rows|, MinTime, now, false)])
  {
    t1, id := WalkStep(t, name, parentId, now).0, WalkStep(t, name, parentId, now).1;
    if FirstDirectory(t.rows, name, parentId).None? {
      AddRowValid(t, DirectoryRow(name, parentId), History(id, MinTime, now, false));
      FirstDirectoryAppend(t.rows, DirectoryRow(name, parentId));
    }
  }

  /** The history entries of the directories with keys lo + 1 to hi, created at `now`. */
  function CreatedEntries(lo: int, hi: int, now: Time): (es: seq<History>)
    decreases hi - lo
  {
    if lo >= hi then [] else [History(lo + 1, MinTime, now, false)] + CreatedEntries(lo + 1, hi, now)
  }

  /** The entries of one created directory followed by those of the ones created after it. */
  lemma CreatedEntriesStep(h: seq<History>, lo: int, hi: int, now: Time)
    requires lo < hi
    ensures h + [History(lo + 1, MinTime, now, false)] + CreatedEntries(lo + 1, hi, now) == h + CreatedEntries(lo, hi, now)
  {
    assert h + [History(lo + 1, MinTime, now, false)] + CreatedEntries(lo + 1, hi, now)
        == h + ([History(lo + 1, MinTime, now, false)] + CreatedEntries(lo + 1, hi, now));
  }

  /** The walk keeps the tables valid and only appends rows to them. */
  lemma {:induction false} WalkKeepsValid(t: DirTables, comps: seq<string>, from: nat, parentId: Option<int>, now: Time)
    requires from <= |comps| && DirTablesValid(t) && ParentExists(t.rows, parentId)
    ensures DirTablesValid(Walk(t, comps, from, parentId, now).0)
    ensures t.rows <= Walk(t, comps, from, parentId, now).0.rows
    decreases |comps| - from
  {
    if from < |comps| {
      var t1, id := WalkStepFacts(t, comps[from], parentId, now);
      WalkKeepsValid(t1, comps, from + 1, Some(id), now);
    }
  }

  /**
   * Each directory the walk creates gets exactly one history entry, carrying the default
   * Modified and the walk's time, in the order of creation; nothing else is added.
   */
  lemma {:induction false} WalkHistory(t: DirTables, comps: seq<string>, from: nat, parentId: Option<int>, now: Time)
    requires from <= |comps| && DirTablesValid(t) && ParentExists(t.rows, parentId)
    ensures var t2 := Walk(t, comps, from, parentId, now).0;
      t2.hist == t.hist + CreatedEntries(|t.rows|, |t2.rows|, now)
    decreases |comps| - from
  {
    if from < |comps| {
      var t1, id := WalkStepFacts(t, comps[from], parentId, now);
      WalkHistory(t1, comps, from + 1, Some(id), now);
      WalkKeepsValid(t1, comps, from + 1, Some(id), now);
      var t2 := Walk(t1, comps, from + 1, Some(id), now).0;
      if t1 != t {
        CreatedEntriesStep(t.hist, |t.rows|, |t2.rows|, now);
      }
    }
  }

  /** Walking through existing records reaches the directory they name without creating one. */
  lemma {:induction false} WalkExisting(t: DirTables, comps: seq<string>, from: nat, parentId: Option<int>, now: Time)
    requires from <= |comps| && Lookup(t.rows, comps, from, parentId).Some?
    ensures Walk(t, comps, from, parentId, now) == (t, Lookup(t.rows, comps, from, parentId))
    decreases |comps| - from
  {
    if from < |comps| {
      var k := FirstDirectory(t.rows, comps[from], parentId).value;
      WalkExisting(t, comps, from + 1, Some(k + 1), now);
    }
  }

  /** A directory found among some rows is still the first match once rows are appended. */
  lemma FirstDirectoryStable(rows: seq<DirectoryRow>, rows2: seq<DirectoryRow>, name: string, parentId: Option<int>)
    requires rows <= rows2 && FirstDirectory(rows, name, parentId).Some?
    ensures FirstDirectory(rows2, name, parentId) == FirstDirectory(rows, name, parentId)
  {
    var k := FirstDirectory(rows, name, parentId).value;
    var k2 := FirstDirectory(rows2, name, parentId);
    assert rows2[k] == rows[k];
  }

  /**
   * The walk ends at the directory the path names in the tables it leaves: every component
   * exists afterwards, each under the previous one, and the walk's result is the last of them.
   */
  lemma {:induction false} WalkFinds(t: DirTables, comps: seq<string>, from: nat, parentId: Option<int>, now: Time)
    requires from <= |comps|
    ensures Lookup(Walk(t, comps, from, parentId, now).0.rows, comps, from, parentId) == Walk(t, comps, from, parentId, now).1
    ensures from < |comps| ==> Walk(t, comps, from, parentId, now).1.Some?
    decreases |comps| - from
  {
    if from < |comps| {
      var step := WalkStep(t, comps[from], parentId, now);
      StepFinds(t, comps[from], parentId, now);
      WalkFinds(step.0, comps, from + 1, Some(step.1), now);
      var w := Walk(step.0, comps, from + 1, Some(step.1), now);
      assert Walk(t, comps, from, parentId, now) == w;
      WalkRowsGrow(step.0, comps, from + 1, Some(step.1), now);
      FirstDirectoryStable(step.0.rows, w.0.rows, comps[from], parentId);
      LookupStep(w.0.rows, comps, from, parentId, step.1 - 1);
      if from + 1 == |comps| {
        assert w == (step.0, Some(step.1));
      }
    }
  }

  /** One step finds or appends the directory it names, and removes no row. */
  lemma StepFinds(t: DirTables, name: string, parentId: Option<int>, now: Time)
    ensures var step := WalkStep(t, name, parentId, now);
      && t.rows <= step.0.rows && step.1 >= 1
      && FirstDirectory(step.0.rows, name, parentId) == Some(step.1 - 1)
  {
    if FirstDirectory(t.rows, name, parentId).None? {
      FirstDirectoryAppend(t.rows, DirectoryRow(name, parentId));
    }
  }

  /** The walk removes no row. */
  lemma {:induction false} WalkRowsGrow(t: DirTables, comps: seq<string>, from: nat, parentId: Option<int>, now: Time)
    requires from <= |comps|
    ensures t.rows <= Walk(t, comps, from, parentId, now).0.rows
    decreases |comps| - from
  {
    if from < |comps| {
      var step := WalkStep(t, comps[from], parentId, now);
      StepFinds(t, comps[from], parentId, now);
      WalkRowsGrow(step.0, comps, from + 1, Some(step.1), now);
    }
  }

  /** A lookup through a component that exists goes on under it. */
  lemma LookupStep(rows: seq<DirectoryRow>, comps: seq<string>, from: nat, parentId: Option<int>, k: nat)
    requires from < |comps| && FirstDirectory(rows, comps[from], parentId) == Some(k)
    ensures Lookup(rows, comps, from, parentId) == Lookup(rows, comps, from + 1, Some(k + 1))
  {
  }

  /** What a lookup that succeeds finds is a directory named by the last component. */
  lemma {:induction false} LookupNamesLast(rows: seq<DirectoryRow>, comps: seq<string>, from: nat, parentId: Option<int>)
    requires from < |comps| && Lookup(rows, comps, from, parentId).Some?
    ensures var id := Lookup(rows, comps, from, parentId).value;
      1 <= id <= |rows| && rows[id - 1].name == comps[|comps| - 1]
    decreases |comps| - from
  {
    var k := FirstDirectory(rows, comps[from], parentId).value;
    if from + 1 < |comps| {
      LookupNamesLast(rows, comps, from + 1, Some(k + 1));
    }
  }

  /** GetDirectory(path) twice: the second walk creates nothing and ends where the first did. */
  lemma WalkIdempotent(t: DirTables, comps: seq<string>, now: Time, later: Time)
    requires |comps| > 0 && DirTablesValid(t)
    ensures var first := Walk(t, comps, 0, None, now);
      Walk(first.0, comps, 0, None, later) == first
  {
    WalkFinds(t, comps, 0, None, now);
    WalkExisting(Walk(t, comps, 0, None, now).0, comps, 0, None, later);
  }

  // -----------------------------------------------------------------------------------------
  // What the lookups return

  /** A directory as a lookup returns it, optionally with the children it loads. */
  datatype DirectoryListing = DirectoryListing(dir: BackedUpDirectory, files: seq<BackedUpFile>, subdirs: seq<BackedUpDirectory>)

  /** The Modified a loaded child carries: its entry's by the query ordering by `o`, or the
      default when nothing is looked up (`o` is None) or no entry exists. */
  function ModifiedOf(hist: seq<History>, id: int, o: Option<Order>): Time {
    if o.None? then MinTime
    else match Pick(hist, id, o.value)
      case None => MinTime
      case Some(j) => hist[j].modified
  }

  /** The files under directory `id`, in key order, each with ModifiedOf its history. */
  function ChildFiles(rows: seq<FileRow>, hist: seq<History>, id: int, o: Option<Order>): seq<BackedUpFile> {
    if rows == [] then []
    else
      var n := |rows| - 1;
      var prev := ChildFiles(rows[..n], hist, id, o);
      if rows[n].parentId != id then prev
      else prev + [BackedUpFile(n + 1, rows[n].name, id, ModifiedOf(hist, n + 1, o), false)]
  }

  /** Every file listed is a file of directory `id`, not deleted, with ModifiedOf its history. */
  lemma {:induction false} ChildFilesSound(rows: seq<FileRow>, hist: seq<History>, id: int, o: Option<Order>)
    ensures forall k :: 0 <= k < |ChildFiles(rows, hist, id, o)| ==>
      && 1 <= ChildFiles(rows, hist, id, o)[k].id <= |rows|
      && rows[ChildFiles(rows, hist, id, o)[k].id - 1] == FileRow(ChildFiles(rows, hist, id, o)[k].name, id)
      && ChildFiles(rows, hist, id, o)[k].parentId == id && !ChildFiles(rows, hist, id, o)[k].deleted
      && ChildFiles(rows, hist, id, o)[k].modified == ModifiedOf(hist, ChildFiles(rows, hist, id, o)[k].id, o)
    decreases |rows|
  {
    if rows != [] {
      var n := |rows| - 1;
      var init := rows[..n];
      ChildFilesSound(init, hist, id, o);
      var prev := ChildFiles(init, hist, id, o);
      forall k | 0 <= k < |prev|
        ensures rows[prev[k].id - 1] == init[prev[k].id - 1]
      {
      }
    }
  }

  /** Every file of directory `id` is listed. */
  lemma {:induction false} ChildFilesComplete(rows: seq<FileRow>, hist: seq<History>, id: int, o: Option<Order>, i: int)
    requires 0 <= i < |rows| && rows[i].parentId == id
    ensures exists k :: 0 <= k < |ChildFiles(rows, hist, id, o)| && ChildFiles(rows, hist, id, o)[k].id == i + 1
    decreases |rows|
  {
    var n := |rows| - 1;
    var prev := ChildFiles(rows[..n], hist, id, o);
    if i < n {
      ChildFilesComplete(rows[..n], hist, id, o, i);
      var k :| 0 <= k < |prev| && prev[k].id == i + 1;
      assert ChildFiles(rows, hist, id, o)[k] == prev[k];
    } else {
      assert ChildFiles(rows, hist, id, o)[|prev|].id == i + 1;
    }
  }

  /** The subdirectories of directory `id`, in key order, each with ModifiedOf its history. */
  function ChildDirectories(rows: seq<DirectoryRow>, hist: seq<History>, id: int, o: Option<Order>): seq<BackedUpDirectory> {
    if rows == [] then []
    else
      var n := |rows| - 1;
      var prev := ChildDirectories(rows[..n], hist, id, o);
      if rows[n].parentId != Some(id) then prev
      else prev + [BackedUpDirectory(n + 1, rows[n].name, Some(id), ModifiedOf(hist, n + 1, o), false)]
  }

  /** Every subdirectory listed is a child of directory `id`, not deleted, with ModifiedOf its history. */
  lemma {:induction false} ChildDirectoriesSound(rows: seq<DirectoryRow>, hist: seq<History>, id: int, o: Option<Order>)
    ensures forall k :: 0 <= k < |ChildDirectories(rows, hist, id, o)| ==>
      && 1 <= ChildDirectories(rows, hist, id, o)[k].id <= |rows|
      && rows[ChildDirectories(rows, hist, id, o)[k].id - 1] == DirectoryRow(ChildDirectories(rows, hist, id, o)[k].name, Some(id))
      && ChildDirectories(rows, hist, id, o)[k].parentId == Some(id) && !ChildDirectories(rows, hist, id, o)[k].deleted
      && ChildDirectories(rows, hist, id, o)[k].modified == ModifiedOf(hist, ChildDirectories(rows, hist, id, o)[k].id, o)
    decreases |rows|
  {
    if rows != [] {
      var n := |rows| - 1;
      var init := rows[..n];
      ChildDirectoriesSound(init, hist, id, o);
      var prev := ChildDirectories(init, hist, id, o);
      forall k | 0 <= k < |prev|
        ensures rows[prev[k].id - 1] == init[prev[k].id - 1]
      {
      }
    }
  }

  /** Every child of directory `id` is listed. */
  lemma {:induction false} ChildDirectoriesComplete(rows: seq<DirectoryRow>, hist: seq<History>, id: int, o: Option<Order>, i: int)
    requires 0 <= i < |rows| && rows[i].parentId == Some(id)
    ensures exists k :: 0 <= k < |ChildDirectories(rows, hist, id, o)| && ChildDirectories(rows, hist, id, o)[k].id == i + 1
    decreases |rows|
  {
    var n := |rows| - 1;
    var prev := ChildDirectories(rows[..n], hist, id, o);
    if i < n {
      ChildDirectoriesComplete(rows[..n], hist, id, o, i);
      var k :| 0 <= k < |prev| && prev[k].id == i + 1;
      assert ChildDirectories(rows, hist, id, o)[k] == prev[k];
    } else {
      assert ChildDirectories(rows, hist, id, o)[|prev|].id == i + 1;
    }
  }

  /** Ordered by Modified, a child carries the greatest Modified among its entries: a deletion
      entry, whose Modified is the default, never hides an earlier upload's. */
  lemma ModifiedByModifiedIsGreatest(hist: seq<History>, id: int, j: int)
    requires 0 <= j < |hist| && hist[j].entityId == id
    ensures hist[j].modified <= ModifiedOf(hist, id, Some(ByModified))
  {
    PickSpec(hist, id, ByModified);
  }

  /** Files.FirstOrDefault(f => f.Name == name && f.ParentId == parentId), in key order. */
  function FirstFile(rows: seq<FileRow>, name: string, parentId: int): (k: Option<nat>)
    ensures k.Some? ==> k.value < |rows| && rows[k.value] == FileRow(name, parentId)
    ensures forall j :: 0 <= j < |rows| && (k.None? || j < k.value) ==> rows[j] != FileRow(name, parentId)
  {
    if rows == [] then None
    else
      var prev := FirstFile(rows[..|rows| - 1], name, parentId);
      if prev.Some? then prev
      else if rows[|rows| - 1] == FileRow(name, parentId) then Some(|rows| - 1)
      else None
  }

  /** The keys of some records. */
  function Ids(batch: seq<BackedUpFile>): (ids: seq<int>)
    ensures |ids| == |batch| && forall k :: 0 <= k < |batch| ==> ids[k] == batch[k].id
  {
    seq(|batch|, k requires 0 <= k < |batch| => batch[k].id)
  }

  /** Files have existing parents; file history entries name existing files; every file has one. */
  ghost predicate FileTablesValid(files: seq<FileRow>, hist: seq<History>, directoryCount: int) {
    && (forall i :: 0 <= i < |files| ==> 1 <= files[i].parentId <= directoryCount)
    && KeysExist(hist, |files|) && AllRecorded(hist, |files|)
  }

  // -----------------------------------------------------------------------------------------
  // The service

  class DatabaseService {
    var directories: seq<DirectoryRow>
    var files: seq<FileRow>
    var directoryHistory: seq<History>
    var fileHistory: seq<History>

    ghost predicate Valid()
      reads this
    {
      DirTablesValid(DirTables(directories, directoryHistory)) && FileTablesValid(files, fileHistory, |directories|)
    }

    /** The private constructor: EnsureCreated on an empty database. */
    constructor ()
      ensures Valid()
      ensures directories == [] && files == [] && directoryHistory == [] && fileHistory == []
    {
      directories := [];
      files := [];
      directoryHistory := [];
      fileHistory := [];
    }

    /** The directory with key `id` as a lookup returns it: Modified and Deleted from the first
        entry with the greatest LastSeen. */
    function DirectoryRecord(id: int): (d: BackedUpDirectory)
      requires Valid() && 1 <= id <= |directories|
      reads this
      ensures d.id == id && d.name == directories[id - 1].name && d.parentId == directories[id - 1].parentId
      ensures exists j :: FirstOfGreatest(directoryHistory, id, ByLastSeen, j)
                          && d.modified == directoryHistory[j].modified && d.deleted == directoryHistory[j].deleted
    {
      PickSpec(directoryHistory, id, ByLastSeen);
      var j := Pick(directoryHistory, id, ByLastSeen).value;
      BackedUpDirectory(id, directories[id - 1].name, directories[id - 1].parentId,
                        directoryHistory[j].modified, directoryHistory[j].deleted)
    }

    /** The file with key `id` as a lookup returns it: Modified and Deleted from the first entry
        with the greatest LastSeen. */
    function FileRecord(id: int): (f: BackedUpFile)
      requires Valid() && 1 <= id <= |files|
      reads this
      ensures f.id == id && f.name == files[id - 1].name && f.parentId == files[id - 1].parentId
      ensures exists j :: FirstOfGreatest(fileHistory, id, ByLastSeen, j)
                          && f.modified == fileHistory[j].modified && f.deleted == fileHistory[j].deleted
    {
      PickSpec(fileHistory, id, ByLastSeen);
      var j := Pick(fileHistory, id, ByLastSeen).value;
      BackedUpFile(id, files[id - 1].name, files[id - 1].parentId, fileHistory[j].modified, fileHistory[j].deleted)
    }

    /** AddDirectory: the row and exactly one history entry carrying the directory's Modified;
        a parent that does not exist makes SaveChanges store neither. */
    method AddDirectory(directory: BackedUpDirectory, clock: Clock) returns (r: Result<int, DbError>)
      requires Valid()
      modifies this`directories, this`directoryHistory
      ensures Valid()
      ensures !ParentExists(old(directories), directory.parentId) ==>
        r == Err(ForeignKeyViolation) && directories == old(directories) && directoryHistory == old(directoryHistory)
      ensures ParentExists(old(directories), directory.parentId) ==>
        && r == Ok(|old(directories)| + 1)
        && directories == old(directories) + [DirectoryRow(directory.name, directory.parentId)]
        && directoryHistory == old(directoryHistory) + [History(r.value, directory.modified, clock.Now(), false)]
    {
      if directory.parentId.Some? && !(1 <= directory.parentId.value <= |directories|) {
        return Err(ForeignKeyViolation);
      }
      var id := |directories| + 1;
      var e := History(id, directory.modified, clock.Now(), false);
      AddRowValid(DirTables(directories, directoryHistory), DirectoryRow(directory.name, directory.parentId), e);
      directories := directories + [DirectoryRow(directory.name, directory.parentId)];
      directoryHistory := directoryHistory + [e];
      r := Ok(id);
    }

    /** One iteration of GetDirectory(path)'s foreach: look the component up, create it if missing. */
    method LookupOrCreate(name: string, parentId: Option<int>, clock: Clock) returns (id: int)
      requires DirTablesValid(DirTables(directories, directoryHistory)) && ParentExists(directories, parentId)
      modifies this`directories, this`directoryHistory
      ensures (DirTables(directories, directoryHistory), id) == WalkStep(DirTables(old(directories), old(directoryHistory)), name, parentId, clock.Now())
      ensures DirTablesValid(DirTables(directories, directoryHistory)) && 1 <= id <= |directories|
      ensures old(directories) <= directories
    {
      ghost var t1, gid := WalkStepFacts(DirTables(directories, directoryHistory), name, parentId, clock.Now());
      var k := FirstDirectory(directories, name, parentId);
      if k.Some? {
        id := k.value + 1;
      } else {
        id := |directories| + 1;
        directories := directories + [DirectoryRow(name, parentId)];
        directoryHistory := directoryHistory + [History(id, MinTime, clock.Now(), false)];
      }
    }

    /**
     * GetDirectory(path, includeChildren): the walk over the '/'-separated components, each looked
     * up under the previous one and created when missing; the result is the last component's
     * directory. With `includeChildren` its files and subdirectories come along, each with the
     * Modified of its entry with the greatest Modified.
     */
    method GetDirectory(path: string, includeChildren: bool, clock: Clock) returns (r: DirectoryListing)
      requires Valid()
      modifies this`directories, this`directoryHistory
      ensures Valid()
      ensures (DirTables(directories, directoryHistory), Some(r.dir.id)) ==
              Walk(DirTables(old(directories), old(directoryHistory)), Split(path, '/'), 0, None, clock.Now())
      ensures 1 <= r.dir.id <= |directories| && r.dir == DirectoryRecord(r.dir.id)
      ensures r.files == (if includeChildren then ChildFiles(files, fileHistory, r.dir.id, Some(ByModified)) else [])
      ensures r.subdirs == (if includeChildren then ChildDirectories(directories, directoryHistory, r.dir.id, Some(ByModified)) else [])
    {
      var dirNames := Split(path, '/');
      ghost var t0 := DirTables(directories, directoryHistory);
      var parentId: Option<int> := None;
      var i := 0;
      while i < |dirNames|
        invariant 0 <= i <= |dirNames|
        invariant DirTablesValid(DirTables(directories, directoryHistory)) && ParentExists(directories, parentId)
        invariant i > 0 ==> parentId.Some?
        invariant Walk(DirTables(directories, directoryHistory), dirNames, i, parentId, clock.Now()) ==
                  Walk(t0, dirNames, 0, None, clock.Now())
        invariant FileTablesValid(files, fileHistory, |directories|)
      {
        var id := LookupOrCreate(dirNames[i], parentId, clock);
        parentId := Some(id);
        i := i + 1;
      }
      var id := parentId.value;
      var children := if includeChildren then ChildFiles(files, fileHistory, id, Some(ByModified)) else [];
      var subdirs := if includeChildren then ChildDirectories(directories, directoryHistory, id, Some(ByModified)) else [];
      r := DirectoryListing(DirectoryRecord(id), children, subdirs);
    }

    /** GetDirectory(name, parentId, includeChildren): the first directory `name` under `parentId`,
        or null; the children it loads keep the default Modified. */
    function GetDirectoryByName(name: string, parentId: int, includeChildren: bool): (r: Option<DirectoryListing>)
      requires Valid()
      reads this
      ensures r.None? <==> forall i :: 0 <= i < |directories| ==> directories[i] != DirectoryRow(name, Some(parentId))
      ensures r.Some? ==> 1 <= r.value.dir.id <= |directories| && directories[r.value.dir.id - 1] == DirectoryRow(name, Some(parentId))
      ensures r.Some? ==> forall i :: 0 <= i < r.value.dir.id - 1 ==> directories[i] != DirectoryRow(name, Some(parentId))
      ensures r.Some? ==> r.value.dir == DirectoryRecord(r.value.dir.id)
      ensures r.Some? && includeChildren ==>
        && r.value.files == ChildFiles(files, fileHistory, r.value.dir.id, None)
        && r.value.subdirs == ChildDirectories(directories, directoryHistory, r.value.dir.id, None)
      ensures r.Some? ==> forall k :: 0 <= k < |r.value.files| ==> r.value.files[k].modified == MinTime
      ensures r.Some? ==> forall k :: 0 <= k < |r.value.subdirs| ==> r.value.subdirs[k].modified == MinTime
      ensures r.Some? && !includeChildren ==> r.value.files == [] && r.value.subdirs == []
    {
      match FirstDirectory(directories, name, Some(parentId))
      case None => None
      case Some(k) =>
        var fs := ChildFiles(files, fileHistory, k + 1, None);
        var ds := ChildDirectories(directories, directoryHistory, k + 1, None);
        ChildFilesSound(files, fileHistory, k + 1, None);
        ChildDirectoriesSound(directories, directoryHistory, k + 1, None);
        assert forall j :: 0 <= j < |fs| ==> fs[j].modified == MinTime;
        assert forall j :: 0 <= j < |ds| ==> ds[j].modified == MinTime;
        Some(DirectoryListing(DirectoryRecord(k + 1), if includeChildren then fs else [], if includeChildren then ds else []))
    }

    /** UpdateDirectory as written: the entry's LastSeen is DateTime.UtcNow. */
    method UpdateDirectoryAsWritten(directory: BackedUpDirectory, clock: Clock) returns (r: Result<History, DbError>)
      requires Valid()
      modifies this`directoryHistory
      ensures Valid()
      ensures !(1 <= directory.id <= |directories|) ==> r == Err(ForeignKeyViolation) && directoryHistory == old(directoryHistory)
      ensures 1 <= directory.id <= |directories| ==>
        r == Ok(History(directory.id, directory.modified, clock.utc, false)) && directoryHistory == old(directoryHistory) + [r.value]
    {
      r := AppendDirectoryEntry(directory, clock.utc);
    }

    /** UpdateDirectory as intended: the entry's LastSeen is DateTime.Now, like every other entry's. */
    method UpdateDirectory(directory: BackedUpDirectory, clock: Clock) returns (r: Result<History, DbError>)
      requires Valid()
      modifies this`directoryHistory
      ensures Valid()
      ensures !(1 <= directory.id <= |directories|) ==> r == Err(ForeignKeyViolation) && directoryHistory == old(directoryHistory)
      ensures 1 <= directory.id <= |directories| ==>
        r == Ok(History(directory.id, directory.modified, clock.Now(), false)) && directoryHistory == old(directoryHistory) + [r.value]
    {
      r := AppendDirectoryEntry(directory, clock.Now());
    }

    /** The body of UpdateDirectory: one entry carrying the directory's Modified, nothing else. */
    method AppendDirectoryEntry(directory: BackedUpDirectory, lastSeen: Time) returns (r: Result<History, DbError>)
      requires Valid()
      modifies this`directoryHistory
      ensures Valid()
      ensures !(1 <= directory.id <= |directories|) ==> r == Err(ForeignKeyViolation) && directoryHistory == old(directoryHistory)
      ensures 1 <= directory.id <= |directories| ==>
        r == Ok(History(directory.id, directory.modified, lastSeen, false)) && directoryHistory == old(directoryHistory) + [r.value]
    {
      if !(1 <= directory.id <= |directories|) {
        return Err(ForeignKeyViolation);
      }
      var e := History(directory.id, directory.modified, lastSeen, false);
      RecordedAppend(directoryHistory, [e], |directories|);
      directoryHistory := directoryHistory + [e];
      r := Ok(e);
    }

    /** AddFile: a file without a parent is refused; otherwise the row and exactly one history
        entry carrying the file's Modified, which is returned. */
    method AddFile(file: BackedUpFile, clock: Clock) returns (r: Result<History, DbError>)
      requires Valid()
      modifies this`files, this`fileHistory
      ensures Valid()
      ensures file.parentId <= 0 ==> r == Err(InvalidData)
      ensures file.parentId > |directories| ==> r == Err(ForeignKeyViolation)
      ensures r.Err? ==> files == old(files) && fileHistory == old(fileHistory)
      ensures 1 <= file.parentId <= |directories| ==>
        && r == Ok(History(|old(files)| + 1, file.modified, clock.Now(), false))
        && files == old(files) + [FileRow(file.name, file.parentId)]
        && fileHistory == old(fileHistory) + [r.value]
    {
      if file.parentId <= 0 {
        return Err(InvalidData);
      }
      if file.parentId > |directories| {
        return Err(ForeignKeyViolation);
      }
      var id := |files| + 1;
      var e := History(id, file.modified, clock.Now(), false);
      RecordedAppend(fileHistory, [e], |files|);
      files := files + [FileRow(file.name, file.parentId)];
      fileHistory := fileHistory + [e];
      assert fileHistory[|fileHistory| - 1] == e;
      r := Ok(e);
    }

    /** GetFile(name, parentId) as written: with no matching file, the history query reads the
        Id of a null file and throws. */
    function GetFileAsWritten(name: string, parentId: int): (r: Result<BackedUpFile, DbError>)
      requires Valid()
      reads this
      ensures r.Err? <==> forall i :: 0 <= i < |files| ==> files[i] != FileRow(name, parentId)
      ensures r.Err? ==> r.error == NullReference
      ensures r.Ok? ==> Some(r.value) == GetFile(name, parentId)
    {
      match FirstFile(files, name, parentId)
      case None => Err(NullReference)
      case Some(k) => Ok(FileRecord(k + 1))
    }

    /** GetFile(name, parentId) as intended: the first file `name` in directory `parentId`, with
        Modified and Deleted from its latest entry, or null when there is none. */
    function GetFile(name: string, parentId: int): (r: Option<BackedUpFile>)
      requires Valid()
      reads this
      ensures r.None? <==> forall i :: 0 <= i < |files| ==> files[i] != FileRow(name, parentId)
      ensures r.Some? ==> 1 <= r.value.id <= |files| && files[r.value.id - 1] == FileRow(name, parentId)
      ensures r.Some? ==> forall i :: 0 <= i < r.value.id - 1 ==> files[i] != FileRow(name, parentId)
      ensures r.Some? ==> r.value == FileRecord(r.value.id)
    {
      match FirstFile(files, name, parentId)
      case None => None
      case Some(k) => Some(FileRecord(k + 1))
    }

    /** UpdateFile: one entry carrying the file's Modified; no row changes. */
    method UpdateFile(file: BackedUpFile, clock: Clock) returns (r: Result<History, DbError>)
      requires Valid()
      modifies this`fileHistory
      ensures Valid()
      ensures !(1 <= file.id <= |files|) ==> r == Err(ForeignKeyViolation) && fileHistory == old(fileHistory)
      ensures 1 <= file.id <= |files| ==>
        r == Ok(History(file.id, file.modified, clock.Now(), false)) && fileHistory == old(fileHistory) + [r.value]
    {
      if !(1 <= file.id <= |files|) {
        return Err(ForeignKeyViolation);
      }
      var e := History(file.id, file.modified, clock.Now(), false);
      RecordedAppend(fileHistory, [e], |files|);
      fileHistory := fileHistory + [e];
      r := Ok(e);
    }

    /** DeleteFiles: one entry per file, in order, marking it deleted with the default Modified;
        no row is removed. One unknown file makes SaveChanges store none of them. */
    method DeleteFiles(batch: seq<BackedUpFile>, clock: Clock) returns (r: Result<(), DbError>)
      requires Valid()
      modifies this`fileHistory
      ensures Valid()
      ensures r.Ok? <==> forall k :: 0 <= k < |batch| ==> 1 <= batch[k].id <= |files|
      ensures r.Err? ==> r.error == ForeignKeyViolation && fileHistory == old(fileHistory)
      ensures r.Ok? ==> fileHistory == old(fileHistory) + Entries(Ids(batch), MinTime, clock.Now(), true)
    {
      var pending: seq<History> := [];
      var ok := true;
      var i := 0;
      while i < |batch|
        invariant 0 <= i <= |batch|
        invariant pending == Entries(Ids(batch[..i]), MinTime, clock.Now(), true)
        invariant ok <==> forall k :: 0 <= k < i ==> 1 <= batch[k].id <= |files|
      {
        pending := pending + [History(batch[i].id, MinTime, clock.Now(), true)];
        ok := ok && 1 <= batch[i].id <= |files|;
        i := i + 1;
      }
      assert batch[..i] == batch;
      if !ok {
        return Err(ForeignKeyViolation);
      }
      RecordedAppend(fileHistory, pending, |files|);
      fileHistory := fileHistory + pending;
      r := Ok(());
    }
  }

  // -----------------------------------------------------------------------------------------
  // Scenarios

  /** East of UTC, DateTime.UtcNow is behind DateTime.Now: an update stamped with UtcNow less
      than the offset after the creation entry is older than it, so the directory keeps its
      old Modified. */
  method UtcUpdateIsLost() returns (before: Time, after: Time)
    ensures before == 5 && after == 5
  {
    var db := new DatabaseService();
    var added := db.AddDirectory(BackedUpDirectory(0, "root", None, 5, false), Clock(1000, 60));
    before := db.DirectoryRecord(1).modified;
    var updated := db.UpdateDirectoryAsWritten(BackedUpDirectory(1, "root", None, 9, false), Clock(1010, 60));
    assert db.directoryHistory == [History(1, 5, 1060, false), History(1, 9, 1010, false)];
    assert Pick(db.directoryHistory, 1, ByLastSeen) == Some(0) by {
      assert db.directoryHistory[..1] == [History(1, 5, 1060, false)];
    }
    after := db.DirectoryRecord(1).modified;
  }

  /** With the update stamped by DateTime.Now, the same two calls leave the new Modified. */
  method NowUpdateIsSeen() returns (before: Time, after: Time)
    ensures before == 5 && after == 9
  {
    var db := new DatabaseService();
    var added := db.AddDirectory(BackedUpDirectory(0, "root", None, 5, false), Clock(1000, 60));
    before := db.DirectoryRecord(1).modified;
    var updated := db.UpdateDirectory(BackedUpDirectory(1, "root", None, 9, false), Clock(1010, 60));
    assert db.directoryHistory == [History(1, 5, 1060, false), History(1, 9, 1070, false)];
    assert Pick(db.directoryHistory, 1, ByLastSeen) == Some(1) by {
      assert db.directoryHistory[..1] == [History(1, 5, 1060, false)];
    }
    after := db.DirectoryRecord(1).modified;
  }

  /** Whenever the clock has moved past every entry of the directory, UpdateDirectory's entry is
      the one lookups read. */
  lemma UpdateIsSeen(h: seq<History>, directory: BackedUpDirectory, clock: Clock)
    requires forall j :: 0 <= j < |h| && h[j].entityId == directory.id ==> h[j].lastSeen < clock.Now()
    ensures var h2 := h + [History(directory.id, directory.modified, clock.Now(), false)];
      Pick(h2, directory.id, ByLastSeen) == Some(|h|) && h2[|h|].modified == directory.modified
  {
    NewestEntryWins(h, History(directory.id, directory.modified, clock.Now(), false), ByLastSeen);
  }

  /** GetFile on an empty database: as written it throws, as intended it answers null. */
  method MissingFile() returns (asWritten: Result<BackedUpFile, DbError>, intended: Option<BackedUpFile>)
    ensures asWritten == Err(NullReference) && intended == None
  {
    var db := new DatabaseService();
    asWritten := db.GetFileAsWritten("doesnotexist", 1);
    intended := db.GetFile("doesnotexist", 1);
  }

  /** Three nested directories and a file in the middle one: the path lookup finds the middle
      one without creating anything, and lists its one subdirectory and one file only when asked. */
  method NestedDirectories(top: string, middle: string, bottom: string, fileName: string)
    returns (plain: DirectoryListing, withChildren: DirectoryListing)
    requires '/' !in top && '/' !in middle
    ensures plain.dir.id == 2 && plain.dir.name == middle && plain.files == [] && plain.subdirs == []
    ensures withChildren.dir.id == 2 && |withChildren.files| == 1 && |withChildren.subdirs| == 1
    ensures withChildren.files[0].name == fileName && withChildren.subdirs[0].name == bottom
  {
    var db := new DatabaseService();
    var clock := Clock(1000, 0);
    var g := db.AddDirectory(BackedUpDirectory(0, top, None, MinTime, false), clock);
    var p := db.AddDirectory(BackedUpDirectory(0, middle, Some(1), MinTime, false), clock);
    var c := db.AddDirectory(BackedUpDirectory(0, bottom, Some(2), MinTime, false), clock);
    var f := db.AddFile(BackedUpFile(0, fileName, 2, MinTime, false), clock);
    var path := top + "/" + middle;
    NestedLookup(db.directories, path, top, middle, bottom);
    WalkExisting(DirTables(db.directories, db.directoryHistory), Split(path, '/'), 0, None, clock.Now());
    plain := db.GetDirectory(path, false, clock);
    NestedChildren(db.directories, db.files, db.directoryHistory, db.fileHistory, top, middle, bottom, fileName);
    withChildren := db.GetDirectory(path, true, clock);
  }

  /** The path "top/middle" names the second of three nested directories. */
  lemma NestedLookup(rows: seq<DirectoryRow>, path: string, top: string, middle: string, bottom: string)
    requires '/' !in top && '/' !in middle && path == top + "/" + middle
    requires rows == [DirectoryRow(top, None), DirectoryRow(middle, Some(1)), DirectoryRow(bottom, Some(2))]
    ensures Lookup(rows, Split(path, '/'), 0, None) == Some(2)
  {
    SplitTwo(top, middle, '/');
    assert rows[0] == DirectoryRow(top, None);
    assert FirstDirectory(rows, top, None) == Some(0);
    assert rows[1] == DirectoryRow(middle, Some(1)) && rows[0].parentId != Some(1);
    assert FirstDirectory(rows, middle, Some(1)) == Some(1);
    var comps := Split(path, '/');
    assert comps == [top, middle];
    assert Lookup(rows, comps, 2, Some(2)) == Some(2);
    assert Lookup(rows, comps, 1, Some(1)) == Some(2);
  }

  /** The second of three nested directories has one file and one subdirectory. */
  lemma NestedChildren(rows: seq<DirectoryRow>, files: seq<FileRow>, dirHist: seq<History>, fileHist: seq<History>,
                       top: string, middle: string, bottom: string, fileName: string)
    requires rows == [DirectoryRow(top, None), DirectoryRow(middle, Some(1)), DirectoryRow(bottom, Some(2))]
    requires files == [FileRow(fileName, 2)]
    ensures ChildFiles(files, fileHist, 2, Some(ByModified)) ==
            [BackedUpFile(1, fileName, 2, ModifiedOf(fileHist, 1, Some(ByModified)), false)]
    ensures ChildDirectories(rows, dirHist, 2, Some(ByModified)) ==
            [BackedUpDirectory(3, bottom, Some(2), ModifiedOf(dirHist, 3, Some(ByModified)), false)]
  {
    assert files[..0] == [];
    var r2, r1 := rows[..2], rows[..1];
    assert r2[..1] == r1 && r1[..0] == [];
    assert ChildDirectories(r1, dirHist, 2, Some(ByModified)) == [];
    assert ChildDirectories(r2, dirHist, 2, Some(ByModified)) == [];
  }

  /** DatabaseService.Instance: the static singleton. */
  class ServiceHost {
    var instance: DatabaseService?

    constructor ()
      ensures instance == null
    {
      instance := null;
    }

    /** Start: the first call creates the service on an empty database and answers true; later
        calls change nothing and answer false. */
    method Start(options: DbOptions) returns (started: bool)
      modifies this
      ensures started <==> old(instance) == null
      ensures !started ==> instance == old(instance)
      ensures started ==> fresh(instance) && instance.Valid() && instance.directories == [] && instance.files == []
      ensures instance != null
    {
      if instance == null {
        instance := new DatabaseService();
        return true;
      }
      return false;
    }
  }

  /** DbTypeEnym: the providers a connection can use. */
  datatype DbType = MySQL | SQLite

  /** DbOptions: the connection string and provider. */
  datatype DbOptions = DbOptions(connectionString: string, dbType: DbType)
}
