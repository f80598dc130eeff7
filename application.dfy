/**
 * Client/Application.cs: the filter that drops the client's own database files, the two
 * debouncers that turn bursts of watcher events into one event per (path, change type),
 * and the handlers that turn a settled event into an action on the queue.
 *
 * A running Timer becomes an entry of the debouncer's map; the moment it elapses is the
 * explicit step `DebouncerCallback(key)`. The key is compared by VALUE, as the comment on
 * Debouncer.Start promises; `ReferenceKeyDebouncer` below models the class as written, whose
 * key type has reference equality.
 */
module Application {
  import opened Wrappers
  import opened Text
  import opened Entities
  import opened Actions

  /** FileSystemEventArgs and its subclass RenamedEventArgs. */
  datatype FileSystemEventArgs =
    | FileSystemEventArgs(changeType: ChangeKind, fullPath: string)
    | RenamedEventArgs(changeType: ChangeKind, fullPath: string, oldFullPath: string)

  /** DictionaryKey: the (path, change type) pair one debounce window belongs to. */
  datatype DebounceKey = DebounceKey(path: string, changeType: ChangeKind)

  /** ObjectContainer: the key, the timer armed for it (by serial number) and the latest payload. */
  datatype Container = Container(key: DebounceKey, timer: nat, args: FileSystemEventArgs)

  /** The key Start files an event under. */
  function KeyOf(path: string, args: FileSystemEventArgs): DebounceKey {
    DebounceKey(path, args.changeType)
  }

  class Debouncer {
    /** _dict: the pending debounce windows. */
    var dict: map<DebounceKey, Container>
    /** How many timers Start has created so far; timers are numbered in creation order. */
    var timersCreated: nat
    /** The payloads of the Debounced notifications raised so far, oldest first. */
    var emitted: seq<FileSystemEventArgs>

    /** Each container sits under its own key, and every pending window has its own timer. */
    ghost predicate Valid()
      reads this
    {
      && (forall k | k in dict :: dict[k].key == k && dict[k].timer < timersCreated)
      && (forall k1, k2 | k1 in dict && k2 in dict && k1 != k2 :: dict[k1].timer != dict[k2].timer)
    }

    constructor ()
      ensures Valid() && dict == map[] && timersCreated == 0 && emitted == []
    {
      dict := map[];
      timersCreated := 0;
      emitted := [];
    }

    /**
     * Start: with no window pending for (path, args.ChangeType), arms a new timer carrying
     * `args` and reports true; with one pending, replaces only its payload, keeps its timer
     * and reports false. Other keys' windows are not touched.
     */
    method Start(path: string, args: FileSystemEventArgs) returns (started: bool)
      requires Valid()
      modifies this`dict, this`timersCreated
      ensures Valid()
      ensures started <==> KeyOf(path, args) !in old(dict)
      ensures dict.Keys == old(dict).Keys + {KeyOf(path, args)}
      ensures dict[KeyOf(path, args)].args == args
      ensures started ==> dict[KeyOf(path, args)].timer == old(timersCreated) && timersCreated == old(timersCreated) + 1
      ensures !started ==> dict[KeyOf(path, args)].timer == old(dict)[KeyOf(path, args)].timer && timersCreated == old(timersCreated)
      ensures forall k | k in old(dict) && k != KeyOf(path, args) :: dict[k] == old(dict)[k]
    {
      started := false;
      var key := KeyOf(path, args);
      if key in dict {
        var oc := dict[key];
        dict := dict[key := oc.(args := args)];
      } else {
        var container := Container(key, timersCreated, args);
        timersCreated := timersCreated + 1;
        dict := dict[key := container];
        started := true;
      }
    }

    /**
     * DebouncerCallback, run when the timer armed for `key` elapses: disposes of the timer,
     * removes the window and only then raises Debounced with the latest payload, so that an
     * event arriving afterwards opens a new window. With no window for `key` no timer is armed
     * for it and nothing happens.
     */
    method DebouncerCallback(key: DebounceKey) returns (raised: Option<FileSystemEventArgs>)
      requires Valid()
      modifies this`dict, this`emitted
      ensures Valid()
      ensures key in old(dict) ==>
        raised == Some(old(dict)[key].args) && dict == old(dict) - {key} && emitted == old(emitted) + [raised.value]
      ensures key !in old(dict) ==> raised == None && dict == old(dict) && emitted == old(emitted)
    {
      if key !in dict {
        return None;
      }
      var oc := dict[key];
      dict := dict - {oc.key};
      raised := Some(oc.args);
      emitted := emitted + [oc.args];
    }
  }

  /**
   * Coalescing: a burst of events for one (path, change type) arms one timer; only the first
   * Start reports true, the timer raises exactly one Debounced carrying the last payload, and
   * a Start after that opens a new window again.
   */
  method Burst(path: string, burst: seq<FileSystemEventArgs>) returns (starts: seq<bool>, raised: seq<FileSystemEventArgs>, timers: nat, restarted: bool)
    requires |burst| > 0
    requires forall i :: 0 <= i < |burst| ==> burst[i].changeType == burst[0].changeType
    ensures |starts| == |burst| && starts[0] && forall i :: 0 < i < |burst| ==> !starts[i]
    ensures raised == [burst[|burst| - 1]]
    ensures timers == 1
    ensures restarted
  {
    var d := new Debouncer();
    var key := KeyOf(path, burst[0]);
    starts := [];
    var i := 0;
    while i < |burst|
      invariant 0 <= i <= |burst|
      invariant d.Valid() && d.emitted == []
      invariant |starts| == i && (i > 0 ==> starts[0]) && forall j :: 0 < j < i ==> !starts[j]
      invariant i == 0 ==> d.dict == map[] && d.timersCreated == 0
      invariant i > 0 ==> d.dict.Keys == {key} && d.dict[key].args == burst[i - 1] && d.timersCreated == 1
    {
      var s := d.Start(path, burst[i]);
      starts := starts + [s];
      i := i + 1;
    }
    timers := d.timersCreated;
    var r := d.DebouncerCallback(key);
    raised := d.emitted;
    restarted := d.Start(path, burst[0]);
  }

  /**
   * Independence: the same path with two different change types gets two windows; firing one
   * raises only its own payload and leaves the other pending.
   */
  method DistinctKinds(path: string, a: FileSystemEventArgs, b: FileSystemEventArgs) returns (startedA: bool, startedB: bool, raised: Option<FileSystemEventArgs>, stillPending: bool)
    requires a.changeType != b.changeType
    ensures startedA && startedB
    ensures raised == Some(a)
    ensures stillPending
  {
    var d := new Debouncer();
    startedA := d.Start(path, a);
    startedB := d.Start(path, b);
    raised := d.DebouncerCallback(KeyOf(path, a));
    stillPending := KeyOf(path, b) in d.dict && d.dict[KeyOf(path, b)].args == b;
  }

  // -----------------------------------------------------------------------------------------
  // The debouncer as written: DictionaryKey overrides neither Equals nor GetHashCode, so the
  // dictionary compares keys by reference and the key Start has just allocated is never found.

  /** DictionaryKey as written: a class, hence compared by reference. */
  class DictionaryKey {
    const path: string
    const changeType: ChangeKind

    constructor (path: string, changeType: ChangeKind)
      ensures this.path == path && this.changeType == changeType
    {
      this.path := path;
      this.changeType := changeType;
    }
  }

  /** ObjectContainer holding a reference key. */
  datatype RefContainer = RefContainer(key: DictionaryKey, timer: nat, args: FileSystemEventArgs)

  class ReferenceKeyDebouncer {
    var dict: map<DictionaryKey, RefContainer>
    var timersCreated: nat

    constructor ()
      ensures dict == map[] && timersCreated == 0
    {
      dict := map[];
      timersCreated := 0;
    }

    /** Start as written: the lookup with a freshly allocated key always fails, so every call
        arms a new timer and reports true. */
    method Start(path: string, args: FileSystemEventArgs) returns (started: bool)
      modifies this
      ensures started
      ensures timersCreated == old(timersCreated) + 1
      ensures exists k :: (k in dict && k !in old(dict) && dict[k] == RefContainer(k, old(timersCreated), args)
        && k.path == path && k.changeType == args.changeType)
      ensures dict.Keys == old(dict).Keys + (dict.Keys - old(dict).Keys) && |dict.Keys - old(dict).Keys| == 1
      ensures forall k | k in old(dict) :: k in dict && dict[k] == old(dict)[k]
    {
      var key := new DictionaryKey(path, args.changeType);
      if key in dict {
        // the payload update of the source: unreachable, the fresh key is never in the map
        assert false;
      } else {
        var container := RefContainer(key, timersCreated, args);
        timersCreated := timersCreated + 1;
        dict := dict[key := container];
        started := true;
        assert dict.Keys - old(dict).Keys == {key};
      }
    }
  }

  /**
   * The discrepancy: two events for the same path and change type, which the comment on Start
   * says should share one window, each arm their own timer as written.
   */
  method ReferenceKeysNeverCoalesce(path: string, a: FileSystemEventArgs, b: FileSystemEventArgs) returns (startedA: bool, startedB: bool, pending: nat, timers: nat)
    requires a.changeType == b.changeType
    ensures startedA && startedB
    ensures pending == 2 && timers == 2
  {
    var d := new ReferenceKeyDebouncer();
    startedA := d.Start(path, a);
    startedB := d.Start(path, b);
    timers := d.timersCreated;
    pending := |d.dict.Keys|;
  }

  // -----------------------------------------------------------------------------------------
  // App: the watcher handlers and the debounced handlers.

  /** AppDbContext.DbFileName, the client's own SQLite database. */
  const DbFileName: string := "BackupService.client.db"

  /** IsIgnored: the client's database file and SQLite journals are not backed up. */
  predicate IsIgnored(path: string) {
    FileName(path) == DbFileName || Extension(path) == ".db-journal"
  }

  /** `s` ends with `suffix`. */
  predicate EndsWith(s: string, suffix: string) {
    |suffix| <= |s| && s[|s| - |suffix|..] == suffix
  }

  /** IsIgnored exactly: the file name is the client database's, or it ends in ".db-journal"
      (the only '.' of that suffix is then the file name's last, so it is the extension). */
  lemma IgnoredExactly(path: string)
    ensures IsIgnored(path) <==> FileName(path) == DbFileName || EndsWith(FileName(path), ".db-journal")
  {
    var j := ".db-journal";
    if EndsWith(FileName(path), j) {
      assert '.' !in j[1..] by { assert j[1..] == "db-journal"; }
      ExtensionOfDotSuffix(path, j);
    }
  }

  /** Wherever the watched directory is, the client database and its journal are ignored, and a
      file with another extension is not. */
  lemma IgnoredFiles(dir: string, name: string)
    requires forall k :: 0 <= k < |name| ==> !IsSeparator(name[k])
    requires '.' !in name
    ensures IsIgnored(dir + "\\" + DbFileName)
    ensures IsIgnored(dir + "\\" + DbFileName + "-journal")
    ensures !IsIgnored(dir + "\\" + name + ".txt")
  {
    DatabaseIgnored(dir);
    JournalIgnored(dir);
    TextFileNotIgnored(dir, name);
  }

  /** The client database is ignored by its name. */
  lemma DatabaseIgnored(dir: string)
    ensures IsIgnored(dir + "\\" + DbFileName)
  {
    assert forall k :: 0 <= k < |DbFileName| ==> !IsSeparator(DbFileName[k]);
    FileNameOfChild(dir, DbFileName);
  }

  /** The SQLite journal of the client database is ignored by its extension. */
  lemma JournalIgnored(dir: string)
    ensures IsIgnored(dir + "\\" + DbFileName + "-journal")
  {
    var journal := DbFileName + "-journal";
    assert dir + "\\" + DbFileName + "-journal" == dir + "\\" + journal;
    FileNameOfChild(dir, journal);
    LastIndexOfChar(journal, 20);
    assert journal[20..] == ".db-journal";
  }

  /** A ".txt" file is neither the database nor a journal. */
  lemma TextFileNotIgnored(dir: string, name: string)
    requires forall k :: 0 <= k < |name| ==> !IsSeparator(name[k])
    requires '.' !in name
    ensures !IsIgnored(dir + "\\" + name + ".txt")
  {
    var txt := name + ".txt";
    assert dir + "\\" + name + ".txt" == dir + "\\" + txt;
    FileNameOfChild(dir, txt);
    LastIndexOfChar(txt, |name|);
    assert txt[|name|..] == ".txt";
    assert txt != DbFileName by {
      assert txt[|txt| - 1] == 't' && DbFileName[|DbFileName| - 1] == 'b';
    }
  }

  /** The file name of `dir` + "\" + `name` is `name` when `name` holds no separator. */
  lemma {:induction false} FileNameOfChild(dir: string, name: string)
    requires forall k :: 0 <= k < |name| ==> !IsSeparator(name[k])
    ensures FileName(dir + "\\" + name) == name
    decreases |name|
  {
    var p := dir + "\\" + name;
    if name == [] {
      assert p[|p| - 1] == '\\';
    } else {
      var init := name[..|name| - 1];
      FileNameOfChild(dir, init);
      assert p[..|p| - 1] == dir + "\\" + init;
      assert p[|p| - 1] == name[|name| - 1];
      assert name == init + [name[|name| - 1]];
    }
  }

  /** The last '.' of `s` is at `i` when s[i] is a '.' and none follows. */
  lemma LastIndexOfChar(s: string, i: int)
    requires 0 <= i < |s| && s[i] == '.' && '.' !in s[i + 1..]
    ensures LastIndexWhere(s, IsDot) == i
  {
    assert forall k :: i < k < |s| ==> s[k] == s[i + 1..][k - i - 1];
  }

  class App {
    const modifiedDebouncer: Debouncer
    const renamedDebouncer: Debouncer
    const queue: ActionQueue
    /** DebounceTimeMs; the timers' duration does not affect the order of events in the model. */
    var debounceTimeMs: int

    ghost predicate Valid()
      reads this, modifiedDebouncer, renamedDebouncer
    {
      modifiedDebouncer != renamedDebouncer && modifiedDebouncer.Valid() && renamedDebouncer.Valid()
    }

    constructor (queue: ActionQueue)
      ensures Valid() && this.queue == queue && debounceTimeMs == 10000
      ensures fresh(modifiedDebouncer) && fresh(renamedDebouncer)
      ensures modifiedDebouncer.dict == map[] && renamedDebouncer.dict == map[]
    {
      modifiedDebouncer := new Debouncer();
      renamedDebouncer := new Debouncer();
      this.queue := queue;
      debounceTimeMs := 10000;
    }

    /** Watcher_Modified (Created, Changed and Deleted events): ignored paths never reach the
        debouncer; every other event opens or refreshes its window in the modified debouncer. */
    method WatcherModified(e: FileSystemEventArgs)
      requires Valid()
      modifies modifiedDebouncer`dict, modifiedDebouncer`timersCreated
      ensures Valid()
      ensures IsIgnored(e.fullPath) ==>
        modifiedDebouncer.dict == old(modifiedDebouncer.dict) && modifiedDebouncer.timersCreated == old(modifiedDebouncer.timersCreated)
      ensures !IsIgnored(e.fullPath) ==>
        var key := KeyOf(e.fullPath, e);
        && modifiedDebouncer.dict.Keys == old(modifiedDebouncer.dict).Keys + {key}
        && modifiedDebouncer.dict[key].args == e
        && (key !in old(modifiedDebouncer.dict) ==>
              modifiedDebouncer.dict[key].timer == old(modifiedDebouncer.timersCreated) && modifiedDebouncer.timersCreated == old(modifiedDebouncer.timersCreated) + 1)
        && (key in old(modifiedDebouncer.dict) ==>
              modifiedDebouncer.dict[key].timer == old(modifiedDebouncer.dict)[key].timer && modifiedDebouncer.timersCreated == old(modifiedDebouncer.timersCreated))
        && (forall k | k in old(modifiedDebouncer.dict) && k != key :: modifiedDebouncer.dict[k] == old(modifiedDebouncer.dict)[k])
    {
      if IsIgnored(e.fullPath) {
        return;
      }
      var started := modifiedDebouncer.Start(e.fullPath, e);
    }

    /** Watcher_Renamed: the same filter, into the renamed debouncer. */
    method WatcherRenamed(e: FileSystemEventArgs)
      requires Valid()
      modifies renamedDebouncer`dict, renamedDebouncer`timersCreated
      ensures Valid()
      ensures IsIgnored(e.fullPath) ==>
        renamedDebouncer.dict == old(renamedDebouncer.dict) && renamedDebouncer.timersCreated == old(renamedDebouncer.timersCreated)
      ensures !IsIgnored(e.fullPath) ==>
        var key := KeyOf(e.fullPath, e);
        && renamedDebouncer.dict.Keys == old(renamedDebouncer.dict).Keys + {key}
        && renamedDebouncer.dict[key].args == e
        && (key !in old(renamedDebouncer.dict) ==>
              renamedDebouncer.dict[key].timer == old(renamedDebouncer.timersCreated) && renamedDebouncer.timersCreated == old(renamedDebouncer.timersCreated) + 1)
        && (key in old(renamedDebouncer.dict) ==>
              renamedDebouncer.dict[key].timer == old(renamedDebouncer.dict)[key].timer && renamedDebouncer.timersCreated == old(renamedDebouncer.timersCreated))
        && (forall k | k in old(renamedDebouncer.dict) && k != key :: renamedDebouncer.dict[k] == old(renamedDebouncer.dict)[k])
    {
      if IsIgnored(e.fullPath) {
        return;
      }
      var started := renamedDebouncer.Start(e.fullPath, e);
    }

    /** ModifiedDebouncer_Debounced: every settled event (renames included, RenamedEventArgs being
        a FileSystemEventArgs) becomes an action stamped with the current time. */
    method ModifiedDebounced(e: FileSystemEventArgs, now: Time)
      modifies queue`queue
      ensures queue.queue == old(queue.queue) + [ItemAction(e.changeType, None, e.fullPath, now)]
    {
      queue.Add(ItemAction(e.changeType, None, e.fullPath, now));
    }

    /** RenamedDebouncer_Debounced: only a RenamedEventArgs becomes an action, keeping the old path. */
    method RenamedDebounced(e: FileSystemEventArgs, now: Time)
      modifies queue`queue
      ensures e.RenamedEventArgs? ==>
        queue.queue == old(queue.queue) + [ItemAction(e.changeType, Some(e.oldFullPath), e.fullPath, now)]
      ensures !e.RenamedEventArgs? ==> queue.queue == old(queue.queue)
    {
      if e.RenamedEventArgs? {
        queue.Add(ItemAction(e.changeType, Some(e.oldFullPath), e.fullPath, now));
      }
    }

    /** The modified debouncer's timer for `key` elapses: its window closes and the latest payload
        reaches the queue as one action. */
    method ModifiedTimerElapsed(key: DebounceKey, now: Time)
      requires Valid()
      modifies modifiedDebouncer`dict, modifiedDebouncer`emitted, queue`queue
      ensures Valid()
      ensures modifiedDebouncer.dict == old(modifiedDebouncer.dict) - {key}
      ensures key in old(modifiedDebouncer.dict) ==>
        modifiedDebouncer.emitted == old(modifiedDebouncer.emitted) + [old(modifiedDebouncer.dict)[key].args]
      ensures key !in old(modifiedDebouncer.dict) ==> modifiedDebouncer.emitted == old(modifiedDebouncer.emitted)
      ensures key in old(modifiedDebouncer.dict) ==>
        var e := old(modifiedDebouncer.dict)[key].args;
        queue.queue == old(queue.queue) + [ItemAction(e.changeType, None, e.fullPath, now)]
      ensures key !in old(modifiedDebouncer.dict) ==> queue.queue == old(queue.queue)
    {
      var raised := modifiedDebouncer.DebouncerCallback(key);
      if raised.Some? {
        ModifiedDebounced(raised.value, now);
      }
    }

    /** The renamed debouncer's timer for `key` elapses. */
    method RenamedTimerElapsed(key: DebounceKey, now: Time)
      requires Valid()
      modifies renamedDebouncer`dict, renamedDebouncer`emitted, queue`queue
      ensures Valid()
      ensures renamedDebouncer.dict == old(renamedDebouncer.dict) - {key}
      ensures key in old(renamedDebouncer.dict) ==>
        renamedDebouncer.emitted == old(renamedDebouncer.emitted) + [old(renamedDebouncer.dict)[key].args]
      ensures key !in old(renamedDebouncer.dict) ==> renamedDebouncer.emitted == old(renamedDebouncer.emitted)
      ensures key in old(renamedDebouncer.dict) && old(renamedDebouncer.dict)[key].args.RenamedEventArgs? ==>
        var e := old(renamedDebouncer.dict)[key].args;
        queue.queue == old(queue.queue) + [ItemAction(e.changeType, Some(e.oldFullPath), e.fullPath, now)]
      ensures key !in old(renamedDebouncer.dict) || !old(renamedDebouncer.dict)[key].args.RenamedEventArgs? ==>
        queue.queue == old(queue.queue)
    {
      var raised := renamedDebouncer.DebouncerCallback(key);
      if raised.Some? {
        RenamedDebounced(raised.value, now);
      }
    }
  }
}
