/**
 * Client/ActionQueue.cs with the ItemAction record of Client/Model.cs: the FIFO of live
 * filesystem actions, its Paused flag, and one iteration of the background worker loop.
 * The worker's `while (true)` becomes the method `Step`; Task.Delay becomes an outcome that
 * says the iteration only waited, and the upload it starts is returned as an outcome instead
 * of being sent.
 */
module Actions {
  import opened Wrappers
  import opened Text
  import opened Entities

  /** System.IO.WatcherChangeTypes. */
  datatype ChangeKind = Created | Deleted | Changed | Renamed

  /** ItemAction: one debounced filesystem change waiting to be applied. */
  datatype ItemAction = ItemAction(action: ChangeKind, oldPath: Option<string>, path: string, updated: Time)

  /** What one iteration of the worker loop did. */
  datatype StepOutcome =
    | WaitedPaused                                   // Paused: Task.Delay(100)
    | WaitedEmpty                                    // nothing queued: Task.Delay(100)
    | Uploaded(path: string, file: BackedUpFile)     // a Created action: SyncEngine.Upload(path, file)
    | Logged(action: ItemAction)                     // any other kind: written to the console only
    | StoppedByException(action: ItemAction)         // the upload threw; the loop has ended
    | NotRunning                                     // there is no worker loop (not started, or ended)

  /** The record the worker uploads for a Created action: no id and no parent (the server resolves
      the parent from the path), the action's time as Modified, the path's last component as Name. */
  function CreatedRecord(a: ItemAction): (f: BackedUpFile)
    ensures f.id == 0 && f.parentId == 0 && !f.deleted
    ensures f.modified == a.updated && f.name == LastComponent(a.path)
  {
    BackedUpFile(0, LastComponent(a.path), 0, a.updated, false)
  }

  /** The switch on the action's kind: Created uploads, every other kind is only logged. */
  function Dispatch(a: ItemAction): (o: StepOutcome)
    ensures o.Uploaded? <==> a.action == Created
    ensures o.Uploaded? ==> o.path == a.path && o.file == CreatedRecord(a)
    ensures !o.Uploaded? ==> o == Logged(a)
  {
    if a.action == Created then Uploaded(a.path, CreatedRecord(a)) else Logged(a)
  }

  class ActionQueue {
    /** _queue, oldest action first. */
    var queue: seq<ItemAction>
    /** The Paused property, set by the application once the startup synchronisation is done. */
    var paused: bool
    /** Whether the DequeueTask loop is alive: started by Initialise, ended for good by an exception. */
    var running: bool

    /** A new queue is paused and empty, and no worker runs yet. */
    constructor ()
      ensures queue == [] && paused && !running
    {
      queue := [];
      paused := true;
      running := false;
    }

    /** Initialise: starts the worker loop. */
    method Initialise()
      modifies this`running
      ensures running
    {
      running := true;
    }

    /** Add appends the action at the tail and changes nothing else. */
    method Add(action: ItemAction)
      modifies this`queue
      ensures queue == old(queue) + [action]
    {
      queue := queue + [action];
    }

    /** The Paused setter. */
    method SetPaused(p: bool)
      modifies this`paused
      ensures paused == p
    {
      paused := p;
    }

    /**
     * One iteration of DequeueTask. `uploadThrows` is whether SyncEngine.Upload throws for the
     * action taken off the queue. The try/catch encloses the whole loop, so an exception ends
     * the worker: the action is lost and every later step does nothing.
     */
    method Step(uploadThrows: bool) returns (o: StepOutcome)
      modifies this`queue, this`running
      ensures !old(running) ==> o == NotRunning && queue == old(queue) && !running
      ensures old(running) && paused ==> o == WaitedPaused && queue == old(queue) && running
      ensures old(running) && !paused && old(queue) == [] ==> o == WaitedEmpty && queue == [] && running
      ensures old(running) && !paused && old(queue) != [] ==>
        queue == old(queue)[1..] &&
        if old(queue)[0].action == Created && uploadThrows
        then o == StoppedByException(old(queue)[0]) && !running
        else o == Dispatch(old(queue)[0]) && running
    {
      if !running {
        return NotRunning;
      }
      if paused {
        o := WaitedPaused;
      } else if queue != [] {
        var action := queue[0];
        queue := queue[1..];
        if action.action == Created && uploadThrows {
          running := false;
          o := StoppedByException(action);
        } else {
          o := Dispatch(action);
        }
      } else {
        o := WaitedEmpty;
      }
    }
  }

  /**
   * Pausing holds the queue and unpausing drains it in FIFO order: actions added while the
   * queue is paused survive any number of worker iterations, and once Paused is cleared the
   * worker applies them one by one, oldest first (no upload throwing).
   */
  method PausedThenDrained(actions: seq<ItemAction>, pausedSteps: nat) returns (held: seq<ItemAction>, outcomes: seq<StepOutcome>)
    ensures held == actions
    ensures |outcomes| == |actions|
    ensures forall i :: 0 <= i < |actions| ==> outcomes[i] == Dispatch(actions[i])
  {
    var q := new ActionQueue();
    q.Initialise();
    var i := 0;
    while i < |actions|
      invariant 0 <= i <= |actions|
      invariant q.queue == actions[..i] && q.paused && q.running
    {
      q.Add(actions[i]);
      i := i + 1;
    }
    var k := 0;
    while k < pausedSteps
      invariant q.queue == actions && q.paused && q.running
    {
      var o := q.Step(false);
      k := k + 1;
    }
    held := q.queue;
    q.SetPaused(false);
    outcomes := [];
    var j := 0;
    while j < |actions|
      invariant 0 <= j <= |actions|
      invariant q.queue == actions[j..] && !q.paused && q.running
      invariant |outcomes| == j
      invariant forall m :: 0 <= m < j ==> outcomes[m] == Dispatch(actions[m])
    {
      var o := q.Step(false);
      outcomes := outcomes + [o];
      j := j + 1;
    }
  }

  /**
   * One throwing upload stops the queue for good: the actions behind it stay queued and are
   * never applied, whatever the later iterations would have done.
   */
  method ExceptionEndsWorker(failing: ItemAction, rest: seq<ItemAction>, laterSteps: nat) returns (outcome: StepOutcome, left: seq<ItemAction>, later: seq<StepOutcome>)
    requires failing.action == Created
    ensures outcome == StoppedByException(failing)
    ensures left == rest
    ensures |later| == laterSteps && forall i :: 0 <= i < laterSteps ==> later[i] == NotRunning
  {
    var q := new ActionQueue();
    q.Initialise();
    q.Add(failing);
    var i := 0;
    while i < |rest|
      invariant 0 <= i <= |rest|
      invariant q.queue == [failing] + rest[..i] && q.running && q.paused
    {
      q.Add(rest[i]);
      i := i + 1;
    }
    q.SetPaused(false);
    outcome := q.Step(true);
    later := [];
    var k := 0;
    while k < laterSteps
      invariant 0 <= k <= laterSteps
      invariant q.queue == rest && !q.running
      invariant |later| == k && forall m :: 0 <= m < k ==> later[m] == NotRunning
    {
      var o := q.Step(false);
      later := later + [o];
      k := k + 1;
    }
    left := q.queue;
  }
}
