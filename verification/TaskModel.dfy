/**
  Tasks, the contexts they run in, and every step that changes them
  (pkg/tasks/manager.go, pkg/tasks/task.go).

  A context ends with the first of its ancestors that is cancelled. Contexts and
  task items are numbered in order of creation, so a number is an identity.
  */
module TaskModel {
  import opened Wrappers

  // ------------------------------------------------------------------------
  // Contexts
  // ------------------------------------------------------------------------

  // Who holds the cancel function of a context.
  datatype Owner = Caller | RunOf(item: nat) | WatchOf(item: nat)

  // Context 0 is the background, its own parent.
  datatype Contexts = Contexts(parents: seq<nat>, owners: seq<Owner>, cancelled: set<nat>)
  {
    ghost predicate Valid() {
      && |parents| == |owners| > 0
      && owners[0] == Caller
      && (forall c :: 0 < c < |parents| ==> parents[c] < c)
    }

    predicate Dead(c: nat)
      requires Valid() && c < |parents|
    {
      c in cancelled || (c != 0 && Dead(parents[c]))
    }

    // context.WithCancel
    function Derive(parent: nat, owner: Owner): Contexts
      requires Valid() && parent < |parents|
    {
      Contexts(parents + [parent], owners + [owner], cancelled)
    }

    function Cancel(c: nat): Contexts
      requires Valid() && c < |parents|
    {
      this.(cancelled := cancelled + {c})
    }

    // Call a cancel function if there is one.
    function CancelIf(c: Option<nat>): Contexts
      requires Valid() && (c.Some? ==> c.value < |parents|)
    {
      if c.Some? then Cancel(c.value) else this
    }
  }

  const Background := Contexts([0], [Caller], {})

  // ------------------------------------------------------------------------
  // Task items
  // ------------------------------------------------------------------------

  datatype Item = Item(name: string, meta: map<string, string>, cancel: Option<nat>, watchCancel: Option<nat>)

  ghost predicate Holds(t: Contexts, i: Item)
    requires t.Valid()
  {
    && (i.cancel.Some? ==> i.cancel.value < |t.parents|)
    && (i.watchCancel.Some? ==> i.watchCancel.value < |t.parents|)
  }

  // TaskItem.Run: end the last run, begin another, and keep its error.
  function ItemRun(t: Contexts, id: nat, i: Item, ctx: nat, error: Option<string>): (Contexts, Item)
    requires t.Valid() && Holds(t, i) && ctx < |t.parents|
  {
    (t.CancelIf(i.cancel).Derive(ctx, RunOf(id)),
     i.(cancel := Some(|t.parents|), meta := if error.Some? then i.meta["error" := error.value] else i.meta))
  }

  // TaskItem.Watch up to its loop.
  function ItemWatch(t: Contexts, id: nat, i: Item, ctx: nat): (Contexts, Item)
    requires t.Valid() && Holds(t, i) && ctx < |t.parents|
  {
    (t.CancelIf(i.watchCancel).Derive(ctx, WatchOf(id)), i.(watchCancel := Some(|t.parents|)))
  }

  // ------------------------------------------------------------------------
  // The task manager and the goroutines it started
  // ------------------------------------------------------------------------

  datatype TaskState = Added | Removed | Watching | Running | Finished | Stopped | Failed

  datatype TaskEvent = TaskEvent(name: string, state: TaskState)

  // `go task.Watch(ctx)` before it is scheduled
  datatype Pending = Pending(item: nat, ctx: nat)

  // `loops` are the contexts of the watch loops that did not return yet.
  datatype World = World(
    contexts: Contexts,
    items: seq<Item>,
    tasks: map<string, nat>,
    pending: seq<Pending>,
    loops: set<nat>,
    events: seq<TaskEvent>)
  {
    ghost predicate Valid() {
      && contexts.Valid()
      && (forall i :: 0 <= i < |items| ==> Holds(contexts, items[i]))
      && (forall n :: n in tasks ==> tasks[n] < |items| && items[tasks[n]].name == n)
      && (forall p :: p in pending ==> p.item < |items| && p.ctx < |contexts.parents|)
      && (forall c :: c in loops ==> c < |contexts.parents| && LoopOf(c))
    }

    ghost predicate LoopOf(c: nat)
      requires contexts.Valid() && c < |contexts.parents|
    {
      contexts.owners[c].WatchOf? && contexts.owners[c].item < |items|
    }

    function Fire(name: string, state: TaskState): (w: World)
      ensures Valid() ==> w.Valid()
    {
      this.(events := events + [TaskEvent(name, state)])
    }

    predicate Live(c: nat)
      requires contexts.Valid() && c < |contexts.parents|
    {
      !contexts.Dead(c)
    }
  }

  const Start := World(Background, [], map[], [], {}, [])

  // One step. `error` is what the task function returns.
  datatype Step =
    | NewItem(name: string, meta: map<string, string>)
    | AddTask(item: nat)
    | RmTask(name: string)
    | Register(name: string, meta: map<string, string>)
    | Run(name: string, ctx: nat, error: Option<string>)
    | Watch(name: string, ctx: nat, error: Option<string>)
    | Cancel(name: string)
    | CancelAll
    | WatchStarts(at: nat, works: bool)
    | FileWritten(loop: nat, error: Option<string>)
    | LoopReturns(loop: nat)
    | CallerDerives(ctx: nat)
    | CallerCancels(ctx: nat)

  // When a step can happen. Nothing is asked of a task name.
  predicate Enabled(w: World, s: Step)
    requires w.contexts.Valid() && forall c :: c in w.loops ==> c < |w.contexts.parents|
  {
    match s
    case AddTask(item) => item < |w.items|
    case Run(_, ctx, _) => ctx < |w.contexts.parents|
    case Watch(_, ctx, _) => ctx < |w.contexts.parents|
    case WatchStarts(at, _) => at < |w.pending|
    case FileWritten(loop, _) => loop in w.loops
    case LoopReturns(loop) => loop in w.loops && w.contexts.Dead(loop)
    case CallerDerives(ctx) => ctx < |w.contexts.parents|
    case CallerCancels(ctx) => 0 < ctx < |w.contexts.parents| && w.contexts.owners[ctx] == Caller
    case _ => true
  }

  function Created(w: World, name: string, meta: map<string, string>): (r: World)
    requires w.Valid()
    ensures r.Valid()
  {
    w.(items := w.items + [Item(name, meta, None, None)])
  }

  function Stored(w: World, item: nat): (r: World)
    requires w.Valid() && item < |w.items|
    ensures r.Valid()
  {
    w.(tasks := w.tasks[w.items[item].name := item])
  }

  function WithTask(w: World, item: nat): (r: World)
    requires w.Valid() && item < |w.items|
    ensures r.Valid()
  {
    var name := w.items[item].name;
    if name in w.tasks then w else Stored(w, item).Fire(name, Added)
  }

  function Deleted(w: World, name: string): (r: World)
    requires w.Valid()
    ensures r.Valid()
  {
    w.(tasks := w.tasks - {name})
  }

  // TaskItem.Cancel
  function EndRun(w: World, i: nat): (r: World)
    requires w.Valid() && i < |w.items|
    ensures r.Valid()
  {
    w.(contexts := w.contexts.CancelIf(w.items[i].cancel))
  }

  // TaskItem.CancelWatch
  function EndWatch(w: World, i: nat): (r: World)
    requires w.Valid() && i < |w.items|
    ensures r.Valid()
  {
    w.(contexts := w.contexts.CancelIf(w.items[i].watchCancel))
  }

  // Only the run is cancelled, not the watch.
  function WithoutTask(w: World, name: string): (r: World)
    requires w.Valid()
    ensures r.Valid()
  {
    if name in w.tasks then Deleted(EndRun(w, w.tasks[name]), name).Fire(name, Removed) else w
  }

  function RegisterTask(w: World, name: string, meta: map<string, string>): (r: World)
    requires w.Valid()
    ensures r.Valid()
  {
    WithTask(Created(WithoutTask(w, name), name, meta), |w.items|)
  }

  function RunItem(w: World, i: nat, ctx: nat, error: Option<string>): (r: World)
    requires w.Valid() && i < |w.items| && ctx < |w.contexts.parents|
    ensures r.Valid()
  {
    var (t, item) := ItemRun(w.contexts, i, w.items[i], ctx, error);
    w.(contexts := t, items := w.items[i := item])
  }

  function RunTask(w: World, name: string, ctx: nat, error: Option<string>): (r: World)
    requires w.Valid() && ctx < |w.contexts.parents|
    ensures r.Valid()
  {
    if name !in w.tasks then w
    else RunItem(w.Fire(name, Running), w.tasks[name], ctx, error).Fire(name, if error.Some? then Failed else Finished)
  }

  // The run before the watch fires no events.
  function WatchTask(w: World, name: string, ctx: nat, error: Option<string>): (r: World)
    requires w.Valid() && ctx < |w.contexts.parents|
    ensures r.Valid()
  {
    if name !in w.tasks then w
    else
      var i := w.tasks[name];
      Waited(RunItem(w, i, ctx, error), i, ctx).Fire(name, Watching)
  }

  function CancelTask(w: World, name: string): (r: World)
    requires w.Valid()
    ensures r.Valid()
  {
    if name in w.tasks then EndRun(EndWatch(w, w.tasks[name]), w.tasks[name]).Fire(name, Stopped) else w
  }

  // The contexts that the runs of all tasks hold. Watches are not in it.
  function RunsOfTasks(w: World): set<nat>
    requires w.Valid()
  {
    set n | n in w.tasks && w.items[w.tasks[n]].cancel.Some? :: w.items[w.tasks[n]].cancel.value
  }

  function Ended(w: World, cs: set<nat>): (r: World)
    requires w.Valid()
    ensures r.Valid()
  {
    w.(contexts := w.contexts.(cancelled := w.contexts.cancelled + cs))
  }

  function CancelAllTasks(w: World): (r: World)
    requires w.Valid()
    ensures r.Valid()
  {
    Ended(w, RunsOfTasks(w))
  }

  function WatchItem(w: World, i: nat, ctx: nat): (r: World)
    requires w.Valid() && i < |w.items| && ctx < |w.contexts.parents|
    ensures r.Valid()
  {
    var (t, item) := ItemWatch(w.contexts, i, w.items[i], ctx);
    w.(contexts := t, items := w.items[i := item])
  }

  function Waited(w: World, i: nat, ctx: nat): (r: World)
    requires w.Valid() && i < |w.items| && ctx < |w.contexts.parents|
    ensures r.Valid()
  {
    w.(pending := w.pending + [Pending(i, ctx)])
  }

  function Scheduled(w: World, at: nat): (r: World)
    requires w.Valid() && at < |w.pending|
    ensures r.Valid()
  {
    w.(pending := w.pending[..at] + w.pending[at + 1..])
  }

  function InLoop(w: World, c: nat): (r: World)
    requires w.Valid() && c < |w.contexts.parents| && w.LoopOf(c)
    ensures r.Valid()
  {
    w.(loops := w.loops + {c})
  }

  function OutOfLoop(w: World, c: nat): (r: World)
    requires w.Valid()
    ensures r.Valid()
  {
    w.(loops := w.loops - {c})
  }

  // The watch of a pending start begins; without a file watcher its loop does not.
  function BeginWatch(w: World, at: nat, works: bool): (r: World)
    requires w.Valid() && at < |w.pending|
    ensures r.Valid()
  {
    var p := w.pending[at];
    var r := WatchItem(Scheduled(w, at), p.item, p.ctx);
    if works then InLoop(r, |w.contexts.parents|) else r
  }

  function Next(w: World, s: Step): (r: World)
    requires w.Valid() && Enabled(w, s)
    ensures r.Valid()
  {
    match s
    case NewItem(name, meta) => Created(w, name, meta)
    case AddTask(item) => WithTask(w, item)
    case RmTask(name) => WithoutTask(w, name)
    case Register(name, meta) => RegisterTask(w, name, meta)
    case Run(name, ctx, error) => RunTask(w, name, ctx, error)
    case Watch(name, ctx, error) => WatchTask(w, name, ctx, error)
    case Cancel(name) => CancelTask(w, name)
    case CancelAll => CancelAllTasks(w)
    case WatchStarts(at, works) => BeginWatch(w, at, works)
    case FileWritten(loop, error) => RunItem(w, w.contexts.owners[loop].item, loop, error)
    case LoopReturns(loop) => OutOfLoop(w, loop)
    case CallerDerives(ctx) => w.(contexts := w.contexts.Derive(ctx, Caller))
    case CallerCancels(ctx) => w.(contexts := w.contexts.Cancel(ctx))
  }
}
