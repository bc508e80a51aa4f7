/**
  What each step of the task manager records: events, registered tasks, items and
  their metadata, and which contexts it ends. Over whole runs, what the metadata
  of an item then tells.
  */
module TaskRecords {
  import opened Wrappers
  import opened TaskModel
  import opened TaskProperties

  // ------------------------------------------------------------------------
  // One step
  // ------------------------------------------------------------------------

  // The events of a step. A step that is about no registered task fires none, and
  // neither do a run by a watch, the start of a watch, and CancelAll.
  lemma EventsOfStep(w: World, s: Step)
    requires w.Valid() && Enabled(w, s)
    ensures Next(w, s).events == w.events +
            match s
            case AddTask(i) =>
              if w.items[i].name in w.tasks then [] else [TaskEvent(w.items[i].name, Added)]
            case RmTask(n) => if n in w.tasks then [TaskEvent(n, Removed)] else []
            case Register(n, _) =>
              (if n in w.tasks then [TaskEvent(n, Removed)] else []) + [TaskEvent(n, Added)]
            case Run(n, _, error) =>
              if n in w.tasks
              then [TaskEvent(n, Running), TaskEvent(n, if error.Some? then Failed else Finished)] else []
            case Watch(n, _, _) => if n in w.tasks then [TaskEvent(n, Watching)] else []
            case Cancel(n) => if n in w.tasks then [TaskEvent(n, Stopped)] else []
            case _ => []
  {
    match s
    case Register(n, meta) =>
      var u := Created(WithoutTask(w, n), n, meta);
      assert n !in u.tasks && u.items[|w.items|].name == n;
    case Run(n, _, error) =>
      var end := TaskEvent(n, if error.Some? then Failed else Finished);
      assert w.events + [TaskEvent(n, Running)] + [end] == w.events + [TaskEvent(n, Running), end];
    case _ =>
  }

  ghost predicate SameRest(w: World, u: World) {
    u.tasks == w.tasks && u.pending == w.pending && u.loops == w.loops
  }

  lemma RunLeavesRest(w: World, i: nat, ctx: nat, error: Option<string>)
    requires w.Valid() && i < |w.items| && ctx < |w.contexts.parents|
    ensures SameRest(w, RunItem(w, i, ctx, error))
  {
  }

  // Only Register, AddTask and RmTask change the tasks, and only watching the others.
  lemma RestOfStep(w: World, s: Step)
    requires w.Valid() && Enabled(w, s)
    requires !s.AddTask? && !s.RmTask? && !s.Register?
    ensures Next(w, s).tasks == w.tasks
    ensures !s.Watch? && !s.WatchStarts? && !s.LoopReturns? ==> SameRest(w, Next(w, s))
  {
    match s
    case Run(n, ctx, error) =>
      if n in w.tasks {
        RunLeavesRest(w.Fire(n, Running), w.tasks[n], ctx, error);
      }
    case Watch(n, ctx, error) =>
      if n in w.tasks {
        RunLeavesRest(w, w.tasks[n], ctx, error);
      }
    case FileWritten(loop, error) => RunLeavesRest(w, w.contexts.owners[loop].item, loop, error);
    case _ =>
  }

  lemma WithoutTasks(w: World, n: string)
    requires w.Valid()
    ensures WithoutTask(w, n).tasks == w.tasks - {n} && WithoutTask(w, n).items == w.items
  {
    assert n !in w.tasks ==> w.tasks - {n} == w.tasks;
  }

  lemma RegisterTasks(w: World, n: string, meta: map<string, string>)
    requires w.Valid()
    ensures RegisterTask(w, n, meta).tasks == w.tasks[n := |w.items|]
  {
    WithoutTasks(w, n);
    assert (w.tasks - {n})[n := |w.items|] == w.tasks[n := |w.items|];
  }

  // Register makes a new item, also if the name is taken; AddTask respects a taken name.
  lemma TasksOfStep(w: World, s: Step)
    requires w.Valid() && Enabled(w, s)
    ensures Next(w, s).tasks ==
            match s
            case AddTask(i) => if w.items[i].name in w.tasks then w.tasks else w.tasks[w.items[i].name := i]
            case RmTask(n) => w.tasks - {n}
            case Register(n, _) => w.tasks[n := |w.items|]
            case _ => w.tasks
  {
    match s
    case AddTask(i) =>
    case RmTask(n) => WithoutTasks(w, n);
    case Register(n, meta) => RegisterTasks(w, n, meta);
    case _ => RestOfStep(w, s);
  }

  // Watches that wait to be started, and loops that run.
  lemma WatchesOfStep(w: World, s: Step)
    requires w.Valid() && Enabled(w, s)
    ensures Next(w, s).pending ==
            match s
            case Watch(n, ctx, _) => if n in w.tasks then w.pending + [Pending(w.tasks[n], ctx)] else w.pending
            case WatchStarts(at, _) => w.pending[..at] + w.pending[at + 1..]
            case _ => w.pending
    ensures Next(w, s).loops ==
            match s
            case WatchStarts(_, works) => if works then w.loops + {|w.contexts.parents|} else w.loops
            case LoopReturns(loop) => w.loops - {loop}
            case _ => w.loops
  {
    match s
    case Watch(n, ctx, error) =>
      if n in w.tasks {
        RunLeavesRest(w, w.tasks[n], ctx, error);
      }
    case AddTask(_) =>
    case RmTask(_) =>
    case Register(_, _) =>
    case WatchStarts(_, _) =>
    case LoopReturns(_) =>
    case _ => RestOfStep(w, s);
  }

  function Opt(c: Option<nat>): set<nat> {
    if c.Some? then {c.value} else {}
  }

  // The contexts that a step cancels. A run replaces the run of its item, the start of
  // a watch the watch; RmTask and Register end the run of the task, Cancel run and watch.
  lemma CancelledByStep(w: World, s: Step)
    requires w.Valid() && Enabled(w, s)
    ensures Next(w, s).contexts.cancelled == w.contexts.cancelled +
            match s
            case RmTask(n) => if n in w.tasks then Opt(w.items[w.tasks[n]].cancel) else {}
            case Register(n, _) => if n in w.tasks then Opt(w.items[w.tasks[n]].cancel) else {}
            case Run(n, _, _) => if n in w.tasks then Opt(w.items[w.tasks[n]].cancel) else {}
            case Watch(n, _, _) => if n in w.tasks then Opt(w.items[w.tasks[n]].cancel) else {}
            case Cancel(n) =>
              if n in w.tasks
              then Opt(w.items[w.tasks[n]].watchCancel) + Opt(w.items[w.tasks[n]].cancel) else {}
            case CancelAll =>
              (set n | n in w.tasks && w.items[w.tasks[n]].cancel.Some? :: w.items[w.tasks[n]].cancel.value)
            case WatchStarts(at, _) => Opt(w.items[w.pending[at].item].watchCancel)
            case FileWritten(loop, _) => Opt(w.items[w.contexts.owners[loop].item].cancel)
            case CallerCancels(ctx) => {ctx}
            case _ => {}
  {
  }

  // ------------------------------------------------------------------------
  // Items
  // ------------------------------------------------------------------------

  // The step calls the task function of the item.
  ghost predicate RunsItem(w: World, s: Step, i: nat)
    requires w.Valid() && Enabled(w, s)
  {
    match s
    case Run(n, _, _) => n in w.tasks && w.tasks[n] == i
    case Watch(n, _, _) => n in w.tasks && w.tasks[n] == i
    case FileWritten(loop, _) => w.contexts.owners[loop] == WatchOf(i)
    case _ => false
  }

  function ErrorOf(s: Step): Option<string> {
    match s
    case Run(_, _, error) => error
    case Watch(_, _, error) => error
    case FileWritten(_, error) => error
    case _ => None
  }

  // An error is kept under a key of its own.
  function WithError(meta: map<string, string>, error: Option<string>): map<string, string> {
    match error
    case Some(e) => meta["error" := e]
    case None => meta
  }

  // An item keeps its name, and its metadata but for the error of a run that failed.
  lemma ItemOfStep(w: World, s: Step, i: nat)
    requires w.Valid() && Enabled(w, s) && i < |w.items|
    ensures i < |Next(w, s).items|
    ensures var a, b := w.items[i], Next(w, s).items[i];
      b.name == a.name && b.meta == WithError(a.meta, if RunsItem(w, s, i) then ErrorOf(s) else None)
  {
    match s
    case Run(n, ctx, error) =>
      if n in w.tasks {
        ItemOfRun(w.Fire(n, Running), w.tasks[n], ctx, error, i);
      }
    case Watch(n, ctx, error) =>
      if n in w.tasks {
        ItemOfRun(w, w.tasks[n], ctx, error, i);
      }
    case FileWritten(loop, error) =>
      assert w.LoopOf(loop);
      ItemOfRun(w, w.contexts.owners[loop].item, loop, error, i);
    case WatchStarts(at, _) =>
      ItemOfWatch(Scheduled(w, at), w.pending[at].item, w.pending[at].ctx, i);
    case _ => ItemOfOther(w, s);
  }

  lemma ItemOfRun(w: World, j: nat, ctx: nat, error: Option<string>, i: nat)
    requires w.Valid() && j < |w.items| && ctx < |w.contexts.parents| && i < |w.items|
    ensures var a, b := w.items[i], RunItem(w, j, ctx, error).items;
      i < |b| && b[i].name == a.name && b[i].meta == WithError(a.meta, if i == j then error else None)
  {
  }

  lemma ItemOfWatch(w: World, j: nat, ctx: nat, i: nat)
    requires w.Valid() && j < |w.items| && ctx < |w.contexts.parents| && i < |w.items|
    ensures var a, b := w.items[i], WatchItem(w, j, ctx).items;
      i < |b| && b[i].name == a.name && b[i].meta == a.meta
  {
  }

  lemma ItemOfOther(w: World, s: Step)
    requires w.Valid() && Enabled(w, s) && !s.Run? && !s.Watch? && !s.FileWritten? && !s.WatchStarts?
    ensures w.items <= Next(w, s).items
  {
  }

  // A new item has the name and the metadata that were given, and no context yet.
  lemma NewItemOfStep(w: World, s: Step)
    requires w.Valid() && Enabled(w, s)
    ensures var r := Next(w, s);
      match s
      case NewItem(name, meta) => r.items == w.items + [Item(name, meta, None, None)]
      case Register(name, meta) => r.items == w.items + [Item(name, meta, None, None)]
      case _ => |r.items| == |w.items|
  {
  }

  // The error of the last failing run of the item, if one failed.
  ghost function LastError(w: World, steps: seq<Step>, i: nat): Option<string>
    requires Ok(w) && Possible(w, steps)
    decreases |steps|
  {
    if steps == [] then None
    else
      StepKeeps(w, steps[0]);
      var later := LastError(Next(w, steps[0]), steps[1..], i);
      if later.Some? then later else if RunsItem(w, steps[0], i) then ErrorOf(steps[0]) else None
  }

  ghost predicate KeepsLastError(w: World, steps: seq<Step>, i: nat)
    requires Ok(w) && Possible(w, steps) && i < |w.items|
  {
    var items, a := After(w, steps).items, w.items[i];
    i < |items| && items[i].name == a.name && items[i].meta == WithError(a.meta, LastError(w, steps, i))
  }

  lemma ErrorsInARow(meta: map<string, string>, first: Option<string>, second: Option<string>)
    ensures WithError(WithError(meta, first), second) == WithError(meta, if second.Some? then second else first)
  {
  }

  lemma LastErrorNext(w: World, steps: seq<Step>, i: nat)
    requires Ok(w) && Possible(w, steps) && steps != [] && i < |w.items|
    ensures var u := Next(w, steps[0]);
      && Ok(u) && Possible(u, steps[1..]) && i < |u.items|
      && (KeepsLastError(u, steps[1..], i) ==> KeepsLastError(w, steps, i))
  {
    var s, rest := steps[0], steps[1..];
    StepKeeps(w, s);
    ItemOfStep(w, s, i);
    ErrorsInARow(w.items[i].meta, if RunsItem(w, s, i) then ErrorOf(s) else None, LastError(Next(w, s), rest, i));
  }

  // After any steps the metadata of an item is what it was, with the error of the last
  // run that failed; a run that succeeds does not take an earlier error away.
  lemma {:induction false} MetadataKeepsLastError(w: World, steps: seq<Step>, i: nat)
    requires Ok(w) && Possible(w, steps) && i < |w.items|
    ensures KeepsLastError(w, steps, i)
    decreases |steps|
  {
    if steps != [] {
      LastErrorNext(w, steps, i);
      MetadataKeepsLastError(Next(w, steps[0]), steps[1..], i);
    }
  }
}
