/** The task manager and its items as objects (pkg/tasks/manager.go, pkg/tasks/task.go). */
module Tasks {
  import opened Wrappers
  import opened TaskModel

  // The contexts of the program. What context.WithCancel and a cancel function do
  // is in TaskModel.
  class ContextTree {
    var tree: Contexts

    constructor ()
      ensures tree == Background
    {
      tree := Background;
    }

    method WithCancel(parent: nat, owner: Owner) returns (ctx: nat)
      requires tree.Valid() && parent < |tree.parents|
      modifies this
      ensures ctx == |old(tree).parents| && tree == old(tree).Derive(parent, owner)
    {
      ctx := |tree.parents|;
      tree := tree.Derive(parent, owner);
    }

    method Cancel(ctx: nat)
      requires tree.Valid() && ctx < |tree.parents|
      modifies this
      ensures tree == old(tree).Cancel(ctx)
    {
      tree := tree.Cancel(ctx);
    }
  }

  // `id` stands for the identity of the object.
  class TaskItem {
    const id: nat
    const name: string
    var meta: map<string, string>
    var cancel: Option<nat>
    var watchCancel: Option<nat>

    function Value(): Item
      reads this
    {
      Item(name, meta, cancel, watchCancel)
    }

    constructor (id: nat, name: string, meta: map<string, string>)
      ensures this.id == id && Value() == Item(name, meta, None, None)
    {
      this.id, this.name, this.meta := id, name, meta;
      cancel, watchCancel := None, None;
    }

    // The task function is called with the new context and returns `outcome`.
    method Run(contexts: ContextTree, ctx: nat, outcome: Option<string>) returns (error: Option<string>)
      requires contexts.tree.Valid() && Holds(contexts.tree, Value()) && ctx < |contexts.tree.parents|
      modifies this, contexts
      ensures (contexts.tree, Value()) == ItemRun(old(contexts.tree), id, old(Value()), ctx, outcome)
      ensures error == outcome
    {
      if cancel.Some? {
        contexts.Cancel(cancel.value);
      }
      var c := contexts.WithCancel(ctx, RunOf(id));
      cancel := Some(c);
      error := outcome;
      if error.Some? {
        meta := meta["error" := error.value];
      }
    }

    // Watch up to its loop; the loop has the new context.
    method SetUpWatch(contexts: ContextTree, ctx: nat) returns (loop: nat)
      requires contexts.tree.Valid() && Holds(contexts.tree, Value()) && ctx < |contexts.tree.parents|
      modifies this, contexts
      ensures (contexts.tree, Value()) == ItemWatch(old(contexts.tree), id, old(Value()), ctx)
      ensures loop == |old(contexts.tree).parents|
    {
      if watchCancel.Some? {
        contexts.Cancel(watchCancel.value);
      }
      loop := contexts.WithCancel(ctx, WatchOf(id));
      watchCancel := Some(loop);
    }

    method Cancel(contexts: ContextTree)
      requires contexts.tree.Valid() && Holds(contexts.tree, Value())
      modifies contexts
      ensures contexts.tree == old(contexts.tree).CancelIf(cancel)
    {
      if cancel.None? {
        return;
      }
      contexts.Cancel(cancel.value);
    }

    method CancelWatch(contexts: ContextTree)
      requires contexts.tree.Valid() && Holds(contexts.tree, Value())
      modifies contexts
      ensures contexts.tree == old(contexts.tree).CancelIf(watchCancel)
    {
      if watchCancel.None? {
        return;
      }
      contexts.Cancel(watchCancel.value);
    }
  }

  datatype Waiting = Waiting(item: TaskItem, ctx: nat)

  ghost predicate Represents(ws: seq<Waiting>, ps: seq<Pending>, items: seq<TaskItem>) {
    && |ws| == |ps|
    && forall k :: 0 <= k < |ws| ==>
         && ws[k].item.id < |items| && items[ws[k].item.id] == ws[k].item
         && ps[k] == Pending(ws[k].item.id, ws[k].ctx)
  }

  lemma RepresentsOthers(ws: seq<Waiting>, ps: seq<Pending>, items: seq<TaskItem>, at: nat)
    requires Represents(ws, ps, items) && at < |ws|
    ensures Represents(ws[..at] + ws[at + 1..], ps[..at] + ps[at + 1..], items)
  {
  }

  datatype Outcome = Done | NotFound | TaskError(text: string)

  // `pending` and `loops` are the goroutines that Watch started: not yet
  // scheduled, and in their loop. `items` stands for all items ever made. `world`
  // is the state that the fields represent.
  class TaskManager {
    const contexts: ContextTree
    var tasks: map<string, TaskItem>
    var pending: seq<Waiting>
    var loops: map<nat, TaskItem>
    var events: seq<TaskEvent>
    var items: seq<TaskItem>
    ghost var world: World

    ghost predicate Made(item: TaskItem)
      reads this
    {
      item.id < |items| && items[item.id] == item
    }

    ghost predicate ItemsValid()
      reads this, items
    {
      && |items| == |world.items|
      && forall i :: 0 <= i < |items| ==> items[i].id == i && items[i].Value() == world.items[i]
    }

    ghost predicate TasksValid()
      reads this
    {
      && tasks.Keys == world.tasks.Keys
      && forall n :: n in tasks ==> Made(tasks[n]) && world.tasks[n] == tasks[n].id
    }

    ghost predicate LoopsValid()
      reads this
    {
      && loops.Keys == world.loops
      && forall c :: c in loops ==>
           Made(loops[c]) && c < |world.contexts.owners| && world.contexts.owners[c] == WatchOf(loops[c].id)
    }

    ghost predicate Valid()
      reads this, contexts, items
    {
      && world.Valid() && world.contexts == contexts.tree && world.events == events
      && ItemsValid() && TasksValid() && Represents(pending, world.pending, items) && LoopsValid()
    }

    constructor ()
      ensures Valid() && world == Start && fresh(contexts)
    {
      contexts := new ContextTree();
      tasks, pending, loops, events := map[], [], map[], [];
      items := [];
      world := Start;
    }

    method FireHook(item: TaskItem, state: TaskState)
      requires Valid()
      modifies this`events, this`world
      ensures Valid() && world == old(world).Fire(item.name, state)
    {
      events := events + [TaskEvent(item.name, state)];
      world := world.Fire(item.name, state);
    }

    predicate Has(name: string)
      reads this
    {
      name in tasks
    }

    method Get(name: string) returns (task: TaskItem?)
      requires Valid()
      ensures task == null <==> !Has(name)
      ensures task != null ==> task == tasks[name] && task.name == name
    {
      if name !in tasks {
        return null;
      }
      task := tasks[name];
      assert world.items[task.id] == task.Value();
    }

    method RunItemIn(task: TaskItem, ctx: nat, outcome: Option<string>) returns (error: Option<string>)
      requires Valid() && Made(task) && ctx < |contexts.tree.parents|
      modifies this`world, contexts, task
      ensures Valid() && world == RunItem(old(world), task.id, ctx, outcome) && error == outcome
    {
      assert world.items[task.id] == task.Value();
      error := task.Run(contexts, ctx, outcome);
      world := RunItem(world, task.id, ctx, outcome);
    }

    method Run(name: string, ctx: nat, outcome: Option<string>) returns (r: Outcome)
      requires Valid() && ctx < |contexts.tree.parents|
      modifies this`events, this`world, contexts, items
      ensures Valid() && world == RunTask(old(world), name, ctx, outcome)
      ensures r == if !old(Has(name)) then NotFound else if outcome.Some? then TaskError(outcome.value) else Done
    {
      var task := Get(name);
      if task == null {
        return NotFound;
      }
      FireHook(task, Running);
      var error := RunItemIn(task, ctx, outcome);
      if error.Some? {
        FireHook(task, Failed);
        return TaskError(error.value);
      }
      FireHook(task, Finished);
      return Done;
    }

    // go task.Watch(ctx)
    method Go(task: TaskItem, ctx: nat)
      requires Valid() && Made(task) && ctx < |contexts.tree.parents|
      modifies this`pending, this`world
      ensures Valid() && world == Waited(old(world), task.id, ctx)
    {
      pending := pending + [Waiting(task, ctx)];
      world := Waited(world, task.id, ctx);
    }

    method Watch(name: string, ctx: nat, outcome: Option<string>) returns (r: Outcome)
      requires Valid() && ctx < |contexts.tree.parents|
      modifies this`events, this`pending, this`world, contexts, items
      ensures Valid() && world == WatchTask(old(world), name, ctx, outcome)
      ensures r == if old(Has(name)) then Done else NotFound
    {
      var task := Get(name);
      if task == null {
        return NotFound;
      }
      var _ := RunItemIn(task, ctx, outcome);
      Go(task, ctx);
      FireHook(task, Watching);
      return Done;
    }

    method NewTaskItem(name: string, meta: map<string, string>) returns (task: TaskItem)
      requires Valid()
      modifies this`items, this`world
      ensures Valid() && world == Created(old(world), name, meta)
      ensures fresh(task) && items == old(items) + [task] && task.id == |old(items)| && task.name == name
    {
      task := new TaskItem(|items|, name, meta);
      items := items + [task];
      world := Created(world, name, meta);
    }

    method Put(task: TaskItem)
      requires Valid() && Made(task) && world.items[task.id] == task.Value()
      modifies this`tasks, this`world
      ensures Valid() && world == Stored(old(world), task.id) && tasks == old(tasks)[task.name := task]
    {
      tasks := tasks[task.name := task];
      world := Stored(world, task.id);
    }

    method AddTask(task: TaskItem?)
      requires Valid() && (task != null ==> Made(task))
      modifies this`tasks, this`events, this`world
      ensures Valid() && world == if task == null then old(world) else WithTask(old(world), task.id)
      ensures tasks == if task == null || task.name in old(tasks) then old(tasks) else old(tasks)[task.name := task]
    {
      if task == null {
        return;
      }
      assert world.items[task.id] == task.Value();
      if Has(task.name) {
        return;
      }
      Put(task);
      FireHook(task, Added);
    }

    method Delete(name: string)
      requires Valid()
      modifies this`tasks, this`world
      ensures Valid() && world == Deleted(old(world), name) && tasks == old(tasks) - {name}
    {
      tasks := tasks - {name};
      world := Deleted(world, name);
    }

    method RmTask(name: string) returns (r: Outcome)
      requires Valid()
      modifies this`tasks, this`events, this`world, contexts
      ensures Valid() && world == WithoutTask(old(world), name) && tasks == old(tasks) - {name}
      ensures r == if old(Has(name)) then Done else NotFound
    {
      var task := Get(name);
      if task == null {
        return NotFound;
      }
      CancelItem(task);
      Delete(name);
      FireHook(task, Removed);
      return Done;
    }

    method Register(name: string, meta: map<string, string>) returns (task: TaskItem)
      requires Valid()
      modifies this`tasks, this`events, this`items, this`world, contexts
      ensures Valid() && world == RegisterTask(old(world), name, meta)
      ensures fresh(task) && tasks == (old(tasks) - {name})[name := task]
    {
      if Has(name) {
        var _ := RmTask(name);
      }
      assert tasks == old(tasks) - {name};
      task := NewTaskItem(name, meta);
      AddTask(task);
    }

    method CancelItem(task: TaskItem)
      requires Valid() && Made(task)
      modifies this`world, contexts
      ensures Valid() && world == EndRun(old(world), task.id)
    {
      assert world.items[task.id] == task.Value();
      task.Cancel(contexts);
      world := EndRun(world, task.id);
    }

    method CancelWatchItem(task: TaskItem)
      requires Valid() && Made(task)
      modifies this`world, contexts
      ensures Valid() && world == EndWatch(old(world), task.id)
    {
      assert world.items[task.id] == task.Value();
      task.CancelWatch(contexts);
      world := EndWatch(world, task.id);
    }

    method Cancel(name: string) returns (r: Outcome)
      requires Valid()
      modifies this`events, this`world, contexts
      ensures Valid() && world == CancelTask(old(world), name)
      ensures r == if old(Has(name)) then Done else NotFound
    {
      var task := Get(name);
      if task == null {
        return NotFound;
      }
      CancelWatchItem(task);
      CancelItem(task);
      FireHook(task, Stopped);
      return Done;
    }

    // The tasks come in any order.
    method CancelAll()
      requires Valid()
      modifies this`world, contexts
      ensures Valid() && world == CancelAllTasks(old(world))
    {
      var rest := tasks.Keys;
      NoneEnded(world);
      while rest != {}
        invariant Valid() && rest <= tasks.Keys == old(world).tasks.Keys
        invariant world == Ended(old(world), RunsBut(old(world), rest))
      {
        var n :| n in rest;
        OneMoreEnded(old(world), rest, n);
        CancelItem(tasks[n]);
        rest := rest - {n};
      }
      AllEnded(old(world));
    }

    // A watch that waits is scheduled. `works` says whether a file watcher could be made.
    method WatchStarts(at: nat, works: bool)
      requires Valid() && at < |pending|
      modifies this`pending, this`loops, this`world, contexts, items
      ensures Valid() && world == BeginWatch(old(world), at, works)
    {
      var task, ctx := pending[at].item, pending[at].ctx;
      Schedule(at);
      var loop := WatchItemIn(task, ctx);
      if works {
        EnterLoop(loop, task);
      }
    }

    method Schedule(at: nat)
      requires Valid() && at < |pending|
      modifies this`pending, this`world
      ensures Valid() && world == Scheduled(old(world), at)
    {
      RepresentsOthers(pending, world.pending, items, at);
      pending := pending[..at] + pending[at + 1..];
      world := Scheduled(world, at);
    }

    method WatchItemIn(task: TaskItem, ctx: nat) returns (loop: nat)
      requires Valid() && Made(task) && ctx < |contexts.tree.parents|
      modifies this`world, contexts, task
      ensures Valid() && world == WatchItem(old(world), task.id, ctx) && loop == |old(world).contexts.parents|
    {
      assert world.items[task.id] == task.Value();
      loop := task.SetUpWatch(contexts, ctx);
      world := WatchItem(world, task.id, ctx);
    }

    method EnterLoop(loop: nat, task: TaskItem)
      requires Valid() && Made(task) && loop < |contexts.tree.parents| && contexts.tree.owners[loop] == WatchOf(task.id)
      modifies this`loops, this`world
      ensures Valid() && world == InLoop(old(world), loop)
    {
      loops := loops[loop := task];
      world := InLoop(world, loop);
    }

    // The loop of a watch sees that a file was written.
    method FileWritten(loop: nat, outcome: Option<string>)
      requires Valid() && loop in loops
      modifies this`world, contexts, items
      ensures Valid() && world == Next(old(world), TaskModel.FileWritten(loop, outcome))
    {
      var _ := RunItemIn(loops[loop], loop, outcome);
    }

    // The loop of a watch sees that its context has ended.
    method LoopReturns(loop: nat)
      requires Valid() && loop in loops && contexts.tree.Dead(loop)
      modifies this`loops, this`world
      ensures Valid() && world == Next(old(world), TaskModel.LoopReturns(loop))
    {
      loops := loops - {loop};
      world := OutOfLoop(world, loop);
    }
  }

  // What RunsOfTasks has of the tasks that are not in `rest`.
  ghost function RunsBut(w: World, rest: set<string>): set<nat>
    requires w.Valid()
  {
    set n | n in w.tasks && n !in rest && w.items[w.tasks[n]].cancel.Some? :: w.items[w.tasks[n]].cancel.value
  }

  lemma NoneEnded(w: World)
    requires w.Valid()
    ensures Ended(w, RunsBut(w, w.tasks.Keys)) == w
  {
    assert w.contexts.cancelled + RunsBut(w, w.tasks.Keys) == w.contexts.cancelled;
  }

  lemma OneMoreEnded(w: World, rest: set<string>, n: string)
    requires w.Valid() && n in rest && n in w.tasks
    ensures EndRun(Ended(w, RunsBut(w, rest)), w.tasks[n]) == Ended(w, RunsBut(w, rest - {n}))
  {
    var c := w.items[w.tasks[n]].cancel;
    assert RunsBut(w, rest - {n}) == RunsBut(w, rest) + if c.Some? then {c.value} else {};
    assert EndRun(Ended(w, RunsBut(w, rest)), w.tasks[n]).contexts.cancelled ==
           Ended(w, RunsBut(w, rest - {n})).contexts.cancelled;
  }

  lemma AllEnded(w: World)
    requires w.Valid()
    ensures Ended(w, RunsBut(w, {})) == CancelAllTasks(w)
  {
    assert RunsBut(w, {}) == RunsOfTasks(w);
  }
}
