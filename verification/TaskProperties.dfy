/** What every run of the task manager keeps, and what a cancelled task can still do. */
module TaskProperties {
  import opened Wrappers
  import opened TaskModel

  // ------------------------------------------------------------------------
  // Contexts
  // ------------------------------------------------------------------------

  ghost predicate Below(t: Contexts, c: nat, a: nat)
    requires t.Valid() && c < |t.parents|
    decreases c
  {
    c == a || (c != 0 && Below(t, t.parents[c], a))
  }

  // Cancelling ends a context and everything below it, and nothing else.
  lemma {:induction false} CancelEndsSubtree(t: Contexts, c: nat, x: nat)
    requires t.Valid() && c < |t.parents| && x < |t.parents|
    ensures t.Cancel(x).Valid()
    ensures t.Cancel(x).Dead(c) <==> t.Dead(c) || Below(t, c, x)
    decreases c
  {
    if c != 0 {
      CancelEndsSubtree(t, t.parents[c], x);
    }
  }

  // A new context lives exactly if its parent does; the others do not notice.
  lemma {:induction false} DeriveKeeps(t: Contexts, parent: nat, owner: Owner, c: nat)
    requires t.Valid() && parent < |t.parents| && c < |t.parents|
    ensures t.Derive(parent, owner).Valid()
    ensures t.Derive(parent, owner).Dead(c) <==> t.Dead(c)
    decreases c
  {
    if c != 0 {
      DeriveKeeps(t, parent, owner, t.parents[c]);
    }
  }

  lemma DeriveBorn(t: Contexts, parent: nat, owner: Owner)
    requires t.Valid() && parent < |t.parents| && |t.parents| !in t.cancelled
    ensures t.Derive(parent, owner).Valid()
    ensures t.Derive(parent, owner).Dead(|t.parents|) <==> t.Dead(parent)
  {
    DeriveKeeps(t, parent, owner, parent);
  }

  // The same contexts, maybe with some cancelled, and maybe more of them.
  ghost predicate Grows(t: Contexts, u: Contexts) {
    t.Valid() && u.Valid() && t.parents <= u.parents && t.owners <= u.owners && t.cancelled <= u.cancelled
  }

  lemma {:induction false} DeadStaysDead(t: Contexts, u: Contexts, c: nat)
    requires Grows(t, u) && c < |t.parents|
    ensures t.Dead(c) ==> u.Dead(c)
    decreases c
  {
    if c != 0 {
      DeadStaysDead(t, u, t.parents[c]);
    }
  }

  lemma {:induction false} BelowDead(t: Contexts, c: nat, x: nat)
    requires t.Valid() && c < |t.parents| && x < |t.parents| && Below(t, c, x) && t.Dead(x)
    ensures t.Dead(c)
    decreases c
  {
    if c != x {
      BelowDead(t, t.parents[c], x);
    }
  }

  // ------------------------------------------------------------------------
  // Each item keeps the cancel functions of its live contexts
  // ------------------------------------------------------------------------

  ghost predicate Known(t: Contexts) {
    forall c :: c in t.cancelled ==> c < |t.parents|
  }

  ghost predicate Kept(t: Contexts, items: seq<Item>, c: nat)
    requires t.Valid() && c < |t.parents|
  {
    match t.owners[c]
    case Caller => true
    case RunOf(i) => i < |items| && (t.Dead(c) || items[i].cancel == Some(c))
    case WatchOf(i) => i < |items| && (t.Dead(c) || items[i].watchCancel == Some(c))
  }

  ghost predicate Owns(t: Contexts, items: seq<Item>, i: nat)
    requires t.Valid() && i < |items| && Holds(t, items[i])
  {
    && (items[i].cancel.Some? ==> t.owners[items[i].cancel.value] == RunOf(i))
    && (items[i].watchCancel.Some? ==> t.owners[items[i].watchCancel.value] == WatchOf(i))
  }

  ghost predicate Owned(t: Contexts, items: seq<Item>) {
    && t.Valid() && Known(t)
    && (forall i :: 0 <= i < |items| ==> Holds(t, items[i]) && Owns(t, items, i))
    && (forall c :: 0 <= c < |t.parents| ==> Kept(t, items, c))
  }

  lemma OwnedAfterCancel(t: Contexts, u: Contexts, items: seq<Item>)
    requires Owned(t, items) && Grows(t, u) && |u.parents| == |t.parents| && Known(u)
    ensures Owned(u, items)
  {
    forall c | 0 <= c < |t.parents|
      ensures Kept(u, items, c)
    {
      assert Kept(t, items, c);
      DeadStaysDead(t, u, c);
    }
    forall i | 0 <= i < |items|
      ensures Holds(u, items[i]) && Owns(u, items, i)
    {
      assert Owns(t, items, i);
    }
  }

  lemma OwnedAfterDerive(t: Contexts, items: seq<Item>, parent: nat)
    requires Owned(t, items) && parent < |t.parents|
    ensures Owned(t.Derive(parent, Caller), items)
  {
    var u := t.Derive(parent, Caller);
    DeriveBorn(t, parent, Caller);
    forall c | 0 <= c < |u.parents|
      ensures Kept(u, items, c)
    {
      if c < |t.parents| {
        assert Kept(t, items, c);
        DeriveKeeps(t, parent, Caller, c);
      }
    }
    forall i | 0 <= i < |items|
      ensures Holds(u, items[i]) && Owns(u, items, i)
    {
      assert Owns(t, items, i);
    }
  }

  lemma OwnedAfterCreate(t: Contexts, items: seq<Item>, item: Item)
    requires Owned(t, items) && item.cancel.None? && item.watchCancel.None?
    ensures Owned(t, items + [item])
  {
    forall c | 0 <= c < |t.parents|
      ensures Kept(t, items + [item], c)
    {
      assert Kept(t, items, c);
    }
    forall i | 0 <= i < |items + [item]|
      ensures Holds(t, (items + [item])[i]) && Owns(t, items + [item], i)
    {
      if i < |items| {
        assert Owns(t, items, i);
      }
    }
  }

  // The run that an item replaces is dead before the next one is born.
  lemma OwnedAfterRun(t: Contexts, items: seq<Item>, i: nat, ctx: nat, error: Option<string>)
    requires Owned(t, items) && i < |items| && ctx < |t.parents|
    ensures var (u, item) := ItemRun(t, i, items[i], ctx, error); Owned(u, items[i := item])
  {
    var (u, item) := ItemRun(t, i, items[i], ctx, error);
    var after, s := items[i := item], t.CancelIf(items[i].cancel);
    OwnedAfterCancel(t, s, items);
    DeriveBorn(s, ctx, RunOf(i));
    forall c | 0 <= c < |u.parents|
      ensures Kept(u, after, c)
    {
      if c < |s.parents| {
        assert Kept(s, items, c);
        DeriveKeeps(s, ctx, RunOf(i), c);
      }
    }
    forall j | 0 <= j < |after|
      ensures Holds(u, after[j]) && Owns(u, after, j)
    {
      assert Owns(s, items, j);
    }
  }

  lemma OwnedAfterWatch(t: Contexts, items: seq<Item>, i: nat, ctx: nat)
    requires Owned(t, items) && i < |items| && ctx < |t.parents|
    ensures var (u, item) := ItemWatch(t, i, items[i], ctx); Owned(u, items[i := item])
  {
    var (u, item) := ItemWatch(t, i, items[i], ctx);
    var after, s := items[i := item], t.CancelIf(items[i].watchCancel);
    OwnedAfterCancel(t, s, items);
    DeriveBorn(s, ctx, WatchOf(i));
    forall c | 0 <= c < |u.parents|
      ensures Kept(u, after, c)
    {
      if c < |s.parents| {
        assert Kept(s, items, c);
        DeriveKeeps(s, ctx, WatchOf(i), c);
      }
    }
    forall j | 0 <= j < |after|
      ensures Holds(u, after[j]) && Owns(u, after, j)
    {
      assert Owns(s, items, j);
    }
  }

  ghost predicate Ok(w: World) {
    w.Valid() && Owned(w.contexts, w.items)
  }

  lemma RunItemKeeps(w: World, i: nat, ctx: nat, error: Option<string>)
    requires Ok(w) && i < |w.items| && ctx < |w.contexts.parents|
    ensures Ok(RunItem(w, i, ctx, error))
  {
    OwnedAfterRun(w.contexts, w.items, i, ctx, error);
  }

  lemma WithoutTaskKeeps(w: World, name: string)
    requires Ok(w)
    ensures Ok(WithoutTask(w, name))
  {
    OwnedAfterCancel(w.contexts, WithoutTask(w, name).contexts, w.items);
  }

  lemma CreatedKeeps(w: World, name: string, meta: map<string, string>)
    requires Ok(w)
    ensures Ok(Created(w, name, meta))
  {
    OwnedAfterCreate(w.contexts, w.items, Item(name, meta, None, None));
  }

  lemma BeginWatchKeeps(w: World, at: nat, works: bool)
    requires Ok(w) && at < |w.pending|
    ensures Ok(BeginWatch(w, at, works))
  {
    var p := w.pending[at];
    OwnedAfterWatch(w.contexts, w.items, p.item, p.ctx);
    var r := BeginWatch(w, at, works);
    forall q | q in r.pending
      ensures q.item < |r.items| && q.ctx < |r.contexts.parents|
    {
      assert q in w.pending;
    }
  }

  lemma RunTaskKeeps(w: World, name: string, ctx: nat, error: Option<string>)
    requires Ok(w) && ctx < |w.contexts.parents|
    ensures Ok(RunTask(w, name, ctx, error)) && Ok(WatchTask(w, name, ctx, error))
  {
    if name in w.tasks {
      RunItemKeeps(w, w.tasks[name], ctx, error);
      assert Ok(w.Fire(name, Running));
      RunItemKeeps(w.Fire(name, Running), w.tasks[name], ctx, error);
    }
  }

  lemma CancelTaskKeeps(w: World, name: string)
    requires Ok(w)
    ensures Ok(CancelTask(w, name))
  {
    OwnedAfterCancel(w.contexts, CancelTask(w, name).contexts, w.items);
  }

  lemma CancelAllKeeps(w: World)
    requires Ok(w)
    ensures Ok(CancelAllTasks(w))
  {
    OwnedAfterCancel(w.contexts, CancelAllTasks(w).contexts, w.items);
  }

  lemma CallerKeeps(w: World, ctx: nat)
    requires Ok(w) && ctx < |w.contexts.parents|
    ensures Ok(w.(contexts := w.contexts.Derive(ctx, Caller))) && Ok(w.(contexts := w.contexts.Cancel(ctx)))
  {
    OwnedAfterDerive(w.contexts, w.items, ctx);
    OwnedAfterCancel(w.contexts, w.contexts.Cancel(ctx), w.items);
  }

  lemma StepKeeps(w: World, s: Step)
    requires Ok(w) && Enabled(w, s)
    ensures Ok(Next(w, s))
  {
    match s
    case NewItem(name, meta) => CreatedKeeps(w, name, meta);
    case AddTask(item) =>
    case RmTask(name) => WithoutTaskKeeps(w, name);
    case Register(name, meta) =>
      WithoutTaskKeeps(w, name);
      CreatedKeeps(WithoutTask(w, name), name, meta);
    case Run(name, ctx, error) => RunTaskKeeps(w, name, ctx, error);
    case Watch(name, ctx, error) => RunTaskKeeps(w, name, ctx, error);
    case Cancel(name) => CancelTaskKeeps(w, name);
    case CancelAll => CancelAllKeeps(w);
    case WatchStarts(at, works) => BeginWatchKeeps(w, at, works);
    case FileWritten(loop, error) => RunItemKeeps(w, w.contexts.owners[loop].item, loop, error);
    case LoopReturns(loop) =>
    case CallerDerives(ctx) => CallerKeeps(w, ctx);
    case CallerCancels(ctx) => CallerKeeps(w, ctx);
  }

  // ------------------------------------------------------------------------
  // Runs
  // ------------------------------------------------------------------------

  ghost predicate Possible(w: World, steps: seq<Step>)
    requires Ok(w)
    decreases |steps|
  {
    steps != [] ==> Enabled(w, steps[0]) && (StepKeeps(w, steps[0]); Possible(Next(w, steps[0]), steps[1..]))
  }

  ghost function After(w: World, steps: seq<Step>): (r: World)
    requires Ok(w) && Possible(w, steps)
    ensures Ok(r)
    decreases |steps|
  {
    if steps == [] then w
    else
      StepKeeps(w, steps[0]);
      After(Next(w, steps[0]), steps[1..])
  }

  // At all times an item has at most one live run context and at most one live
  // watch context, and holds the cancel function of each.
  lemma AtMostOneLive(w: World, i: nat, c: nat, d: nat)
    requires Ok(w) && i < |w.items| && c < |w.contexts.parents| && d < |w.contexts.parents| && w.Live(c) && w.Live(d)
    ensures w.contexts.owners[c] == w.contexts.owners[d] == RunOf(i) ==> c == d && w.items[i].cancel == Some(c)
    ensures w.contexts.owners[c] == w.contexts.owners[d] == WatchOf(i) ==> c == d && w.items[i].watchCancel == Some(c)
  {
    assert Kept(w.contexts, w.items, c) && Kept(w.contexts, w.items, d);
  }

  lemma AtMostOneLiveInEveryRun(steps: seq<Step>, i: nat, c: nat, d: nat)
    requires Possible(Start, steps)
    requires var w := After(Start, steps);
      c < |w.contexts.parents| && d < |w.contexts.parents| && w.Live(c) && w.Live(d) &&
      w.contexts.owners[c] == w.contexts.owners[d] && OwnedBy(w.contexts.owners[c], i)
    ensures c == d
  {
    assert Kept(After(Start, steps).contexts, After(Start, steps).items, c);
    AtMostOneLive(After(Start, steps), i, c, d);
  }

  // ------------------------------------------------------------------------
  // A cancelled task
  // ------------------------------------------------------------------------

  ghost predicate OwnedBy(o: Owner, i: nat) {
    o == RunOf(i) || o == WatchOf(i)
  }

  // Nothing of the item is alive.
  ghost predicate Still(w: World, i: nat)
    requires w.contexts.Valid()
  {
    forall c :: 0 <= c < |w.contexts.parents| && OwnedBy(w.contexts.owners[c], i) ==> !w.Live(c)
  }

  // No watch of the item waits to be started in a live context.
  ghost predicate NoneWaiting(w: World, i: nat)
    requires w.Valid()
  {
    forall p :: p in w.pending && p.item == i ==> !w.Live(p.ctx)
  }

  // A new start: Run or Watch is called for the item in a live context.
  ghost predicate Restarts(w: World, s: Step, i: nat)
    requires w.Valid() && Enabled(w, s)
  {
    match s
    case Run(name, ctx, _) => name in w.tasks && w.tasks[name] == i && w.Live(ctx)
    case Watch(name, ctx, _) => name in w.tasks && w.tasks[name] == i && w.Live(ctx)
    case _ => false
  }

  lemma CancelStops(w: World, name: string)
    requires Ok(w) && name in w.tasks
    ensures var r := Next(w, Cancel(name)); Ok(r) && Still(r, w.tasks[name])
  {
    var i, r := w.tasks[name], CancelTask(w, name);
    StepKeeps(w, Cancel(name));
    forall c | 0 <= c < |r.contexts.parents| && OwnedBy(r.contexts.owners[c], i)
      ensures !r.Live(c)
    {
      assert Kept(r.contexts, r.items, c);
    }
  }

  // ------------------------------------------------------------------------
  // What a stopped task can still do
  // ------------------------------------------------------------------------

  // The context that a step makes, if it makes one: its parent and its owner.
  function Birth(w: World, s: Step): Option<(nat, Owner)>
    requires w.Valid() && Enabled(w, s)
  {
    match s
    case Run(name, ctx, _) => if name in w.tasks then Some((ctx, RunOf(w.tasks[name]))) else None
    case Watch(name, ctx, _) => if name in w.tasks then Some((ctx, RunOf(w.tasks[name]))) else None
    case WatchStarts(at, _) => Some((w.pending[at].ctx, WatchOf(w.pending[at].item)))
    case FileWritten(loop, _) => Some((loop, RunOf(w.contexts.owners[loop].item)))
    case CallerDerives(ctx) => Some((ctx, Caller))
    case _ => None
  }

  ghost predicate GrowsBy(t: Contexts, u: Contexts, birth: Option<(nat, Owner)>) {
    && Grows(t, u)
    && u.parents == t.parents + (if birth.Some? then [birth.value.0] else [])
    && u.owners == t.owners + (if birth.Some? then [birth.value.1] else [])
  }

  lemma ItemGrows(w: World, i: nat, ctx: nat, error: Option<string>)
    requires w.Valid() && i < |w.items| && ctx < |w.contexts.parents|
    ensures GrowsBy(w.contexts, RunItem(w, i, ctx, error).contexts, Some((ctx, RunOf(i))))
    ensures GrowsBy(w.contexts, WatchItem(w, i, ctx).contexts, Some((ctx, WatchOf(i))))
  {
  }

  ghost predicate OnlyCancels(t: Contexts, u: Contexts) {
    t.parents == u.parents && t.owners == u.owners && t.cancelled <= u.cancelled
  }

  lemma EndCancels(w: World, i: nat)
    requires w.Valid() && i < |w.items|
    ensures OnlyCancels(w.contexts, EndRun(w, i).contexts) && OnlyCancels(w.contexts, EndWatch(w, i).contexts)
  {
  }

  lemma RemoveCancels(w: World, name: string)
    requires w.Valid()
    ensures OnlyCancels(w.contexts, WithoutTask(w, name).contexts)
    ensures OnlyCancels(w.contexts, CancelTask(w, name).contexts)
  {
    if name in w.tasks {
      var i := w.tasks[name];
      EndCancels(w, i);
      EndCancels(EndWatch(w, i), i);
    }
  }

  lemma NothingBorn(w: World, s: Step)
    requires w.Valid() && Enabled(w, s)
    requires !s.Run? && !s.Watch? && !s.WatchStarts? && !s.FileWritten? && !s.CallerDerives?
    ensures OnlyCancels(w.contexts, Next(w, s).contexts)
  {
    match s
    case RmTask(name) => RemoveCancels(w, name);
    case Register(name, _) => RemoveCancels(w, name);
    case Cancel(name) => RemoveCancels(w, name);
    case _ =>
  }

  lemma StepGrows(w: World, s: Step)
    requires w.Valid() && Enabled(w, s)
    ensures GrowsBy(w.contexts, Next(w, s).contexts, Birth(w, s))
  {
    match s
    case Run(name, ctx, error) =>
      if name in w.tasks { ItemGrows(w.Fire(name, Running), w.tasks[name], ctx, error); }
    case Watch(name, ctx, error) =>
      if name in w.tasks { ItemGrows(w, w.tasks[name], ctx, error); }
    case WatchStarts(at, works) => ItemGrows(Scheduled(w, at), w.pending[at].item, w.pending[at].ctx, None);
    case FileWritten(loop, error) => ItemGrows(w, w.contexts.owners[loop].item, loop, error);
    case CallerDerives(_) =>
    case _ => NothingBorn(w, s);
  }

  // A context that a step makes for an item that is still has a dead parent.
  lemma BornDead(w: World, s: Step, i: nat)
    requires w.Valid() && Enabled(w, s) && Still(w, i) && NoneWaiting(w, i) && !Restarts(w, s, i)
    requires Birth(w, s).Some? && OwnedBy(Birth(w, s).value.1, i)
    ensures var parent := Birth(w, s).value.0;
      parent < |w.contexts.parents| && w.contexts.Dead(parent)
  {
    match s
    case WatchStarts(at, _) => assert w.pending[at] in w.pending;
    case FileWritten(loop, _) => assert w.contexts.owners[loop] == WatchOf(i);
    case _ =>
  }

  lemma StillNext(w: World, s: Step, i: nat)
    requires Ok(w) && Enabled(w, s) && Still(w, i) && NoneWaiting(w, i) && !Restarts(w, s, i)
    ensures Ok(Next(w, s)) && Still(Next(w, s), i)
  {
    var r, n := Next(w, s), |w.contexts.parents|;
    StepKeeps(w, s);
    StepGrows(w, s);
    forall c | 0 <= c < |r.contexts.parents| && OwnedBy(r.contexts.owners[c], i)
      ensures !r.Live(c)
    {
      if c < n {
        assert w.contexts.owners[c] == r.contexts.owners[c];
        DeadStaysDead(w.contexts, r.contexts, c);
      } else {
        BornDead(w, s, i);
        DeadStaysDead(w.contexts, r.contexts, r.contexts.parents[n]);
      }
    }
  }

  lemma PendingNext(w: World, s: Step, p: Pending)
    requires Ok(w) && Enabled(w, s) && p in Next(w, s).pending
    ensures p.ctx < |w.contexts.parents|
    ensures p in w.pending || (s.Watch? && s.name in w.tasks && p == Pending(w.tasks[s.name], s.ctx))
  {
  }

  lemma QuietStep(w: World, s: Step, i: nat)
    requires Ok(w) && Enabled(w, s) && Still(w, i) && NoneWaiting(w, i) && !Restarts(w, s, i)
    ensures Ok(Next(w, s)) && Still(Next(w, s), i) && NoneWaiting(Next(w, s), i)
  {
    var r := Next(w, s);
    StillNext(w, s, i);
    StepGrows(w, s);
    forall p | p in r.pending && p.item == i
      ensures !r.Live(p.ctx)
    {
      PendingNext(w, s, p);
      DeadStaysDead(w.contexts, r.contexts, p.ctx);
    }
  }

  // No step of a run starts the item anew.
  ghost predicate Unstarted(w: World, steps: seq<Step>, i: nat)
    requires Ok(w) && Possible(w, steps)
    decreases |steps|
  {
    steps != [] ==>
      !Restarts(w, steps[0], i) && (StepKeeps(w, steps[0]); Unstarted(Next(w, steps[0]), steps[1..], i))
  }

  lemma {:induction false} StaysStill(w: World, steps: seq<Step>, i: nat)
    requires Ok(w) && Possible(w, steps) && Unstarted(w, steps, i) && Still(w, i) && NoneWaiting(w, i)
    ensures Still(After(w, steps), i)
    decreases |steps|
  {
    if steps != [] {
      QuietStep(w, steps[0], i);
      StaysStill(Next(w, steps[0]), steps[1..], i);
    }
  }

  // Cancelling what is dead already changes nothing.
  lemma CancelDead(t: Contexts, x: Option<nat>, c: nat)
    requires t.Valid() && c < |t.parents| && (x.Some? ==> x.value < |t.parents| && t.Dead(x.value))
    ensures t.CancelIf(x).Valid() && (t.CancelIf(x).Dead(c) <==> t.Dead(c))
  {
    if x.Some? {
      CancelEndsSubtree(t, c, x.value);
      if Below(t, c, x.value) {
        BelowDead(t, c, x.value);
      }
    }
  }

  // An item whose last run ended comes alive with the context it is run in, and
  // not otherwise.
  lemma RunOfEnded(w: World, i: nat, ctx: nat, error: Option<string>)
    requires Ok(w) && i < |w.items| && ctx < |w.contexts.parents|
    requires w.items[i].cancel.Some? ==> !w.Live(w.items[i].cancel.value)
    ensures Ok(RunItem(w, i, ctx, error)) && |RunItem(w, i, ctx, error).contexts.parents| > |w.contexts.parents|
    ensures var r := RunItem(w, i, ctx, error);
      r.Live(|w.contexts.parents|) <==> w.Live(ctx)
  {
    RunItemKeeps(w, i, ctx, error);
    CancelDead(w.contexts, w.items[i].cancel, ctx);
    DeriveBorn(w.contexts.CancelIf(w.items[i].cancel), ctx, RunOf(i));
  }

  lemma WatchOfStill(w: World, at: nat, works: bool)
    requires Ok(w) && at < |w.pending| && Still(w, w.pending[at].item)
    ensures Ok(BeginWatch(w, at, works)) && |BeginWatch(w, at, works).contexts.parents| > |w.contexts.parents|
    ensures var r := BeginWatch(w, at, works);
      r.Live(|w.contexts.parents|) <==> w.Live(w.pending[at].ctx)
  {
    var i, ctx := w.pending[at].item, w.pending[at].ctx;
    BeginWatchKeeps(w, at, works);
    assert Owns(w.contexts, w.items, i);
    CancelDead(w.contexts, w.items[i].watchCancel, ctx);
    DeriveBorn(w.contexts.CancelIf(w.items[i].watchCancel), ctx, WatchOf(i));
  }

  // The condition of QuietStep is exact: a restart makes the item alive.
  lemma RestartRevives(w: World, s: Step, i: nat)
    requires Ok(w) && Enabled(w, s) && Still(w, i) && Restarts(w, s, i)
    ensures Ok(Next(w, s)) && !Still(Next(w, s), i)
  {
    StepKeeps(w, s);
    var r, n := Next(w, s), |w.contexts.parents|;
    assert Owns(w.contexts, w.items, i);
    match s
    case Run(name, ctx, error) =>
      RunOfEnded(w.Fire(name, Running), i, ctx, error);
      assert r.contexts.owners[n] == RunOf(i) && r.Live(n);
    case Watch(name, ctx, error) =>
      RunOfEnded(w, i, ctx, error);
      assert r.contexts.owners[n] == RunOf(i) && r.Live(n);
    case _ => assert false;
  }

  lemma {:induction false} EndsExactly(t: Contexts, xs: set<nat>, c: nat)
    requires t.Valid() && c < |t.parents|
    ensures t.(cancelled := t.cancelled + xs).Dead(c) <==> t.Dead(c) || exists x :: x in xs && Below(t, c, x)
    decreases c
  {
    if c != 0 {
      EndsExactly(t, xs, t.parents[c]);
    }
    if t.(cancelled := t.cancelled + xs).Dead(c) && !t.Dead(c) && c !in xs {
      var x :| x in xs && Below(t, t.parents[c], x);
      assert Below(t, c, x);
    }
  }

  // The contexts whose cancel functions an item holds.
  function ContextsOf(i: Item): set<nat> {
    (if i.cancel.Some? then {i.cancel.value} else {}) + (if i.watchCancel.Some? then {i.watchCancel.value} else {})
  }

  // A watch of the item that waits to be started waits in a context that has ended
  // or that ends with the contexts of the item.
  ghost predicate WaitingEnds(w: World, i: nat)
    requires w.Valid() && i < |w.items|
  {
    forall p :: p in w.pending && p.item == i ==>
      !w.Live(p.ctx) || exists x :: x in ContextsOf(w.items[i]) && Below(w.contexts, p.ctx, x)
  }

  lemma CancelEndsWaiting(w: World, name: string)
    requires Ok(w) && name in w.tasks
    ensures NoneWaiting(Next(w, Cancel(name)), w.tasks[name]) <==> WaitingEnds(w, w.tasks[name])
  {
    var i, r, t := w.tasks[name], Next(w, Cancel(name)), w.contexts;
    var xs := ContextsOf(w.items[i]);
    assert r.contexts == t.(cancelled := t.cancelled + xs) && r.pending == w.pending;
    forall p | p in w.pending
      ensures !r.Live(p.ctx) <==> !w.Live(p.ctx) || exists x :: x in xs && Below(t, p.ctx, x)
    {
      EndsExactly(t, xs, p.ctx);
    }
  }

  // A cancelled task stays dead until it is run or watched again, whatever else
  // happens, exactly if no watch that was asked for before waits to be started in a
  // live context that the cancel does not end.
  lemma CancelHoldsIffNoneWaiting(w: World, name: string)
    requires Ok(w) && name in w.tasks
    ensures var i, r := w.tasks[name], Next(w, Cancel(name));
      Ok(r) &&
      (WaitingEnds(w, i) <==>
       forall steps :: Possible(r, steps) && Unstarted(r, steps, i) ==> Still(After(r, steps), i))
  {
    var i, r := w.tasks[name], Next(w, Cancel(name));
    CancelStops(w, name);
    CancelEndsWaiting(w, name);
    if NoneWaiting(r, i) {
      forall steps | Possible(r, steps) && Unstarted(r, steps, i)
        ensures Still(After(r, steps), i)
      {
        StaysStill(r, steps, i);
      }
    } else {
      WaitingWatchRevives(r, i);
    }
  }

  lemma WaitingWatchRevives(w: World, i: nat)
    requires Ok(w) && Still(w, i) && !NoneWaiting(w, i)
    ensures exists steps :: Possible(w, steps) && Unstarted(w, steps, i) && !Still(After(w, steps), i)
  {
    var p :| p in w.pending && p.item == i && w.Live(p.ctx);
    var at :| 0 <= at < |w.pending| && w.pending[at] == p;
    WatchOfStill(w, at, true);
    var u, n := Next(w, WatchStarts(at, true)), |w.contexts.parents|;
    assert u.contexts.owners[n] == WatchOf(i) && u.Live(n);
    OneStep(w, WatchStarts(at, true), i);
  }

  lemma OneStep(w: World, s: Step, i: nat)
    requires Ok(w) && Enabled(w, s)
    ensures Possible(w, [s]) && After(w, [s]) == Next(w, s)
    ensures !Restarts(w, s, i) ==> Unstarted(w, [s], i)
  {
    StepKeeps(w, s);
    assert [s][1..] == [];
    assert Possible(Next(w, s), []) && Unstarted(Next(w, s), [], i) && After(Next(w, s), []) == Next(w, s);
  }

  // ------------------------------------------------------------------------
  // Removing one task and cancelling all: runs end, watches need not
  // ------------------------------------------------------------------------

  // CancelAll ends every run of a registered task, and besides only what is below
  // such a run: a watch that is not goes on.
  lemma CancelAllEndsRuns(w: World, c: nat)
    requires Ok(w) && c < |w.contexts.parents|
    ensures var r := Next(w, CancelAll);
      Ok(r) && (!r.Live(c) <==> !w.Live(c) || exists x :: x in RunsOfTasks(w) && Below(w.contexts, c, x))
    ensures var r := Next(w, CancelAll);
      forall n :: n in w.tasks && w.contexts.owners[c] == RunOf(w.tasks[n]) ==> !r.Live(c)
  {
    StepKeeps(w, CancelAll);
    EndsExactly(w.contexts, RunsOfTasks(w), c);
    forall n | n in w.tasks && w.contexts.owners[c] == RunOf(w.tasks[n])
      ensures !Next(w, CancelAll).Live(c)
    {
      assert Kept(w.contexts, w.items, c);
      if w.Live(c) {
        assert c in RunsOfTasks(w) && Below(w.contexts, c, c);
      }
    }
  }

  // Removing a task ends its run but not its watch: a later file event in a watch
  // loop of the removed task runs it again exactly if that loop was alive and does
  // not belong to the run that was ended.
  lemma RemovedTaskStillRuns(w: World, name: string, loop: nat, error: Option<string>)
    requires Ok(w) && name in w.tasks && loop in w.loops && w.contexts.owners[loop] == WatchOf(w.tasks[name])
    ensures Ok(Next(w, RmTask(name)))
    ensures var r := Next(w, RmTask(name));
      name !in r.tasks && Enabled(r, FileWritten(loop, error)) && Ok(Next(r, FileWritten(loop, error)))
    ensures var i, n, u := w.tasks[name], |w.contexts.parents|, Next(Next(w, RmTask(name)), FileWritten(loop, error));
      |u.contexts.parents| == n + 1 && u.contexts.owners[n] == RunOf(i) &&
      (u.Live(n) <==>
       w.Live(loop) && !(w.items[i].cancel.Some? && Below(w.contexts, loop, w.items[i].cancel.value)))
  {
    var i, r := w.tasks[name], Next(w, RmTask(name));
    StepKeeps(w, RmTask(name));
    EndRunEnds(w, i, loop);
    RunOfEnded(r, i, loop, error);
  }

  lemma EndRunEnds(w: World, i: nat, c: nat)
    requires Ok(w) && i < |w.items| && c < |w.contexts.parents|
    ensures var u := EndRun(w, i).contexts;
      && (!u.Dead(c) <==> w.Live(c) && !(w.items[i].cancel.Some? && Below(w.contexts, c, w.items[i].cancel.value)))
      && (w.items[i].cancel.Some? ==> u.Dead(w.items[i].cancel.value))
  {
    if w.items[i].cancel.Some? {
      CancelEndsSubtree(w.contexts, c, w.items[i].cancel.value);
      CancelEndsSubtree(w.contexts, w.items[i].cancel.value, w.items[i].cancel.value);
    }
  }

  // ------------------------------------------------------------------------
  // Both happen: two runs from the start
  // ------------------------------------------------------------------------

  // The worlds after Register, after Watch as well, and after that watch has started.
  function Registered(name: string): World {
    World(Background, [Item(name, map[], None, None)], map[name := 0], [], {}, [TaskEvent(name, Added)])
  }

  function Asked(name: string): World {
    World(Contexts([0, 0], [Caller, RunOf(0)], {}), [Item(name, map[], Some(1), None)], map[name := 0],
          [Pending(0, 0)], {}, [TaskEvent(name, Added), TaskEvent(name, Watching)])
  }

  function Watched(name: string): World {
    World(Contexts([0, 0, 0], [Caller, RunOf(0), WatchOf(0)], {}), [Item(name, map[], Some(1), Some(2))],
          map[name := 0], [], {2}, [TaskEvent(name, Added), TaskEvent(name, Watching)])
  }

  lemma RegisterFromStart(name: string)
    ensures Ok(Start) && Ok(Registered(name)) && Next(Start, Register(name, map[])) == Registered(name)
  {
    StepKeeps(Start, Register(name, map[]));
    assert Next(Start, Register(name, map[])).items == Registered(name).items;
  }

  lemma WatchFromRegistered(name: string)
    ensures Ok(Registered(name)) && Ok(Asked(name)) && Next(Registered(name), Watch(name, 0, None)) == Asked(name)
  {
    RegisterFromStart(name);
    StepKeeps(Registered(name), Watch(name, 0, None));
    var r := Next(Registered(name), Watch(name, 0, None));
    assert r.contexts == Asked(name).contexts;
    assert r.items == Asked(name).items;
    assert r.pending == Asked(name).pending && r.events == Asked(name).events;
  }

  lemma StartsFromAsked(name: string)
    ensures Ok(Asked(name)) && Ok(Watched(name)) && Next(Asked(name), WatchStarts(0, true)) == Watched(name)
  {
    WatchFromRegistered(name);
    StepKeeps(Asked(name), WatchStarts(0, true));
    var r := Next(Asked(name), WatchStarts(0, true));
    assert r.contexts == Watched(name).contexts;
    assert r.items == Watched(name).items;
    assert r.loops == {2} && r.pending == [];
  }

  lemma TwoSteps(w: World, s: Step, t: Step)
    requires Ok(w) && Enabled(w, s) && Ok(Next(w, s)) && Enabled(Next(w, s), t)
    ensures Possible(w, [s, t]) && After(w, [s, t]) == Next(Next(w, s), t)
  {
    OneStep(Next(w, s), t, 0);
    assert [s, t][1..] == [t];
  }

  lemma ThenSteps(w: World, s: Step, steps: seq<Step>)
    requires Ok(w) && Enabled(w, s) && Ok(Next(w, s)) && Possible(Next(w, s), steps)
    ensures Possible(w, [s] + steps) && After(w, [s] + steps) == After(Next(w, s), steps)
  {
    assert ([s] + steps)[1..] == steps;
  }

  // Register and Watch, and then on.
  lemma FirstSteps(name: string, steps: seq<Step>)
    requires Ok(Asked(name)) && Possible(Asked(name), steps)
    ensures var all := [Register(name, map[]), Watch(name, 0, None)] + steps;
      Possible(Start, all) && After(Start, all) == After(Asked(name), steps)
  {
    RegisterFromStart(name);
    WatchFromRegistered(name);
    ThenSteps(Registered(name), Watch(name, 0, None), steps);
    ThenSteps(Start, Register(name, map[]), [Watch(name, 0, None)] + steps);
    assert [Register(name, map[])] + ([Watch(name, 0, None)] + steps) ==
           [Register(name, map[]), Watch(name, 0, None)] + steps;
  }

  // Register, Watch, Cancel: the task is still, and its watch waits to be started.
  lemma CancelCanFail(name: string)
    ensures var steps := [Register(name, map[]), Watch(name, 0, None)] + [Cancel(name)];
      && Possible(Start, steps) && Ok(After(Start, steps))
      && Still(After(Start, steps), 0) && !NoneWaiting(After(Start, steps), 0)
  {
    WatchFromRegistered(name);
    CancelStops(Asked(name), name);
    OneStep(Asked(name), Cancel(name), 0);
    FirstSteps(name, [Cancel(name)]);
    CancelLeavesWaiting(name);
  }

  lemma CancelLeavesWaiting(name: string)
    ensures Ok(Asked(name)) && var r := Next(Asked(name), Cancel(name)); Ok(r) && !NoneWaiting(r, 0)
  {
    WatchFromRegistered(name);
    StepKeeps(Asked(name), Cancel(name));
    var r := Next(Asked(name), Cancel(name));
    assert r.contexts == Asked(name).contexts.(cancelled := {1}) && Pending(0, 0) in r.pending;
  }

  // Register, Watch, the watch starts, RmTask, a file is written: the removed task runs.
  lemma RemovedTaskCanRun(name: string)
    ensures var steps := [Register(name, map[]), Watch(name, 0, None)] +
                         [WatchStarts(0, true), RmTask(name), FileWritten(2, None)];
      && Possible(Start, steps)
      && name !in After(Start, steps).tasks && LiveRun(After(Start, steps), 0, 3)
  {
    LastSteps(name);
    FirstSteps(name, [WatchStarts(0, true), RmTask(name), FileWritten(2, None)]);
  }

  lemma LastSteps(name: string)
    ensures Ok(Asked(name))
    ensures var steps := [WatchStarts(0, true), RmTask(name), FileWritten(2, None)];
      && Possible(Asked(name), steps)
      && name !in After(Asked(name), steps).tasks && LiveRun(After(Asked(name), steps), 0, 3)
  {
    var last := [RmTask(name), FileWritten(2, None)];
    StartsFromAsked(name);
    WatchedRunsWhenRemoved(name);
    TwoSteps(Watched(name), RmTask(name), FileWritten(2, None));
    ThenSteps(Asked(name), WatchStarts(0, true), last);
    assert [WatchStarts(0, true)] + last == [WatchStarts(0, true), RmTask(name), FileWritten(2, None)];
  }

  ghost predicate LiveRun(w: World, i: nat, c: nat) {
    w.contexts.Valid() && c < |w.contexts.parents| && w.contexts.owners[c] == RunOf(i) && w.Live(c)
  }

  lemma WatchedRunsWhenRemoved(name: string)
    ensures Ok(Watched(name)) && Ok(Next(Watched(name), RmTask(name)))
    ensures var r := Next(Watched(name), RmTask(name));
      && Enabled(r, FileWritten(2, None))
      && var u := Next(r, FileWritten(2, None)); name !in u.tasks && LiveRun(u, 0, 3)
  {
    StartsFromAsked(name);
    RemovedTaskStillRuns(Watched(name), name, 2, None);
  }

  // ------------------------------------------------------------------------
  // The history of the registry
  // ------------------------------------------------------------------------

  // The Added and Removed events of one name.
  function Registrations(es: seq<TaskEvent>, name: string): seq<TaskState> {
    if es == [] then []
    else
      var e := es[|es| - 1];
      Registrations(es[..|es| - 1], name) +
      if e.name == name && (e.state == Added || e.state == Removed) then [e.state] else []
  }

  ghost predicate Alternates(states: seq<TaskState>) {
    forall i :: 0 <= i < |states| ==> states[i] == if i % 2 == 0 then Added else Removed
  }

  // A name is registered exactly if the last of its events is Added.
  ghost predicate Recorded(tasks: map<string, nat>, es: seq<TaskEvent>, name: string) {
    var states := Registrations(es, name);
    Alternates(states) && (name in tasks <==> states != [] && states[|states| - 1] == Added)
  }

  lemma Registers(es: seq<TaskEvent>, e: TaskEvent, name: string)
    ensures Registrations(es + [e], name) ==
            Registrations(es, name) +
            if e.name == name && (e.state == Added || e.state == Removed) then [e.state] else []
  {
    assert (es + [e])[..|es|] == es;
  }

  // Whether a name is registered is whether it has an odd number of events.
  lemma AlternatesNext(states: seq<TaskState>, state: TaskState)
    requires Alternates(states)
    ensures states != [] && states[|states| - 1] == Added <==> |states| % 2 == 1
    ensures state == (if |states| % 2 == 0 then Added else Removed) ==> Alternates(states + [state])
  {
  }

  lemma RecordedPush(tasks: map<string, nat>, es: seq<TaskEvent>, n: string, item: nat, name: string)
    requires Recorded(tasks, es, name)
    ensures n !in tasks ==> Recorded(tasks[n := item], es + [TaskEvent(n, Added)], name)
    ensures n in tasks ==> Recorded(tasks - {n}, es + [TaskEvent(n, Removed)], name)
  {
    var states := Registrations(es, name);
    Registers(es, TaskEvent(n, Added), name);
    Registers(es, TaskEvent(n, Removed), name);
    AlternatesNext(states, Added);
    AlternatesNext(states, Removed);
  }

  lemma RecordedAdded(w: World, item: nat, name: string)
    requires w.Valid() && item < |w.items| && Recorded(w.tasks, w.events, name)
    ensures var r := WithTask(w, item); Recorded(r.tasks, r.events, name)
  {
    RecordedPush(w.tasks, w.events, w.items[item].name, item, name);
  }

  lemma RecordedRemoved(w: World, n: string, name: string)
    requires w.Valid() && Recorded(w.tasks, w.events, name)
    ensures var r := WithoutTask(w, n); Recorded(r.tasks, r.events, name)
  {
    RecordedPush(w.tasks, w.events, n, 0, name);
  }

  lemma RecordedOther(tasks: map<string, nat>, es: seq<TaskEvent>, e: TaskEvent, name: string)
    requires e.state != Added && e.state != Removed && Recorded(tasks, es, name)
    ensures Recorded(tasks, es + [e], name)
  {
    Registers(es, e, name);
  }

  // The events of one step, and that only registering and removing changes the tasks.
  lemma StepEvents(w: World, s: Step)
    requires w.Valid() && Enabled(w, s) && (s.Run? || s.Watch? || s.Cancel?) && s.name in w.tasks
    ensures Next(w, s).tasks == w.tasks
    ensures Next(w, s).events ==
            match s
            case Run(n, _, e) =>
              w.events + [TaskEvent(n, Running)] + [TaskEvent(n, if e.Some? then Failed else Finished)]
            case Watch(n, _, _) => w.events + [TaskEvent(n, Watching)]
            case Cancel(n) => w.events + [TaskEvent(n, Stopped)]
            case _ => []
  {
  }

  lemma StepRecords(w: World, s: Step, name: string)
    requires w.Valid() && Enabled(w, s) && Recorded(w.tasks, w.events, name)
    ensures var r := Next(w, s); Recorded(r.tasks, r.events, name)
  {
    match s
    case AddTask(item) => RecordedAdded(w, item, name);
    case RmTask(n) => RecordedRemoved(w, n, name);
    case Register(n, meta) =>
      RecordedRemoved(w, n, name);
      RecordedAdded(Created(WithoutTask(w, n), n, meta), |w.items|, name);
    case Run(n, _, error) =>
      if n in w.tasks {
        StepEvents(w, s);
        RecordedOther(w.tasks, w.events, TaskEvent(n, Running), name);
        var end := TaskEvent(n, if error.Some? then Failed else Finished);
        RecordedOther(w.tasks, w.events + [TaskEvent(n, Running)], end, name);
      }
    case Watch(n, _, _) =>
      if n in w.tasks {
        StepEvents(w, s);
        RecordedOther(w.tasks, w.events, TaskEvent(n, Watching), name);
      }
    case Cancel(n) =>
      if n in w.tasks {
        StepEvents(w, s);
        RecordedOther(w.tasks, w.events, TaskEvent(n, Stopped), name);
      }
    case _ =>
  }

  lemma {:induction false} RegistryHistory(w: World, steps: seq<Step>, name: string)
    requires Ok(w) && Possible(w, steps) && Recorded(w.tasks, w.events, name)
    ensures var r := After(w, steps); Recorded(r.tasks, r.events, name)
    decreases |steps|
  {
    if steps != [] {
      StepRecords(w, steps[0], name);
      StepKeeps(w, steps[0]);
      RegistryHistory(Next(w, steps[0]), steps[1..], name);
    }
  }

  // From the start, the events of a name are Added, Removed, Added, and so on.
  lemma RegistryHistoryFromStart(steps: seq<Step>, name: string)
    requires Possible(Start, steps)
    ensures var r := After(Start, steps); Recorded(r.tasks, r.events, name)
  {
    RegistryHistory(Start, steps, name);
  }

  // ------------------------------------------------------------------------
  // Runs are reported in pairs
  // ------------------------------------------------------------------------

  ghost predicate Ends(e: TaskEvent, name: string) {
    e.name == name && (e.state == Finished || e.state == Failed)
  }

  // Running is followed at once by one Finished or Failed of the same name, and
  // neither of these comes otherwise.
  ghost predicate Paired(es: seq<TaskEvent>) {
    && (forall k :: 0 <= k < |es| && es[k].state == Running ==> k + 1 < |es| && Ends(es[k + 1], es[k].name))
    && (forall k :: 0 <= k < |es| && Ends(es[k], es[k].name) ==> k > 0 && es[k - 1] == TaskEvent(es[k].name, Running))
  }

  // Any other event leaves the pairs alone, and a whole pair can be added.
  lemma PairedThen(es: seq<TaskEvent>, name: string, state: TaskState, end: TaskState)
    requires Paired(es) && (end == Finished || end == Failed)
    ensures state in {Added, Removed, Watching, Stopped} ==> Paired(es + [TaskEvent(name, state)])
    ensures Paired(es + [TaskEvent(name, Running)] + [TaskEvent(name, end)])
  {
    var more := es + [TaskEvent(name, Running)] + [TaskEvent(name, end)];
    assert forall k :: 0 <= k < |es| ==> more[k] == es[k];
  }

  lemma StepPairs(w: World, s: Step)
    requires Ok(w) && Enabled(w, s) && Paired(w.events)
    ensures Paired(Next(w, s).events)
  {
    match s
    case AddTask(item) => PairedThen(w.events, w.items[item].name, Added, Finished);
    case RmTask(name) => PairedThen(w.events, name, Removed, Finished);
    case Register(name, meta) =>
      PairedThen(w.events, name, Removed, Finished);
      PairedThen(WithoutTask(w, name).events, name, Added, Finished);
    case Run(name, ctx, error) => PairedThen(w.events, name, Added, if error.Some? then Failed else Finished);
    case Watch(name, ctx, error) => PairedThen(w.events, name, Watching, Finished);
    case Cancel(name) => PairedThen(w.events, name, Stopped, Finished);
    case _ =>
  }

  lemma {:induction false} RunsArePaired(w: World, steps: seq<Step>)
    requires Ok(w) && Possible(w, steps) && Paired(w.events)
    ensures Paired(After(w, steps).events)
    decreases |steps|
  {
    if steps != [] {
      StepPairs(w, steps[0]);
      StepKeeps(w, steps[0]);
      RunsArePaired(Next(w, steps[0]), steps[1..]);
    }
  }
}
