/**
  Event emitter and hook list (pkg/sim/emitter.go, pkg/sim/hook.go), against one log
  of the registrations that are still in force. Handlers are values, and a call of
  a handler is what Emit returns; handlers do not call the emitter back.
  */
module Emitters {

  datatype Entry<H> = Entry(id: string, handler: H)

  // The slice without its first entry of that id.
  function Without<H>(es: seq<Entry<H>>, id: string): seq<Entry<H>> {
    if es == [] then []
    else if es[0].id == id then es[1..]
    else [es[0]] + Without(es[1..], id)
  }

  // The handlers of the entries, in order.
  function Called<H>(es: seq<Entry<H>>): seq<H> {
    seq(|es|, i requires 0 <= i < |es| => es[i].handler)
  }

  // One call for each entry, in the same order.
  lemma CalledInOrder<H>(es: seq<Entry<H>>, i: nat)
    requires i < |es|
    ensures |Called(es)| == |es| && Called(es)[i] == es[i].handler
  {
  }

  lemma {:induction false} WithoutAt<H>(es: seq<Entry<H>>, id: string, i: nat)
    requires i <= |es| && forall j :: 0 <= j < i ==> es[j].id != id
    ensures i == |es| ==> Without(es, id) == es
    ensures i < |es| && es[i].id == id ==> Without(es, id) == es[..i] + es[i + 1..]
  {
    if i > 0 {
      WithoutAt(es[1..], id, i - 1);
      if i == |es| {
        assert [es[0]] + es[1..] == es;
      } else if es[i].id == id {
        assert es[..i] + es[i + 1..] == [es[0]] + (es[1..][..i - 1] + es[1..][i..]);
      }
    }
  }

  ghost predicate DistinctIds<H>(es: seq<Entry<H>>) {
    forall i, j :: 0 <= i < j < |es| ==> es[i].id != es[j].id
  }

  lemma {:induction false} DistinctWithout<H>(es: seq<Entry<H>>, id: string)
    requires DistinctIds(es)
    ensures DistinctIds(Without(es, id))
    ensures forall e :: e in Without(es, id) ==> e in es
  {
    if es != [] && es[0].id != id {
      DistinctWithout(es[1..], id);
      var less := Without(es[1..], id);
      forall j | 0 <= j < |less|
        ensures less[j].id != es[0].id
      {
        assert less[j] in es[1..];
      }
    }
  }

  class Hook<H(==)> {
    var entries: seq<Entry<H>>

    constructor ()
      ensures entries == []
    {
      entries := [];
    }

    method Add(id: string, hook: H)
      modifies this
      ensures entries == old(entries) + [Entry(id, hook)]
    {
      entries := entries + [Entry(id, hook)];
    }

    method Remove(id: string)
      modifies this
      ensures entries == Without(old(entries), id)
    {
      for i := 0 to |entries|
        invariant entries == old(entries) && forall j :: 0 <= j < i ==> entries[j].id != id
      {
        if entries[i].id == id {
          WithoutAt(entries, id, i);
          entries := entries[..i] + entries[i + 1..];
          return;
        }
      }
      WithoutAt(entries, id, |entries|);
    }

    // The handlers called, in order.
    method Emit() returns (calls: seq<H>)
      ensures calls == Called(entries)
    {
      calls := [];
      for i := 0 to |entries|
        invariant |calls| == i && forall j :: 0 <= j < i ==> calls[j] == entries[j].handler
      {
        calls := calls + [entries[i].handler];
      }
    }

    method Clear()
      modifies this
      ensures entries == []
    {
      entries := [];
    }
  }

  // ------------------------------------------------------------------------
  // The registration log
  // ------------------------------------------------------------------------

  datatype Registration<H> = On(event: string, id: string, handler: H) | Any(id: string, handler: H)

  datatype Op<H> =
    | Register(r: Registration<H>)
    | Remove(event: string, id: string)
    | Clear(event: string)
    | ClearAll

  predicate Kills<H>(op: Op<H>, r: Registration<H>) {
    match op
    case Register(_) => false
    case Remove(event, id) => r.On? && r.event == event && r.id == id
    case Clear(event) => r.On? && r.event == event
    case ClearAll => true
  }

  function Spared<H>(log: seq<Registration<H>>, op: Op<H>): seq<Registration<H>> {
    if log == [] then []
    else Spared(log[..|log| - 1], op) + if Kills(op, log[|log| - 1]) then [] else [log[|log| - 1]]
  }

  function Apply<H>(log: seq<Registration<H>>, op: Op<H>): seq<Registration<H>> {
    Spared(log, op) + if op.Register? then [op.r] else []
  }

  function After<H>(ops: seq<Op<H>>): seq<Registration<H>> {
    if ops == [] then [] else Apply(After(ops[..|ops| - 1]), ops[|ops| - 1])
  }

  // The handlers of an event, and those of all events, in order of registration.
  function Handlers<H>(log: seq<Registration<H>>, event: string): seq<Entry<H>> {
    if log == [] then []
    else
      var r := log[|log| - 1];
      Handlers(log[..|log| - 1], event) + if r.On? && r.event == event then [Entry(r.id, r.handler)] else []
  }

  function AnyHooks<H>(log: seq<Registration<H>>): seq<Entry<H>> {
    if log == [] then []
    else
      var r := log[|log| - 1];
      AnyHooks(log[..|log| - 1]) + if r.Any? then [Entry(r.id, r.handler)] else []
  }

  function CountOf<H>(log: seq<Registration<H>>, events: set<string>): nat {
    if log == [] then 0
    else
      var r := log[|log| - 1];
      CountOf(log[..|log| - 1], events) + if r.On? && r.event in events then 1 else 0
  }

  function CountOn<H>(log: seq<Registration<H>>): nat {
    if log == [] then 0
    else CountOn(log[..|log| - 1]) + if log[|log| - 1].On? then 1 else 0
  }

  lemma {:induction false} WithoutAppend<H>(es: seq<Entry<H>>, e: Entry<H>, id: string)
    requires DistinctIds(es + [e])
    ensures Without(es + [e], id) == Without(es, id) + if e.id == id then [] else [e]
    ensures DistinctIds(es)
  {
    assert forall i :: 0 <= i < |es| ==> (es + [e])[i] == es[i];
    if es != [] {
      assert (es + [e])[1..] == es[1..] + [e];
      assert DistinctIds(es[1..] + [e]) by {
        assert forall i :: 0 <= i < |es| ==> (es[1..] + [e])[i] == (es + [e])[i + 1];
      }
      WithoutAppend(es[1..], e, id);
      if es[0].id == id {
        assert (es + [e])[|es|] == e && (es + [e])[0] == es[0];
      }
    }
  }

  lemma LogPush<H>(log: seq<Registration<H>>, r: Registration<H>, event: string)
    ensures Handlers(log + [r], event) ==
            Handlers(log, event) + if r.On? && r.event == event then [Entry(r.id, r.handler)] else []
    ensures AnyHooks(log + [r]) == AnyHooks(log) + if r.Any? then [Entry(r.id, r.handler)] else []
  {
    assert (log + [r])[..|log|] == log;
  }

  lemma SparedPush<H>(log: seq<Registration<H>>, r: Registration<H>, op: Op<H>)
    ensures Spared(log + [r], op) == Spared(log, op) + if Kills(op, r) then [] else [r]
  {
    assert (log + [r])[..|log|] == log;
  }

  lemma SparedNext<H>(log: seq<Registration<H>>, op: Op<H>, event: string)
    requires log != []
    ensures var front, r := log[..|log| - 1], log[|log| - 1];
      Handlers(Spared(log, op), event) ==
      Handlers(Spared(front, op), event) +
      if r.On? && r.event == event && !Kills(op, r) then [Entry(r.id, r.handler)] else []
  {
    var front, r := log[..|log| - 1], log[|log| - 1];
    LogPush(Spared(front, op), r, event);
    assert Kills(op, r) ==> Spared(log, op) == Spared(front, op);
  }

  lemma {:induction false} HandlersSpared<H>(log: seq<Registration<H>>, op: Op<H>, event: string)
    ensures op.Register? || (op.Remove? && op.event != event) || (op.Clear? && op.event != event) ==>
              Handlers(Spared(log, op), event) == Handlers(log, event)
    ensures op == Clear(event) || op.ClearAll? ==> Handlers(Spared(log, op), event) == []
  {
    if log != [] {
      HandlersSpared(log[..|log| - 1], op, event);
      SparedNext(log, op, event);
    }
  }

  lemma {:induction false} HandlersRemoved<H>(log: seq<Registration<H>>, event: string, id: string)
    requires DistinctIds(Handlers(log, event))
    ensures Handlers(Spared(log, Op<H>.Remove(event, id)), event) == Without(Handlers(log, event), id)
  {
    if log != [] {
      var front, r := log[..|log| - 1], log[|log| - 1];
      SparedNext(log, Op<H>.Remove(event, id), event);
      if r.On? && r.event == event {
        WithoutAppend(Handlers(front, event), Entry(r.id, r.handler), id);
      } else {
        assert Handlers(log, event) == Handlers(front, event);
      }
      HandlersRemoved(front, event, id);
    }
  }

  lemma AnyHooksNext<H>(log: seq<Registration<H>>, op: Op<H>)
    requires log != []
    ensures var front, r := log[..|log| - 1], log[|log| - 1];
      AnyHooks(Spared(log, op)) ==
      AnyHooks(Spared(front, op)) + if r.Any? && !op.ClearAll? then [Entry(r.id, r.handler)] else []
  {
    var front, r := log[..|log| - 1], log[|log| - 1];
    LogPush(Spared(front, op), r, "");
    assert Kills(op, r) ==> Spared(log, op) == Spared(front, op);
  }

  lemma {:induction false} AnyHooksSpared<H>(log: seq<Registration<H>>, op: Op<H>)
    ensures AnyHooks(Spared(log, op)) == if op.ClearAll? then [] else AnyHooks(log)
  {
    if log != [] {
      AnyHooksSpared(log[..|log| - 1], op);
      AnyHooksNext(log, op);
    }
  }

  // ------------------------------------------------------------------------
  // Which registrations are in force
  // ------------------------------------------------------------------------

  // The k-th operation registered something that no later one killed.
  ghost predicate InForce<H>(ops: seq<Op<H>>, k: nat)
    requires k < |ops|
  {
    ops[k].Register? && forall j :: k < j < |ops| ==> !Kills(ops[j], ops[k].r)
  }

  ghost function Surviving<H>(ops: seq<Op<H>>, n: nat): seq<Registration<H>>
    requires n <= |ops|
  {
    if n == 0 then [] else Surviving(ops, n - 1) + if InForce(ops, n - 1) then [ops[n - 1].r] else []
  }

  lemma InForceNext<H>(ops: seq<Op<H>>, op: Op<H>, k: nat)
    requires k < |ops|
    ensures InForce(ops + [op], k) <==> InForce(ops, k) && !Kills(op, ops[k].r)
  {
    var all := ops + [op];
    assert all[|ops|] == op && forall j :: 0 <= j < |ops| ==> all[j] == ops[j];
  }

  lemma {:induction false} SurvivingSpared<H>(ops: seq<Op<H>>, op: Op<H>, n: nat)
    requires n <= |ops|
    ensures Surviving(ops + [op], n) == Spared(Surviving(ops, n), op)
  {
    if n > 0 {
      SurvivingSpared(ops, op, n - 1);
      InForceNext(ops, op, n - 1);
      if InForce(ops, n - 1) {
        SparedPush(Surviving(ops, n - 1), ops[n - 1].r, op);
      } else {
        assert Surviving(ops, n) == Surviving(ops, n - 1);
      }
    }
  }

  // After any operations the log holds exactly the registrations in force, in order.
  lemma {:induction false} LogHoldsWhatIsInForce<H>(ops: seq<Op<H>>)
    ensures After(ops) == Surviving(ops, |ops|)
  {
    if ops != [] {
      var front, op := ops[..|ops| - 1], ops[|ops| - 1];
      LogHoldsWhatIsInForce(front);
      SurvivingSpared(front, op, |front|);
      assert front + [op] == ops;
      assert !op.Register? || InForce(ops, |front|);
    }
  }

  // ------------------------------------------------------------------------
  // The order of the calls
  // ------------------------------------------------------------------------

  // What Emit calls: the handlers of the event, then the hooks for all events.
  function Calls<H>(log: seq<Registration<H>>, event: string): seq<H> {
    Called(Handlers(log, event)) + Called(AnyHooks(log))
  }

  function CountAny<H>(log: seq<Registration<H>>): nat {
    if log == [] then 0
    else CountAny(log[..|log| - 1]) + if log[|log| - 1].Any? then 1 else 0
  }

  lemma {:induction false} HandlerAt<H>(log: seq<Registration<H>>, event: string, n: nat)
    requires n < |log|
    ensures |Handlers(log, event)| == CountOf(log, {event}) && |AnyHooks(log)| == CountAny(log)
    ensures log[n].On? && log[n].event == event ==>
              var k := CountOf(log[..n], {event});
              k < |Handlers(log, event)| && Handlers(log, event)[k].handler == log[n].handler
    ensures log[n].Any? ==>
              var k := CountAny(log[..n]); k < |AnyHooks(log)| && AnyHooks(log)[k].handler == log[n].handler
  {
    var front := log[..|log| - 1];
    if n < |front| {
      HandlerAt(front, event, n);
      assert front[..n] == log[..n];
    } else if front != [] {
      HandlerAt(front, event, |front| - 1);
    }
  }

  // The registrations of an event are called in order: each of them as the one with
  // as many calls before it as there are registrations of the event before it. The
  // hooks for all events come behind these, in order as well, and nothing else is called.
  lemma CallsAt<H>(log: seq<Registration<H>>, event: string, n: nat)
    requires n < |log|
    ensures |Calls(log, event)| == CountOf(log, {event}) + CountAny(log)
    ensures log[n].On? && log[n].event == event ==>
              var k := CountOf(log[..n], {event});
              k < CountOf(log, {event}) && Calls(log, event)[k] == log[n].handler
    ensures log[n].Any? ==>
              var k := CountOf(log, {event}) + CountAny(log[..n]);
              k < |Calls(log, event)| && Calls(log, event)[k] == log[n].handler
  {
    var hs, anys := Handlers(log, event), AnyHooks(log);
    HandlerAt(log, event, n);
    if log[n].On? && log[n].event == event {
      CalledInOrder(hs, CountOf(log[..n], {event}));
    } else if log[n].Any? {
      CalledInOrder(anys, CountAny(log[..n]));
    }
  }

  lemma {:induction false} SurvivingPrefix<H>(ops: seq<Op<H>>, n: nat, m: nat)
    requires n < m <= |ops| && InForce(ops, n)
    ensures var all, before := Surviving(ops, m), Surviving(ops, n);
      |before| < |all| && all[..|before|] == before && all[|before|] == ops[n].r
  {
    if n < m - 1 {
      SurvivingPrefix(ops, n, m - 1);
    }
  }

  // After any operations, a handler that is in force is called at the position that is
  // the number of registrations of its event that were made before it and are in force;
  // a hook for all events at that of the hooks, behind all handlers of the event.
  lemma EmitCallsInOrder<H>(ops: seq<Op<H>>, n: nat, event: string)
    requires n < |ops| && InForce(ops, n)
    ensures var log, before, calls := After(ops), Surviving(ops, n), Calls(After(ops), event);
      && |calls| == CountOf(log, {event}) + CountAny(log)
      && (ops[n].r.On? && ops[n].r.event == event ==>
           var k := CountOf(before, {event}); k < CountOf(log, {event}) && calls[k] == ops[n].r.handler)
      && (ops[n].r.Any? ==>
           var k := CountOf(log, {event}) + CountAny(before); k < |calls| && calls[k] == ops[n].r.handler)
  {
    LogHoldsWhatIsInForce(ops);
    SurvivingPrefix(ops, n, |ops|);
    CallsAt(After(ops), event, |Surviving(ops, n)|);
  }

  // ------------------------------------------------------------------------
  // Counting
  // ------------------------------------------------------------------------

  lemma {:induction false} CountSplit<H>(log: seq<Registration<H>>, events: set<string>, event: string)
    requires event in events
    ensures CountOf(log, events) == CountOf(log, events - {event}) + |Handlers(log, event)|
  {
    if log != [] {
      CountSplit(log[..|log| - 1], events, event);
    }
  }

  lemma {:induction false} CountNone<H>(log: seq<Registration<H>>)
    ensures CountOf(log, {}) == 0
  {
    if log != [] {
      CountNone(log[..|log| - 1]);
    }
  }

  // The events that have handlers are counted all.
  lemma {:induction false} CountEach<H>(log: seq<Registration<H>>, events: set<string>)
    requires forall event :: Handlers(log, event) != [] ==> event in events
    ensures CountOf(log, events) == CountOn(log)
  {
    if log != [] {
      var front, r := log[..|log| - 1], log[|log| - 1];
      forall event | Handlers(front, event) != []
        ensures event in events
      {
        assert Handlers(log, event) != [];
      }
      if r.On? {
        assert Handlers(log, r.event) != [];
      }
      CountEach(front, events);
    }
  }

  lemma CountPush<H>(log: seq<Registration<H>>, r: Registration<H>)
    ensures CountOn(log + [r]) == CountOn(log) + if r.On? then 1 else 0
  {
    assert (log + [r])[..|log|] == log;
  }

  // How many handlers of events an operation takes away.
  function TakenAway<H>(log: seq<Registration<H>>, op: Op<H>): nat {
    if log == [] then 0
    else TakenAway(log[..|log| - 1], op) + if log[|log| - 1].On? && Kills(op, log[|log| - 1]) then 1 else 0
  }

  lemma {:induction false} CountSpared<H>(log: seq<Registration<H>>, op: Op<H>)
    ensures CountOn(Spared(log, op)) == CountOn(log) - TakenAway(log, op)
  {
    if log != [] {
      var front, r := log[..|log| - 1], log[|log| - 1];
      CountSpared(front, op);
      CountPush(Spared(front, op), r);
      assert Kills(op, r) ==> Spared(log, op) == Spared(front, op);
    }
  }

  function Adds<H>(ops: seq<Op<H>>): nat {
    if ops == [] then 0
    else Adds(ops[..|ops| - 1]) + if ops[|ops| - 1].Register? && ops[|ops| - 1].r.On? then 1 else 0
  }

  function AllTakenAway<H>(ops: seq<Op<H>>): nat {
    if ops == [] then 0
    else AllTakenAway(ops[..|ops| - 1]) + TakenAway(After(ops[..|ops| - 1]), ops[|ops| - 1])
  }

  // Handlers are conserved: what was added is still there or was taken away.
  lemma {:induction false} HandlersAreConserved<H>(ops: seq<Op<H>>)
    ensures CountOn(After(ops)) + AllTakenAway(ops) == Adds(ops)
  {
    if ops != [] {
      var front, op := ops[..|ops| - 1], ops[|ops| - 1];
      HandlersAreConserved(front);
      CountSpared(After(front), op);
      if op.Register? {
        CountPush(Spared(After(front), op), op.r);
      } else {
        assert After(ops) == Spared(After(front), op);
      }
    }
  }

  // Remove takes away one handler at most, Clear those of its event, ClearAll all.
  lemma {:induction false} WhatIsTakenAway<H>(log: seq<Registration<H>>, op: Op<H>)
    ensures op.Register? ==> TakenAway(log, op) == 0
    ensures op.Clear? ==> TakenAway(log, op) == |Handlers(log, op.event)|
    ensures op.ClearAll? ==> TakenAway(log, op) == CountOn(log)
    ensures op.Remove? && DistinctIds(Handlers(log, op.event)) ==>
              var hs := Handlers(log, op.event);
              TakenAway(log, op) == if exists i :: 0 <= i < |hs| && hs[i].id == op.id then 1 else 0
  {
    if log != [] {
      var front, r := log[..|log| - 1], log[|log| - 1];
      WhatIsTakenAway(front, op);
      if op.Remove? {
        var hs, all := Handlers(front, op.event), Handlers(log, op.event);
        assert forall i :: 0 <= i < |hs| ==> hs[i] == all[i];
        if r.On? && r.event == op.event {
          assert all[|hs|].id == r.id;
        }
      }
    }
  }

  // ------------------------------------------------------------------------
  // The emitter
  // ------------------------------------------------------------------------

  lemma HandlersAfter<H>(log: seq<Registration<H>>, r: Registration<H>, event: string)
    ensures var op := Op<H>.Register(r);
      Handlers(Apply(log, op), event) ==
      Handlers(log, event) + (if r.On? && r.event == event then [Entry(r.id, r.handler)] else [])
      && AnyHooks(Apply(log, op)) == AnyHooks(log) + if r.Any? then [Entry(r.id, r.handler)] else []
  {
    var op := Op<H>.Register(r);
    HandlersSpared(log, op, event);
    AnyHooksSpared(log, op);
    LogPush(Spared(log, op), r, event);
  }

  lemma DistinctPush<H>(es: seq<Entry<H>>, e: Entry<H>)
    requires DistinctIds(es) && forall i :: 0 <= i < |es| ==> es[i].id != e.id
    ensures DistinctIds(es + [e])
  {
  }

  function ListOf<H>(entries: map<string, seq<Entry<H>>>, event: string): seq<Entry<H>> {
    if event in entries then entries[event] else []
  }

  ghost predicate AgreesOn<H>(entries: map<string, seq<Entry<H>>>, log: seq<Registration<H>>, event: string) {
    Handlers(log, event) == ListOf(entries, event) && DistinctIds(ListOf(entries, event))
  }

  // The lists by event hold what the log holds, event by event.
  ghost predicate Agrees<H>(entries: map<string, seq<Entry<H>>>, log: seq<Registration<H>>) {
    forall event :: AgreesOn(entries, log, event)
  }

  lemma RegisterAgrees<H>(entries: map<string, seq<Entry<H>>>, log: seq<Registration<H>>, r: Registration<H>)
    requires Agrees(entries, log)
    requires r.On? ==> var es := ListOf(entries, r.event); forall i :: 0 <= i < |es| ==> es[i].id != r.id
    ensures var after := Apply(log, Op<H>.Register(r));
      if r.Any? then Agrees(entries, after)
      else Agrees(entries[r.event := ListOf(entries, r.event) + [Entry(r.id, r.handler)]], after)
  {
    var more := if r.Any? then entries
                else entries[r.event := ListOf(entries, r.event) + [Entry(r.id, r.handler)]];
    forall e
      ensures AgreesOn(more, Apply(log, Op<H>.Register(r)), e)
    {
      HandlersAfter(log, r, e);
      assert AgreesOn(entries, log, e);
      if r.On? && r.event == e {
        DistinctPush(ListOf(entries, e), Entry(r.id, r.handler));
      }
    }
  }

  // The same lists but for one event.
  ghost predicate SameBut<H>(a: map<string, seq<Entry<H>>>, b: map<string, seq<Entry<H>>>, event: string) {
    a.Keys == b.Keys && forall e :: e in a && e != event ==> a[e] == b[e]
  }

  lemma RemoveAgrees<H>(entries: map<string, seq<Entry<H>>>, less: map<string, seq<Entry<H>>>,
        log: seq<Registration<H>>, event: string, id: string)
    requires Agrees(entries, log) && SameBut(entries, less, event)
    requires ListOf(less, event) == Without(ListOf(entries, event), id)
    ensures Agrees(less, Spared(log, Op<H>.Remove(event, id)))
  {
    forall e
      ensures AgreesOn(less, Spared(log, Op<H>.Remove(event, id)), e)
    {
      assert AgreesOn(entries, log, e);
      if e == event {
        HandlersRemoved(log, event, id);
        DistinctWithout(ListOf(entries, event), id);
      } else {
        HandlersSpared(log, Op<H>.Remove(event, id), e);
      }
    }
  }

  lemma ClearAgrees<H>(entries: map<string, seq<Entry<H>>>, log: seq<Registration<H>>, event: string)
    requires Agrees(entries, log)
    ensures Agrees(entries - {event}, Spared(log, Op<H>.Clear(event)))
    ensures Agrees(map[], Spared(log, Op<H>.ClearAll))
  {
    forall e
      ensures AgreesOn(entries - {event}, Spared(log, Op<H>.Clear(event)), e)
      ensures AgreesOn(map[], Spared(log, Op<H>.ClearAll), e)
    {
      assert AgreesOn(entries, log, e);
      HandlersSpared(log, Op<H>.Clear(event), e);
      HandlersSpared(log, Op<H>.ClearAll, e);
    }
  }

  class Emitter<H(==)> {
    var entries: map<string, seq<Entry<H>>>
    const hook: Hook<H>
    ghost var log: seq<Registration<H>>

    predicate Has(event: string)
      reads this
    {
      event in entries
    }

    ghost predicate Valid()
      reads this, hook
    {
      && Agrees(entries, log)
      && hook.entries == AnyHooks(log)
    }

    // The number of handlers in force for an event.
    function Count(event: string): (count: nat)
      requires Valid()
      reads this, hook
      ensures count == |Handlers(log, event)|
    {
      assert AgreesOn(entries, log, event);
      |ListOf(entries, event)|
    }

    constructor ()
      ensures Valid() && log == [] && entries == map[] && fresh(hook)
    {
      entries := map[];
      hook := new Hook<H>();
      log := [];
    }

    // The id is a new one.
    method Add(event: string, id: string, handler: H)
      requires Valid() && forall i :: 0 <= i < |ListOf(entries, event)| ==> ListOf(entries, event)[i].id != id
      modifies this
      ensures Valid() && log == Apply(old(log), Op<H>.Register(On(event, id, handler)))
      ensures entries.Keys == Known(old(entries).Keys, Op<H>.Register(On(event, id, handler)))
    {
      ghost var r := On(event, id, handler);
      RegisterAgrees(entries, log, r);
      HandlersAfter(log, r, event);
      entries := entries[event := ListOf(entries, event) + [Entry(id, handler)]];
      log := Apply(log, Op<H>.Register(r));
    }

    method Any(id: string, handler: H)
      requires Valid()
      modifies this`log, hook
      ensures Valid() && log == Apply(old(log), Op<H>.Register(Registration<H>.Any(id, handler)))
    {
      ghost var r := Registration<H>.Any(id, handler);
      RegisterAgrees(entries, log, r);
      HandlersAfter(log, r, "");
      hook.Add(id, handler);
      log := Apply(log, Op<H>.Register(r));
    }

    // The list of an event stays when it becomes empty.
    method Remove(event: string, id: string)
      requires Valid()
      modifies this
      ensures Valid() && log == Apply(old(log), Op<H>.Remove(event, id))
      ensures entries.Keys == Known(old(entries).Keys, Op<H>.Remove(event, id))
    {
      ghost var op := Op<H>.Remove(event, id);
      RemoveEntry(event, id);
      RemoveAgrees(old(entries), entries, log, event, id);
      AnyHooksSpared(log, op);
      log := Spared(log, op);
    }

    method RemoveEntry(event: string, id: string)
      modifies this`entries
      ensures ListOf(entries, event) == Without(ListOf(old(entries), event), id)
      ensures SameBut(old(entries), entries, event)
    {
      if event !in entries {
        return;
      }
      var handlers := entries[event];
      for i := 0 to |handlers|
        invariant entries == old(entries) && forall j :: 0 <= j < i ==> handlers[j].id != id
      {
        if handlers[i].id == id {
          WithoutAt(handlers, id, i);
          entries := entries[event := handlers[..i] + handlers[i + 1..]];
          return;
        }
      }
      WithoutAt(handlers, id, |handlers|);
    }

    // The handlers of the event in order of registration, then the hooks.
    method Emit(event: string) returns (calls: seq<H>)
      requires Valid()
      ensures calls == Calls(log, event)
    {
      assert Handlers(log, event) == ListOf(entries, event) by {
        assert AgreesOn(entries, log, event);
      }
      calls := CallHandlers(event);
      var more := hook.Emit();
      calls := calls + more;
    }

    method CallHandlers(event: string) returns (calls: seq<H>)
      ensures calls == Called(ListOf(entries, event))
    {
      calls := [];
      if event in entries {
        for i := 0 to |entries[event]|
          invariant |calls| == i && forall j :: 0 <= j < i ==> calls[j] == entries[event][j].handler
        {
          calls := calls + [entries[event][i].handler];
        }
      }
    }

    method Clear(event: string) returns (count: nat)
      requires Valid()
      modifies this
      ensures Valid() && log == Apply(old(log), Op<H>.Clear(event))
      ensures entries.Keys == Known(old(entries).Keys, Op<H>.Clear(event))
      ensures count == |Handlers(old(log), event)|
    {
      ghost var op := Op<H>.Clear(event);
      ClearAgrees(entries, log, event);
      assert AgreesOn(entries, log, event);
      AnyHooksSpared(log, op);
      assert event !in entries ==> entries - {event} == entries;
      count := 0;
      if event in entries {
        count := |entries[event]|;
        entries := entries - {event};
      }
      log := Spared(log, op);
    }

    // The hooks go too, uncounted.
    method ClearAll() returns (count: nat)
      requires Valid()
      modifies this, hook
      ensures Valid() && log == Apply(old(log), Op<H>.ClearAll) && entries == map[] && AnyHooks(log) == []
      ensures count == CountOn(old(log))
    {
      count := CountAll();
      ClearAgrees(entries, log, "");
      AnyHooksSpared(log, Op<H>.ClearAll);
      entries := map[];
      hook.Clear();
      log := Spared(log, Op<H>.ClearAll);
    }

    // The events come in any order.
    method CountAll() returns (count: nat)
      requires Valid()
      ensures count == CountOn(log)
    {
      count := 0;
      var rest := entries.Keys;
      forall event | Handlers(log, event) != []
        ensures event in entries
      {
        assert AgreesOn(entries, log, event);
      }
      CountEach(log, rest);
      while rest != {}
        invariant rest <= entries.Keys && count + CountOf(log, rest) == CountOn(log)
      {
        var event :| event in rest;
        CountSplit(log, rest, event);
        count := count + Count(event);
        rest := rest - {event};
      }
      CountNone(log);
    }
  }

  // ------------------------------------------------------------------------
  // Has
  // ------------------------------------------------------------------------

  // The events that Has knows, after an operation.
  function Known<H>(known: set<string>, op: Op<H>): set<string> {
    match op
    case Register(r) => if r.On? then known + {r.event} else known
    case Remove(_, _) => known
    case Clear(event) => known - {event}
    case ClearAll => {}
  }

  ghost predicate HasIsRight<H>(known: set<string>, log: seq<Registration<H>>, event: string) {
    event in known <==> Handlers(log, event) != []
  }

  // Has tells whether an event has handlers until Remove takes away the last one:
  // exactly then it goes on to say yes.
  lemma {:induction false} HasIsRightUntilLastIsRemoved<H>(known: set<string>, log: seq<Registration<H>>,
        op: Op<H>, event: string)
    requires HasIsRight(known, log, event) && DistinctIds(Handlers(log, event))
    ensures HasIsRight(Known(known, op), Apply(log, op), event) <==>
            !(op.Remove? && op.event == event && |Handlers(log, event)| == 1 && Handlers(log, event)[0].id == op.id)
  {
    match op
    case Register(r) => HandlersAfter(log, r, event);
    case Remove(e, id) =>
      assert Apply(log, op) == Spared(log, op);
      if e == event {
        HandlersRemoved(log, event, id);
      } else {
        HandlersSpared(log, op, event);
      }
    case _ =>
      assert Apply(log, op) == Spared(log, op);
      HandlersSpared(log, op, event);
  }

  // What Has knows after a list of operations.
  function KnownAfter<H>(ops: seq<Op<H>>): set<string> {
    if ops == [] then {} else Known(KnownAfter(ops[..|ops| - 1]), ops[|ops| - 1])
  }

  predicate AllHave<H>(es: seq<Entry<H>>, id: string) {
    forall i :: 0 <= i < |es| ==> es[i].id == id
  }

  // The operation is a Remove that takes away all handlers the event still has.
  predicate RemovesLast<H>(log: seq<Registration<H>>, op: Op<H>, event: string) {
    var hs := Handlers(log, event);
    op.Remove? && op.event == event && hs != [] && AllHave(hs, op.id)
  }

  // The operation registers a handler for the event, or clears it.
  predicate Renews<H>(op: Op<H>, event: string) {
    op == Clear(event) || op.ClearAll? || (op.Register? && op.r.On? && op.r.event == event)
  }

  // The last handler was removed, and nothing was done about it since.
  ghost predicate LeftEmpty<H>(ops: seq<Op<H>>, event: string) {
    exists k :: 0 <= k < |ops| && LeftEmptyAt(ops, event, k)
  }

  ghost predicate LeftEmptyAt<H>(ops: seq<Op<H>>, event: string, k: nat)
    requires k < |ops|
  {
    RemovesLast(After(ops[..k]), ops[k], event) && forall j :: k < j < |ops| ==> !Renews(ops[j], event)
  }

  lemma AllHavePush<H>(es: seq<Entry<H>>, e: Entry<H>, id: string)
    ensures AllHave(es + [e], id) <==> AllHave(es, id) && e.id == id
  {
    assert (es + [e])[|es|] == e && forall i :: 0 <= i < |es| ==> (es + [e])[i] == es[i];
  }

  lemma {:induction false} RemovedAll<H>(log: seq<Registration<H>>, event: string, id: string)
    ensures Handlers(Spared(log, Op<H>.Remove(event, id)), event) == [] <==> AllHave(Handlers(log, event), id)
  {
    if log != [] {
      var front, r := log[..|log| - 1], log[|log| - 1];
      var hs := Handlers(front, event);
      RemovedAll(front, event, id);
      SparedNext(log, Op<H>.Remove(event, id), event);
      if r.On? && r.event == event {
        AllHavePush(hs, Entry(r.id, r.handler), id);
      } else {
        assert Handlers(log, event) == hs;
      }
    }
  }

  lemma HandlersStep<H>(log: seq<Registration<H>>, op: Op<H>, event: string)
    ensures !Renews(op, event) && !(op.Remove? && op.event == event) ==>
              Handlers(Apply(log, op), event) == Handlers(log, event)
    ensures op.Remove? && op.event == event ==>
              (Handlers(Apply(log, op), event) == [] <==> Handlers(log, event) == [] || RemovesLast(log, op, event))
    ensures op.Register? && Renews(op, event) ==> Handlers(Apply(log, op), event) != []
    ensures !op.Register? && Renews(op, event) ==> Handlers(Apply(log, op), event) == []
  {
    HandlersSpared(log, op, event);
    if op.Register? {
      HandlersAfter(log, op.r, event);
    } else {
      assert Apply(log, op) == Spared(log, op);
      if op.Remove? && op.event == event {
        RemovedAll(log, event, op.id);
      }
    }
  }

  lemma LeftEmptyAtNext<H>(front: seq<Op<H>>, op: Op<H>, event: string, k: nat)
    requires k < |front|
    ensures LeftEmptyAt(front + [op], event, k) <==> LeftEmptyAt(front, event, k) && !Renews(op, event)
  {
    var ops := front + [op];
    assert ops[..k] == front[..k] && ops[|front|] == op;
    assert forall j :: 0 <= j < |front| ==> ops[j] == front[j];
  }

  lemma LeftEmptyNext<H>(front: seq<Op<H>>, op: Op<H>, event: string)
    ensures LeftEmpty(front + [op], event) <==>
            RemovesLast(After(front), op, event) || (LeftEmpty(front, event) && !Renews(op, event))
  {
    var ops := front + [op];
    assert ops[..|front|] == front && ops[|front|] == op;
    forall k | 0 <= k < |front|
      ensures LeftEmptyAt(ops, event, k) <==> LeftEmptyAt(front, event, k) && !Renews(op, event)
    {
      LeftEmptyAtNext(front, op, event, k);
    }
    assert LeftEmptyAt(ops, event, |front|) <==> RemovesLast(After(front), op, event);
    if LeftEmpty(front, event) && !Renews(op, event) {
      var k :| 0 <= k < |front| && LeftEmptyAt(front, event, k);
      assert LeftEmptyAt(ops, event, k);
    }
  }

  lemma LeftEmptyLast<H>(ops: seq<Op<H>>, event: string)
    requires ops != []
    ensures var front, op := ops[..|ops| - 1], ops[|ops| - 1];
      LeftEmpty(ops, event) <==> RemovesLast(After(front), op, event) || (LeftEmpty(front, event) && !Renews(op, event))
  {
    assert ops[..|ops| - 1] + [ops[|ops| - 1]] == ops;
    LeftEmptyNext(ops[..|ops| - 1], ops[|ops| - 1], event);
  }

  // Has is right afterwards, if it was or the operation makes good for it, unless the
  // operation takes away the last handler.
  lemma HasNext<H>(known: set<string>, log: seq<Registration<H>>, op: Op<H>, event: string)
    requires event !in known ==> Handlers(log, event) == []
    ensures HasIsRight(Known(known, op), Apply(log, op), event) <==>
            !RemovesLast(log, op, event) && (HasIsRight(known, log, event) || Renews(op, event))
    ensures event !in Known(known, op) ==> Handlers(Apply(log, op), event) == []
  {
    HandlersStep(log, op, event);
  }

  // After any operations Has is right about an event, if and only if its list was not
  // left empty: then, and only then, Has says yes and there is no handler.
  lemma {:induction false} HasIsRightIff<H>(ops: seq<Op<H>>, event: string)
    ensures HasIsRight(KnownAfter(ops), After(ops), event) <==> !LeftEmpty(ops, event)
    ensures event !in KnownAfter(ops) ==> Handlers(After(ops), event) == []
  {
    if ops != [] {
      var front, op := ops[..|ops| - 1], ops[|ops| - 1];
      HasIsRightIff(front, event);
      LeftEmptyLast(ops, event);
      HasNext(KnownAfter(front), After(front), op, event);
    }
  }

  // Add and Remove one handler: Has says yes, and there is none.
  lemma HasCanBeWrong<H>(event: string, id: string, handler: H)
    ensures var ops := [Op<H>.Register(On(event, id, handler)), Op<H>.Remove(event, id)];
      event in KnownAfter(ops) && Handlers(After(ops), event) == []
  {
    var add, remove := Op<H>.Register(On(event, id, handler)), Op<H>.Remove(event, id);
    assert [add, remove][..1] == [add] && [add][..0] == [];
    assert After([add]) == [On(event, id, handler)];
    HasIsRightIff([add, remove], event);
    assert LeftEmptyAt([add, remove], event, 1) by {
      assert Handlers([On(event, id, handler)], event) == [Entry(id, handler)] by {
        LogPush([], On(event, id, handler), event);
      }
    }
  }
}
