/** The system, which validates and numbers its modules in place (pkg/model/system.go, pkg/model/module.go). */
module Systems {
  import opened Wrappers
  import opened ApiModel
  import opened Identifiers
  import opened Lists
  import opened Lookup
  import opened Names
  import opened Validation

  ghost predicate UniqueModule(m: Module) {
    && Distinct(DeclaredNames(m))
    && UniqueInterfaces(m.interfaces)
    && UniqueStructs(m.structs)
    && UniqueEnums(m.enums)
  }

  ghost predicate UniqueInterfaces(is_: seq<Interface>) {
    forall j :: 0 <= j < |is_| ==> Distinct(MemberNames(is_[j]))
  }

  ghost predicate UniqueStructs(ss: seq<Struct>) {
    forall j :: 0 <= j < |ss| ==> Distinct(TypedNames(ss[j].fields))
  }

  ghost predicate UniqueEnums(es: seq<Enum>) {
    forall j :: 0 <= j < |es| ==> Distinct(EnumMemberNames(es[j].members))
  }

  lemma DeclarationsKeepOutline(env: seq<Outline>, k: nat, m: Module)
    requires k < |env|
    ensures OutlineOf(ValidatedDeclarations(env, k, m)) == OutlineOf(m)
  {
  }

  lemma UniqueInterfacesNext(is_: seq<Interface>, j: nat)
    requires j < |is_| && UniqueInterfaces(is_[..j])
    ensures if Distinct(MemberNames(is_[j])) then UniqueInterfaces(is_[..j + 1]) else !UniqueInterfaces(is_)
  {
    assert forall n :: 0 <= n < j ==> is_[..j + 1][n] == is_[..j][n];
  }

  lemma UniqueStructsNext(ss: seq<Struct>, j: nat)
    requires j < |ss| && UniqueStructs(ss[..j])
    ensures if Distinct(TypedNames(ss[j].fields)) then UniqueStructs(ss[..j + 1]) else !UniqueStructs(ss)
  {
    assert forall n :: 0 <= n < j ==> ss[..j + 1][n] == ss[..j][n];
  }

  lemma UniqueEnumsNext(es: seq<Enum>, j: nat)
    requires j < |es| && UniqueEnums(es[..j])
    ensures if Distinct(EnumMemberNames(es[j].members)) then UniqueEnums(es[..j + 1]) else !UniqueEnums(es)
  {
    assert forall n :: 0 <= n < j ==> es[..j + 1][n] == es[..j][n];
  }

  lemma SameNames(a: seq<Module>, b: seq<Module>)
    requires Outlines(a) == Outlines(b)
    ensures ModuleNames(a) == ModuleNames(b)
  {
    assert |a| == |Outlines(a)| == |b|;
    forall k | 0 <= k < |a|
      ensures a[k].node.name == b[k].node.name
    {
      assert Outlines(a)[k].name == Outlines(b)[k].name;
    }
  }

  ghost predicate UniqueSystem(ms: seq<Module>) {
    && (forall k :: 0 <= k < |ms| ==> UniqueModule(ms[k]))
    && Distinct(ModuleNames(ms))
  }

  // The `names` map of the validation loops after the first n names of a scope.
  ghost predicate Seen(all: seq<string>, n: nat, names: set<string>) {
    && n <= |all|
    && Distinct(all[..n])
    && (forall x :: x in names <==> x in all[..n])
  }

  lemma SeenNext(all: seq<string>, n: nat, names: set<string>)
    requires Seen(all, n, names) && n < |all|
    ensures all[n] in names ==> !Distinct(all)
    ensures all[n] !in names ==> Seen(all, n + 1, names + {all[n]})
  {
    assert all[..n + 1] == all[..n] + [all[n]];
    if all[n] in names {
      var i :| 0 <= i < n && all[..n][i] == all[n];
      assert all[i] == all[n];
    }
  }

  // The same for a kind of names that begins at `at` in the scope.
  lemma SeenNextOf(all: seq<string>, at: nat, part: seq<string>, j: nat, names: set<string>)
    requires at + |part| <= |all| && all[at..at + |part|] == part && j < |part| && Seen(all, at + j, names)
    ensures part[j] in names ==> !Distinct(all)
    ensures part[j] !in names ==> Seen(all, at + j + 1, names + {part[j]})
  {
    assert all[at + j] == part[j];
    SeenNext(all, at + j, names);
  }

  // The same for names that begin the scope, and are a scope of their own too.
  lemma SeenNextFirst(all: seq<string>, part: seq<string>, j: nat, names: set<string>)
    requires part <= all && j < |part| && Seen(all, j, names)
    ensures part[j] in names ==> !Distinct(all) && !Distinct(part)
    ensures part[j] !in names ==> Seen(all, j + 1, names + {part[j]})
  {
    assert all[..j] == part[..j] && all[j] == part[j];
    SeenNext(all, j, names);
    SeenNext(part, j, names);
  }

  lemma SeenAll(all: seq<string>, n: nat, names: set<string>)
    requires n == |all| && Seen(all, n, names)
    ensures Distinct(all)
  {
    assert all[..|all|] == all;
  }

  // Where each kind of declaration sits in the scope of its module.
  lemma DeclaredParts(m: Module, all: seq<string>)
    requires all == DeclaredNames(m)
    ensures var x, i, s, e := |m.externs|, |m.interfaces|, |m.structs|, |m.enums|;
      && |all| == x + i + s + e
      && ExternNames(m.externs) <= all
      && all[x..x + i] == InterfaceNames(m.interfaces)
      && all[x + i..x + i + s] == StructNames(m.structs)
      && all[x + i + s..x + i + s + e] == EnumNames(m.enums)
  {
  }

  // Where each kind of member sits in the scope of its interface.
  lemma MemberParts(i: Interface, all: seq<string>)
    requires all == MemberNames(i)
    ensures var p, o, s := |i.properties|, |i.operations|, |i.signals|;
      && |all| == p + o + s
      && TypedNames(i.properties) <= all
      && all[p..p + o] == OperationNames(i.operations)
      && all[p + o..p + o + s] == SignalNames(i.signals)
  {
  }

  lemma SameInterfacesNext(is_: seq<Interface>, r: seq<Interface>, j: nat, i: Interface)
    requires j < |is_| && SameInterfaces(is_[..j], r) && SameInterface(is_[j], i)
    ensures SameInterfaces(is_[..j + 1], r + [i])
  {
    forall n | 0 <= n < j + 1
      ensures SameInterface(is_[..j + 1][n], (r + [i])[n])
    {
      assert n < j ==> is_[..j + 1][n] == is_[..j][n];
    }
  }

  lemma SameStructsNext(ss: seq<Struct>, r: seq<Struct>, j: nat, s: Struct)
    requires j < |ss| && SameStructs(ss[..j], r) && SameStruct(ss[j], s)
    ensures SameStructs(ss[..j + 1], r + [s])
  {
    forall n | 0 <= n < j + 1
      ensures SameStruct(ss[..j + 1][n], (r + [s])[n])
    {
      assert n < j ==> ss[..j + 1][n] == ss[..j][n];
    }
  }

  lemma SameEnumsNext(es: seq<Enum>, r: seq<Enum>, j: nat, e: Enum)
    requires j < |es| && SameEnums(es[..j], r) && SameEnum(es[j], e)
    ensures SameEnums(es[..j + 1], r + [e])
  {
    forall n | 0 <= n < j + 1
      ensures SameEnum(es[..j + 1][n], (r + [e])[n])
    {
      assert n < j ==> es[..j + 1][n] == es[..j][n];
    }
  }

  lemma ChecksumsAreThere(before: seq<Module>, ms: seq<Module>)
    requires SameModules(ValidatedModules(before), ms)
    ensures forall k :: 0 <= k < |ms| ==> ms[k].checksum.Some?
  {
    forall k | 0 <= k < |ms|
      ensures ms[k].checksum.Some?
    {
      assert SameModule(ValidatedModules(before)[k], ms[k]);
    }
  }

  // The first k modules differ from before in their ids at most, the others not at all.
  ghost predicate SameUpTo(before: seq<Module>, ms: seq<Module>, k: nat) {
    && k <= |ms| == |before|
    && (forall n :: 0 <= n < k ==> SameModule(before[n], ms[n]))
    && (forall n :: k <= n < |ms| ==> ms[n] == before[n])
  }

  lemma SameNext(before: seq<Module>, ms: seq<Module>, k: nat, m: Module)
    requires k < |ms| && SameUpTo(before, ms, k) && SameModule(ms[k], m)
    ensures SameUpTo(before, ms[k := m], k + 1)
  {
    var after := ms[k := m];
    forall n | 0 <= n < k + 1
      ensures SameModule(before[n], after[n])
    {
      assert n < k ==> after[n] == ms[n];
    }
  }

  lemma CountsNext(ms: seq<Module>, k: nat, m: Module)
    requires k < |ms| && CountsFrom(Flatten(ms[..k], ModuleIds), 1)
    requires CountsFrom(ModuleIds(m), 1 + |Flatten(ms[..k], ModuleIds)|)
    ensures var after := Flatten(ms[k := m][..k + 1], ModuleIds);
      CountsFrom(after, 1) && |after| == |Flatten(ms[..k], ModuleIds)| + |ModuleIds(m)|
  {
    assert ms[k := m][..k + 1] == ms[..k] + [m];
    CountsPush(ms[..k], m, ModuleIds, 1);
  }

  function ModuleChecksum(m: Module): string {
    if m.checksum.Some? then m.checksum.value else ""
  }

  class System {
    const name: string
    var modules: seq<Module>
    var checksum: Option<string>

    constructor (name: string)
      ensures this.name == name && modules == [] && checksum == None
    {
      this.name, modules, checksum := name, [], None;
    }

    // The new module answers under its name if no other has it; every other answer
    // of the system stays.
    method AddModule(m: Module)
      modifies this
      ensures modules == old(modules) + [m.(attached := true)] && checksum == old(checksum)
      ensures forall kind, mName, name ::
                SystemLookup(Outlines(modules), kind, mName, name) ==
                if mName != m.node.name || LookupModule(Outlines(old(modules)), mName).Some?
                then SystemLookup(Outlines(old(modules)), kind, mName, name)
                else LookupLocal(Outlines(modules), |old(modules)|, kind, name)
    {
      ghost var env, o := Outlines(modules), OutlineOf(m.(attached := true));
      modules := modules + [m.(attached := true)];
      assert Outlines(modules) == env + [o];
      forall kind: SymbolKind, mName: string, name: string
        ensures SystemLookup(Outlines(modules), kind, mName, name) ==
                if mName != o.name || LookupModule(env, mName).Some? then SystemLookup(env, kind, mName, name)
                else LookupLocal(Outlines(modules), |env|, kind, name)
      {
        AddedModuleAnswers(env, o, kind, mName, name);
      }
    }

    method ValidateTypedNodes(k: nat, ts: seq<TypedNode>) returns (r: seq<TypedNode>)
      requires k < |modules|
      ensures r == ValidatedTypedNodes(Outlines(modules), k, ts)
    {
      r := [];
      for i := 0 to |ts|
        invariant |r| == i && forall j :: 0 <= j < i ==> r[j] == ValidatedTyped(Outlines(modules), k, ts[j])
      {
        r := r + [ValidatedTyped(Outlines(modules), k, ts[i])];
      }
    }

    // A scope made of typed nodes: struct fields, or the properties of an interface.
    method ValidateScope(k: nat, ts: seq<TypedNode>, ghost all: seq<string>) returns (ok: bool, r: seq<TypedNode>,
          names: set<string>)
      requires k < |modules|
      requires TypedNames(ts) <= all
      ensures ok ==> r == ValidatedTypedNodes(Outlines(modules), k, ts) && Seen(all, |ts|, names)
      ensures !ok ==> !Distinct(all) && !Distinct(TypedNames(ts))
    {
      r, names := [], {};
      for i := 0 to |ts|
        invariant |r| == i && forall j :: 0 <= j < i ==> r[j] == ValidatedTyped(Outlines(modules), k, ts[j])
        invariant Seen(all, i, names)
      {
        SeenNextFirst(all, TypedNames(ts), i, names);
        r := r + [ValidatedTyped(Outlines(modules), k, ts[i])];
        if ts[i].node.name in names {
          return false, r, names;
        }
        names := names + {ts[i].node.name};
      }
      return true, r, names;
    }

    method ValidateOperation(k: nat, o: Operation) returns (r: Operation)
      requires k < |modules|
      ensures r == ValidatedOperation(Outlines(modules), k, o)
    {
      r := o;
      if r.ret.None? {
        r := r.(ret := Some(NewTypedNode("", KindReturn)));
      }
      var params := ValidateTypedNodes(k, r.params);
      r := r.(params := params);
      r := r.(ret := Some(ValidatedTyped(Outlines(modules), k, r.ret.value)));
    }

    method ValidateInterface(k: nat, i: Interface) returns (ok: bool, r: Interface)
      requires k < |modules|
      ensures ok <==> Distinct(MemberNames(i))
      ensures ok ==> r == ValidatedInterface(Outlines(modules), k, i)
    {
      r := i;
      if r.extends_.name != "" {
        if r.extends_.imp == "" {
          r := r.(extends_ := r.extends_.(imp := modules[k].node.name));
        }
        var base := ModuleLookup(Outlines(modules), k, SymInterface, r.extends_.imp, r.extends_.name);
        if base.Some? {
          r := r.(extends_ := r.extends_.(reference := base));
        }
      }
      assert r.extends_ == ValidatedExtends(Outlines(modules), k, i.extends_);
      ghost var all := MemberNames(i);
      MemberParts(i, all);
      var properties, operations, signals, names;
      ok, properties, names := ValidateScope(k, i.properties, all);
      if !ok {
        return false, r;
      }
      ok, operations, names := ValidateOperations(k, i.operations, names, all, |i.properties|);
      if !ok {
        return false, r;
      }
      ok, signals, names := ValidateSignals(k, i.signals, names, all, |i.properties| + |i.operations|);
      if !ok {
        return false, r;
      }
      return true, r.(properties := properties, operations := operations, signals := signals);
    }

    method ValidateOperations(k: nat, os: seq<Operation>, seen: set<string>, ghost all: seq<string>, ghost at: nat)
      returns (ok: bool, r: seq<Operation>, names: set<string>)
      requires k < |modules|
      requires at + |os| <= |all| && all[at..at + |os|] == OperationNames(os) && Seen(all, at, seen)
      ensures ok ==> r == ValidatedOperations(Outlines(modules), k, os) && Seen(all, at + |os|, names)
      ensures !ok ==> !Distinct(all)
    {
      r, names := [], seen;
      for j := 0 to |os|
        invariant |r| == j && forall n :: 0 <= n < j ==> r[n] == ValidatedOperation(Outlines(modules), k, os[n])
        invariant Seen(all, at + j, names)
      {
        SeenNextOf(all, at, OperationNames(os), j, names);
        var op := ValidateOperation(k, os[j]);
        if op.node.name in names {
          return false, r, names;
        }
        names := names + {op.node.name};
        r := r + [op];
      }
      return true, r, names;
    }

    method ValidateSignals(k: nat, ss: seq<Signal>, seen: set<string>, ghost all: seq<string>, ghost at: nat)
      returns (ok: bool, r: seq<Signal>, names: set<string>)
      requires k < |modules|
      requires at + |ss| == |all| && all[at..at + |ss|] == SignalNames(ss) && Seen(all, at, seen)
      ensures ok ==> r == ValidatedSignals(Outlines(modules), k, ss) && Distinct(all)
      ensures !ok ==> !Distinct(all)
    {
      r, names := [], seen;
      for j := 0 to |ss|
        invariant |r| == j && forall n :: 0 <= n < j ==> r[n] == ValidatedSignal(Outlines(modules), k, ss[n])
        invariant Seen(all, at + j, names)
      {
        SeenNextOf(all, at, SignalNames(ss), j, names);
        var params := ValidateTypedNodes(k, ss[j].params);
        if ss[j].node.name in names {
          return false, r, names;
        }
        names := names + {ss[j].node.name};
        r := r + [ss[j].(params := params)];
      }
      SeenAll(all, at + |ss|, names);
      return true, r, names;
    }

    method ValidateEnum(e: Enum) returns (ok: bool, r: Enum)
      ensures ok <==> Distinct(EnumMemberNames(e.members))
      ensures ok ==> r == ValidatedEnum(e)
    {
      var all, names, autoValue := EnumMemberNames(e.members), {}, true;
      r := e;
      for i := 0 to |e.members|
        invariant Seen(all, i, names)
        invariant autoValue <==> forall j :: 0 <= j < i ==> e.members[j].value == 0
      {
        SeenNext(all, i, names);
        if e.members[i].node.name in names {
          return false, r;
        }
        names := names + {e.members[i].node.name};
        if e.members[i].value != 0 {
          autoValue := false;
        }
      }
      SeenAll(all, |e.members|, names);
      if autoValue {
        for i := 0 to |r.members|
          invariant |r.members| == |e.members| && r == e.(members := r.members)
          invariant forall j :: 0 <= j < i ==> r.members[j] == e.members[j].(value := j)
          invariant forall j :: i <= j < |e.members| ==> r.members[j] == e.members[j]
        {
          r := r.(members := r.members[i := r.members[i].(value := i)]);
        }
        assert r.members == ValidatedEnum(e).members;
      }
      return true, r;
    }

    // The interface loop of Module.Validate.
    method ValidateInterfaces(k: nat, xs: seq<Interface>, seen: set<string>, ghost all: seq<string>, ghost at: nat)
      returns (ok: bool, r: seq<Interface>, names: set<string>)
      requires k < |modules|
      requires at + |xs| <= |all| && all[at..at + |xs|] == InterfaceNames(xs) && Seen(all, at, seen)
      ensures ok ==> r == ValidatedInterfaces(Outlines(modules), k, xs)
      ensures ok ==> Seen(all, at + |xs|, names) && UniqueInterfaces(xs)
      ensures !ok ==> !Distinct(all) || !UniqueInterfaces(xs)
    {
      r, names := [], seen;
      for j := 0 to |xs|
        invariant |r| == j && forall n :: 0 <= n < j ==> r[n] == ValidatedInterface(Outlines(modules), k, xs[n])
        invariant UniqueInterfaces(xs[..j])
        invariant Seen(all, at + j, names)
      {
        SeenNextOf(all, at, InterfaceNames(xs), j, names);
        var x;
        ok, x := ValidateInterface(k, xs[j]);
        UniqueInterfacesNext(xs, j);
        if !ok {
          return false, r, names;
        }
        if x.node.name in names {
          return false, r, names;
        }
        names := names + {x.node.name};
        r := r + [x];
      }
      assert xs[..|xs|] == xs;
      return true, r, names;
    }

    method ValidateStructs(k: nat, xs: seq<Struct>, seen: set<string>, ghost all: seq<string>, ghost at: nat)
      returns (ok: bool, r: seq<Struct>, names: set<string>)
      requires k < |modules|
      requires at + |xs| <= |all| && all[at..at + |xs|] == StructNames(xs) && Seen(all, at, seen)
      ensures ok ==> r == ValidatedStructs(Outlines(modules), k, xs) && Seen(all, at + |xs|, names) && UniqueStructs(xs)
      ensures !ok ==> !Distinct(all) || !UniqueStructs(xs)
    {
      r, names := [], seen;
      for j := 0 to |xs|
        invariant |r| == j && forall n :: 0 <= n < j ==> r[n] == ValidatedStruct(Outlines(modules), k, xs[n])
        invariant UniqueStructs(xs[..j])
        invariant Seen(all, at + j, names)
      {
        SeenNextOf(all, at, StructNames(xs), j, names);
        var x;
        ok, x := ValidateStruct(k, xs[j]);
        UniqueStructsNext(xs, j);
        if !ok {
          return false, r, names;
        }
        if x.node.name in names {
          return false, r, names;
        }
        names := names + {x.node.name};
        r := r + [x];
      }
      assert xs[..|xs|] == xs;
      return true, r, names;
    }

    method ValidateStruct(k: nat, s: Struct) returns (ok: bool, r: Struct)
      requires k < |modules|
      ensures ok <==> Distinct(TypedNames(s.fields))
      ensures ok ==> r == ValidatedStruct(Outlines(modules), k, s)
    {
      var fields, names;
      ok, fields, names := ValidateScope(k, s.fields, TypedNames(s.fields));
      if ok {
        SeenAll(TypedNames(s.fields), |s.fields|, names);
      }
      r := s.(fields := fields);
    }

    method ValidateEnums(xs: seq<Enum>, seen: set<string>, ghost all: seq<string>, ghost at: nat)
      returns (ok: bool, r: seq<Enum>)
      requires at + |xs| == |all| && all[at..at + |xs|] == EnumNames(xs) && Seen(all, at, seen)
      ensures ok ==> r == ValidatedEnums(xs)
      ensures ok <==> Distinct(all) && UniqueEnums(xs)
    {
      r := [];
      var names := seen;
      for j := 0 to |xs|
        invariant |r| == j && forall n :: 0 <= n < j ==> r[n] == ValidatedEnum(xs[n])
        invariant UniqueEnums(xs[..j])
        invariant Seen(all, at + j, names)
      {
        SeenNextOf(all, at, EnumNames(xs), j, names);
        var x;
        ok, x := ValidateEnum(xs[j]);
        UniqueEnumsNext(xs, j);
        if !ok {
          return false, r;
        }
        if x.node.name in names {
          return false, r;
        }
        names := names + {x.node.name};
        r := r + [x];
      }
      SeenAll(all, at + |xs|, names);
      assert xs[..|xs|] == xs;
      return true, r;
    }

    method ValidateExterns(k: nat, ghost all: seq<string>) returns (ok: bool, names: set<string>)
      requires k < |modules| && ExternNames(modules[k].externs) <= all
      ensures ok ==> Seen(all, |modules[k].externs|, names)
      ensures !ok ==> !Distinct(all)
    {
      names := {};
      for j := 0 to |modules[k].externs|
        invariant Seen(all, j, names)
      {
        SeenNext(all, j, names);
        assert all[j] == ExternNames(modules[k].externs)[j];
        if modules[k].externs[j].node.name in names {
          return false, names;
        }
        names := names + {modules[k].externs[j].node.name};
      }
      return true, names;
    }

    // The outline of a module is all that lookups see.
    method SetModule(k: nat, m: Module)
      requires k < |modules| && OutlineOf(m) == OutlineOf(modules[k])
      modifies this`modules
      ensures modules == old(modules)[k := m] && Outlines(modules) == Outlines(old(modules))
    {
      modules := modules[k := m];
    }

    method FillVersion(k: nat)
      requires k < |modules|
      modifies this`modules
      ensures modules == old(modules)[k := WithVersion(old(modules[k]))] && Outlines(modules) == Outlines(old(modules))
    {
      if modules[k].version == "" {
        SetModule(k, modules[k].(version := "1.0"));
      }
    }

    method ValidateModule(k: nat) returns (ok: bool)
      requires k < |modules|
      modifies this`modules
      ensures ok <==> UniqueModule(old(modules[k]))
      ensures Outlines(modules) == Outlines(old(modules))
      ensures ok ==> modules == old(modules)[k := ValidatedModule(Outlines(old(modules)), k, old(modules[k]))]
    {
      FillVersion(k);
      var m := modules[k];
      var names;
      ok, names := ValidateExterns(k, DeclaredNames(m));
      if ok {
        var checked;
        ok, checked := ValidateDeclarations(k, m, names);
        if ok {
          DeclarationsKeepOutline(Outlines(modules), k, m);
          SetModule(k, checked);
          ComputeModuleChecksum(k);
        }
      }
    }

    // The interface, struct and enum loops of Module.Validate.
    method ValidateDeclarations(k: nat, m: Module, seen: set<string>) returns (ok: bool, r: Module)
      requires k < |modules| && Seen(DeclaredNames(m), |m.externs|, seen)
      ensures ok <==> UniqueModule(m)
      ensures ok ==> r == ValidatedDeclarations(Outlines(modules), k, m)
    {
      ghost var all := DeclaredNames(m);
      DeclaredParts(m, all);
      r := m;
      var interfaces, structs, enums, names;
      ok, interfaces, names := ValidateInterfaces(k, m.interfaces, seen, all, |m.externs|);
      if !ok {
        return;
      }
      ok, structs, names := ValidateStructs(k, m.structs, names, all, |m.externs| + |m.interfaces|);
      if !ok {
        return;
      }
      ok, enums := ValidateEnums(m.enums, names, all, |m.externs| + |m.interfaces| + |m.structs|);
      r := m.(interfaces := interfaces, structs := structs, enums := enums);
    }

    // The text goes into the buffer piece by piece.
    method ComputeModuleChecksum(k: nat)
      requires k < |modules|
      modifies this`modules
      ensures modules == old(modules)[k := WithChecksum(old(modules[k]))]
      ensures Outlines(modules) == Outlines(old(modules))
    {
      var m := modules[k];
      var buffer := WriteInterfaces(m.node.name, m.interfaces);
      buffer := WriteStructs(buffer, m.structs);
      buffer := WriteEnums(buffer, m.enums);
      modules := modules[k := m.(checksum := Some(buffer))];
    }

    method WriteTyped(start: string, ts: seq<TypedNode>) returns (buffer: string)
      ensures buffer == start + Flatten(ts, TypedText)
    {
      buffer := start;
      for j := 0 to |ts|
        invariant buffer == start + Flatten(ts[..j], TypedText)
      {
        FlattenNext(start, ts, j, TypedText);
        buffer := buffer + (ts[j].node.name + ts[j].schema.typeName);
      }
      FlattenWhole(ts, TypedText);
    }

    method WriteOperation(start: string, o: Operation) returns (buffer: string)
      ensures buffer == start + OperationText(o)
    {
      buffer := WriteTyped(start + o.node.name, o.params);
      if o.ret.Some? {
        buffer := buffer + o.ret.value.schema.typeName;
      }
    }

    method WriteInterface(start: string, i: Interface) returns (buffer: string)
      ensures buffer == start + InterfaceText(i)
    {
      buffer := WriteOperations(start + i.node.name, i.operations);
      buffer := WriteTyped(buffer, i.properties);
      buffer := WriteSignals(buffer, i.signals);
    }

    method WriteOperations(start: string, os: seq<Operation>) returns (buffer: string)
      ensures buffer == start + Flatten(os, OperationText)
    {
      buffer := start;
      for j := 0 to |os|
        invariant buffer == start + Flatten(os[..j], OperationText)
      {
        FlattenNext(start, os, j, OperationText);
        buffer := WriteOperation(buffer, os[j]);
      }
      FlattenWhole(os, OperationText);
    }

    method WriteSignal(start: string, s: Signal) returns (buffer: string)
      ensures buffer == start + SignalText(s)
    {
      buffer := WriteTyped(start + s.node.name, s.params);
    }

    method WriteSignals(start: string, ss: seq<Signal>) returns (buffer: string)
      ensures buffer == start + Flatten(ss, SignalText)
    {
      buffer := start;
      for j := 0 to |ss|
        invariant buffer == start + Flatten(ss[..j], SignalText)
      {
        FlattenNext(start, ss, j, SignalText);
        buffer := WriteSignal(buffer, ss[j]);
      }
      FlattenWhole(ss, SignalText);
    }

    method WriteInterfaces(start: string, is_: seq<Interface>) returns (buffer: string)
      ensures buffer == start + Flatten(is_, InterfaceText)
    {
      buffer := start;
      for j := 0 to |is_|
        invariant buffer == start + Flatten(is_[..j], InterfaceText)
      {
        FlattenNext(start, is_, j, InterfaceText);
        buffer := WriteInterface(buffer, is_[j]);
      }
      FlattenWhole(is_, InterfaceText);
    }

    method WriteStruct(start: string, s: Struct) returns (buffer: string)
      ensures buffer == start + StructText(s)
    {
      buffer := WriteTyped(start + s.node.name, s.fields);
    }

    method WriteStructs(start: string, ss: seq<Struct>) returns (buffer: string)
      ensures buffer == start + Flatten(ss, StructText)
    {
      buffer := start;
      for j := 0 to |ss|
        invariant buffer == start + Flatten(ss[..j], StructText)
      {
        FlattenNext(start, ss, j, StructText);
        buffer := WriteStruct(buffer, ss[j]);
      }
      FlattenWhole(ss, StructText);
    }

    method WriteMember(start: string, m: EnumMember) returns (buffer: string)
      ensures buffer == start + MemberText(m)
    {
      buffer := start + (m.node.name + Itoa(m.value));
    }

    method WriteMembers(start: string, ms: seq<EnumMember>) returns (buffer: string)
      ensures buffer == start + Flatten(ms, MemberText)
    {
      buffer := start;
      for j := 0 to |ms|
        invariant buffer == start + Flatten(ms[..j], MemberText)
      {
        FlattenNext(start, ms, j, MemberText);
        buffer := WriteMember(buffer, ms[j]);
      }
      FlattenWhole(ms, MemberText);
    }

    method WriteEnum(start: string, e: Enum) returns (buffer: string)
      ensures buffer == start + EnumText(e)
    {
      buffer := WriteMembers(start + e.node.name, e.members);
    }

    method WriteEnums(start: string, es: seq<Enum>) returns (buffer: string)
      ensures buffer == start + Flatten(es, EnumText)
    {
      buffer := start;
      for j := 0 to |es|
        invariant buffer == start + Flatten(es[..j], EnumText)
      {
        FlattenNext(start, es, j, EnumText);
        buffer := WriteEnum(buffer, es[j]);
      }
      FlattenWhole(es, EnumText);
    }

    method NumberTyped(ts: seq<TypedNode>, first: nat) returns (r: seq<TypedNode>, idx: nat)
      ensures SameTypedNodes(ts, r) && CountsFrom(Flatten(r, TypedId), first) && idx == first + |Flatten(r, TypedId)|
    {
      r, idx := [], first;
      for j := 0 to |ts|
        invariant |r| == j && forall n :: 0 <= n < j ==> SameTyped(ts[n], r[n])
        invariant CountsFrom(Flatten(r, TypedId), first) && idx == first + |Flatten(r, TypedId)|
      {
        var t := ts[j].(node := ts[j].node.(id := idx));
        FlattenPush(r, t, TypedId);
        r, idx := r + [t], idx + 1;
      }
    }

    method NumberOperations(os: seq<Operation>, first: nat) returns (r: seq<Operation>, idx: nat)
      ensures SameOperations(os, r)
      ensures CountsFrom(Flatten(r, OperationId), first) && idx == first + |Flatten(r, OperationId)|
    {
      r, idx := [], first;
      for j := 0 to |os|
        invariant |r| == j && forall n :: 0 <= n < j ==> SameOperation(os[n], r[n])
        invariant CountsFrom(Flatten(r, OperationId), first) && idx == first + |Flatten(r, OperationId)|
      {
        var o := os[j].(node := os[j].node.(id := idx));
        FlattenPush(r, o, OperationId);
        r, idx := r + [o], idx + 1;
      }
    }

    method NumberSignals(ss: seq<Signal>, first: nat) returns (r: seq<Signal>, idx: nat)
      ensures SameSignals(ss, r) && CountsFrom(Flatten(r, SignalId), first) && idx == first + |Flatten(r, SignalId)|
    {
      r, idx := [], first;
      for j := 0 to |ss|
        invariant |r| == j && forall n :: 0 <= n < j ==> SameSignal(ss[n], r[n])
        invariant CountsFrom(Flatten(r, SignalId), first) && idx == first + |Flatten(r, SignalId)|
      {
        var s := ss[j].(node := ss[j].node.(id := idx));
        FlattenPush(r, s, SignalId);
        r, idx := r + [s], idx + 1;
      }
    }

    method NumberMembers(ms: seq<EnumMember>, first: nat) returns (r: seq<EnumMember>, idx: nat)
      ensures SameMembers(ms, r) && CountsFrom(Flatten(r, MemberId), first) && idx == first + |Flatten(r, MemberId)|
    {
      r, idx := [], first;
      for j := 0 to |ms|
        invariant |r| == j && forall n :: 0 <= n < j ==> SameMember(ms[n], r[n])
        invariant CountsFrom(Flatten(r, MemberId), first) && idx == first + |Flatten(r, MemberId)|
      {
        var m := ms[j].(node := ms[j].node.(id := idx));
        FlattenPush(r, m, MemberId);
        r, idx := r + [m], idx + 1;
      }
    }

    // Operations come before properties, properties before signals.
    method NumberInterface(i: Interface, first: nat) returns (r: Interface, idx: nat)
      ensures SameInterface(i, r) && CountsFrom(InterfaceIds(r), first) && idx == first + |InterfaceIds(r)|
    {
      var operations, properties, signals;
      operations, idx := NumberOperations(i.operations, first + 1);
      properties, idx := NumberTyped(i.properties, idx);
      signals, idx := NumberSignals(i.signals, idx);
      r := i.(node := i.node.(id := first), operations := operations, properties := properties, signals := signals);
      CountsConcat4([first], Flatten(operations, OperationId), Flatten(properties, TypedId), Flatten(signals, SignalId),
                    first);
    }

    method NumberInterfaces(is_: seq<Interface>, first: nat) returns (r: seq<Interface>, idx: nat)
      ensures SameInterfaces(is_, r)
      ensures CountsFrom(Flatten(r, InterfaceIds), first) && idx == first + |Flatten(r, InterfaceIds)|
    {
      r, idx := [], first;
      for j := 0 to |is_|
        invariant SameInterfaces(is_[..j], r)
        invariant CountsFrom(Flatten(r, InterfaceIds), first) && idx == first + |Flatten(r, InterfaceIds)|
      {
        var i;
        i, idx := NumberInterface(is_[j], idx);
        FlattenPush(r, i, InterfaceIds);
        CountsConcat(Flatten(r, InterfaceIds), InterfaceIds(i), first);
        SameInterfacesNext(is_, r, j, i);
        r := r + [i];
      }
      assert is_[..|is_|] == is_;
    }

    method NumberStruct(s: Struct, first: nat) returns (r: Struct, idx: nat)
      ensures SameStruct(s, r) && CountsFrom(StructIds(r), first) && idx == first + |StructIds(r)|
    {
      var fields;
      fields, idx := NumberTyped(s.fields, first + 1);
      r := s.(node := s.node.(id := first), fields := fields);
      CountsConcat([first], Flatten(fields, TypedId), first);
    }

    method NumberStructs(ss: seq<Struct>, first: nat) returns (r: seq<Struct>, idx: nat)
      ensures SameStructs(ss, r) && CountsFrom(Flatten(r, StructIds), first) && idx == first + |Flatten(r, StructIds)|
    {
      r, idx := [], first;
      for j := 0 to |ss|
        invariant SameStructs(ss[..j], r)
        invariant CountsFrom(Flatten(r, StructIds), first) && idx == first + |Flatten(r, StructIds)|
      {
        var s;
        s, idx := NumberStruct(ss[j], idx);
        FlattenPush(r, s, StructIds);
        CountsConcat(Flatten(r, StructIds), StructIds(s), first);
        SameStructsNext(ss, r, j, s);
        r := r + [s];
      }
      assert ss[..|ss|] == ss;
    }

    method NumberEnum(e: Enum, first: nat) returns (r: Enum, idx: nat)
      ensures SameEnum(e, r) && CountsFrom(EnumIds(r), first) && idx == first + |EnumIds(r)|
    {
      var members;
      members, idx := NumberMembers(e.members, first + 1);
      r := e.(node := e.node.(id := first), members := members);
      CountsConcat([first], Flatten(members, MemberId), first);
    }

    method NumberEnums(es: seq<Enum>, first: nat) returns (r: seq<Enum>, idx: nat)
      ensures SameEnums(es, r) && CountsFrom(Flatten(r, EnumIds), first) && idx == first + |Flatten(r, EnumIds)|
    {
      r, idx := [], first;
      for j := 0 to |es|
        invariant SameEnums(es[..j], r)
        invariant CountsFrom(Flatten(r, EnumIds), first) && idx == first + |Flatten(r, EnumIds)|
      {
        var e;
        e, idx := NumberEnum(es[j], idx);
        FlattenPush(r, e, EnumIds);
        CountsConcat(Flatten(r, EnumIds), EnumIds(e), first);
        SameEnumsNext(es, r, j, e);
        r := r + [e];
      }
      assert es[..|es|] == es;
    }

    method NumberModule(m: Module, first: nat) returns (r: Module, idx: nat)
      ensures SameModule(m, r) && CountsFrom(ModuleIds(r), first) && idx == first + |ModuleIds(r)|
    {
      var interfaces, structs, enums;
      interfaces, idx := NumberInterfaces(m.interfaces, first + 1);
      structs, idx := NumberStructs(m.structs, idx);
      enums, idx := NumberEnums(m.enums, idx);
      r := m.(node := m.node.(id := first), interfaces := interfaces, structs := structs, enums := enums);
      CountsConcat4([first], Flatten(interfaces, InterfaceIds), Flatten(structs, StructIds), Flatten(enums, EnumIds),
                    first);
    }

    // The ids become 1, 2, 3, ... in traversal order and nothing else changes.
    method ComputeIdentifier()
      modifies this`modules
      ensures SameModules(old(modules), modules) && CountsFrom(Flatten(modules, ModuleIds), 1)
    {
      ghost var before := modules;
      var idx := 1;
      for k := 0 to |modules|
        invariant SameUpTo(before, modules, k)
        invariant CountsFrom(Flatten(modules[..k], ModuleIds), 1) && idx == 1 + |Flatten(modules[..k], ModuleIds)|
      {
        var m;
        m, idx := NumberModule(modules[k], idx);
        SameNext(before, modules, k, m);
        CountsNext(modules, k, m);
        modules := modules[k := m];
      }
      assert modules[..|modules|] == modules;
    }

    method ComputeChecksum() returns (ok: bool)
      modifies this`checksum
      ensures ok <==> forall k :: 0 <= k < |modules| ==> modules[k].checksum.Some?
      ensures ok ==> checksum == Some(Flatten(modules, ModuleChecksum))
      ensures !ok ==> checksum == old(checksum)
    {
      var buffer := "";
      for k := 0 to |modules|
        invariant forall n :: 0 <= n < k ==> modules[n].checksum.Some?
        invariant buffer == Flatten(modules[..k], ModuleChecksum) && checksum == old(checksum)
      {
        if modules[k].checksum.None? {
          return false;
        }
        FlattenPush(modules[..k], modules[k], ModuleChecksum);
        assert modules[..k + 1] == modules[..k] + [modules[k]];
        buffer := buffer + modules[k].checksum.value;
      }
      FlattenWhole(modules, ModuleChecksum);
      checksum := Some(buffer);
      return true;
    }

    method ValidateModules() returns (ok: bool)
      modifies this`modules
      ensures ok <==> forall k :: 0 <= k < |old(modules)| ==> UniqueModule(old(modules)[k])
      ensures Outlines(modules) == Outlines(old(modules))
      ensures ok ==> modules == ValidatedModules(old(modules))
    {
      ghost var before, env := modules, Outlines(modules);
      for k := 0 to |modules|
        invariant |modules| == |before| && Outlines(modules) == env
        invariant forall n :: 0 <= n < k ==> UniqueModule(before[n]) && modules[n] == ValidatedModule(env, n, before[n])
        invariant forall n :: k <= n < |before| ==> modules[n] == before[n]
      {
        ok := ValidateModule(k);
        if !ok {
          return false;
        }
      }
      return true;
    }

    // Succeeds exactly when the names are unique in every scope. Then the modules
    // are validated, numbered from 1, and hashed.
    method Validate() returns (ok: bool)
      modifies this
      ensures ok <==> UniqueSystem(old(modules))
      ensures ok ==> SameModules(ValidatedModules(old(modules)), modules) && CountsFrom(Flatten(modules, ModuleIds), 1)
      ensures ok ==> checksum == Some(Flatten(modules, ModuleChecksum))
      ensures !ok ==> checksum == old(checksum)
    {
      ok := ValidateModules();
      SameNames(old(modules), modules);
      if ok {
        ok := CheckModuleNames();
      }
      if ok {
        ComputeIdentifier();
        ChecksumsAreThere(old(modules), modules);
        ok := ComputeChecksum();
      }
    }

    method CheckModuleNames() returns (ok: bool)
      ensures ok <==> Distinct(ModuleNames(modules))
    {
      var names := {};
      for k := 0 to |modules|
        invariant Seen(ModuleNames(modules), k, names)
      {
        SeenNext(ModuleNames(modules), k, names);
        if modules[k].node.name in names {
          return false;
        }
        names := names + {modules[k].node.name};
      }
      SeenAll(ModuleNames(modules), |modules|, names);
      return true;
    }
  }
}
