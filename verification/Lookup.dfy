/**
  Name lookup over a system (pkg/model/module.go, pkg/model/system.go,
  pkg/model/iface.go).

  The four Lookup families (extern, enum, struct, interface) are copies of one
  another and differ only in the list they search, so they are one family here.
  A lookup sees nothing of a module but its outline.
  */
module Lookup {
  import opened Wrappers
  import opened Names
  import opened ApiModel

  datatype Outline = Outline(
    name: string,
    attached: bool,
    externs: seq<string>,
    enums: seq<string>,
    structs: seq<string>,
    interfaces: seq<string>)
  {
    function List(kind: SymbolKind): seq<string> {
      match kind
      case SymExtern => externs
      case SymEnum => enums
      case SymStruct => structs
      case SymInterface => interfaces
    }
  }

  function OutlineOf(m: Module): Outline {
    Outline(m.node.name, m.attached, ExternNames(m.externs), EnumNames(m.enums), StructNames(m.structs),
            InterfaceNames(m.interfaces))
  }

  function Outlines(ms: seq<Module>): (env: seq<Outline>)
    ensures |env| == |ms| && forall k :: 0 <= k < |ms| ==> env[k] == OutlineOf(ms[k])
  {
    seq(|ms|, k requires 0 <= k < |ms| => OutlineOf(ms[k]))
  }

  // The first position of a name.
  function IndexOf(names: seq<string>, name: string): (r: Option<nat>)
    ensures r.Some? ==> r.value < |names| && names[r.value] == name
    ensures r.Some? ==> forall j :: 0 <= j < r.value ==> names[j] != name
    ensures r.None? ==> name !in names
  {
    if names == [] then None
    else if names[0] == name then Some(0)
    else match IndexOf(names[1..], name)
      case Some(i) => Some(i + 1)
      case None => None
  }

  function LookupModule(env: seq<Outline>, name: string): (r: Option<nat>)
    ensures r.Some? ==> r.value < |env| && env[r.value].name == name
    ensures r.Some? ==> forall j :: 0 <= j < r.value ==> env[j].name != name
    ensures r.None? ==> forall j :: 0 <= j < |env| ==> env[j].name != name
  {
    if env == [] then None
    else if env[0].name == name then Some(0)
    else match LookupModule(env[1..], name)
      case Some(i) => Some(i + 1)
      case None => None
  }

  function LookupLocal(env: seq<Outline>, k: nat, kind: SymbolKind, name: string): Option<Ref>
    requires k < |env|
  {
    match IndexOf(env[k].List(kind), name)
    case Some(i) => Some(Ref(k, kind, i))
    case None => None
  }

  // Module.Lookup*: asked in module k for `name` in the module called `mName`.
  function ModuleLookup(env: seq<Outline>, k: nat, kind: SymbolKind, mName: string, name: string): Option<Ref>
    requires k < |env|
    decreases if mName == "" || mName == env[k].name then 0 else 2
  {
    if mName == "" || mName == env[k].name then LookupLocal(env, k, kind, name)
    else if env[k].attached then SystemLookup(env, kind, mName, name)
    else None
  }

  // System.Lookup*: the system asks the module, which answers from its own lists.
  function SystemLookup(env: seq<Outline>, kind: SymbolKind, mName: string, name: string): Option<Ref>
    decreases 1
  {
    match LookupModule(env, mName)
    case Some(k) => ModuleLookup(env, k, kind, mName, name)
    case None => None
  }

  // The module whose lists decide: two hops at most, whatever the kind.
  function TargetModule(env: seq<Outline>, k: nat, mName: string): Option<nat>
    requires k < |env|
  {
    if mName == "" || mName == env[k].name then Some(k)
    else if env[k].attached then LookupModule(env, mName)
    else None
  }

  lemma LookupIsLocalToTarget(env: seq<Outline>, k: nat, kind: SymbolKind, mName: string, name: string)
    requires k < |env|
    ensures ModuleLookup(env, k, kind, mName, name) ==
            match TargetModule(env, k, mName)
            case Some(j) => LookupLocal(env, j, kind, name)
            case None => None
  {
    if mName != "" && mName != env[k].name && env[k].attached {
      match LookupModule(env, mName)
      case Some(j) => assert ModuleLookup(env, j, kind, mName, name) == LookupLocal(env, j, kind, name);
      case None =>
    }
  }

  lemma LookupKeepsKind(env: seq<Outline>, k: nat, kind: SymbolKind, mName: string, name: string)
    requires k < |env|
    ensures var r := ModuleLookup(env, k, kind, mName, name); r.Some? ==> r.value.symbol == kind
  {
    LookupIsLocalToTarget(env, k, kind, mName, name);
  }

  lemma SystemAsksFirst(env: seq<Outline>, kind: SymbolKind, mName: string, name: string)
    ensures SystemLookup(env, kind, mName, name) ==
            match LookupModule(env, mName)
            case Some(k) => LookupLocal(env, k, kind, name)
            case None => None
  {
    match LookupModule(env, mName)
    case Some(k) => assert ModuleLookup(env, k, kind, mName, name) == LookupLocal(env, k, kind, name);
    case None =>
  }

  ghost predicate Distinct(names: seq<string>) {
    forall i, j :: 0 <= i < j < |names| ==> names[i] != names[j]
  }

  ghost predicate DistinctModules(env: seq<Outline>) {
    forall i, j :: 0 <= i < j < |env| ==> env[i].name != env[j].name
  }

  // A declaration is found where it is declared, from the system and from every
  // attached module alike, exactly when no earlier module has the same name.
  lemma QualifiedLookupFindsFirstModule(env: seq<Outline>, k: nat, kind: SymbolKind, name: string)
    requires k < |env| && env[k].name != ""
    ensures LookupModule(env, env[k].name) == Some(k) <==> forall j :: 0 <= j < k ==> env[j].name != env[k].name
    ensures (forall j :: 0 <= j < k ==> env[j].name != env[k].name) ==>
            SystemLookup(env, kind, env[k].name, name) == LookupLocal(env, k, kind, name)
  {
  }

  // With distinct module names it does not matter which module is asked.
  lemma LookupIsLocationIndependent(env: seq<Outline>, k: nat, kind: SymbolKind, mName: string, name: string)
    requires k < |env| && env[k].attached && mName != ""
    requires DistinctModules(env)
    ensures ModuleLookup(env, k, kind, mName, name) == SystemLookup(env, kind, mName, name)
  {
    if mName == env[k].name {
      QualifiedLookupFindsFirstModule(env, k, kind, name);
    }
  }

  ghost predicate AnswersAsSystem(env: seq<Outline>, k: nat)
    requires k < |env|
  {
    forall kind, mName, name :: mName != "" ==>
      ModuleLookup(env, k, kind, mName, name) == SystemLookup(env, kind, mName, name)
  }

  predicate DeclaresNothing(o: Outline) {
    o.externs == [] && o.enums == [] && o.structs == [] && o.interfaces == []
  }

  // Which attached modules answer as the system does, for any module names: all but
  // those that come after a module of the same name, unless neither declares anything.
  lemma AnswersAsSystemIff(env: seq<Outline>, k: nat)
    requires k < |env| && env[k].attached
    ensures AnswersAsSystem(env, k) <==>
            || env[k].name == "" || LookupModule(env, env[k].name) == Some(k)
            || (DeclaresNothing(env[k]) && DeclaresNothing(env[LookupModule(env, env[k].name).value]))
  {
    var m := LookupModule(env, env[k].name);
    assert m.Some?;
    forall kind: SymbolKind, mName: string, name: string | mName != "" && mName != env[k].name
      ensures ModuleLookup(env, k, kind, mName, name) == SystemLookup(env, kind, mName, name)
    {
    }
    if env[k].name != "" && m != Some(k) {
      if !DeclaresNothing(env[k]) {
        SomeDeclaration(env[k]);
        var kind :| env[k].List(kind) != [];
        DifferentAnswers(env, k, m.value, kind, env[k].List(kind)[0]);
      } else if !DeclaresNothing(env[m.value]) {
        SomeDeclaration(env[m.value]);
        var kind :| env[m.value].List(kind) != [];
        DifferentAnswers(env, k, m.value, kind, env[m.value].List(kind)[0]);
      } else {
        NoAnswers(env, k, m.value);
      }
    }
  }

  lemma SomeDeclaration(o: Outline)
    requires !DeclaresNothing(o)
    ensures exists kind :: o.List(kind) != []
  {
    assert o.List(SymExtern) == o.externs && o.List(SymEnum) == o.enums;
    assert o.List(SymStruct) == o.structs && o.List(SymInterface) == o.interfaces;
  }

  lemma DifferentAnswers(env: seq<Outline>, k: nat, first: nat, kind: SymbolKind, name: string)
    requires k < |env| && first < |env| && first != k
    requires env[k].name != "" && LookupModule(env, env[k].name) == Some(first)
    requires name in env[k].List(kind) || name in env[first].List(kind)
    ensures ModuleLookup(env, k, kind, env[k].name, name) != SystemLookup(env, kind, env[k].name, name)
  {
    assert ModuleLookup(env, k, kind, env[k].name, name) == LookupLocal(env, k, kind, name);
    assert SystemLookup(env, kind, env[k].name, name) == LookupLocal(env, first, kind, name);
  }

  lemma NoAnswers(env: seq<Outline>, k: nat, first: nat)
    requires k < |env| && first < |env| && env[k].name != "" && LookupModule(env, env[k].name) == Some(first)
    requires DeclaresNothing(env[k]) && DeclaresNothing(env[first])
    ensures forall kind, name ::
              ModuleLookup(env, k, kind, env[k].name, name) == SystemLookup(env, kind, env[k].name, name)
  {
    forall kind: SymbolKind, name: string
      ensures ModuleLookup(env, k, kind, env[k].name, name) == SystemLookup(env, kind, env[k].name, name)
    {
      assert env[k].List(kind) == [] && env[first].List(kind) == [];
      assert SystemLookup(env, kind, env[k].name, name) == LookupLocal(env, first, kind, name);
    }
  }

  // Such a module: the second of two called m, of which the first declares an enum.
  lemma SharedModuleNameBreaksIndependence()
    ensures
      var env := [Outline("m", true, [], ["E"], [], []), Outline("m", true, [], [], [], [])];
      !AnswersAsSystem(env, 1) &&
      SystemLookup(env, SymEnum, "m", "E") == Some(Ref(0, SymEnum, 0)) &&
      ModuleLookup(env, 1, SymEnum, "m", "E") == None
  {
    var env := [Outline("m", true, [], ["E"], [], []), Outline("m", true, [], [], [], [])];
    assert LookupModule(env, "m") == Some(0);
    assert IndexOf(["E"], "E") == Some(0);
    assert SystemLookup(env, SymEnum, "m", "E") == Some(Ref(0, SymEnum, 0));
    assert ModuleLookup(env, 1, SymEnum, "m", "E") != SystemLookup(env, SymEnum, "m", "E");
  }

  // ------------------------------------------------------------------------
  // Adding a module
  // ------------------------------------------------------------------------

  lemma {:induction false} LookupModuleInLonger(env: seq<Outline>, o: Outline, name: string)
    ensures LookupModule(env + [o], name) ==
            if LookupModule(env, name).Some? then LookupModule(env, name)
            else if o.name == name then Some(|env|) else None
  {
    if env != [] && env[0].name != name {
      assert (env + [o])[1..] == env[1..] + [o];
      LookupModuleInLonger(env[1..], o, name);
    }
  }

  // A module that is added last changes no answer of the system but those under
  // its own name, and these only if no module had the name.
  lemma AddedModuleAnswers(env: seq<Outline>, o: Outline, kind: SymbolKind, mName: string, name: string)
    ensures SystemLookup(env + [o], kind, mName, name) ==
            if mName != o.name || LookupModule(env, mName).Some? then SystemLookup(env, kind, mName, name)
            else LookupLocal(env + [o], |env|, kind, name)
  {
    LookupModuleInLonger(env, o, mName);
    SystemAsksFirst(env, kind, mName, name);
    SystemAsksFirst(env + [o], kind, mName, name);
  }

  // ------------------------------------------------------------------------
  // Nodes by qualified name
  // ------------------------------------------------------------------------

  datatype NodeRef =
    | Declaration(ref: Ref)
    | PropertyOf(iface: Ref, pos: nat)
    | OperationOf(iface: Ref, pos: nat)
    | SignalOf(iface: Ref, pos: nat)

  // Module.LookupNode: interface, then struct, then enum; externs are no nodes.
  function ModuleLookupNode(env: seq<Outline>, k: nat, mName: string, name: string): Option<NodeRef>
    requires k < |env|
  {
    match ModuleLookup(env, k, SymInterface, mName, name)
    case Some(r) => Some(Declaration(r))
    case None =>
      match ModuleLookup(env, k, SymStruct, mName, name)
      case Some(r) => Some(Declaration(r))
      case None =>
        match ModuleLookup(env, k, SymEnum, mName, name)
        case Some(r) => Some(Declaration(r))
        case None => None
  }

  // Interface.LookupMember: property, then operation, then signal.
  function LookupMember(i: Interface, at: Ref, name: string): Option<NodeRef> {
    match IndexOf(TypedNames(i.properties), name)
    case Some(p) => Some(PropertyOf(at, p))
    case None =>
      match IndexOf(OperationNames(i.operations), name)
      case Some(o) => Some(OperationOf(at, o))
      case None =>
        match IndexOf(SignalNames(i.signals), name)
        case Some(s) => Some(SignalOf(at, s))
        case None => None
  }

  lemma LookupResultInRange(env: seq<Outline>, kind: SymbolKind, mName: string, name: string)
    ensures SystemLookup(env, kind, mName, name).Some? ==>
              var r := SystemLookup(env, kind, mName, name).value;
              && r.mod < |env| && r.symbol == kind
              && r.pos < |env[r.mod].List(kind)| && env[r.mod].List(kind)[r.pos] == name
  {
  }

  function InterfaceMember(ms: seq<Module>, mName: string, iName: string, member: string): Option<NodeRef> {
    match SystemLookup(Outlines(ms), SymInterface, mName, iName)
    case Some(r) =>
      LookupResultInRange(Outlines(ms), SymInterface, mName, iName);
      LookupMember(ms[r.mod].interfaces[r.pos], r, member)
    case None => None
  }

  // System.LookupNode
  function SystemLookupNode(ms: seq<Module>, fqn: string): Option<NodeRef> {
    var parts := Split(fqn, '#');
    if |parts| == 2 then
      if |Split(parts[0], '.')| < 2 then None
      else InterfaceMember(ms, Qualifier(parts[0]), LastPart(parts[0]), parts[1])
    else if |parts| == 1 then
      if |Split(fqn, '.')| >= 2 then
        match LookupModule(Outlines(ms), Qualifier(fqn))
        case Some(k) => ModuleLookupNode(Outlines(ms), k, Qualifier(fqn), LastPart(fqn))
        case None => None
      else None
    else None
  }

  // module.Interface#member names the member, whatever dots the module name has.
  lemma MemberByQualifiedName(ms: seq<Module>, mName: string, iName: string, member: string)
    requires '#' !in mName && '#' !in iName && '#' !in member && '.' !in iName
    ensures SystemLookupNode(ms, mName + "." + iName + "#" + member) == InterfaceMember(ms, mName, iName, member)
  {
    var front := mName + "." + iName;
    SplitOfConcat(front, member, '#');
    SplitOfPlain(front, '#');
    SplitOfPlain(member, '#');
    QualifiedName(mName, iName);
  }

  // module.Name names a declaration: the kinds are tried in LookupNode's order.
  lemma {:induction false} NodeByQualifiedName(ms: seq<Module>, mName: string, name: string)
    requires '#' !in mName && '#' !in name && '.' !in name
    ensures SystemLookupNode(ms, mName + "." + name) ==
            match SystemLookup(Outlines(ms), SymInterface, mName, name)
            case Some(r) => Some(Declaration(r))
            case None =>
              match SystemLookup(Outlines(ms), SymStruct, mName, name)
              case Some(r) => Some(Declaration(r))
              case None =>
                match SystemLookup(Outlines(ms), SymEnum, mName, name)
                case Some(r) => Some(Declaration(r))
                case None => None
  {
    SplitOfPlain(mName + "." + name, '#');
    QualifiedName(mName, name);
  }

  lemma {:induction false} IndexOfOwn(names: seq<string>, i: nat)
    requires i < |names| && Distinct(names)
    ensures IndexOf(names, names[i]) == Some(i)
  {
  }

  // The member at a position of the joint member list.
  function MemberAt(i: Interface, at: Ref, q: nat): NodeRef
    requires q < |MemberNames(i)|
  {
    var p, o := |i.properties|, |i.operations|;
    if q < p then PropertyOf(at, q)
    else if q < p + o then OperationOf(at, q - p)
    else SignalOf(at, q - p - o)
  }

  // In a joint list of distinct names, a name is in the part that holds its
  // position and in no other.
  lemma {:induction false} PartIndex(all: seq<string>, before: seq<string>, part: seq<string>, after: seq<string>,
        q: nat)
    requires all == before + part + after && Distinct(all) && q < |all|
    ensures IndexOf(part, all[q]) == if |before| <= q < |before| + |part| then Some(q - |before|) else None
  {
    if |before| <= q < |before| + |part| {
      assert part[q - |before|] == all[q];
    }
    var r := IndexOf(part, all[q]);
    if r.Some? {
      assert all[|before| + r.value] == all[q];
    }
  }

  lemma LookupMemberFindsOwn(i: Interface, at: Ref, q: nat)
    requires q < |MemberNames(i)| && Distinct(MemberNames(i))
    ensures LookupMember(i, at, MemberNames(i)[q]) == Some(MemberAt(i, at, q))
  {
    var ps, os, ss := TypedNames(i.properties), OperationNames(i.operations), SignalNames(i.signals);
    PartIndex(MemberNames(i), [], ps, os + ss, q) by { assert ps + os + ss == [] + ps + (os + ss); }
    PartIndex(MemberNames(i), ps, os, ss, q);
    PartIndex(MemberNames(i), ps + os, ss, [], q);
  }

  // In a system whose names are distinct, the full name of every member leads
  // back to that very member.
  lemma MemberNameRoundTrip(ms: seq<Module>, k: nat, j: nat, q: nat)
    requires DistinctModules(Outlines(ms))
    requires k < |ms| && j < |ms[k].interfaces| && q < |MemberNames(ms[k].interfaces[j])|
    requires Distinct(InterfaceNames(ms[k].interfaces)) && Distinct(MemberNames(ms[k].interfaces[j]))
    requires var m, i := ms[k].node.name, ms[k].interfaces[j];
      '#' !in m && '#' !in i.node.name && '.' !in i.node.name && '#' !in MemberNames(i)[q]
    ensures var m, i := ms[k].node.name, ms[k].interfaces[j];
      SystemLookupNode(ms, m + "." + i.node.name + "#" + MemberNames(i)[q]) ==
      Some(MemberAt(i, Ref(k, SymInterface, j), q))
  {
    var env, m, i := Outlines(ms), ms[k].node.name, ms[k].interfaces[j];
    MemberByQualifiedName(ms, m, i.node.name, MemberNames(i)[q]);
    assert LookupModule(env, m) == Some(k);
    IndexOfOwn(InterfaceNames(ms[k].interfaces), j);
    assert SystemLookup(env, SymInterface, m, i.node.name) == Some(Ref(k, SymInterface, j));
    LookupMemberFindsOwn(i, Ref(k, SymInterface, j), q);
  }

  // ------------------------------------------------------------------------
  // What is declared is found, and what is found is declared
  // ------------------------------------------------------------------------

  predicate Declares(m: Module, kind: SymbolKind, j: nat, name: string) {
    match kind
    case SymExtern => j < |m.externs| && m.externs[j].node.name == name
    case SymEnum => j < |m.enums| && m.enums[j].node.name == name
    case SymStruct => j < |m.structs| && m.structs[j].node.name == name
    case SymInterface => j < |m.interfaces| && m.interfaces[j].node.name == name
  }

  lemma ListIsDeclared(m: Module, kind: SymbolKind, j: nat, name: string)
    ensures Declares(m, kind, j, name) <==> j < |OutlineOf(m).List(kind)| && OutlineOf(m).List(kind)[j] == name
  {
  }

  // In a system of distinct module names, a lookup answers with a declaration exactly
  // if it is the first of its kind and name in the module of that name.
  lemma LookupFindsDeclared(ms: seq<Module>, kind: SymbolKind, mName: string, name: string, k: nat, j: nat)
    requires DistinctModules(Outlines(ms))
    ensures SystemLookup(Outlines(ms), kind, mName, name) == Some(Ref(k, kind, j)) <==>
            && k < |ms| && ms[k].node.name == mName && Declares(ms[k], kind, j, name)
            && forall n :: 0 <= n < j ==> !Declares(ms[k], kind, n, name)
  {
    var env := Outlines(ms);
    SystemAsksFirst(env, kind, mName, name);
    if k < |ms| && ms[k].node.name == mName {
      assert env[k].name == mName && LookupModule(env, mName) == Some(k);
      var names := env[k].List(kind);
      forall n: nat
        ensures Declares(ms[k], kind, n, name) <==> n < |names| && names[n] == name
      {
        ListIsDeclared(ms[k], kind, n, name);
      }
    }
  }
}
