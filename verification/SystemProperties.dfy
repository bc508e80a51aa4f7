/** What a validated system promises: validation is final, and its caches are right. */
module SystemProperties {
  import opened ApiModel
  import opened Identifiers
  import opened Lists
  import opened Lookup
  import opened Syntax
  import opened Validation
  import opened Systems

  // The outcome of a successful System.Validate, as its contract states it.
  ghost predicate ValidationOutcome(before: seq<Module>, after: seq<Module>) {
    SameModules(ValidatedModules(before), after) && CountsFrom(Flatten(after, ModuleIds), 1)
  }

  // ------------------------------------------------------------------------
  // Names survive
  // ------------------------------------------------------------------------

  // No name of the one list is in the other.
  ghost predicate NoClash(a: seq<string>, b: seq<string>) {
    forall i, j :: 0 <= i < |a| && 0 <= j < |b| ==> a[i] != b[j]
  }

  lemma DistinctConcat(a: seq<string>, b: seq<string>)
    ensures Distinct(a + b) <==> Distinct(a) && Distinct(b) && NoClash(a, b)
  {
    var all := a + b;
    assert forall i :: 0 <= i < |a| ==> all[i] == a[i];
    assert forall j :: 0 <= j < |b| ==> all[|a| + j] == b[j];
  }

  lemma NoClashConcat(a: seq<string>, b: seq<string>, c: seq<string>)
    ensures NoClash(a + b, c) <==> NoClash(a, c) && NoClash(b, c)
  {
    var all := a + b;
    assert forall i :: 0 <= i < |a| ==> all[i] == a[i];
    assert forall j :: 0 <= j < |b| ==> all[|a| + j] == b[j];
  }

  // Members of an interface differ in their names, also if they are of different kinds.
  ghost predicate MembersDiffer(i: Interface) {
    var ps, os, ss := TypedNames(i.properties), OperationNames(i.operations), SignalNames(i.signals);
    Distinct(ps) && Distinct(os) && Distinct(ss) && NoClash(ps, os) && NoClash(ps, ss) && NoClash(os, ss)
  }

  // So do the declarations of a module.
  ghost predicate DeclarationsDiffer(m: Module) {
    var xs, is_ := ExternNames(m.externs), InterfaceNames(m.interfaces);
    var ss, es := StructNames(m.structs), EnumNames(m.enums);
    && Distinct(xs) && Distinct(is_) && Distinct(ss) && Distinct(es)
    && NoClash(xs, is_) && NoClash(xs, ss) && NoClash(xs, es)
    && NoClash(is_, ss) && NoClash(is_, es) && NoClash(ss, es)
  }

  lemma MembersDifferIff(i: Interface)
    ensures Distinct(MemberNames(i)) <==> MembersDiffer(i)
  {
    var ps, os, ss := TypedNames(i.properties), OperationNames(i.operations), SignalNames(i.signals);
    DistinctConcat(ps, os);
    DistinctConcat(ps + os, ss);
    NoClashConcat(ps, os, ss);
  }

  lemma DeclarationsDifferIff(m: Module)
    ensures Distinct(DeclaredNames(m)) <==> DeclarationsDiffer(m)
  {
    var xs, is_ := ExternNames(m.externs), InterfaceNames(m.interfaces);
    var ss, es := StructNames(m.structs), EnumNames(m.enums);
    DistinctConcat(xs, is_);
    DistinctConcat(xs + is_, ss);
    DistinctConcat(xs + is_ + ss, es);
    NoClashConcat(xs, is_, ss);
    NoClashConcat(xs, is_, es);
    NoClashConcat(xs + is_, ss, es);
  }

  ghost predicate NamesDiffer(m: Module) {
    && DeclarationsDiffer(m)
    && (forall j :: 0 <= j < |m.interfaces| ==> MembersDiffer(m.interfaces[j]))
    && (forall j :: 0 <= j < |m.structs| ==> Distinct(TypedNames(m.structs[j].fields)))
    && (forall j :: 0 <= j < |m.enums| ==> Distinct(EnumMemberNames(m.enums[j].members)))
  }

  // What validation asks for, scope by scope: modules, declarations of a module of
  // whatever kinds, members of an interface of whatever kinds, fields, enum members.
  lemma UniqueMeansNamesDiffer(ms: seq<Module>)
    ensures UniqueSystem(ms) <==> Distinct(ModuleNames(ms)) && forall k :: 0 <= k < |ms| ==> NamesDiffer(ms[k])
  {
    forall k | 0 <= k < |ms|
      ensures UniqueModule(ms[k]) <==> NamesDiffer(ms[k])
    {
      DeclarationsDifferIff(ms[k]);
      forall j | 0 <= j < |ms[k].interfaces|
        ensures Distinct(MemberNames(ms[k].interfaces[j])) <==> MembersDiffer(ms[k].interfaces[j])
      {
        MembersDifferIff(ms[k].interfaces[j]);
      }
    }
  }

  lemma SameInterfacesNames(a: seq<Interface>, b: seq<Interface>)
    requires SameInterfaces(a, b)
    ensures InterfaceNames(a) == InterfaceNames(b)
    ensures UniqueInterfaces(a) <==> UniqueInterfaces(b)
  {
    forall j | 0 <= j < |a|
      ensures InterfaceNames(a)[j] == InterfaceNames(b)[j] && MemberNames(a[j]) == MemberNames(b[j])
    {
      assert SameInterface(a[j], b[j]);
      assert Unnumbered(a[j].node).name == Unnumbered(b[j].node).name;
      SameTypedNames(a[j].properties, b[j].properties);
      SameOperationNames(a[j].operations, b[j].operations);
      SameSignalNames(a[j].signals, b[j].signals);
    }
  }

  lemma SameTypedNames(a: seq<TypedNode>, b: seq<TypedNode>)
    requires SameTypedNodes(a, b)
    ensures TypedNames(a) == TypedNames(b)
  {
    forall j | 0 <= j < |a|
      ensures TypedNames(a)[j] == TypedNames(b)[j]
    {
      assert Unnumbered(a[j].node).name == Unnumbered(b[j].node).name;
    }
  }

  lemma SameOperationNames(a: seq<Operation>, b: seq<Operation>)
    requires SameOperations(a, b)
    ensures OperationNames(a) == OperationNames(b)
  {
    forall j | 0 <= j < |a|
      ensures OperationNames(a)[j] == OperationNames(b)[j]
    {
      assert Unnumbered(a[j].node).name == Unnumbered(b[j].node).name;
    }
  }

  lemma SameSignalNames(a: seq<Signal>, b: seq<Signal>)
    requires SameSignals(a, b)
    ensures SignalNames(a) == SignalNames(b)
  {
    forall j | 0 <= j < |a|
      ensures SignalNames(a)[j] == SignalNames(b)[j]
    {
      assert Unnumbered(a[j].node).name == Unnumbered(b[j].node).name;
    }
  }

  lemma SameMemberNames(a: seq<EnumMember>, b: seq<EnumMember>)
    requires SameMembers(a, b)
    ensures EnumMemberNames(a) == EnumMemberNames(b)
  {
    forall j | 0 <= j < |a|
      ensures EnumMemberNames(a)[j] == EnumMemberNames(b)[j]
    {
      assert Unnumbered(a[j].node).name == Unnumbered(b[j].node).name;
    }
  }

  lemma SameStructsNames(a: seq<Struct>, b: seq<Struct>)
    requires SameStructs(a, b)
    ensures StructNames(a) == StructNames(b)
    ensures UniqueStructs(a) <==> UniqueStructs(b)
  {
    forall j | 0 <= j < |a|
      ensures StructNames(a)[j] == StructNames(b)[j] && TypedNames(a[j].fields) == TypedNames(b[j].fields)
    {
      assert SameStruct(a[j], b[j]);
      assert Unnumbered(a[j].node).name == Unnumbered(b[j].node).name;
      SameTypedNames(a[j].fields, b[j].fields);
    }
  }

  lemma SameEnumsNames(a: seq<Enum>, b: seq<Enum>)
    requires SameEnums(a, b)
    ensures EnumNames(a) == EnumNames(b)
    ensures UniqueEnums(a) <==> UniqueEnums(b)
  {
    forall j | 0 <= j < |a|
      ensures EnumNames(a)[j] == EnumNames(b)[j] && EnumMemberNames(a[j].members) == EnumMemberNames(b[j].members)
    {
      assert SameEnum(a[j], b[j]);
      assert Unnumbered(a[j].node).name == Unnumbered(b[j].node).name;
      SameMemberNames(a[j].members, b[j].members);
    }
  }

  lemma SameModuleNames(a: Module, b: Module)
    requires SameModule(a, b)
    ensures OutlineOf(a) == OutlineOf(b)
    ensures UniqueModule(a) <==> UniqueModule(b)
  {
    assert Unnumbered(a.node).name == Unnumbered(b.node).name;
    SameInterfacesNames(a.interfaces, b.interfaces);
    SameStructsNames(a.structs, b.structs);
    SameEnumsNames(a.enums, b.enums);
  }

  // Ids are no names: lookups and uniqueness do not depend on them.
  lemma IdsAreNoNames(a: seq<Module>, b: seq<Module>)
    requires SameModules(a, b)
    ensures Outlines(a) == Outlines(b)
    ensures UniqueSystem(a) <==> UniqueSystem(b)
  {
    forall k | 0 <= k < |a|
      ensures OutlineOf(a[k]) == OutlineOf(b[k]) && (UniqueModule(a[k]) <==> UniqueModule(b[k]))
    {
      SameModuleNames(a[k], b[k]);
    }
    forall k | 0 <= k < |a|
      ensures ModuleNames(a)[k] == ModuleNames(b)[k]
    {
      assert Outlines(a)[k].name == Outlines(b)[k].name;
    }
    assert ModuleNames(a) == ModuleNames(b);
  }

  lemma ValidationKeepsInterfaceNames(env: seq<Outline>, k: nat, is_: seq<Interface>)
    requires k < |env|
    ensures UniqueInterfaces(is_) <==> UniqueInterfaces(ValidatedInterfaces(env, k, is_))
  {
    var r := ValidatedInterfaces(env, k, is_);
    forall j | 0 <= j < |is_|
      ensures MemberNames(r[j]) == MemberNames(is_[j])
    {
      assert r[j] == ValidatedInterface(env, k, is_[j]);
    }
  }

  lemma ValidationKeepsFieldNames(env: seq<Outline>, k: nat, ss: seq<Struct>)
    requires k < |env|
    ensures UniqueStructs(ss) <==> UniqueStructs(ValidatedStructs(env, k, ss))
  {
    var r := ValidatedStructs(env, k, ss);
    forall j | 0 <= j < |ss|
      ensures TypedNames(r[j].fields) == TypedNames(ss[j].fields)
    {
      assert r[j] == ValidatedStruct(env, k, ss[j]);
    }
  }

  lemma ValidationKeepsEnumNames(es: seq<Enum>)
    ensures UniqueEnums(es) <==> UniqueEnums(ValidatedEnums(es))
  {
    var r := ValidatedEnums(es);
    forall j | 0 <= j < |es|
      ensures EnumMemberNames(r[j].members) == EnumMemberNames(es[j].members)
    {
      assert r[j] == ValidatedEnum(es[j]);
    }
  }

  lemma ValidationKeepsModuleNames(env: seq<Outline>, k: nat, m: Module)
    requires k < |env|
    ensures UniqueModule(m) <==> UniqueModule(ValidatedModule(env, k, m))
  {
    assert DeclaredNames(ValidatedModule(env, k, m)) == DeclaredNames(m);
    ValidationKeepsInterfaceNames(env, k, m.interfaces);
    ValidationKeepsFieldNames(env, k, m.structs);
    ValidationKeepsEnumNames(m.enums);
  }

  lemma ValidationKeepsNames(ms: seq<Module>)
    ensures UniqueSystem(ms) <==> UniqueSystem(ValidatedModules(ms))
  {
    var r := ValidatedModules(ms);
    forall k | 0 <= k < |ms|
      ensures UniqueModule(ms[k]) <==> UniqueModule(r[k])
    {
      ValidationKeepsModuleNames(Outlines(ms), k, ms[k]);
    }
    SameNames(ms, r);
  }

  // ------------------------------------------------------------------------
  // A validated tree stays validated when its ids change
  // ------------------------------------------------------------------------

  lemma {:induction false} SettledTyped(env: seq<Outline>, k: nat, z: seq<TypedNode>, y: seq<TypedNode>)
    requires k < |env| && SameTypedNodes(z, y) && ValidatedTypedNodes(env, k, z) == z
    ensures ValidatedTypedNodes(env, k, y) == y
    ensures Flatten(z, TypedText) == Flatten(y, TypedText)
  {
    forall j | 0 <= j < |z|
      ensures ValidatedTyped(env, k, y[j]) == y[j] && TypedText(z[j]) == TypedText(y[j])
    {
      assert ValidatedTyped(env, k, z[j]) == z[j] && SameTyped(z[j], y[j]);
      assert Unnumbered(z[j].node).name == Unnumbered(y[j].node).name;
    }
    FlattenSame(z, y, TypedText);
  }

  lemma {:induction false} SettledOperations(env: seq<Outline>, k: nat, z: seq<Operation>, y: seq<Operation>)
    requires k < |env| && SameOperations(z, y) && ValidatedOperations(env, k, z) == z
    ensures ValidatedOperations(env, k, y) == y
    ensures Flatten(z, OperationText) == Flatten(y, OperationText)
  {
    forall j | 0 <= j < |z|
      ensures ValidatedOperation(env, k, y[j]) == y[j] && OperationText(z[j]) == OperationText(y[j])
    {
      assert ValidatedOperation(env, k, z[j]) == z[j] && SameOperation(z[j], y[j]);
      assert Unnumbered(z[j].node).name == Unnumbered(y[j].node).name;
    }
    FlattenSame(z, y, OperationText);
  }

  lemma {:induction false} SettledSignals(env: seq<Outline>, k: nat, z: seq<Signal>, y: seq<Signal>)
    requires k < |env| && SameSignals(z, y) && ValidatedSignals(env, k, z) == z
    ensures ValidatedSignals(env, k, y) == y
    ensures Flatten(z, SignalText) == Flatten(y, SignalText)
  {
    forall j | 0 <= j < |z|
      ensures ValidatedSignal(env, k, y[j]) == y[j] && SignalText(z[j]) == SignalText(y[j])
    {
      assert ValidatedSignal(env, k, z[j]) == z[j] && SameSignal(z[j], y[j]);
      assert Unnumbered(z[j].node).name == Unnumbered(y[j].node).name;
    }
    FlattenSame(z, y, SignalText);
  }

  lemma SettledInterface(env: seq<Outline>, k: nat, z: Interface, y: Interface)
    requires k < |env| && SameInterface(z, y) && ValidatedInterface(env, k, z) == z
    ensures ValidatedInterface(env, k, y) == y && InterfaceText(z) == InterfaceText(y)
  {
    assert Unnumbered(z.node).name == Unnumbered(y.node).name;
    SettledTyped(env, k, z.properties, y.properties);
    SettledOperations(env, k, z.operations, y.operations);
    SettledSignals(env, k, z.signals, y.signals);
  }

  lemma {:induction false} SettledInterfaces(env: seq<Outline>, k: nat, z: seq<Interface>, y: seq<Interface>)
    requires k < |env| && SameInterfaces(z, y) && ValidatedInterfaces(env, k, z) == z
    ensures ValidatedInterfaces(env, k, y) == y
    ensures Flatten(z, InterfaceText) == Flatten(y, InterfaceText)
  {
    forall j | 0 <= j < |z|
      ensures ValidatedInterface(env, k, y[j]) == y[j] && InterfaceText(z[j]) == InterfaceText(y[j])
    {
      assert ValidatedInterface(env, k, z[j]) == z[j];
      SettledInterface(env, k, z[j], y[j]);
    }
    FlattenSame(z, y, InterfaceText);
  }

  lemma {:induction false} SettledStructs(env: seq<Outline>, k: nat, z: seq<Struct>, y: seq<Struct>)
    requires k < |env| && SameStructs(z, y) && ValidatedStructs(env, k, z) == z
    ensures ValidatedStructs(env, k, y) == y
    ensures Flatten(z, StructText) == Flatten(y, StructText)
  {
    forall j | 0 <= j < |z|
      ensures ValidatedStruct(env, k, y[j]) == y[j] && StructText(z[j]) == StructText(y[j])
    {
      assert ValidatedStruct(env, k, z[j]) == z[j] && SameStruct(z[j], y[j]);
      assert Unnumbered(z[j].node).name == Unnumbered(y[j].node).name;
      SettledTyped(env, k, z[j].fields, y[j].fields);
    }
    FlattenSame(z, y, StructText);
  }

  lemma SettledEnum(z: Enum, y: Enum)
    requires SameEnum(z, y) && ValidatedEnum(z) == z
    ensures ValidatedEnum(y) == y && EnumText(z) == EnumText(y)
  {
    assert Unnumbered(z.node).name == Unnumbered(y.node).name;
    forall j | 0 <= j < |z.members|
      ensures z.members[j].value == y.members[j].value && MemberText(z.members[j]) == MemberText(y.members[j])
    {
      assert SameMember(z.members[j], y.members[j]);
      assert Unnumbered(z.members[j].node).name == Unnumbered(y.members[j].node).name;
    }
    FlattenSame(z.members, y.members, MemberText);
    if AllZero(y.members) {
      assert AllZero(z.members);
      forall j | 0 <= j < |y.members|
        ensures y.members[j].(value := j) == y.members[j]
      {
        assert z.members[j] == z.members[j].(value := j);
      }
      assert ValidatedEnum(y).members == y.members;
    }
  }

  lemma SettledEnums(z: seq<Enum>, y: seq<Enum>)
    requires SameEnums(z, y) && ValidatedEnums(z) == z
    ensures ValidatedEnums(y) == y
    ensures Flatten(z, EnumText) == Flatten(y, EnumText)
  {
    forall j | 0 <= j < |z|
      ensures ValidatedEnum(y[j]) == y[j] && EnumText(z[j]) == EnumText(y[j])
    {
      assert ValidatedEnum(z[j]) == z[j];
      SettledEnum(z[j], y[j]);
    }
    FlattenSame(z, y, EnumText);
  }

  lemma SettledModule(env: seq<Outline>, k: nat, z: Module, y: Module)
    requires k < |env| && SameModule(z, y) && ValidatedModule(env, k, z) == z
    ensures ValidatedModule(env, k, y) == y
  {
    assert Unnumbered(z.node).name == Unnumbered(y.node).name;
    SettledInterfaces(env, k, z.interfaces, y.interfaces);
    SettledStructs(env, k, z.structs, y.structs);
    SettledEnums(z.enums, y.enums);
    assert ChecksumText(z) == ChecksumText(y);
  }

  lemma SettledModules(z: seq<Module>, y: seq<Module>)
    requires SameModules(z, y) && ValidatedModules(z) == z
    ensures ValidatedModules(y) == y
  {
    IdsAreNoNames(z, y);
    forall k | 0 <= k < |z|
      ensures ValidatedModule(Outlines(y), k, y[k]) == y[k]
    {
      assert ValidatedModule(Outlines(z), k, z[k]) == z[k];
      SettledModule(Outlines(z), k, z[k], y[k]);
    }
  }

  // Validating once is enough: a second successful or failing run is impossible
  // to tell from no run. Kinds, cached references, base interfaces, enum values,
  // ids and checksum texts are all part of the modules.
  lemma ValidateIsIdempotent(before: seq<Module>, once: seq<Module>, twice: seq<Module>)
    requires UniqueSystem(before) && ValidationOutcome(before, once)
    ensures UniqueSystem(once)
    ensures ValidationOutcome(once, twice) ==> twice == once
  {
    var z := ValidatedModules(before);
    ValidationKeepsNames(before);
    IdsAreNoNames(z, once);
    ModulesIdempotent(before);
    SettledModules(z, once);
    if ValidationOutcome(once, twice) {
      NumberingIsUnique(once, twice, 1);
    }
  }

  // ------------------------------------------------------------------------
  // Caches in a validated system
  // ------------------------------------------------------------------------

  // A schema is a symbol exactly if its type name is no word of the grammar. Kind and
  // cache of a symbol are what lookups answer now; any other type is void or primitive.
  ghost predicate CacheIsRight(env: seq<Outline>, k: nat, s: Schema)
    requires k < |env|
  {
    && s.typeName != "" && s.isSymbol == (s.typeName !in PRIMITIVES)
    && s.isPrimitive == (s.typeName in PRIMITIVES && s.typeName != "void")
    && (s.typeName !in PRIMITIVES ==> SymbolIsRight(env, k, s))
    && (s.typeName in PRIMITIVES ==>
         s.kindType == if s.typeName == "void" then TypeVoid else TypePrimitive(s.typeName))
  }

  ghost predicate SymbolIsRight(env: seq<Outline>, k: nat, s: Schema)
    requires k < |env|
  {
    && (forall kind ::
         && GetSymbol(env, k, s, kind) == ModuleLookup(env, k, kind, s.imp, s.typeName)
         && (s.kindType == TypeSymbol(kind) <==> ModuleLookup(env, k, kind, s.imp, s.typeName).Some?))
    && (s.kindType == TypeUnset <==> forall kind :: ModuleLookup(env, k, kind, s.imp, s.typeName).None?)
  }

  ghost predicate AllFresh(ts: seq<TypedNode>) {
    forall j :: 0 <= j < |ts| ==> Fresh(ts[j].schema)
  }

  ghost predicate AllRight(env: seq<Outline>, k: nat, ts: seq<TypedNode>)
    requires k < |env|
  {
    forall j :: 0 <= j < |ts| ==> CacheIsRight(env, k, ts[j].schema)
  }

  ghost predicate FreshOperation(o: Operation) {
    AllFresh(o.params) && (o.ret.Some? ==> Fresh(o.ret.value.schema))
  }

  ghost predicate FreshInterface(i: Interface) {
    && i.extends_.reference.None?
    && AllFresh(i.properties)
    && (forall j :: 0 <= j < |i.operations| ==> FreshOperation(i.operations[j]))
    && (forall j :: 0 <= j < |i.signals| ==> AllFresh(i.signals[j].params))
  }

  ghost predicate RightInterface(env: seq<Outline>, k: nat, i: Interface)
    requires k < |env|
  {
    && (i.extends_.name != "" ==>
         i.extends_.reference == ModuleLookup(env, k, SymInterface, i.extends_.imp, i.extends_.name))
    && AllRight(env, k, i.properties)
    && (forall j :: 0 <= j < |i.operations| ==>
         AllRight(env, k, i.operations[j].params) && i.operations[j].ret.Some? &&
         CacheIsRight(env, k, i.operations[j].ret.value.schema))
    && (forall j :: 0 <= j < |i.signals| ==> AllRight(env, k, i.signals[j].params))
  }

  // A system as the loaders leave it.
  ghost predicate FreshModule(m: Module) {
    && (forall j :: 0 <= j < |m.interfaces| ==> FreshInterface(m.interfaces[j]))
    && (forall j :: 0 <= j < |m.structs| ==> AllFresh(m.structs[j].fields))
  }

  ghost predicate RightModule(env: seq<Outline>, k: nat, m: Module)
    requires k < |env|
  {
    && (forall j :: 0 <= j < |m.interfaces| ==> RightInterface(env, k, m.interfaces[j]))
    && (forall j :: 0 <= j < |m.structs| ==> AllRight(env, k, m.structs[j].fields))
  }

  lemma UniqueMeansDistinctScopes(ms: seq<Module>)
    requires UniqueSystem(ms)
    ensures DistinctScopes(Outlines(ms)) && DistinctModules(Outlines(ms))
  {
    forall k | 0 <= k < |ms|
      ensures Distinct(ScopeNames(Outlines(ms)[k]))
    {
      assert UniqueModule(ms[k]);
      assert ScopeNames(OutlineOf(ms[k])) == DeclaredNames(ms[k]);
    }
    forall i, j | 0 <= i < j < |ms|
      ensures Outlines(ms)[i].name != Outlines(ms)[j].name
    {
      assert ModuleNames(ms)[i] != ModuleNames(ms)[j];
    }
  }

  lemma TypedCachesRight(env: seq<Outline>, k: nat, ts: seq<TypedNode>)
    requires k < |env| && DistinctScopes(env) && AllFresh(ts)
    ensures AllRight(env, k, ValidatedTypedNodes(env, k, ts))
  {
    forall j | 0 <= j < |ts|
      ensures CacheIsRight(env, k, ValidatedTypedNodes(env, k, ts)[j].schema)
    {
      SchemaCacheRight(env, k, ts[j].schema);
    }
  }

  lemma SymbolCacheRight(env: seq<Outline>, k: nat, s: Schema)
    requires k < |env| && DistinctScopes(env) && Fresh(s) && IsSymbolName(s.typeName)
    ensures SymbolIsRight(env, k, ValidatedSchema(env, k, s))
  {
    var v := ValidatedSchema(env, k, s);
    ValidatedIsResolved(env, k, s);
    PrimitivesOfTheGrammar(s.typeName);
    forall kind: SymbolKind
      ensures GetSymbol(env, k, v, kind) == ModuleLookup(env, k, kind, v.imp, v.typeName)
      ensures v.kindType == TypeSymbol(kind) <==> ModuleLookup(env, k, kind, v.imp, v.typeName).Some?
    {
      CacheAgreesWithLookup(env, k, s, kind);
    }
    KindOfSymbol(env, k, s);
  }

  lemma SchemaCacheRight(env: seq<Outline>, k: nat, s: Schema)
    requires k < |env| && DistinctScopes(env) && Fresh(s)
    ensures CacheIsRight(env, k, ValidatedSchema(env, k, s))
  {
    ValidatedIsResolved(env, k, s);
    PrimitivesOfTheGrammar(s.typeName);
    if IsSymbolName(s.typeName) {
      SymbolCacheRight(env, k, s);
    }
  }

  lemma InterfaceCachesRight(env: seq<Outline>, k: nat, i: Interface)
    requires k < |env| && DistinctScopes(env) && FreshInterface(i)
    ensures RightInterface(env, k, ValidatedInterface(env, k, i))
  {
    var r := ValidatedInterface(env, k, i);
    TypedCachesRight(env, k, i.properties);
    forall j | 0 <= j < |i.operations|
      ensures AllRight(env, k, r.operations[j].params) && r.operations[j].ret.Some?
      ensures CacheIsRight(env, k, r.operations[j].ret.value.schema)
    {
      TypedCachesRight(env, k, i.operations[j].params);
      if i.operations[j].ret.Some? {
        SchemaCacheRight(env, k, i.operations[j].ret.value.schema);
      }
    }
    forall j | 0 <= j < |i.signals|
      ensures AllRight(env, k, r.signals[j].params)
    {
      TypedCachesRight(env, k, i.signals[j].params);
    }
  }

  // After a first successful validation every schema of a loaded module answers,
  // for every kind, what a lookup asked at that moment answers.
  lemma EveryCacheIsRight(before: seq<Module>, after: seq<Module>, k: nat)
    requires UniqueSystem(before) && ValidationOutcome(before, after)
    requires k < |before|
    ensures k < |after| && Outlines(after) == Outlines(before)
    ensures FreshModule(before[k]) ==> RightModule(Outlines(after), k, after[k])
  {
    var env, z := Outlines(before), ValidatedModules(before);
    IdsAreNoNames(z, after);
    UniqueMeansDistinctScopes(before);
    assert SameModule(z[k], after[k]) && z[k] == ValidatedModule(env, k, before[k]);
    if FreshModule(before[k]) {
      InterfacesRight(env, k, before[k].interfaces, after[k].interfaces);
      StructsRight(env, k, before[k].structs, after[k].structs);
    }
  }

  lemma InterfacesRight(env: seq<Outline>, k: nat, before: seq<Interface>, after: seq<Interface>)
    requires k < |env| && DistinctScopes(env) && SameInterfaces(ValidatedInterfaces(env, k, before), after)
    requires forall j :: 0 <= j < |before| ==> FreshInterface(before[j])
    ensures forall j :: 0 <= j < |after| ==> RightInterface(env, k, after[j])
  {
    forall j | 0 <= j < |after|
      ensures RightInterface(env, k, after[j])
    {
      InterfaceCachesRight(env, k, before[j]);
      assert SameInterface(ValidatedInterface(env, k, before[j]), after[j]);
      RightUnderIds(env, k, ValidatedInterface(env, k, before[j]), after[j]);
    }
  }

  lemma StructsRight(env: seq<Outline>, k: nat, before: seq<Struct>, after: seq<Struct>)
    requires k < |env| && DistinctScopes(env) && SameStructs(ValidatedStructs(env, k, before), after)
    requires forall j :: 0 <= j < |before| ==> AllFresh(before[j].fields)
    ensures forall j :: 0 <= j < |after| ==> AllRight(env, k, after[j].fields)
  {
    forall j | 0 <= j < |after|
      ensures AllRight(env, k, after[j].fields)
    {
      TypedCachesRight(env, k, before[j].fields);
      assert SameStruct(ValidatedStruct(env, k, before[j]), after[j]);
      RightTypedUnderIds(env, k, ValidatedStruct(env, k, before[j]).fields, after[j].fields);
    }
  }

  lemma RightTypedUnderIds(env: seq<Outline>, k: nat, a: seq<TypedNode>, b: seq<TypedNode>)
    requires k < |env| && SameTypedNodes(a, b) && AllRight(env, k, a)
    ensures AllRight(env, k, b)
  {
    forall j | 0 <= j < |b|
      ensures CacheIsRight(env, k, b[j].schema)
    {
      assert SameTyped(a[j], b[j]) && CacheIsRight(env, k, a[j].schema);
    }
  }

  lemma RightUnderIds(env: seq<Outline>, k: nat, a: Interface, b: Interface)
    requires k < |env| && SameInterface(a, b) && RightInterface(env, k, a)
    ensures RightInterface(env, k, b)
  {
    RightTypedUnderIds(env, k, a.properties, b.properties);
    forall j | 0 <= j < |b.operations|
      ensures AllRight(env, k, b.operations[j].params) && b.operations[j].ret.Some?
      ensures CacheIsRight(env, k, b.operations[j].ret.value.schema)
    {
      assert SameOperation(a.operations[j], b.operations[j]);
    }
    forall j | 0 <= j < |b.signals|
      ensures AllRight(env, k, b.signals[j].params)
    {
      assert SameSignal(a.signals[j], b.signals[j]);
    }
  }
}
