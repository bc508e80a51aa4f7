/**
  What validating a system does to its modules (pkg/model): symbols are resolved
  and cached, missing parts are filled in, enums are numbered and checksums
  computed. Lookups made on the way see modules that are partly validated; they
  only depend on the outlines, which validation does not touch.
  */
module Validation {
  import opened Wrappers
  import opened Lists
  import opened Names
  import opened ApiModel
  import opened Lookup
  import Syntax

  // ------------------------------------------------------------------------
  // Schemas
  // ------------------------------------------------------------------------

  predicate IsPrimitiveName(t: string) {
    t in {"bool", "int", "float", "string", "int32", "int64", "float32", "float64", "bytes", "any"}
  }

  predicate IsSymbolName(t: string) {
    t != "" && t != "void" && !IsPrimitiveName(t)
  }

  // The names that count as primitive are the words of the grammar, but for void.
  lemma PrimitivesOfTheGrammar(t: string)
    ensures IsPrimitiveName(t) <==> t in Syntax.PRIMITIVES && t != "void"
    ensures IsSymbolName(t) <==> t != "" && t !in Syntax.PRIMITIVES
  {
  }

  // Schema.compute
  function Computed(s: Schema): Schema {
    if s.isComputed then s
    else
      var c := s.(isComputed := true, typeName := if s.typeName == "" then "void" else s.typeName);
      if c.typeName == "void" then c.(isPrimitive := false, isSymbol := false)
      else if IsPrimitiveName(c.typeName) then c.(isPrimitive := true, isSymbol := false)
      else c.(isPrimitive := false, isSymbol := true)
  }

  // Schema.resolve: extern before enum before struct before interface; a symbol
  // that is found nowhere is left without a kind.
  function Resolved(env: seq<Outline>, k: nat, s: Schema): Schema
    requires k < |env|
  {
    if s.isResolved then s
    else
      var r := s.(isResolved := true);
      if r.isPrimitive then r.(kindType := TypePrimitive(r.typeName))
      else if r.isSymbol then
        var lx := ModuleLookup(env, k, SymExtern, r.imp, r.typeName);
        if lx.Some? then r.(kindType := TypeSymbol(SymExtern)) else
        var le := ModuleLookup(env, k, SymEnum, r.imp, r.typeName);
        if le.Some? then r.(enumRef := le, kindType := TypeSymbol(SymEnum)) else
        var ls := ModuleLookup(env, k, SymStruct, r.imp, r.typeName);
        if ls.Some? then r.(structRef := ls, kindType := TypeSymbol(SymStruct)) else
        var li := ModuleLookup(env, k, SymInterface, r.imp, r.typeName);
        if li.Some? then r.(interfaceRef := li, kindType := TypeSymbol(SymInterface)) else
        r
      else r.(kindType := TypeVoid)
  }

  // Schema.Validate
  function ValidatedSchema(env: seq<Outline>, k: nat, s: Schema): (v: Schema)
    requires k < |env|
    ensures v.isValid
  {
    if s.isValid then s else Resolved(env, k, Computed(s.(isValid := true)))
  }

  // GetEnum, GetStruct, GetInterface answer from the cache, GetExtern does not.
  function GetSymbol(env: seq<Outline>, k: nat, s: Schema, kind: SymbolKind): Option<Ref>
    requires k < |env|
  {
    match kind
    case SymExtern => ModuleLookup(env, k, SymExtern, s.imp, s.typeName)
    case SymEnum => Resolved(env, k, s).enumRef
    case SymStruct => Resolved(env, k, s).structRef
    case SymInterface => Resolved(env, k, s).interfaceRef
  }

  // A schema as a loader leaves it: the IDL listener may have set the flags.
  ghost predicate Fresh(s: Schema) {
    && !s.isValid && !s.isComputed && !s.isResolved
    && s.kindType == TypeUnset
    && s.enumRef.None? && s.structRef.None? && s.interfaceRef.None?
  }

  function ScopeNames(o: Outline): seq<string> {
    o.externs + o.interfaces + o.structs + o.enums
  }

  ghost predicate DistinctScopes(env: seq<Outline>) {
    forall k :: 0 <= k < |env| ==> Distinct(ScopeNames(env[k]))
  }

  // The position of a declaration in the scope of its module.
  function Offset(o: Outline, kind: SymbolKind): nat {
    match kind
    case SymExtern => 0
    case SymInterface => |o.externs|
    case SymStruct => |o.externs| + |o.interfaces|
    case SymEnum => |o.externs| + |o.interfaces| + |o.structs|
  }

  lemma ScopeHolds(o: Outline, kind: SymbolKind, i: nat)
    requires i < |o.List(kind)|
    ensures Offset(o, kind) + i < |ScopeNames(o)| && ScopeNames(o)[Offset(o, kind) + i] == o.List(kind)[i]
  {
  }

  lemma AtMostOneKind(env: seq<Outline>, k: nat, a: SymbolKind, b: SymbolKind, mName: string, name: string)
    requires k < |env| && DistinctScopes(env)
    requires ModuleLookup(env, k, a, mName, name).Some? && ModuleLookup(env, k, b, mName, name).Some?
    ensures a == b
  {
    LookupIsLocalToTarget(env, k, a, mName, name);
    LookupIsLocalToTarget(env, k, b, mName, name);
    var ra, rb := ModuleLookup(env, k, a, mName, name).value, ModuleLookup(env, k, b, mName, name).value;
    var o := env[ra.mod];
    assert ra.mod == rb.mod && o.List(a)[ra.pos] == name == o.List(b)[rb.pos];
    ScopeHolds(o, a, ra.pos);
    ScopeHolds(o, b, rb.pos);
    assert Distinct(ScopeNames(o));
  }

  // The kinds tried one after the other, in some order.
  function FirstFound(env: seq<Outline>, k: nat, order: seq<SymbolKind>, mName: string, name: string): Option<Ref>
    requires k < |env|
  {
    if order == [] then None
    else if ModuleLookup(env, k, order[0], mName, name).Some? then ModuleLookup(env, k, order[0], mName, name)
    else FirstFound(env, k, order[1..], mName, name)
  }

  lemma {:induction false} FirstFoundIsTheOne(env: seq<Outline>, k: nat, order: seq<SymbolKind>, mName: string,
        name: string, kind: SymbolKind)
    requires k < |env| && DistinctScopes(env)
    requires ModuleLookup(env, k, kind, mName, name).Some? && kind in order
    ensures FirstFound(env, k, order, mName, name) == ModuleLookup(env, k, kind, mName, name)
  {
    if order[0] != kind {
      if ModuleLookup(env, k, order[0], mName, name).Some? {
        AtMostOneKind(env, k, order[0], kind, mName, name);
      }
      FirstFoundIsTheOne(env, k, order[1..], mName, name, kind);
    }
  }

  lemma {:induction false} FirstFoundNowhere(env: seq<Outline>, k: nat, order: seq<SymbolKind>, mName: string,
        name: string)
    requires k < |env| && forall kind: SymbolKind :: ModuleLookup(env, k, kind, mName, name).None?
    ensures FirstFound(env, k, order, mName, name).None?
  {
    if order != [] {
      FirstFoundNowhere(env, k, order[1..], mName, name);
    }
  }

  ghost predicate Complete(order: seq<SymbolKind>) {
    forall kind: SymbolKind :: kind in order
  }

  // Where names are distinct, the order in which the kinds are tried is no choice.
  lemma ResolutionOrderDoesNotMatter(env: seq<Outline>, k: nat, one: seq<SymbolKind>, other: seq<SymbolKind>,
        mName: string, name: string)
    requires k < |env| && DistinctScopes(env) && Complete(one) && Complete(other)
    ensures FirstFound(env, k, one, mName, name) == FirstFound(env, k, other, mName, name)
  {
    if kind :| ModuleLookup(env, k, kind, mName, name).Some? {
      FirstFoundIsTheOne(env, k, one, mName, name, kind);
      FirstFoundIsTheOne(env, k, other, mName, name, kind);
    } else {
      FirstFoundNowhere(env, k, one, mName, name);
      FirstFoundNowhere(env, k, other, mName, name);
    }
  }

  // Reading the cache after validation no longer changes the schema. A word of the
  // grammar is no symbol, and its own kind.
  lemma ValidatedIsResolved(env: seq<Outline>, k: nat, s: Schema)
    requires k < |env| && Fresh(s)
    ensures var v, t := ValidatedSchema(env, k, s), if s.typeName == "" then "void" else s.typeName;
      && Resolved(env, k, v) == v && v.imp == s.imp && v.typeName == t
      && v.isSymbol == (t !in Syntax.PRIMITIVES) && v.isPrimitive == (t in Syntax.PRIMITIVES && t != "void")
      && (t in Syntax.PRIMITIVES ==> v.kindType == if t == "void" then TypeVoid else TypePrimitive(t))
  {
    PrimitivesOfTheGrammar(s.typeName);
  }

  // After validation the cache of a symbol holds what a fresh lookup of each kind
  // answers, and its kind names the only lookup that finds something.
  lemma {:induction false} CacheAgreesWithLookup(env: seq<Outline>, k: nat, s: Schema, kind: SymbolKind)
    requires k < |env| && DistinctScopes(env) && Fresh(s) && IsSymbolName(s.typeName)
    ensures var v := ValidatedSchema(env, k, s);
      && GetSymbol(env, k, v, kind) == ModuleLookup(env, k, kind, s.imp, s.typeName)
      && (v.kindType == TypeSymbol(kind) <==> ModuleLookup(env, k, kind, s.imp, s.typeName).Some?)
  {
    ValidatedIsResolved(env, k, s);
    PrimitivesOfTheGrammar(s.typeName);
    forall a, b | ModuleLookup(env, k, a, s.imp, s.typeName).Some? && ModuleLookup(env, k, b, s.imp, s.typeName).Some?
      ensures a == b
    {
      AtMostOneKind(env, k, a, b, s.imp, s.typeName);
    }
  }

  lemma UnresolvedIff(env: seq<Outline>, k: nat, s: Schema)
    requires k < |env| && !s.isResolved && !s.isPrimitive && s.isSymbol && s.kindType == TypeUnset
    ensures Resolved(env, k, s).kindType == TypeUnset <==>
            && ModuleLookup(env, k, SymExtern, s.imp, s.typeName).None?
            && ModuleLookup(env, k, SymEnum, s.imp, s.typeName).None?
            && ModuleLookup(env, k, SymStruct, s.imp, s.typeName).None?
            && ModuleLookup(env, k, SymInterface, s.imp, s.typeName).None?
  {
  }

  // A symbol is left without a kind exactly if nothing of its name is found.
  lemma KindOfSymbol(env: seq<Outline>, k: nat, s: Schema)
    requires k < |env| && Fresh(s) && IsSymbolName(s.typeName)
    ensures var v := ValidatedSchema(env, k, s);
      v.kindType == TypeUnset <==> forall kind :: ModuleLookup(env, k, kind, s.imp, s.typeName).None?
  {
    var c := Computed(s.(isValid := true));
    assert c.imp == s.imp && c.typeName == s.typeName;
    UnresolvedIff(env, k, c);
    if ValidatedSchema(env, k, s).kindType == TypeUnset {
      forall kind: SymbolKind
        ensures ModuleLookup(env, k, kind, s.imp, s.typeName).None?
      {
        match kind
        case SymExtern =>
        case SymEnum =>
        case SymStruct =>
        case SymInterface =>
      }
    }
  }

  // What resolving a symbol finds is what trying the kinds in any order finds first.
  lemma ResolvingFindsTheFirst(env: seq<Outline>, k: nat, s: Schema, order: seq<SymbolKind>)
    requires k < |env| && DistinctScopes(env) && Fresh(s) && IsSymbolName(s.typeName) && Complete(order)
    ensures var v := ValidatedSchema(env, k, s);
      match FirstFound(env, k, order, s.imp, s.typeName)
      case Some(r) => v.kindType == TypeSymbol(r.symbol) && GetSymbol(env, k, v, r.symbol) == Some(r)
      case None => v.kindType == TypeUnset
  {
    KindOfSymbol(env, k, s);
    if kind :| ModuleLookup(env, k, kind, s.imp, s.typeName).Some? {
      FirstFoundIsTheOne(env, k, order, s.imp, s.typeName, kind);
      LookupKeepsKind(env, k, kind, s.imp, s.typeName);
      CacheAgreesWithLookup(env, k, s, kind);
    } else {
      FirstFoundNowhere(env, k, order, s.imp, s.typeName);
    }
  }

  // A getter called before validation resolves at once. That is harmless exactly
  // when the loader had already marked the schema as a symbol: otherwise the
  // schema is taken for void, and validation never looks again.
  lemma GetterBeforeValidation(env: seq<Outline>, k: nat, s: Schema)
    requires k < |env| && Fresh(s) && IsSymbolName(s.typeName)
    ensures ValidatedSchema(env, k, Resolved(env, k, s)) == ValidatedSchema(env, k, s) <==> s.isSymbol && !s.isPrimitive
    ensures !s.isSymbol && !s.isPrimitive ==>
      var v := ValidatedSchema(env, k, Resolved(env, k, s));
      && v.isSymbol && v.kindType == TypeVoid
      && GetSymbol(env, k, v, SymEnum).None? && GetSymbol(env, k, v, SymStruct).None?
      && GetSymbol(env, k, v, SymInterface).None?
  {
    var early := Resolved(env, k, s);
    assert early.typeName == s.typeName && early.isResolved && !early.isComputed && !early.isValid;
    var late := ValidatedSchema(env, k, early);
    assert late == early.(isValid := true, isComputed := true, isPrimitive := false, isSymbol := true);
    var direct := Computed(s.(isValid := true));
    assert direct == s.(isValid := true, isComputed := true, isPrimitive := false, isSymbol := true);
    if s.isPrimitive {
      assert late.kindType.TypePrimitive?;
    } else if !s.isSymbol {
      assert late.kindType == TypeVoid;
    }
  }

  // The case occurs: an enum of the module itself is no longer found.
  lemma EarlyGetterLosesEnum(s: Schema)
    requires Fresh(s) && !s.isSymbol && !s.isPrimitive && s.typeName == "E" && s.imp == ""
    ensures var env := [Outline("m", true, [], ["E"], [], [])];
      && ModuleLookup(env, 0, SymEnum, s.imp, s.typeName) == Some(Ref(0, SymEnum, 0))
      && GetSymbol(env, 0, ValidatedSchema(env, 0, s), SymEnum) == Some(Ref(0, SymEnum, 0))
      && GetSymbol(env, 0, ValidatedSchema(env, 0, Resolved(env, 0, s)), SymEnum) == None
  {
    var env := [Outline("m", true, [], ["E"], [], [])];
    LookupIsLocalToTarget(env, 0, SymEnum, "", "E");
    LookupIsLocalToTarget(env, 0, SymExtern, "", "E");
    GetterBeforeValidation(env, 0, s);
    assert env[0].List(SymEnum) == ["E"] && IndexOf(["E"], "E") == Some(0);
  }

  // ------------------------------------------------------------------------
  // Nodes
  // ------------------------------------------------------------------------

  function ValidatedTyped(env: seq<Outline>, k: nat, t: TypedNode): TypedNode
    requires k < |env|
  {
    t.(schema := ValidatedSchema(env, k, t.schema))
  }

  function ValidatedTypedNodes(env: seq<Outline>, k: nat, ts: seq<TypedNode>): (r: seq<TypedNode>)
    requires k < |env|
    ensures |r| == |ts| && TypedNames(r) == TypedNames(ts)
  {
    seq(|ts|, i requires 0 <= i < |ts| => ValidatedTyped(env, k, ts[i]))
  }

  // Operation.Validate: an operation without a return type gets a void one.
  function ValidatedOperation(env: seq<Outline>, k: nat, o: Operation): Operation
    requires k < |env|
  {
    var ret := if o.ret.Some? then o.ret.value else NewTypedNode("", KindReturn);
    o.(params := ValidatedTypedNodes(env, k, o.params), ret := Some(ValidatedTyped(env, k, ret)))
  }

  function ValidatedOperations(env: seq<Outline>, k: nat, os: seq<Operation>): (r: seq<Operation>)
    requires k < |env|
    ensures |r| == |os| && OperationNames(r) == OperationNames(os)
  {
    seq(|os|, i requires 0 <= i < |os| => ValidatedOperation(env, k, os[i]))
  }

  function ValidatedSignal(env: seq<Outline>, k: nat, s: Signal): Signal
    requires k < |env|
  {
    s.(params := ValidatedTypedNodes(env, k, s.params))
  }

  function ValidatedSignals(env: seq<Outline>, k: nat, ss: seq<Signal>): (r: seq<Signal>)
    requires k < |env|
    ensures |r| == |ss| && SignalNames(r) == SignalNames(ss)
  {
    seq(|ss|, i requires 0 <= i < |ss| => ValidatedSignal(env, k, ss[i]))
  }

  // The head of Interface.Validate: an unknown base interface is only warned of.
  function ValidatedExtends(env: seq<Outline>, k: nat, e: Extends): Extends
    requires k < |env|
  {
    if e.name == "" then e
    else
      var q := if e.imp == "" then e.(imp := env[k].name) else e;
      var base := ModuleLookup(env, k, SymInterface, q.imp, q.name);
      if base.Some? then q.(reference := base) else q
  }

  function ValidatedInterface(env: seq<Outline>, k: nat, i: Interface): Interface
    requires k < |env|
  {
    i.(extends_ := ValidatedExtends(env, k, i.extends_),
       properties := ValidatedTypedNodes(env, k, i.properties),
       operations := ValidatedOperations(env, k, i.operations),
       signals := ValidatedSignals(env, k, i.signals))
  }

  function ValidatedInterfaces(env: seq<Outline>, k: nat, is_: seq<Interface>): (r: seq<Interface>)
    requires k < |env|
    ensures |r| == |is_| && InterfaceNames(r) == InterfaceNames(is_)
  {
    seq(|is_|, i requires 0 <= i < |is_| => ValidatedInterface(env, k, is_[i]))
  }

  function ValidatedStruct(env: seq<Outline>, k: nat, s: Struct): Struct
    requires k < |env|
  {
    s.(fields := ValidatedTypedNodes(env, k, s.fields))
  }

  function ValidatedStructs(env: seq<Outline>, k: nat, ss: seq<Struct>): (r: seq<Struct>)
    requires k < |env|
    ensures |r| == |ss| && StructNames(r) == StructNames(ss)
  {
    seq(|ss|, i requires 0 <= i < |ss| => ValidatedStruct(env, k, ss[i]))
  }

  predicate AllZero(ms: seq<EnumMember>) {
    forall i :: 0 <= i < |ms| ==> ms[i].value == 0
  }

  // Enum.Validate: members that are all zero are numbered by position.
  function ValidatedEnum(e: Enum): (r: Enum)
    ensures |r.members| == |e.members| && EnumMemberNames(r.members) == EnumMemberNames(e.members)
  {
    if AllZero(e.members) then
      e.(members := seq(|e.members|, i requires 0 <= i < |e.members| => e.members[i].(value := i)))
    else e
  }

  function ValidatedEnums(es: seq<Enum>): (r: seq<Enum>)
    ensures |r| == |es| && EnumNames(r) == EnumNames(es)
  {
    seq(|es|, i requires 0 <= i < |es| => ValidatedEnum(es[i]))
  }

  // ------------------------------------------------------------------------
  // Checksum text
  // ------------------------------------------------------------------------

  function TypedText(t: TypedNode): string {
    t.node.name + t.schema.typeName
  }

  // A missing return type would be a nil dereference; validation fills it in.
  function OperationText(o: Operation): string {
    o.node.name + Flatten(o.params, TypedText) + (if o.ret.Some? then o.ret.value.schema.typeName else "")
  }

  function SignalText(s: Signal): string {
    s.node.name + Flatten(s.params, TypedText)
  }

  function InterfaceText(i: Interface): string {
    i.node.name + Flatten(i.operations, OperationText) + Flatten(i.properties, TypedText) +
    Flatten(i.signals, SignalText)
  }

  function StructText(s: Struct): string {
    s.node.name + Flatten(s.fields, TypedText)
  }

  function MemberText(m: EnumMember): string {
    m.node.name + Itoa(m.value)
  }

  function EnumText(e: Enum): string {
    e.node.name + Flatten(e.members, MemberText)
  }

  function ChecksumText(m: Module): string {
    m.node.name + Flatten(m.interfaces, InterfaceText) + Flatten(m.structs, StructText) + Flatten(m.enums, EnumText)
  }

  function WithChecksum(m: Module): Module {
    m.(checksum := Some(ChecksumText(m)))
  }

  function WithVersion(m: Module): Module {
    if m.version == "" then m.(version := "1.0") else m
  }

  function ValidatedDeclarations(env: seq<Outline>, k: nat, m: Module): Module
    requires k < |env|
  {
    m.(interfaces := ValidatedInterfaces(env, k, m.interfaces),
       structs := ValidatedStructs(env, k, m.structs),
       enums := ValidatedEnums(m.enums))
  }

  function ValidatedModule(env: seq<Outline>, k: nat, m: Module): Module
    requires k < |env|
  {
    WithChecksum(ValidatedDeclarations(env, k, WithVersion(m)))
  }

  function ValidatedModules(ms: seq<Module>): (r: seq<Module>)
    ensures |r| == |ms| && Outlines(r) == Outlines(ms)
  {
    var env := Outlines(ms);
    seq(|ms|, k requires 0 <= k < |ms| => ValidatedModule(env, k, ms[k]))
  }

  // ------------------------------------------------------------------------
  // Validating twice is validating once
  // ------------------------------------------------------------------------

  lemma TypedNodesIdempotent(env: seq<Outline>, k: nat, ts: seq<TypedNode>)
    requires k < |env|
    ensures ValidatedTypedNodes(env, k, ValidatedTypedNodes(env, k, ts)) == ValidatedTypedNodes(env, k, ts)
  {
    var r := ValidatedTypedNodes(env, k, ts);
    forall i | 0 <= i < |ts|
      ensures ValidatedTyped(env, k, r[i]) == r[i]
    {
      assert r[i] == ValidatedTyped(env, k, ts[i]);
    }
  }

  lemma InterfaceIdempotent(env: seq<Outline>, k: nat, i: Interface)
    requires k < |env|
    ensures ValidatedInterface(env, k, ValidatedInterface(env, k, i)) == ValidatedInterface(env, k, i)
  {
    var r := ValidatedInterface(env, k, i);
    TypedNodesIdempotent(env, k, i.properties);
    forall j | 0 <= j < |i.operations|
      ensures ValidatedOperation(env, k, r.operations[j]) == r.operations[j]
    {
      TypedNodesIdempotent(env, k, i.operations[j].params);
    }
    forall j | 0 <= j < |i.signals|
      ensures ValidatedSignal(env, k, r.signals[j]) == r.signals[j]
    {
      TypedNodesIdempotent(env, k, i.signals[j].params);
    }
    assert ValidatedOperations(env, k, r.operations) == r.operations;
    assert ValidatedSignals(env, k, r.signals) == r.signals;
    assert ValidatedExtends(env, k, r.extends_) == r.extends_;
  }

  // Validation leaves the values of an enum alone unless they are all zero and
  // there are two of them.
  lemma EnumKeepsValuesIff(e: Enum)
    ensures ValidatedEnum(e) == e <==> !AllZero(e.members) || |e.members| <= 1
  {
    if AllZero(e.members) {
      var r := ValidatedEnum(e);
      if |e.members| <= 1 {
        assert r.members == e.members;
      } else {
        assert r.members[1].value == 1 != e.members[1].value;
      }
    }
  }

  // Numbered members are all zero only if there is at most one.
  lemma EnumIdempotent(e: Enum)
    ensures ValidatedEnum(ValidatedEnum(e)) == ValidatedEnum(e)
  {
    var r := ValidatedEnum(e);
    if AllZero(e.members) {
      assert forall i :: 0 <= i < |r.members| ==> r.members[i].value == i;
      if AllZero(r.members) {
        assert ValidatedEnum(r).members == r.members;
      }
    }
  }

  lemma ModuleIdempotent(env: seq<Outline>, k: nat, m: Module)
    requires k < |env|
    ensures ValidatedModule(env, k, ValidatedModule(env, k, m)) == ValidatedModule(env, k, m)
  {
    var r := ValidatedModule(env, k, m);
    forall j | 0 <= j < |m.interfaces|
      ensures ValidatedInterface(env, k, r.interfaces[j]) == r.interfaces[j]
    {
      InterfaceIdempotent(env, k, m.interfaces[j]);
    }
    forall j | 0 <= j < |m.structs|
      ensures ValidatedStruct(env, k, r.structs[j]) == r.structs[j]
    {
      TypedNodesIdempotent(env, k, m.structs[j].fields);
    }
    forall j | 0 <= j < |m.enums|
      ensures ValidatedEnum(r.enums[j]) == r.enums[j]
    {
      EnumIdempotent(m.enums[j]);
    }
    assert ValidatedInterfaces(env, k, r.interfaces) == r.interfaces;
    assert ValidatedStructs(env, k, r.structs) == r.structs;
    assert ValidatedEnums(r.enums) == r.enums;
  }

  lemma ModulesIdempotent(ms: seq<Module>)
    ensures ValidatedModules(ValidatedModules(ms)) == ValidatedModules(ms)
  {
    var r := ValidatedModules(ms);
    forall k | 0 <= k < |ms|
      ensures ValidatedModule(Outlines(ms), k, r[k]) == r[k]
    {
      ModuleIdempotent(Outlines(ms), k, ms[k]);
    }
  }
}
