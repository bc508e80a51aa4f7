/**
  What a successful validation leaves as it was written, and what it puts where
  nothing was written: the modules before and after, compared piece by piece.
  */
module Kept {
  import opened Wrappers
  import opened ApiModel
  import opened Identifiers
  import opened Lookup
  import opened Validation
  import opened Systems
  import opened SystemProperties

  predicate KeptNode(a: NamedNode, b: NamedNode) {
    b.name == a.name && b.kind == a.kind && b.description == a.description && b.meta == a.meta
  }

  // No type is the type void, once that was computed.
  predicate KeptType(a: Schema, b: Schema) {
    && b.typeName == (if a.typeName == "" && !a.isValid && !a.isComputed then "void" else a.typeName)
    && b.imp == a.imp && b.isArray == a.isArray
  }

  predicate KeptTyped(a: TypedNode, b: TypedNode) {
    KeptNode(a.node, b.node) && KeptType(a.schema, b.schema) && b.isReadOnly == a.isReadOnly
  }

  ghost predicate KeptTypedNodes(a: seq<TypedNode>, b: seq<TypedNode>) {
    |b| == |a| && forall j :: 0 <= j < |a| ==> KeptTyped(a[j], b[j])
  }

  // An operation without a return type returns void.
  ghost predicate KeptOperation(a: Operation, b: Operation) {
    && KeptNode(a.node, b.node) && KeptTypedNodes(a.params, b.params) && b.ret.Some?
    && match a.ret
       case Some(ret) => KeptTyped(ret, b.ret.value)
       case None => b.ret.value.schema.typeName == "void" && !b.ret.value.schema.isArray
  }

  ghost predicate KeptSignal(a: Signal, b: Signal) {
    KeptNode(a.node, b.node) && KeptTypedNodes(a.params, b.params)
  }

  // A base interface that is named without a module is one of the own module.
  predicate KeptBase(own: string, a: Extends, b: Extends) {
    b.name == a.name && b.imp == if a.name != "" && a.imp == "" then own else a.imp
  }

  ghost predicate KeptInterface(own: string, a: Interface, b: Interface) {
    && KeptNode(a.node, b.node) && KeptBase(own, a.extends_, b.extends_)
    && KeptTypedNodes(a.properties, b.properties)
    && |b.operations| == |a.operations|
    && (forall j :: 0 <= j < |a.operations| ==> KeptOperation(a.operations[j], b.operations[j]))
    && |b.signals| == |a.signals|
    && (forall j :: 0 <= j < |a.signals| ==> KeptSignal(a.signals[j], b.signals[j]))
  }

  ghost predicate KeptStruct(a: Struct, b: Struct) {
    KeptNode(a.node, b.node) && KeptTypedNodes(a.fields, b.fields)
  }

  // Values that are all zero become positions, other values stay.
  ghost predicate KeptEnum(a: Enum, b: Enum) {
    && KeptNode(a.node, b.node) && |b.members| == |a.members|
    && (forall j :: 0 <= j < |a.members| ==> KeptNode(a.members[j].node, b.members[j].node))
    && if exists j :: 0 <= j < |a.members| && a.members[j].value != 0
       then forall j :: 0 <= j < |a.members| ==> b.members[j].value == a.members[j].value
       else forall j :: 0 <= j < |a.members| ==> b.members[j].value == j
  }

  ghost predicate KeptModule(a: Module, b: Module) {
    && KeptNode(a.node, b.node) && b.version == (if a.version == "" then "1.0" else a.version)
    && b.imports == a.imports && b.externs == a.externs && b.attached == a.attached
    && |b.interfaces| == |a.interfaces|
    && (forall j :: 0 <= j < |a.interfaces| ==> KeptInterface(a.node.name, a.interfaces[j], b.interfaces[j]))
    && |b.structs| == |a.structs| && (forall j :: 0 <= j < |a.structs| ==> KeptStruct(a.structs[j], b.structs[j]))
    && |b.enums| == |a.enums| && (forall j :: 0 <= j < |a.enums| ==> KeptEnum(a.enums[j], b.enums[j]))
  }

  ghost predicate KeptModules(a: seq<Module>, b: seq<Module>) {
    |b| == |a| && forall k :: 0 <= k < |a| ==> KeptModule(a[k], b[k])
  }

  // ------------------------------------------------------------------------
  // Validation keeps, and numbering does
  // ------------------------------------------------------------------------

  lemma NumberingKeepsNode(a: NamedNode, b: NamedNode)
    requires Unnumbered(a) == Unnumbered(b)
    ensures KeptNode(a, b)
  {
    assert Unnumbered(a).name == Unnumbered(b).name && Unnumbered(a).kind == Unnumbered(b).kind;
    assert Unnumbered(a).description == Unnumbered(b).description && Unnumbered(a).meta == Unnumbered(b).meta;
  }

  lemma ResolvingKeeps(env: seq<Outline>, k: nat, s: Schema)
    requires k < |env|
    ensures var r := Resolved(env, k, s); r.typeName == s.typeName && r.imp == s.imp && r.isArray == s.isArray
  {
  }

  lemma SchemaKept(env: seq<Outline>, k: nat, s: Schema)
    requires k < |env|
    ensures KeptType(s, ValidatedSchema(env, k, s))
  {
    if !s.isValid {
      var c := Computed(s.(isValid := true));
      assert c.imp == s.imp && c.isArray == s.isArray;
      ResolvingKeeps(env, k, c);
    }
  }

  lemma TypedKept(env: seq<Outline>, k: nat, t: TypedNode, after: TypedNode)
    requires k < |env| && SameTyped(ValidatedTyped(env, k, t), after)
    ensures KeptTyped(t, after)
  {
    NumberingKeepsNode(t.node, after.node);
    SchemaKept(env, k, t.schema);
  }

  lemma TypedNodesKept(env: seq<Outline>, k: nat, ts: seq<TypedNode>, after: seq<TypedNode>)
    requires k < |env| && SameTypedNodes(ValidatedTypedNodes(env, k, ts), after)
    ensures KeptTypedNodes(ts, after)
  {
    forall j | 0 <= j < |ts|
      ensures KeptTyped(ts[j], after[j])
    {
      assert SameTyped(ValidatedTyped(env, k, ts[j]), after[j]);
      TypedKept(env, k, ts[j], after[j]);
    }
  }

  // Parameters and return nodes have no ids.
  lemma ParamsKept(env: seq<Outline>, k: nat, ts: seq<TypedNode>)
    requires k < |env|
    ensures KeptTypedNodes(ts, ValidatedTypedNodes(env, k, ts))
  {
    TypedNodesKept(env, k, ts, ValidatedTypedNodes(env, k, ts));
  }

  lemma OperationKept(env: seq<Outline>, k: nat, o: Operation, after: Operation)
    requires k < |env| && SameOperation(ValidatedOperation(env, k, o), after)
    ensures KeptOperation(o, after)
  {
    NumberingKeepsNode(o.node, after.node);
    ParamsKept(env, k, o.params);
    if o.ret.Some? {
      TypedKept(env, k, o.ret.value, ValidatedTyped(env, k, o.ret.value));
    }
  }

  lemma InterfaceKept(env: seq<Outline>, k: nat, i: Interface, after: Interface)
    requires k < |env| && SameInterface(ValidatedInterface(env, k, i), after)
    ensures KeptInterface(env[k].name, i, after)
  {
    var v := ValidatedInterface(env, k, i);
    NumberingKeepsNode(i.node, after.node);
    TypedNodesKept(env, k, i.properties, after.properties);
    forall j | 0 <= j < |i.operations|
      ensures KeptOperation(i.operations[j], after.operations[j])
    {
      assert SameOperation(v.operations[j], after.operations[j]);
      OperationKept(env, k, i.operations[j], after.operations[j]);
    }
    forall j | 0 <= j < |i.signals|
      ensures KeptSignal(i.signals[j], after.signals[j])
    {
      assert SameSignal(v.signals[j], after.signals[j]);
      NumberingKeepsNode(i.signals[j].node, after.signals[j].node);
      ParamsKept(env, k, i.signals[j].params);
    }
  }

  lemma EnumKept(e: Enum, after: Enum)
    requires SameEnum(ValidatedEnum(e), after)
    ensures KeptEnum(e, after)
  {
    var v := ValidatedEnum(e);
    NumberingKeepsNode(e.node, after.node);
    forall j | 0 <= j < |e.members|
      ensures KeptNode(e.members[j].node, after.members[j].node) && after.members[j].value == v.members[j].value
    {
      assert SameMember(v.members[j], after.members[j]);
      NumberingKeepsNode(e.members[j].node, after.members[j].node);
    }
  }

  lemma InterfacesKept(env: seq<Outline>, k: nat, is_: seq<Interface>, after: seq<Interface>)
    requires k < |env| && SameInterfaces(ValidatedInterfaces(env, k, is_), after)
    ensures |after| == |is_| && forall j :: 0 <= j < |is_| ==> KeptInterface(env[k].name, is_[j], after[j])
  {
    forall j | 0 <= j < |is_|
      ensures KeptInterface(env[k].name, is_[j], after[j])
    {
      assert SameInterface(ValidatedInterfaces(env, k, is_)[j], after[j]);
      InterfaceKept(env, k, is_[j], after[j]);
    }
  }

  lemma StructsKept(env: seq<Outline>, k: nat, ss: seq<Struct>, after: seq<Struct>)
    requires k < |env| && SameStructs(ValidatedStructs(env, k, ss), after)
    ensures |after| == |ss| && forall j :: 0 <= j < |ss| ==> KeptStruct(ss[j], after[j])
  {
    forall j | 0 <= j < |ss|
      ensures KeptStruct(ss[j], after[j])
    {
      assert SameStruct(ValidatedStructs(env, k, ss)[j], after[j]);
      NumberingKeepsNode(ss[j].node, after[j].node);
      TypedNodesKept(env, k, ss[j].fields, after[j].fields);
    }
  }

  lemma EnumsKept(es: seq<Enum>, after: seq<Enum>)
    requires SameEnums(ValidatedEnums(es), after)
    ensures |after| == |es| && forall j :: 0 <= j < |es| ==> KeptEnum(es[j], after[j])
  {
    forall j | 0 <= j < |es|
      ensures KeptEnum(es[j], after[j])
    {
      assert SameEnum(ValidatedEnums(es)[j], after[j]);
      EnumKept(es[j], after[j]);
    }
  }

  lemma ModuleKept(env: seq<Outline>, k: nat, m: Module, after: Module)
    requires k < |env| && env[k].name == m.node.name && SameModule(ValidatedModule(env, k, m), after)
    ensures KeptModule(m, after)
  {
    NumberingKeepsNode(m.node, after.node);
    InterfacesKept(env, k, m.interfaces, after.interfaces);
    StructsKept(env, k, m.structs, after.structs);
    EnumsKept(m.enums, after.enums);
  }

  // Validation, numbering included, keeps everything of every module but caches, ids
  // and checksums, and fills in what was not written.
  lemma ValidationKeepsWhatIsWritten(before: seq<Module>, after: seq<Module>)
    requires ValidationOutcome(before, after)
    ensures KeptModules(before, after)
  {
    forall k | 0 <= k < |before|
      ensures KeptModule(before[k], after[k])
    {
      assert SameModule(ValidatedModules(before)[k], after[k]);
      ModuleKept(Outlines(before), k, before[k], after[k]);
    }
  }

  // The base of an interface is what a lookup answers under the module that was
  // written with it, or in the own module if none was written.
  lemma BaseIsLookedUp(before: seq<Module>, after: seq<Module>, k: nat, j: nat)
    requires ValidationOutcome(before, after) && k < |before| && j < |before[k].interfaces|
    requires before[k].interfaces[j].extends_.name != "" && before[k].interfaces[j].extends_.reference.None?
    ensures |after| == |before| && |after[k].interfaces| == |before[k].interfaces|
    ensures var a, b := before[k].interfaces[j].extends_, after[k].interfaces[j].extends_;
      var imp := if a.imp == "" then before[k].node.name else a.imp;
      b == Extends(a.name, imp, ModuleLookup(Outlines(before), k, SymInterface, imp, a.name))
  {
    ValidationKeepsWhatIsWritten(before, after);
    assert SameModule(ValidatedModules(before)[k], after[k]);
    assert KeptModule(before[k], after[k]);
    var v := ValidatedModule(Outlines(before), k, before[k]);
    assert SameInterface(v.interfaces[j], after[k].interfaces[j]);
  }
}
