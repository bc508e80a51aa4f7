/**
  The entities of an API description (pkg/model).

  Nodes are values here. A cached pointer to a declaration is its address: the
  module, the list it is in and its position in that list.
  */
module ApiModel {
  import opened Wrappers

  datatype Kind =
    | KindModule | KindImport | KindExtern | KindInterface | KindProperty | KindOperation
    | KindParam | KindReturn | KindSignal | KindStruct | KindField | KindEnum | KindMember

  datatype NamedNode = NamedNode(id: nat, name: string, kind: Kind, description: string, meta: seq<string>)

  function NewNode(name: string, kind: Kind): NamedNode {
    NamedNode(0, name, kind, "", [])
  }

  // The four kinds of declaration a symbol can resolve to.
  datatype SymbolKind = SymExtern | SymEnum | SymStruct | SymInterface

  datatype KindType = TypeUnset | TypeVoid | TypePrimitive(name: string) | TypeSymbol(symbol: SymbolKind)

  datatype Ref = Ref(mod: nat, symbol: SymbolKind, pos: nat)

  datatype Schema = Schema(
    typeName: string,
    imp: string,
    isArray: bool,
    kindType: KindType,
    isPrimitive: bool,
    isSymbol: bool,
    structRef: Option<Ref>,
    enumRef: Option<Ref>,
    interfaceRef: Option<Ref>,
    isResolved: bool,
    isComputed: bool,
    isValid: bool)

  // &Schema{}
  const EmptySchema := Schema("", "", false, TypeUnset, false, false, None, None, None, false, false, false)

  datatype TypedNode = TypedNode(node: NamedNode, schema: Schema, isReadOnly: bool)

  function NewTypedNode(name: string, kind: Kind): TypedNode {
    TypedNode(NewNode(name, kind), EmptySchema.(typeName := "void", kindType := TypeVoid), false)
  }

  datatype Operation = Operation(node: NamedNode, params: seq<TypedNode>, ret: Option<TypedNode>)

  datatype Signal = Signal(node: NamedNode, params: seq<TypedNode>)

  datatype Extends = Extends(name: string, imp: string, reference: Option<Ref>)

  datatype Interface = Interface(
    node: NamedNode,
    extends_: Extends,
    properties: seq<TypedNode>,
    operations: seq<Operation>,
    signals: seq<Signal>)

  datatype Struct = Struct(node: NamedNode, fields: seq<TypedNode>)

  datatype EnumMember = EnumMember(node: NamedNode, value: int)

  datatype Enum = Enum(node: NamedNode, members: seq<EnumMember>)

  datatype Extern = Extern(node: NamedNode)

  datatype Import = Import(node: NamedNode)

  // `attached` says that the module has a pointer to its system; `checksum` is
  // the text that is hashed, or None while nothing was computed.
  datatype Module = Module(
    node: NamedNode,
    version: string,
    imports: seq<Import>,
    externs: seq<Extern>,
    interfaces: seq<Interface>,
    structs: seq<Struct>,
    enums: seq<Enum>,
    checksum: Option<string>,
    attached: bool)

  function NewModule(name: string, version: string): Module {
    Module(NewNode(name, KindModule), version, [], [], [], [], [], None, false)
  }

  function NewInterface(name: string): Interface {
    Interface(NewNode(name, KindInterface), Extends("", "", None), [], [], [])
  }

  function NewOperation(name: string): Operation {
    Operation(NewNode(name, KindOperation), [], Some(NewTypedNode("", KindReturn)))
  }

  // ------------------------------------------------------------------------
  // Names in order of declaration
  // ------------------------------------------------------------------------

  function TypedNames(ts: seq<TypedNode>): (names: seq<string>)
    ensures |names| == |ts| && forall i :: 0 <= i < |ts| ==> names[i] == ts[i].node.name
  {
    seq(|ts|, i requires 0 <= i < |ts| => ts[i].node.name)
  }

  function OperationNames(os: seq<Operation>): (names: seq<string>)
    ensures |names| == |os| && forall i :: 0 <= i < |os| ==> names[i] == os[i].node.name
  {
    seq(|os|, i requires 0 <= i < |os| => os[i].node.name)
  }

  function SignalNames(ss: seq<Signal>): (names: seq<string>)
    ensures |names| == |ss| && forall i :: 0 <= i < |ss| ==> names[i] == ss[i].node.name
  {
    seq(|ss|, i requires 0 <= i < |ss| => ss[i].node.name)
  }

  function EnumMemberNames(ms: seq<EnumMember>): (names: seq<string>)
    ensures |names| == |ms| && forall i :: 0 <= i < |ms| ==> names[i] == ms[i].node.name
  {
    seq(|ms|, i requires 0 <= i < |ms| => ms[i].node.name)
  }

  function ExternNames(es: seq<Extern>): (names: seq<string>)
    ensures |names| == |es| && forall i :: 0 <= i < |es| ==> names[i] == es[i].node.name
  {
    seq(|es|, i requires 0 <= i < |es| => es[i].node.name)
  }

  function InterfaceNames(fs: seq<Interface>): (names: seq<string>)
    ensures |names| == |fs| && forall i :: 0 <= i < |fs| ==> names[i] == fs[i].node.name
  {
    seq(|fs|, i requires 0 <= i < |fs| => fs[i].node.name)
  }

  function StructNames(ss: seq<Struct>): (names: seq<string>)
    ensures |names| == |ss| && forall i :: 0 <= i < |ss| ==> names[i] == ss[i].node.name
  {
    seq(|ss|, i requires 0 <= i < |ss| => ss[i].node.name)
  }

  function EnumNames(es: seq<Enum>): (names: seq<string>)
    ensures |names| == |es| && forall i :: 0 <= i < |es| ==> names[i] == es[i].node.name
  {
    seq(|es|, i requires 0 <= i < |es| => es[i].node.name)
  }

  function ModuleNames(ms: seq<Module>): (names: seq<string>)
    ensures |names| == |ms| && forall i :: 0 <= i < |ms| ==> names[i] == ms[i].node.name
  {
    seq(|ms|, i requires 0 <= i < |ms| => ms[i].node.name)
  }

  // The names that share one scope in an interface, in validation order.
  function MemberNames(i: Interface): seq<string> {
    TypedNames(i.properties) + OperationNames(i.operations) + SignalNames(i.signals)
  }

  // The names that share one scope in a module, in validation order.
  function DeclaredNames(m: Module): seq<string> {
    ExternNames(m.externs) + InterfaceNames(m.interfaces) + StructNames(m.structs) + EnumNames(m.enums)
  }
}
