/** What a parse tree means: the module it describes, by recursion over the tree. */
module Translation {
  import opened Wrappers
  import opened Names
  import opened ApiModel
  import opened Syntax

  // ------------------------------------------------------------------------
  // Meta lines
  // ------------------------------------------------------------------------

  predicate IsSpace(c: char) {
    c in {' ', '\t', '\n', '\r', '\U{0B}', '\U{0C}', '\U{85}', '\U{A0}'}
  }

  function TrimLeft(s: string, cut: char): string {
    if s != "" && s[0] == cut then TrimLeft(s[1..], cut) else s
  }

  function TrimSpace(s: string): string {
    if s != "" && IsSpace(s[0]) then TrimSpace(s[1..])
    else if s != "" && IsSpace(s[|s| - 1]) then TrimSpace(s[..|s| - 1])
    else s
  }

  function DocText(line: string): string {
    TrimSpace(TrimLeft(line, '/'))
  }

  function DocLines(ms: seq<Meta>): seq<string> {
    if ms == [] then []
    else DocLines(ms[..|ms| - 1]) + if ms[|ms| - 1].Doc? then [DocText(ms[|ms| - 1].text)] else []
  }

  function TagLines(ms: seq<Meta>): seq<string> {
    if ms == [] then []
    else TagLines(ms[..|ms| - 1]) + if ms[|ms| - 1].Tag? then [ms[|ms| - 1].text] else []
  }

  // The tag lines stand for the metadata that they are unmarshalled to.
  function WithMeta(n: NamedNode, ms: seq<Meta>): NamedNode {
    n.(description := if DocLines(ms) == [] then n.description else Join(DocLines(ms), "\n"),
       meta := if TagLines(ms) == [] then n.meta else TagLines(ms))
  }

  // ------------------------------------------------------------------------
  // Types
  // ------------------------------------------------------------------------

  // A dotted name is an import and a local name.
  function ImportOf(name: string): string {
    if |Split(name, '.')| > 1 then Qualifier(name) else ""
  }

  function LocalOf(name: string): string {
    if |Split(name, '.')| > 1 then LastPart(name) else name
  }

  function ToSchema(s: SchemaTree): Schema {
    match s.base
    case PrimitiveSchema(word) => EmptySchema.(typeName := word, isPrimitive := true, isArray := s.isArray)
    case SymbolSchema(name) =>
      EmptySchema.(imp := ImportOf(name), typeName := LocalOf(name), isSymbol := true, isArray := s.isArray)
  }

  function ToTyped(name: string, kind: Kind, metas: seq<Meta>, readonly: bool, s: SchemaTree): TypedNode {
    TypedNode(WithMeta(NewNode(name, kind), metas), ToSchema(s), readonly)
  }

  function ToParam(p: ParamTree): TypedNode {
    ToTyped(p.name, KindParam, [], false, p.schema)
  }

  function ToParams(ps: seq<ParamTree>): seq<TypedNode> {
    seq(|ps|, i requires 0 <= i < |ps| => ToParam(ps[i]))
  }

  // ------------------------------------------------------------------------
  // Interfaces
  // ------------------------------------------------------------------------

  function ToProperty(m: MemberTree): TypedNode
    requires m.PropertyTree?
  {
    ToTyped(m.name, KindProperty, m.metas, m.readonly, m.schema)
  }

  // An operation without a return type has no return node yet.
  function ToOperation(m: MemberTree): Operation
    requires m.OperationTree?
  {
    Operation(WithMeta(NewNode(m.name, KindOperation), m.metas), ToParams(m.params),
              match m.ret case Some(s) => Some(ToTyped("", KindReturn, [], false, s)) case None => None)
  }

  function ToSignal(m: MemberTree): Signal
    requires m.SignalTree?
  {
    Signal(WithMeta(NewNode(m.name, KindSignal), m.metas), ToParams(m.params))
  }

  // The members of each kind, in order.
  function ToProperties(ms: seq<MemberTree>): seq<TypedNode> {
    if ms == [] then []
    else ToProperties(ms[..|ms| - 1]) + if ms[|ms| - 1].PropertyTree? then [ToProperty(ms[|ms| - 1])] else []
  }

  function ToOperations(ms: seq<MemberTree>): seq<Operation> {
    if ms == [] then []
    else ToOperations(ms[..|ms| - 1]) + if ms[|ms| - 1].OperationTree? then [ToOperation(ms[|ms| - 1])] else []
  }

  function ToSignals(ms: seq<MemberTree>): seq<Signal> {
    if ms == [] then []
    else ToSignals(ms[..|ms| - 1]) + if ms[|ms| - 1].SignalTree? then [ToSignal(ms[|ms| - 1])] else []
  }

  function ToExtends(base: Option<string>): Extends {
    match base
    case Some(name) => Extends(LocalOf(name), ImportOf(name), None)
    case None => Extends("", "", None)
  }

  function ToInterface(d: DeclTree): Interface
    requires d.InterfaceTree?
  {
    Interface(WithMeta(NewNode(d.name, KindInterface), d.metas), ToExtends(d.base),
              ToProperties(d.members), ToOperations(d.members), ToSignals(d.members))
  }

  // ------------------------------------------------------------------------
  // Structs and enums
  // ------------------------------------------------------------------------

  function ToField(f: FieldTree): TypedNode {
    ToTyped(f.name, KindField, f.metas, f.readonly, f.schema)
  }

  function ToFields(fs: seq<FieldTree>): seq<TypedNode> {
    seq(|fs|, i requires 0 <= i < |fs| => ToField(fs[i]))
  }

  function ToStruct(d: DeclTree): Struct
    requires d.StructTree?
  {
    Struct(WithMeta(NewNode(d.name, KindStruct), d.metas), ToFields(d.fields))
  }

  // Members without a value are numbered among themselves: a value that is given
  // does not move the numbering on.
  function Unvalued(ms: seq<EnumMemberTree>, n: nat): nat
    requires n <= |ms|
  {
    if n == 0 then 0 else Unvalued(ms, n - 1) + if ms[n - 1].value.None? then 1 else 0
  }

  function ToEnumMember(ms: seq<EnumMemberTree>, i: nat): EnumMember
    requires i < |ms|
  {
    EnumMember(WithMeta(NewNode(ms[i].name, KindMember), ms[i].metas),
               if ms[i].value.Some? then ms[i].value.value else Unvalued(ms, i))
  }

  function ToEnumMembers(ms: seq<EnumMemberTree>): seq<EnumMember> {
    seq(|ms|, i requires 0 <= i < |ms| => ToEnumMember(ms, i))
  }

  function ToEnum(d: DeclTree): Enum
    requires d.EnumTree?
  {
    Enum(WithMeta(NewNode(d.name, KindEnum), d.metas), ToEnumMembers(d.values))
  }

  function ToExtern(d: DeclTree): Extern
    requires d.ExternTree?
  {
    Extern(WithMeta(NewNode(d.name, KindExtern), d.metas))
  }

  // ------------------------------------------------------------------------
  // Documents
  // ------------------------------------------------------------------------

  function VersionOr(version: Option<string>): string {
    if version.Some? then version.value else "1.0"
  }

  function ToImports(is_: seq<ImportTree>): seq<Import> {
    seq(|is_|, i requires 0 <= i < |is_| => Import(NewNode(is_[i].name, KindImport)))
  }

  function AddDecl(m: Module, d: DeclTree): Module {
    match d
    case ExternTree(_, _, _) => m.(externs := m.externs + [ToExtern(d)])
    case InterfaceTree(_, _, _, _) => m.(interfaces := m.interfaces + [ToInterface(d)])
    case StructTree(_, _, _) => m.(structs := m.structs + [ToStruct(d)])
    case EnumTree(_, _, _) => m.(enums := m.enums + [ToEnum(d)])
  }

  function AddDecls(m: Module, ds: seq<DeclTree>): Module {
    if ds == [] then m else AddDecl(AddDecls(m, ds[..|ds| - 1]), ds[|ds| - 1])
  }

  function ToHeader(h: HeaderTree): Module {
    NewModule(h.mod.name, VersionOr(h.mod.version)).(
      node := WithMeta(NewNode(h.mod.name, KindModule), h.mod.metas),
      imports := ToImports(h.imports),
      attached := true)
  }

  function ToModule(d: DocumentTree): Module {
    AddDecls(ToHeader(d.header), d.decls)
  }
}
