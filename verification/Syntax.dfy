/**
  Tokens and parse trees of the API language, and how a tree is written down
  (pkg/idl/parser/objectapi_parser.go).

  A tree keeps every choice the grammar leaves open, also the optional commas
  and semicolons, which the parse tree of the generated parser holds as well.
  */
module Syntax {
  import opened Wrappers

  // The words that are tokens of a primitive type (pkg/idl/parser/ObjectApi.g4).
  const PRIMITIVES := {
    "bool", "int", "int32", "int64", "float", "float32", "float64", "string", "bytes", "any", "void"
  }

  datatype Token =
    | KwModule | KwImport | KwExtern | KwInterface | KwExtends | LBrace | RBrace | KwReadonly
    | Colon | LParen | RParen | Comma | KwSignal | KwStruct | KwEnum | Equals | LBracket | RBracket
    | PrimitiveName(word: string)
    | Integer(value: int)
    | Identifier(text: string)
    | Version(text: string)
    | DocLine(text: string)
    | TagLine(text: string)
    | Semicolon
    | Other(text: string)

  datatype Meta = Doc(text: string) | Tag(text: string)

  datatype SchemaBase = PrimitiveSchema(word: string) | SymbolSchema(name: string)

  datatype SchemaTree = SchemaTree(base: SchemaBase, isArray: bool)

  datatype ParamTree = ParamTree(name: string, schema: SchemaTree, comma: bool)

  datatype MemberTree =
    | PropertyTree(metas: seq<Meta>, readonly: bool, name: string, schema: SchemaTree, semicolon: bool)
    | OperationTree(metas: seq<Meta>, name: string, params: seq<ParamTree>, ret: Option<SchemaTree>, semicolon: bool)
    | SignalTree(metas: seq<Meta>, name: string, params: seq<ParamTree>, semicolon: bool)

  datatype FieldTree = FieldTree(metas: seq<Meta>, readonly: bool, name: string, schema: SchemaTree, semicolon: bool)

  datatype EnumMemberTree = EnumMemberTree(metas: seq<Meta>, name: string, value: Option<int>, comma: bool)

  datatype DeclTree =
    | ExternTree(metas: seq<Meta>, name: string, semicolon: bool)
    | InterfaceTree(metas: seq<Meta>, name: string, base: Option<string>, members: seq<MemberTree>)
    | StructTree(metas: seq<Meta>, name: string, fields: seq<FieldTree>)
    | EnumTree(metas: seq<Meta>, name: string, values: seq<EnumMemberTree>)

  datatype ImportTree = ImportTree(name: string, version: Option<string>, semicolon: bool)

  datatype ModuleTree = ModuleTree(metas: seq<Meta>, name: string, version: Option<string>, semicolon: bool)

  datatype HeaderTree = HeaderTree(mod: ModuleTree, imports: seq<ImportTree>)

  datatype DocumentTree = DocumentTree(header: HeaderTree, decls: seq<DeclTree>)

  // Remaining input.
  datatype Tokens = End | Cons(head: Token, tail: Tokens)

  function Length(ts: Tokens): nat {
    match ts
    case End => 0
    case Cons(_, tail) => 1 + Length(tail)
  }

  // The tokens of a stream from a position on.
  function From(tokens: seq<Token>, pos: nat): Tokens
    requires pos <= |tokens|
    decreases |tokens| - pos
  {
    if pos == |tokens| then End else Cons(tokens[pos], From(tokens, pos + 1))
  }

  // ------------------------------------------------------------------------
  // Printing: each printer takes the tokens that come after
  // ------------------------------------------------------------------------

  function PrintAll<T>(xs: seq<T>, print1: (T, Tokens) -> Tokens, rest: Tokens): Tokens {
    if xs == [] then rest else print1(xs[0], PrintAll(xs[1..], print1, rest))
  }

  function PrintIf(present: bool, t: Token, rest: Tokens): (r: Tokens)
    ensures Length(r) >= Length(rest)
  {
    if present then Cons(t, rest) else rest
  }

  function PrintMeta(m: Meta, rest: Tokens): (r: Tokens)
    ensures Length(r) == Length(rest) + 1
  {
    Cons(if m.Doc? then DocLine(m.text) else TagLine(m.text), rest)
  }

  function PrintMetas(ms: seq<Meta>, rest: Tokens): Tokens {
    PrintAll(ms, PrintMeta, rest)
  }

  function PrintName(name: string, rest: Tokens): (r: Tokens)
    ensures Length(r) == Length(rest) + 1
  {
    Cons(Identifier(name), rest)
  }

  function PrintArray(isArray: bool, rest: Tokens): (r: Tokens)
    ensures Length(r) >= Length(rest)
  {
    if isArray then Cons(LBracket, Cons(RBracket, rest)) else rest
  }

  function PrintSchema(s: SchemaTree, rest: Tokens): (r: Tokens)
    ensures Length(r) > Length(rest)
  {
    match s.base
    case PrimitiveSchema(word) => Cons(PrimitiveName(word), PrintArray(s.isArray, rest))
    case SymbolSchema(name) => PrintName(name, PrintArray(s.isArray, rest))
  }

  function PrintParam(p: ParamTree, rest: Tokens): (r: Tokens)
    ensures Length(r) > Length(rest)
  {
    PrintName(p.name, Cons(Colon, PrintSchema(p.schema, PrintIf(p.comma, Comma, rest))))
  }

  function PrintParams(ps: seq<ParamTree>, rest: Tokens): Tokens {
    Cons(LParen, PrintAll(ps, PrintParam, Cons(RParen, rest)))
  }

  function PrintReturn(ret: Option<SchemaTree>, rest: Tokens): (r: Tokens)
    ensures Length(r) >= Length(rest)
  {
    match ret
    case Some(s) => Cons(Colon, PrintSchema(s, rest))
    case None => rest
  }

  function PrintTyped(readonly: bool, name: string, s: SchemaTree, semicolon: bool, rest: Tokens): (r: Tokens)
    ensures Length(r) > Length(rest)
  {
    PrintIf(readonly, KwReadonly, PrintName(name, Cons(Colon, PrintSchema(s, PrintIf(semicolon, Semicolon, rest)))))
  }

  function PrintMember(m: MemberTree, rest: Tokens): Tokens {
    PrintMetas(m.metas, PrintMemberBody(m, rest))
  }

  function PrintMemberBody(m: MemberTree, rest: Tokens): Tokens {
    match m
    case PropertyTree(_, readonly, name, schema, semicolon) => PrintTyped(readonly, name, schema, semicolon, rest)
    case OperationTree(_, name, params, ret, semicolon) =>
      PrintName(name, PrintParams(params, PrintReturn(ret, PrintIf(semicolon, Semicolon, rest))))
    case SignalTree(_, name, params, semicolon) =>
      Cons(KwSignal, PrintName(name, PrintParams(params, PrintIf(semicolon, Semicolon, rest))))
  }

  function PrintField(f: FieldTree, rest: Tokens): Tokens {
    PrintMetas(f.metas, PrintTyped(f.readonly, f.name, f.schema, f.semicolon, rest))
  }

  function PrintValue(value: Option<int>, rest: Tokens): (r: Tokens)
    ensures Length(r) >= Length(rest)
  {
    match value
    case Some(n) => Cons(Equals, Cons(Integer(n), rest))
    case None => rest
  }

  function PrintEnumMember(m: EnumMemberTree, rest: Tokens): Tokens {
    PrintMetas(m.metas, PrintName(m.name, PrintValue(m.value, PrintIf(m.comma, Comma, rest))))
  }

  function PrintBase(base: Option<string>, rest: Tokens): (r: Tokens)
    ensures Length(r) >= Length(rest)
  {
    match base
    case Some(name) => Cons(KwExtends, PrintName(name, rest))
    case None => rest
  }

  function PrintBlock<T>(xs: seq<T>, print1: (T, Tokens) -> Tokens, rest: Tokens): Tokens {
    Cons(LBrace, PrintAll(xs, print1, Cons(RBrace, rest)))
  }

  function PrintDecl(d: DeclTree, rest: Tokens): Tokens {
    PrintMetas(d.metas, PrintDeclBody(d, rest))
  }

  function PrintDeclBody(d: DeclTree, rest: Tokens): Tokens {
    match d
    case ExternTree(_, name, semicolon) =>
      Cons(KwExtern, PrintName(name, PrintIf(semicolon, Semicolon, rest)))
    case InterfaceTree(_, name, base, members) =>
      Cons(KwInterface, PrintName(name, PrintBase(base, PrintBlock(members, PrintMember, rest))))
    case StructTree(_, name, fields) =>
      Cons(KwStruct, PrintName(name, PrintBlock(fields, PrintField, rest)))
    case EnumTree(_, name, values) =>
      Cons(KwEnum, PrintName(name, PrintBlock(values, PrintEnumMember, rest)))
  }

  function PrintVersion(version: Option<string>, rest: Tokens): (r: Tokens)
    ensures Length(r) >= Length(rest)
  {
    match version
    case Some(text) => Cons(Version(text), rest)
    case None => rest
  }

  function PrintImport(i: ImportTree, rest: Tokens): (r: Tokens)
    ensures Length(r) > Length(rest)
  {
    Cons(KwImport, PrintName(i.name, PrintVersion(i.version, PrintIf(i.semicolon, Semicolon, rest))))
  }

  function PrintModule(m: ModuleTree, rest: Tokens): Tokens {
    PrintMetas(m.metas,
      Cons(KwModule, PrintName(m.name, PrintVersion(m.version, PrintIf(m.semicolon, Semicolon, rest)))))
  }

  function PrintHeader(h: HeaderTree, rest: Tokens): Tokens {
    PrintModule(h.mod, PrintAll(h.imports, PrintImport, rest))
  }

  function PrintDocument(d: DocumentTree, rest: Tokens): Tokens {
    PrintHeader(d.header, PrintAll(d.decls, PrintDecl, rest))
  }
}
