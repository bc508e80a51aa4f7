/** The parser as functions on token lists: what the rule methods of the class must compute. */
module Grammar {
  import opened Wrappers
  import opened Syntax

  // A recognition error, or a tree and the tokens behind it.
  datatype Parsed<+T> = Failed | Parsed(tree: T, rest: Tokens) {
    predicate IsFailure() { Failed? }

    function PropagateFailure<U>(): Parsed<U>
      requires Failed?
    {
      Failed
    }

    function Extract(): (T, Tokens)
      requires Parsed?
    {
      (tree, rest)
    }
  }

  predicate Next(ts: Tokens, t: Token) {
    ts.Cons? && ts.head == t
  }

  // Match
  function Accept(ts: Tokens, t: Token): Parsed<()> {
    if Next(ts, t) then Parsed((), ts.tail) else Failed
  }

  function AcceptName(ts: Tokens): Parsed<string> {
    if ts.Cons? && ts.head.Identifier? then Parsed(ts.head.text, ts.tail) else Failed
  }

  function Skip(ts: Tokens, t: Token): (bool, Tokens) {
    if Next(ts, t) then (true, ts.tail) else (false, ts)
  }

  // A loop that goes on while the next token can start an element. Every rule
  // consumes something, so the second case never fails for want of progress.
  function Many<T>(rule: Tokens -> Parsed<T>, starts: Token -> bool, ts: Tokens): Parsed<seq<T>>
    decreases Length(ts)
  {
    if ts.Cons? && starts(ts.head) then
      var (x, rest) :- rule(ts);
      if Length(rest) < Length(ts) then
        var (xs, end) :- Many(rule, starts, rest);
        Parsed([x] + xs, end)
      else Failed
    else Parsed([], ts)
  }

  // The elements of a declaration in braces.
  function Block<T>(rule: Tokens -> Parsed<T>, starts: Token -> bool, ts: Tokens): Parsed<seq<T>> {
    var (_, ts) :- Accept(ts, LBrace);
    var (xs, ts) :- Many(rule, starts, ts);
    var (_, ts) :- Accept(ts, RBrace);
    Parsed(xs, ts)
  }

  predicate IsMeta(t: Token) {
    t.DocLine? || t.TagLine?
  }

  predicate StartsDecl(t: Token) {
    IsMeta(t) || t in {KwExtern, KwInterface, KwStruct, KwEnum}
  }

  predicate StartsMember(t: Token) {
    IsMeta(t) || t.Identifier? || t in {KwReadonly, KwSignal}
  }

  predicate StartsField(t: Token) {
    IsMeta(t) || t.Identifier? || t == KwReadonly
  }

  predicate StartsEnumMember(t: Token) {
    IsMeta(t) || t.Identifier?
  }

  predicate IsName(t: Token) {
    t.Identifier?
  }

  predicate IsImport(t: Token) {
    t == KwImport
  }

  function ParseMeta(ts: Tokens): Parsed<Meta> {
    if ts.End? then Failed
    else match ts.head
      case DocLine(text) => Parsed(Doc(text), ts.tail)
      case TagLine(text) => Parsed(Tag(text), ts.tail)
      case _ => Failed
  }

  function ParseMetas(ts: Tokens): Parsed<seq<Meta>> {
    Many(ParseMeta, IsMeta, ts)
  }

  // What a prediction sees behind the meta lines.
  function AfterMetas(ts: Tokens): (rest: Tokens)
    ensures rest.Cons? ==> !IsMeta(rest.head)
  {
    if ts.Cons? && IsMeta(ts.head) then AfterMetas(ts.tail) else ts
  }

  function ParseSchemaBase(ts: Tokens): Parsed<SchemaBase> {
    if ts.End? then Failed
    else match ts.head
      case PrimitiveName(word) => Parsed(PrimitiveSchema(word), ts.tail)
      case Identifier(name) => Parsed(SymbolSchema(name), ts.tail)
      case _ => Failed
  }

  function ParseSchema(ts: Tokens): Parsed<SchemaTree> {
    var (base, ts) :- ParseSchemaBase(ts);
    if Next(ts, LBracket) then
      var (_, ts) :- Accept(ts, LBracket);
      var (_, ts) :- Accept(ts, RBracket);
      Parsed(SchemaTree(base, true), ts)
    else Parsed(SchemaTree(base, false), ts)
  }

  function ParseParam(ts: Tokens): Parsed<ParamTree> {
    var (name, ts) :- AcceptName(ts);
    var (_, ts) :- Accept(ts, Colon);
    var (schema, ts) :- ParseSchema(ts);
    var (comma, ts) := Skip(ts, Comma);
    Parsed(ParamTree(name, schema, comma), ts)
  }

  function ParseParams(ts: Tokens): Parsed<seq<ParamTree>> {
    var (_, ts) :- Accept(ts, LParen);
    var (params, ts) :- Many(ParseParam, IsName, ts);
    var (_, ts) :- Accept(ts, RParen);
    Parsed(params, ts)
  }

  function ParseReturnSchema(ts: Tokens): Parsed<SchemaTree> {
    var (_, ts) :- Accept(ts, Colon);
    ParseSchema(ts)
  }

  function ParseReturn(ts: Tokens): Parsed<Option<SchemaTree>> {
    if Next(ts, Colon) then
      var (schema, ts) :- ParseReturnSchema(ts);
      Parsed(Some(schema), ts)
    else Parsed(None, ts)
  }

  function ParseField(ts: Tokens): Parsed<FieldTree> {
    var (metas, ts) :- ParseMetas(ts);
    var (readonly, ts) := Skip(ts, KwReadonly);
    var (name, ts) :- AcceptName(ts);
    var (_, ts) :- Accept(ts, Colon);
    var (schema, ts) :- ParseSchema(ts);
    var (semicolon, ts) := Skip(ts, Semicolon);
    Parsed(FieldTree(metas, readonly, name, schema, semicolon), ts)
  }

  function ParseProperty(ts: Tokens): Parsed<MemberTree> {
    var (metas, ts) :- ParseMetas(ts);
    var (readonly, ts) := Skip(ts, KwReadonly);
    var (name, ts) :- AcceptName(ts);
    var (_, ts) :- Accept(ts, Colon);
    var (schema, ts) :- ParseSchema(ts);
    var (semicolon, ts) := Skip(ts, Semicolon);
    Parsed(PropertyTree(metas, readonly, name, schema, semicolon), ts)
  }

  function ParseOperation(ts: Tokens): Parsed<MemberTree> {
    var (metas, ts) :- ParseMetas(ts);
    var (name, ts) :- AcceptName(ts);
    var (params, ts) :- ParseParams(ts);
    var (ret, ts) :- ParseReturn(ts);
    var (semicolon, ts) := Skip(ts, Semicolon);
    Parsed(OperationTree(metas, name, params, ret, semicolon), ts)
  }

  function ParseSignal(ts: Tokens): Parsed<MemberTree> {
    var (metas, ts) :- ParseMetas(ts);
    var (_, ts) :- Accept(ts, KwSignal);
    var (name, ts) :- AcceptName(ts);
    var (params, ts) :- ParseParams(ts);
    var (semicolon, ts) := Skip(ts, Semicolon);
    Parsed(SignalTree(metas, name, params, semicolon), ts)
  }

  datatype MemberKind = AsProperty | AsOperation | AsSignal | NoMember

  // The prediction for an interface member: a name is followed by a colon for a
  // property and by a parenthesis for an operation.
  function PredictMember(ts: Tokens): MemberKind {
    var s := AfterMetas(ts);
    if s.End? then NoMember
    else match s.head
      case KwSignal => AsSignal
      case KwReadonly => AsProperty
      case Identifier(_) =>
        if Next(s.tail, Colon) then AsProperty
        else if Next(s.tail, LParen) then AsOperation
        else NoMember
      case _ => NoMember
  }

  function ParseMember(ts: Tokens): Parsed<MemberTree> {
    match PredictMember(ts)
    case AsProperty => ParseProperty(ts)
    case AsOperation => ParseOperation(ts)
    case AsSignal => ParseSignal(ts)
    case NoMember => Failed
  }

  function ParseValue(ts: Tokens): Parsed<Option<int>> {
    if Next(ts, Equals) then
      var (_, ts) :- Accept(ts, Equals);
      if ts.Cons? && ts.head.Integer? then Parsed(Some(ts.head.value), ts.tail) else Failed
    else Parsed(None, ts)
  }

  function ParseEnumMember(ts: Tokens): Parsed<EnumMemberTree> {
    var (metas, ts) :- ParseMetas(ts);
    var (name, ts) :- AcceptName(ts);
    var (value, ts) :- ParseValue(ts);
    var (comma, ts) := Skip(ts, Comma);
    Parsed(EnumMemberTree(metas, name, value, comma), ts)
  }

  function ParseExtern(ts: Tokens): Parsed<DeclTree> {
    var (metas, ts) :- ParseMetas(ts);
    var (_, ts) :- Accept(ts, KwExtern);
    var (name, ts) :- AcceptName(ts);
    var (semicolon, ts) := Skip(ts, Semicolon);
    Parsed(ExternTree(metas, name, semicolon), ts)
  }

  function ParseBase(ts: Tokens): Parsed<Option<string>> {
    if Next(ts, KwExtends) then
      var (_, ts) :- Accept(ts, KwExtends);
      var (name, ts) :- AcceptName(ts);
      Parsed(Some(name), ts)
    else Parsed(None, ts)
  }

  function ParseInterface(ts: Tokens): Parsed<DeclTree> {
    var (metas, ts) :- ParseMetas(ts);
    var (_, ts) :- Accept(ts, KwInterface);
    var (name, ts) :- AcceptName(ts);
    var (base, ts) :- ParseBase(ts);
    var (members, ts) :- Block(ParseMember, StartsMember, ts);
    Parsed(InterfaceTree(metas, name, base, members), ts)
  }

  function ParseStruct(ts: Tokens): Parsed<DeclTree> {
    var (metas, ts) :- ParseMetas(ts);
    var (_, ts) :- Accept(ts, KwStruct);
    var (name, ts) :- AcceptName(ts);
    var (fields, ts) :- Block(ParseField, StartsField, ts);
    Parsed(StructTree(metas, name, fields), ts)
  }

  function ParseEnum(ts: Tokens): Parsed<DeclTree> {
    var (metas, ts) :- ParseMetas(ts);
    var (_, ts) :- Accept(ts, KwEnum);
    var (name, ts) :- AcceptName(ts);
    var (values, ts) :- Block(ParseEnumMember, StartsEnumMember, ts);
    Parsed(EnumTree(metas, name, values), ts)
  }

  function ParseDecl(ts: Tokens): Parsed<DeclTree> {
    var s := AfterMetas(ts);
    if Next(s, KwExtern) then ParseExtern(ts)
    else if Next(s, KwInterface) then ParseInterface(ts)
    else if Next(s, KwStruct) then ParseStruct(ts)
    else if Next(s, KwEnum) then ParseEnum(ts)
    else Failed
  }

  function SkipVersion(ts: Tokens): (Option<string>, Tokens) {
    if ts.Cons? && ts.head.Version? then (Some(ts.head.text), ts.tail) else (None, ts)
  }

  function ParseImport(ts: Tokens): Parsed<ImportTree> {
    var (_, ts) :- Accept(ts, KwImport);
    var (name, ts) :- AcceptName(ts);
    var (version, ts) := SkipVersion(ts);
    var (semicolon, ts) := Skip(ts, Semicolon);
    Parsed(ImportTree(name, version, semicolon), ts)
  }

  function ParseModule(ts: Tokens): Parsed<ModuleTree> {
    var (metas, ts) :- ParseMetas(ts);
    var (_, ts) :- Accept(ts, KwModule);
    var (name, ts) :- AcceptName(ts);
    var (version, ts) := SkipVersion(ts);
    var (semicolon, ts) := Skip(ts, Semicolon);
    Parsed(ModuleTree(metas, name, version, semicolon), ts)
  }

  function ParseHeader(ts: Tokens): Parsed<HeaderTree> {
    var (mod, ts) :- ParseModule(ts);
    var (imports, ts) :- Many(ParseImport, IsImport, ts);
    Parsed(HeaderTree(mod, imports), ts)
  }

  function ParseDocument(ts: Tokens): Parsed<DocumentTree> {
    var (header, ts) :- ParseHeader(ts);
    var (decls, ts) :- Many(ParseDecl, StartsDecl, ts);
    Parsed(DocumentTree(header, decls), ts)
  }
}
