/**
  The recursive descent parser (pkg/idl/parser/objectapi_parser.go).

  The rule methods share a token stream, of which they look at the next token and
  match one after the other. A recognition error ends the parse: the recovery of
  the generated parser is not modelled, so a rule returns no tree then.
  */
module Parser {
  import opened Wrappers
  import opened Syntax
  import opened Grammar
  import opened RoundTrip

  // A rule method did what its rule says: the same tree and the same tokens left,
  // or no tree.
  ghost predicate Agrees<T>(spec: Parsed<T>, r: Option<T>, now: Tokens) {
    match spec
    case Failed => r.None?
    case Parsed(tree, rest) => r == Some(tree) && now == rest
  }

  class ObjectApiParser {
    const tokens: seq<Token>
    var pos: nat

    constructor (tokens: seq<Token>)
      ensures this.tokens == tokens && pos == 0 && Valid()
    {
      this.tokens, this.pos := tokens, 0;
    }

    ghost predicate Valid()
      reads this
    {
      pos <= |tokens|
    }

    // The input that is left.
    ghost function Rest(): Tokens
      requires Valid()
      reads this
    {
      From(tokens, pos)
    }

    // LA(1), with None at the end of the input.
    function LookAhead(): (la: Option<Token>)
      requires Valid()
      reads this
      ensures la == if Rest().End? then None else Some(Rest().head)
    {
      if pos == |tokens| then None else Some(tokens[pos])
    }

    predicate At(t: Token)
      requires Valid()
      reads this
      ensures At(t) <==> Next(Rest(), t)
    {
      LookAhead() == Some(t)
    }

    predicate AtStart(starts: Token -> bool)
      requires Valid()
      reads this
      ensures AtStart(starts) <==> Rest().Cons? && starts(Rest().head)
    {
      LookAhead().Some? && starts(LookAhead().value)
    }

    method Consume() returns (t: Token)
      requires Valid() && Rest().Cons?
      modifies this
      ensures Valid() && t == old(Rest()).head && Rest() == old(Rest()).tail
    {
      t := tokens[pos];
      pos := pos + 1;
    }

    method Match(t: Token) returns (r: Option<()>)
      requires Valid()
      modifies this
      ensures Valid() && Agrees(Accept(old(Rest()), t), r, Rest())
    {
      if !At(t) {
        return None;
      }
      var _ := Consume();
      return Some(());
    }

    method MatchName() returns (r: Option<string>)
      requires Valid()
      modifies this
      ensures Valid() && Agrees(AcceptName(old(Rest())), r, Rest())
    {
      if !AtStart(IsName) {
        return None;
      }
      var t := Consume();
      return Some(t.text);
    }

    method Optional(t: Token) returns (present: bool)
      requires Valid()
      modifies this
      ensures Valid() && (present, Rest()) == Skip(old(Rest()), t)
    {
      present := At(t);
      if present {
        var _ := Consume();
      }
    }

    method MetaRule() returns (r: Option<Meta>)
      requires Valid()
      modifies this
      ensures Valid() && Agrees(ParseMeta(old(Rest())), r, Rest())
    {
      if !AtStart(IsMeta) {
        return None;
      }
      var t := Consume();
      return Some(if t.DocLine? then Doc(t.text) else Tag(t.text));
    }

    method MetaRules() returns (metas: seq<Meta>)
      requires Valid()
      modifies this
      ensures Valid() && Agrees(ParseMetas(old(Rest())), Some(metas), Rest())
    {
      metas := [];
      GoesFromStart(ParseMeta, IsMeta, Rest());
      while AtStart(IsMeta)
        invariant Valid() && Goes(ParseMeta, IsMeta, old(Rest()), metas, Rest())
        decreases Length(Rest())
      {
        GoesOn(ParseMeta, IsMeta, old(Rest()), metas, Rest());
        var m := MetaRule();
        metas := metas + [m.value];
      }
      GoesToEnd(ParseMeta, IsMeta, old(Rest()), metas, Rest());
    }

    method SchemaRule() returns (r: Option<SchemaTree>)
      requires Valid()
      modifies this
      ensures Valid() && Agrees(ParseSchema(old(Rest())), r, Rest())
    {
      var base: SchemaBase;
      match LookAhead() {
        case Some(PrimitiveName(word)) => base := PrimitiveSchema(word);
        case Some(Identifier(name)) => base := SymbolSchema(name);
        case _ => return None;
      }
      var _ := Consume();
      if !At(LBracket) {
        return Some(SchemaTree(base, false));
      }
      var m1 := Match(LBracket);
      if m1.None? {
        return None;
      }
      var m2 := Match(RBracket);
      if m2.None? {
        return None;
      }
      return Some(SchemaTree(base, true));
    }

    method OperationParamRule() returns (r: Option<ParamTree>)
      requires Valid()
      modifies this
      ensures Valid() && Agrees(ParseParam(old(Rest())), r, Rest())
    {
      var name := MatchName();
      if name.None? {
        return None;
      }
      var m1 := Match(Colon);
      if m1.None? {
        return None;
      }
      var schema := SchemaRule();
      if schema.None? {
        return None;
      }
      var comma := Optional(Comma);
      return Some(ParamTree(name.value, schema.value, comma));
    }

    method Params() returns (r: Option<seq<ParamTree>>)
      requires Valid()
      modifies this
      ensures Valid() && Agrees(ParseParams(old(Rest())), r, Rest())
    {
      var m1 := Match(LParen);
      if m1.None? {
        return None;
      }
      var params: seq<ParamTree> := [];
      ghost var all := Rest();
      GoesFromStart(ParseParam, IsName, all);
      while AtStart(IsName)
        invariant Valid() && Goes(ParseParam, IsName, all, params, Rest())
        decreases Length(Rest())
      {
        ghost var before := Rest();
        GoesOn(ParseParam, IsName, all, params, before);
        var x := OperationParamRule();
        if x.None? {
          return None;
        }
        ParseParamShrinks(before);
        params := params + [x.value];
      }
      GoesToEnd(ParseParam, IsName, all, params, Rest());
      var m2 := Match(RParen);
      if m2.None? {
        return None;
      }
      return Some(params);
    }

    method OperationReturnRule() returns (r: Option<SchemaTree>)
      requires Valid()
      modifies this
      ensures Valid() && Agrees(ParseReturnSchema(old(Rest())), r, Rest())
    {
      var m1 := Match(Colon);
      if m1.None? {
        return None;
      }
      r := SchemaRule();
    }

    method PropertyRule() returns (r: Option<MemberTree>)
      requires Valid()
      modifies this
      ensures Valid() && Agrees(ParseProperty(old(Rest())), r, Rest())
    {
      var metas := MetaRules();
      var readonly := Optional(KwReadonly);
      var name := MatchName();
      if name.None? {
        return None;
      }
      var m1 := Match(Colon);
      if m1.None? {
        return None;
      }
      var schema := SchemaRule();
      if schema.None? {
        return None;
      }
      var semicolon := Optional(Semicolon);
      return Some(PropertyTree(metas, readonly, name.value, schema.value, semicolon));
    }

    method OperationRule() returns (r: Option<MemberTree>)
      requires Valid()
      modifies this
      ensures Valid() && Agrees(ParseOperation(old(Rest())), r, Rest())
    {
      var metas := MetaRules();
      var name := MatchName();
      if name.None? {
        return None;
      }
      var params := Params();
      if params.None? {
        return None;
      }
      var ret: Option<SchemaTree> := None;
      if At(Colon) {
        ret := OperationReturnRule();
        if ret.None? {
          return None;
        }
      }
      var semicolon := Optional(Semicolon);
      return Some(OperationTree(metas, name.value, params.value, ret, semicolon));
    }

    method SignalRule() returns (r: Option<MemberTree>)
      requires Valid()
      modifies this
      ensures Valid() && Agrees(ParseSignal(old(Rest())), r, Rest())
    {
      var metas := MetaRules();
      var m1 := Match(KwSignal);
      if m1.None? {
        return None;
      }
      var name := MatchName();
      if name.None? {
        return None;
      }
      var params := Params();
      if params.None? {
        return None;
      }
      var semicolon := Optional(Semicolon);
      return Some(SignalTree(metas, name.value, params.value, semicolon));
    }

    // The token behind the meta lines, and the one behind that.
    method PredictMemberRule() returns (kind: MemberKind)
      requires Valid()
      ensures kind == PredictMember(Rest())
    {
      var at := BehindMetas();
      if at == |tokens| {
        return NoMember;
      }
      match tokens[at] {
        case KwSignal => return AsSignal;
        case KwReadonly => return AsProperty;
        case Identifier(_) =>
          if at + 1 == |tokens| {
            return NoMember;
          }
          match tokens[at + 1] {
            case Colon => return AsProperty;
            case LParen => return AsOperation;
            case _ => return NoMember;
          }
        case _ => return NoMember;
      }
    }

    method BehindMetas() returns (at: nat)
      requires Valid()
      ensures at <= |tokens| && From(tokens, at) == AfterMetas(Rest())
    {
      at := pos;
      while at < |tokens| && IsMeta(tokens[at])
        invariant at <= |tokens| && AfterMetas(From(tokens, at)) == AfterMetas(Rest())
      {
        at := at + 1;
      }
    }

    method InterfaceMembersRule() returns (r: Option<MemberTree>)
      requires Valid()
      modifies this
      ensures Valid() && Agrees(ParseMember(old(Rest())), r, Rest())
    {
      var kind := PredictMemberRule();
      match kind {
        case AsProperty => r := PropertyRule();
        case AsOperation => r := OperationRule();
        case AsSignal => r := SignalRule();
        case NoMember => return None;
      }
    }

    method StructFieldRule() returns (r: Option<FieldTree>)
      requires Valid()
      modifies this
      ensures Valid() && Agrees(ParseField(old(Rest())), r, Rest())
    {
      var metas := MetaRules();
      var readonly := Optional(KwReadonly);
      var name := MatchName();
      if name.None? {
        return None;
      }
      var m1 := Match(Colon);
      if m1.None? {
        return None;
      }
      var schema := SchemaRule();
      if schema.None? {
        return None;
      }
      var semicolon := Optional(Semicolon);
      return Some(FieldTree(metas, readonly, name.value, schema.value, semicolon));
    }

    method EnumMemberRule() returns (r: Option<EnumMemberTree>)
      requires Valid()
      modifies this
      ensures Valid() && Agrees(ParseEnumMember(old(Rest())), r, Rest())
    {
      var metas := MetaRules();
      var name := MatchName();
      if name.None? {
        return None;
      }
      var value: Option<int> := None;
      if At(Equals) {
        var m1 := Match(Equals);
        if m1.None? {
          return None;
        }
        match LookAhead() {
          case Some(Integer(n)) => value := Some(n);
          case _ => return None;
        }
        var _ := Consume();
      }
      var comma := Optional(Comma);
      return Some(EnumMemberTree(metas, name.value, value, comma));
    }

    method ExternRule() returns (r: Option<DeclTree>)
      requires Valid()
      modifies this
      ensures Valid() && Agrees(ParseExtern(old(Rest())), r, Rest())
    {
      var metas := MetaRules();
      var m1 := Match(KwExtern);
      if m1.None? {
        return None;
      }
      var name := MatchName();
      if name.None? {
        return None;
      }
      var semicolon := Optional(Semicolon);
      return Some(ExternTree(metas, name.value, semicolon));
    }

    method InterfaceRule() returns (r: Option<DeclTree>)
      requires Valid()
      modifies this
      ensures Valid() && Agrees(ParseInterface(old(Rest())), r, Rest())
    {
      var metas := MetaRules();
      var m1 := Match(KwInterface);
      if m1.None? {
        return None;
      }
      var name := MatchName();
      if name.None? {
        return None;
      }
      var base: Option<string> := None;
      if At(KwExtends) {
        var m2 := Match(KwExtends);
        if m2.None? {
          return None;
        }
        base := MatchName();
        if base.None? {
          return None;
        }
      }
      var m3 := Match(LBrace);
      if m3.None? {
        return None;
      }
      var members: seq<MemberTree> := [];
      ghost var all := Rest();
      GoesFromStart(ParseMember, StartsMember, all);
      while AtStart(StartsMember)
        invariant Valid() && Goes(ParseMember, StartsMember, all, members, Rest())
        decreases Length(Rest())
      {
        ghost var before := Rest();
        GoesOn(ParseMember, StartsMember, all, members, before);
        var x := InterfaceMembersRule();
        if x.None? {
          return None;
        }
        ParseMemberShrinks(before);
        members := members + [x.value];
      }
      GoesToEnd(ParseMember, StartsMember, all, members, Rest());
      var m4 := Match(RBrace);
      if m4.None? {
        return None;
      }
      return Some(InterfaceTree(metas, name.value, base, members));
    }

    method StructRule() returns (r: Option<DeclTree>)
      requires Valid()
      modifies this
      ensures Valid() && Agrees(ParseStruct(old(Rest())), r, Rest())
    {
      var metas := MetaRules();
      var m1 := Match(KwStruct);
      if m1.None? {
        return None;
      }
      var name := MatchName();
      if name.None? {
        return None;
      }
      var m2 := Match(LBrace);
      if m2.None? {
        return None;
      }
      var fields: seq<FieldTree> := [];
      ghost var all := Rest();
      GoesFromStart(ParseField, StartsField, all);
      while AtStart(StartsField)
        invariant Valid() && Goes(ParseField, StartsField, all, fields, Rest())
        decreases Length(Rest())
      {
        ghost var before := Rest();
        GoesOn(ParseField, StartsField, all, fields, before);
        var x := StructFieldRule();
        if x.None? {
          return None;
        }
        ParseFieldShrinks(before);
        fields := fields + [x.value];
      }
      GoesToEnd(ParseField, StartsField, all, fields, Rest());
      var m3 := Match(RBrace);
      if m3.None? {
        return None;
      }
      return Some(StructTree(metas, name.value, fields));
    }

    method EnumRule() returns (r: Option<DeclTree>)
      requires Valid()
      modifies this
      ensures Valid() && Agrees(ParseEnum(old(Rest())), r, Rest())
    {
      var metas := MetaRules();
      var m1 := Match(KwEnum);
      if m1.None? {
        return None;
      }
      var name := MatchName();
      if name.None? {
        return None;
      }
      var m2 := Match(LBrace);
      if m2.None? {
        return None;
      }
      var values: seq<EnumMemberTree> := [];
      ghost var all := Rest();
      GoesFromStart(ParseEnumMember, StartsEnumMember, all);
      while AtStart(StartsEnumMember)
        invariant Valid() && Goes(ParseEnumMember, StartsEnumMember, all, values, Rest())
        decreases Length(Rest())
      {
        ghost var before := Rest();
        GoesOn(ParseEnumMember, StartsEnumMember, all, values, before);
        var x := EnumMemberRule();
        if x.None? {
          return None;
        }
        ParseEnumMemberShrinks(before);
        values := values + [x.value];
      }
      GoesToEnd(ParseEnumMember, StartsEnumMember, all, values, Rest());
      var m3 := Match(RBrace);
      if m3.None? {
        return None;
      }
      return Some(EnumTree(metas, name.value, values));
    }

    method DeclarationsRule() returns (r: Option<DeclTree>)
      requires Valid()
      modifies this
      ensures Valid() && Agrees(ParseDecl(old(Rest())), r, Rest())
    {
      var at := BehindMetas();
      if at == |tokens| {
        return None;
      }
      match tokens[at] {
        case KwExtern => r := ExternRule();
        case KwInterface => r := InterfaceRule();
        case KwStruct => r := StructRule();
        case KwEnum => r := EnumRule();
        case _ => return None;
      }
    }

    method OptionalVersion() returns (version: Option<string>)
      requires Valid()
      modifies this
      ensures Valid() && (version, Rest()) == SkipVersion(old(Rest()))
    {
      match LookAhead() {
        case Some(Version(text)) =>
          var _ := Consume();
          return Some(text);
        case _ => return None;
      }
    }

    method ImportRule() returns (r: Option<ImportTree>)
      requires Valid()
      modifies this
      ensures Valid() && Agrees(ParseImport(old(Rest())), r, Rest())
    {
      var m1 := Match(KwImport);
      if m1.None? {
        return None;
      }
      var name := MatchName();
      if name.None? {
        return None;
      }
      var version := OptionalVersion();
      var semicolon := Optional(Semicolon);
      return Some(ImportTree(name.value, version, semicolon));
    }

    method ModuleRule() returns (r: Option<ModuleTree>)
      requires Valid()
      modifies this
      ensures Valid() && Agrees(ParseModule(old(Rest())), r, Rest())
    {
      var metas := MetaRules();
      var m1 := Match(KwModule);
      if m1.None? {
        return None;
      }
      var name := MatchName();
      if name.None? {
        return None;
      }
      var version := OptionalVersion();
      var semicolon := Optional(Semicolon);
      return Some(ModuleTree(metas, name.value, version, semicolon));
    }

    method HeaderRule() returns (r: Option<HeaderTree>)
      requires Valid()
      modifies this
      ensures Valid() && Agrees(ParseHeader(old(Rest())), r, Rest())
    {
      var mod := ModuleRule();
      if mod.None? {
        return None;
      }
      var imports: seq<ImportTree> := [];
      ghost var all := Rest();
      GoesFromStart(ParseImport, IsImport, all);
      while AtStart(IsImport)
        invariant Valid() && Goes(ParseImport, IsImport, all, imports, Rest())
        decreases Length(Rest())
      {
        ghost var before := Rest();
        GoesOn(ParseImport, IsImport, all, imports, before);
        var x := ImportRule();
        if x.None? {
          return None;
        }
        ParseImportShrinks(before);
        imports := imports + [x.value];
      }
      GoesToEnd(ParseImport, IsImport, all, imports, Rest());
      return Some(HeaderTree(mod.value, imports));
    }

    method DocumentRule() returns (r: Option<DocumentTree>)
      requires Valid()
      modifies this
      ensures Valid() && Agrees(ParseDocument(old(Rest())), r, Rest())
    {
      var header := HeaderRule();
      if header.None? {
        return None;
      }
      var decls: seq<DeclTree> := [];
      ghost var all := Rest();
      GoesFromStart(ParseDecl, StartsDecl, all);
      while AtStart(StartsDecl)
        invariant Valid() && Goes(ParseDecl, StartsDecl, all, decls, Rest())
        decreases Length(Rest())
      {
        ghost var before := Rest();
        GoesOn(ParseDecl, StartsDecl, all, decls, before);
        var x := DeclarationsRule();
        if x.None? {
          return None;
        }
        ParseDeclShrinks(before);
        decls := decls + [x.value];
      }
      GoesToEnd(ParseDecl, StartsDecl, all, decls, Rest());
      return Some(DocumentTree(header.value, decls));
    }
  }

  // A list loop under way: what is left to parse completes what was parsed.
  ghost predicate Goes<T>(rule: Tokens -> Parsed<T>, starts: Token -> bool, all: Tokens, done: seq<T>, now: Tokens) {
    match Many(rule, starts, now)
    case Failed => Many(rule, starts, all).Failed?
    case Parsed(xs, rest) => Many(rule, starts, all) == Parsed(done + xs, rest)
  }

  lemma GoesFromStart<T>(rule: Tokens -> Parsed<T>, starts: Token -> bool, all: Tokens)
    ensures Goes(rule, starts, all, [], all)
  {
    match Many(rule, starts, all)
    case Failed =>
    case Parsed(xs, _) => assert [] + xs == xs;
  }

  lemma GoesToEnd<T>(rule: Tokens -> Parsed<T>, starts: Token -> bool, all: Tokens, done: seq<T>, now: Tokens)
    requires Goes(rule, starts, all, done, now) && !(now.Cons? && starts(now.head))
    ensures Many(rule, starts, all) == Parsed(done, now)
  {
    assert done + [] == done;
  }

  lemma GoesOn<T>(rule: Tokens -> Parsed<T>, starts: Token -> bool, all: Tokens, done: seq<T>, now: Tokens)
    requires Goes(rule, starts, all, done, now) && now.Cons? && starts(now.head)
    ensures match rule(now)
      case Failed => Many(rule, starts, all).Failed?
      case Parsed(x, rest) => Length(rest) < Length(now) ==> Goes(rule, starts, all, done + [x], rest)
  {
    match rule(now)
    case Failed =>
    case Parsed(x, rest) =>
      if Length(rest) < Length(now) {
        match Many(rule, starts, rest)
        case Failed =>
        case Parsed(xs, _) => assert done + ([x] + xs) == done + [x] + xs;
      }
  }
}
