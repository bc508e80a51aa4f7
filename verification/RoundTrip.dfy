/** Printing and parsing are inverse to each other, for every tree and every token list. */
module RoundTrip {
  import opened Wrappers
  import opened Syntax
  import opened Grammar

  // The tokens that an optional part may begin with. Nothing that can follow a
  // complete element begins with one of them.
  predicate Continues(t: Token) {
    t in {Semicolon, Comma, Colon, LBracket, Equals} || t.Version?
  }

  predicate Follows(rest: Tokens) {
    rest.End? || !Continues(rest.head)
  }

  ghost predicate Inverts<T>(rule: Tokens -> Parsed<T>, print1: (T, Tokens) -> Tokens, x: T) {
    forall rest {:trigger print1(x, rest)} :: Follows(rest) ==> rule(print1(x, rest)) == Parsed(x, rest)
  }

  ghost predicate Opens<T>(starts: Token -> bool, print1: (T, Tokens) -> Tokens, x: T) {
    forall rest {:trigger print1(x, rest)} ::
      var ts := print1(x, rest); Length(ts) > Length(rest) && starts(ts.head) && Follows(ts)
  }

  lemma ManyGoesOn<T>(rule: Tokens -> Parsed<T>, starts: Token -> bool, ts: Tokens, x: T, behind: Tokens, xs: seq<T>,
        end: Tokens)
    requires ts.Cons? && starts(ts.head) && rule(ts) == Parsed(x, behind) && Length(behind) < Length(ts)
    requires Many(rule, starts, behind) == Parsed(xs, end)
    ensures Many(rule, starts, ts) == Parsed([x] + xs, end)
  {
  }

  ghost predicate AllInvert<T>(rule: Tokens -> Parsed<T>, starts: Token -> bool, print1: (T, Tokens) -> Tokens,
        xs: seq<T>) {
    forall x :: x in xs ==> Inverts(rule, print1, x) && Opens(starts, print1, x)
  }

  lemma ElementInverts<T>(rule: Tokens -> Parsed<T>, starts: Token -> bool, print1: (T, Tokens) -> Tokens, x: T,
        behind: Tokens)
    requires Inverts(rule, print1, x) && Opens(starts, print1, x) && Follows(behind)
    ensures var ts := print1(x, behind);
      rule(ts) == Parsed(x, behind) && Length(behind) < Length(ts) && starts(ts.head) && Follows(ts)
  {
  }

  lemma FirstInverts<T>(rule: Tokens -> Parsed<T>, starts: Token -> bool, print1: (T, Tokens) -> Tokens, xs: seq<T>)
    requires AllInvert(rule, starts, print1, xs) && xs != []
    ensures Inverts(rule, print1, xs[0]) && Opens(starts, print1, xs[0])
    ensures AllInvert(rule, starts, print1, xs[1..])
  {
    assert xs[0] in xs && forall x :: x in xs[1..] ==> x in xs;
  }

  lemma {:induction false} ManyInverts<T>(rule: Tokens -> Parsed<T>, starts: Token -> bool,
      print1: (T, Tokens) -> Tokens, xs: seq<T>, rest: Tokens)
    requires AllInvert(rule, starts, print1, xs)
    requires Follows(rest) && (rest.End? || !starts(rest.head))
    ensures Many(rule, starts, PrintAll(xs, print1, rest)) == Parsed(xs, rest)
    ensures Follows(PrintAll(xs, print1, rest)) && Length(PrintAll(xs, print1, rest)) >= Length(rest)
  {
    if xs != [] {
      var behind := PrintAll(xs[1..], print1, rest);
      FirstInverts(rule, starts, print1, xs);
      ManyInverts(rule, starts, print1, xs[1..], rest);
      ElementInverts(rule, starts, print1, xs[0], behind);
      ManyGoesOn(rule, starts, print1(xs[0], behind), xs[0], behind, xs[1..], rest);
      assert [xs[0]] + xs[1..] == xs;
    }
  }

  // The same for what comes behind the list, if the last element can be told from it.
  lemma {:induction false} ManyInvertsBefore<T>(rule: Tokens -> Parsed<T>, starts: Token -> bool,
      print1: (T, Tokens) -> Tokens, xs: seq<T>, rest: Tokens)
    requires AllInvert(rule, starts, print1, xs) && (rest.End? || !starts(rest.head))
    requires xs != [] ==> rule(print1(xs[|xs| - 1], rest)) == Parsed(xs[|xs| - 1], rest)
    ensures var ts := PrintAll(xs, print1, rest);
      && Many(rule, starts, ts) == Parsed(xs, rest)
      && if xs == [] then ts == rest else ts.Cons? && starts(ts.head) && Follows(ts)
  {
    if xs != [] {
      var behind := PrintAll(xs[1..], print1, rest);
      FirstInverts(rule, starts, print1, xs);
      ManyInvertsBefore(rule, starts, print1, xs[1..], rest);
      if |xs| > 1 {
        ElementInverts(rule, starts, print1, xs[0], behind);
      }
      ManyGoesOn(rule, starts, print1(xs[0], behind), xs[0], behind, xs[1..], rest);
      assert [xs[0]] + xs[1..] == xs;
    }
  }

  lemma MetasInvert(ms: seq<Meta>, rest: Tokens)
    requires rest.Cons? && Follows(rest) && !IsMeta(rest.head)
    ensures var ts := PrintMetas(ms, rest);
      && ParseMetas(ts) == Parsed(ms, rest)
      && AfterMetas(ts) == rest
      && Length(ts) >= Length(rest)
      && Follows(ts) && (IsMeta(ts.head) || ts.head == rest.head)
  {
    ManyInverts(ParseMeta, IsMeta, PrintMeta, ms, rest);
    PredictionSkipsMetas(ms, rest);
  }

  lemma MetasParse(ms: seq<Meta>, rest: Tokens)
    requires rest.Cons? && Follows(rest) && !IsMeta(rest.head)
    ensures ParseMetas(PrintMetas(ms, rest)) == Parsed(ms, rest)
  {
    MetasInvert(ms, rest);
  }

  lemma {:induction false} PredictionSkipsMetas(ms: seq<Meta>, rest: Tokens)
    requires rest.Cons? && !IsMeta(rest.head)
    ensures var ts := PrintMetas(ms, rest);
      AfterMetas(ts) == rest && Length(ts) >= Length(rest) && ts.Cons? && (IsMeta(ts.head) || ts.head == rest.head)
  {
    if ms != [] {
      PredictionSkipsMetas(ms[1..], rest);
    }
  }

  lemma SchemaInverts(s: SchemaTree, rest: Tokens)
    requires rest.End? || rest.head != LBracket
    ensures ParseSchema(PrintSchema(s, rest)) == Parsed(s, rest)
  {
  }

  lemma ParamInvertsAt(p: ParamTree, rest: Tokens)
    requires Follows(rest)
    ensures ParseParam(PrintParam(p, rest)) == Parsed(p, rest)
  {
    SchemaInverts(p.schema, PrintIf(p.comma, Comma, rest));
  }

  lemma ParamInverts(p: ParamTree)
    ensures Inverts(ParseParam, PrintParam, p) && Opens(IsName, PrintParam, p)
  {
    forall rest | Follows(rest)
      ensures ParseParam(PrintParam(p, rest)) == Parsed(p, rest)
    {
      ParamInvertsAt(p, rest);
    }
  }

  lemma AllParamsInvert(ps: seq<ParamTree>)
    ensures AllInvert(ParseParam, IsName, PrintParam, ps)
  {
    forall p | p in ps
      ensures Inverts(ParseParam, PrintParam, p) && Opens(IsName, PrintParam, p)
    {
      ParamInverts(p);
    }
  }

  lemma {:induction false} ParamsInvert(ps: seq<ParamTree>, rest: Tokens)
    ensures ParseParams(PrintParams(ps, rest)) == Parsed(ps, rest)
    ensures Length(PrintParams(ps, rest)) > Length(rest)
  {
    AllParamsInvert(ps);
    ManyInverts(ParseParam, IsName, PrintParam, ps, Cons(RParen, rest));
  }

  lemma TypedInverts(readonly: bool, name: string, s: SchemaTree, semicolon: bool, rest: Tokens)
    requires Follows(rest)
    ensures var ts, end := PrintTyped(readonly, name, s, semicolon, rest), PrintIf(semicolon, Semicolon, rest);
      && Skip(ts, KwReadonly) == (readonly, Cons(Identifier(name), Cons(Colon, PrintSchema(s, end))))
      && ParseSchema(PrintSchema(s, end)) == Parsed(s, end)
      && Skip(end, Semicolon) == (semicolon, rest)
      && ts.Cons? && Follows(ts) && !IsMeta(ts.head)
  {
    SchemaInverts(s, PrintIf(semicolon, Semicolon, rest));
  }

  lemma FieldInvertsAt(f: FieldTree, rest: Tokens)
    requires Follows(rest)
    ensures ParseField(PrintField(f, rest)) == Parsed(f, rest)
  {
    TypedInverts(f.readonly, f.name, f.schema, f.semicolon, rest);
    MetasParse(f.metas, PrintTyped(f.readonly, f.name, f.schema, f.semicolon, rest));
  }

  lemma FieldInverts(f: FieldTree)
    ensures Inverts(ParseField, PrintField, f) && Opens(StartsField, PrintField, f)
  {
    forall rest
      ensures Follows(rest) ==> ParseField(PrintField(f, rest)) == Parsed(f, rest)
      ensures var ts := PrintField(f, rest); Length(ts) > Length(rest) && StartsField(ts.head) && Follows(ts)
    {
      MetasInvert(f.metas, PrintTyped(f.readonly, f.name, f.schema, f.semicolon, rest));
      if Follows(rest) {
        FieldInvertsAt(f, rest);
      }
    }
  }

  lemma AllFieldsInvert(fs: seq<FieldTree>)
    ensures AllInvert(ParseField, StartsField, PrintField, fs)
  {
    forall f | f in fs
      ensures Inverts(ParseField, PrintField, f) && Opens(StartsField, PrintField, f)
    {
      FieldInverts(f);
    }
  }

  lemma ValueInverts(value: Option<int>, comma: bool, rest: Tokens)
    requires Follows(rest)
    ensures var end := PrintIf(comma, Comma, rest);
      ParseValue(PrintValue(value, end)) == Parsed(value, end) && Skip(end, Comma) == (comma, rest)
  {
  }

  lemma EnumMemberInvertsAt(m: EnumMemberTree, rest: Tokens)
    requires Follows(rest)
    ensures ParseEnumMember(PrintEnumMember(m, rest)) == Parsed(m, rest)
  {
    MetasParse(m.metas, PrintName(m.name, PrintValue(m.value, PrintIf(m.comma, Comma, rest))));
    ValueInverts(m.value, m.comma, rest);
  }

  lemma EnumMemberInverts(m: EnumMemberTree)
    ensures Inverts(ParseEnumMember, PrintEnumMember, m) && Opens(StartsEnumMember, PrintEnumMember, m)
  {
    forall rest
      ensures Follows(rest) ==> ParseEnumMember(PrintEnumMember(m, rest)) == Parsed(m, rest)
      ensures var ts := PrintEnumMember(m, rest); Length(ts) > Length(rest) && StartsEnumMember(ts.head) && Follows(ts)
    {
      MetasInvert(m.metas, PrintName(m.name, PrintValue(m.value, PrintIf(m.comma, Comma, rest))));
      if Follows(rest) {
        EnumMemberInvertsAt(m, rest);
      }
    }
  }

  lemma AllEnumMembersInvert(ms: seq<EnumMemberTree>)
    ensures AllInvert(ParseEnumMember, StartsEnumMember, PrintEnumMember, ms)
  {
    forall m | m in ms
      ensures Inverts(ParseEnumMember, PrintEnumMember, m) && Opens(StartsEnumMember, PrintEnumMember, m)
    {
      EnumMemberInverts(m);
    }
  }

  // The part of a member behind its meta lines, and what the prediction sees there.
  lemma MemberBodyShape(m: MemberTree, rest: Tokens)
    ensures var body := PrintMemberBody(m, rest);
      Length(body) > Length(rest) && Follows(body) && StartsMember(body.head) && !IsMeta(body.head)
  {
    match m
    case PropertyTree(_, _, _, _, _) =>
    case OperationTree(_, _, params, ret, semicolon) =>
      var end := PrintReturn(ret, PrintIf(semicolon, Semicolon, rest));
      assert Length(PrintParams(params, end)) > Length(end) by {
        ParamsInvert(params, end);
      }
    case SignalTree(_, _, params, semicolon) =>
      var end := PrintIf(semicolon, Semicolon, rest);
      assert Length(PrintParams(params, end)) > Length(end) by {
        ParamsInvert(params, end);
      }
  }

  lemma MemberPrediction(m: MemberTree, rest: Tokens)
    ensures PredictMember(PrintMember(m, rest)) ==
            match m
            case PropertyTree(_, _, _, _, _) => AsProperty
            case OperationTree(_, _, _, _, _) => AsOperation
            case SignalTree(_, _, _, _) => AsSignal
  {
    MemberBodyShape(m, rest);
    MetasInvert(m.metas, PrintMemberBody(m, rest));
  }

  lemma PropertyInverts(m: MemberTree, rest: Tokens)
    requires m.PropertyTree? && Follows(rest)
    ensures ParseProperty(PrintMember(m, rest)) == Parsed(m, rest)
  {
    TypedInverts(m.readonly, m.name, m.schema, m.semicolon, rest);
    MetasParse(m.metas, PrintTyped(m.readonly, m.name, m.schema, m.semicolon, rest));
  }

  lemma ReturnInverts(ret: Option<SchemaTree>, semicolon: bool, rest: Tokens)
    requires Follows(rest)
    ensures var end := PrintIf(semicolon, Semicolon, rest);
      ParseReturn(PrintReturn(ret, end)) == Parsed(ret, end) && Skip(end, Semicolon) == (semicolon, rest)
  {
    if ret.Some? {
      SchemaInverts(ret.value, PrintIf(semicolon, Semicolon, rest));
    }
  }

  lemma OperationInverts(m: MemberTree, rest: Tokens)
    requires m.OperationTree? && Follows(rest)
    ensures ParseOperation(PrintMember(m, rest)) == Parsed(m, rest)
  {
    MetasParse(m.metas, PrintMemberBody(m, rest));
    ReturnInverts(m.ret, m.semicolon, rest);
    ParamsInvert(m.params, PrintReturn(m.ret, PrintIf(m.semicolon, Semicolon, rest)));
  }

  lemma SignalInverts(m: MemberTree, rest: Tokens)
    requires m.SignalTree? && Follows(rest)
    ensures ParseSignal(PrintMember(m, rest)) == Parsed(m, rest)
  {
    var end := PrintIf(m.semicolon, Semicolon, rest);
    var ts := Cons(KwSignal, PrintName(m.name, PrintParams(m.params, end)));
    ParamsInvert(m.params, end);
    MetasParse(m.metas, ts);
    assert PrintMember(m, rest) == PrintMetas(m.metas, ts) && Skip(end, Semicolon) == (m.semicolon, rest);
  }

  lemma MemberInverts(m: MemberTree)
    ensures Inverts(ParseMember, PrintMember, m) && Opens(StartsMember, PrintMember, m)
  {
    forall rest
      ensures Follows(rest) ==> ParseMember(PrintMember(m, rest)) == Parsed(m, rest)
      ensures var ts := PrintMember(m, rest); Length(ts) > Length(rest) && StartsMember(ts.head) && Follows(ts)
    {
      MemberBodyShape(m, rest);
      MetasInvert(m.metas, PrintMemberBody(m, rest));
      MemberPrediction(m, rest);
      if Follows(rest) {
        match m
        case PropertyTree(_, _, _, _, _) => PropertyInverts(m, rest);
        case OperationTree(_, _, _, _, _) => OperationInverts(m, rest);
        case SignalTree(_, _, _, _) => SignalInverts(m, rest);
      }
    }
  }

  lemma AllMembersInvert(ms: seq<MemberTree>)
    ensures AllInvert(ParseMember, StartsMember, PrintMember, ms)
  {
    forall m | m in ms
      ensures Inverts(ParseMember, PrintMember, m) && Opens(StartsMember, PrintMember, m)
    {
      MemberInverts(m);
    }
  }

  lemma BlockInverts<T>(rule: Tokens -> Parsed<T>, starts: Token -> bool, print1: (T, Tokens) -> Tokens, xs: seq<T>,
        rest: Tokens)
    requires AllInvert(rule, starts, print1, xs) && !starts(RBrace)
    ensures Block(rule, starts, PrintBlock(xs, print1, rest)) == Parsed(xs, rest)
    ensures Length(PrintBlock(xs, print1, rest)) > Length(rest)
  {
    ManyInverts(rule, starts, print1, xs, Cons(RBrace, rest));
  }

  lemma MembersInvert(xs: seq<MemberTree>, rest: Tokens)
    ensures Block(ParseMember, StartsMember, PrintBlock(xs, PrintMember, rest)) == Parsed(xs, rest)
    ensures Length(PrintBlock(xs, PrintMember, rest)) > Length(rest)
  {
    AllMembersInvert(xs);
    BlockInverts(ParseMember, StartsMember, PrintMember, xs, rest);
  }

  lemma FieldsInvert(xs: seq<FieldTree>, rest: Tokens)
    ensures Block(ParseField, StartsField, PrintBlock(xs, PrintField, rest)) == Parsed(xs, rest)
    ensures Length(PrintBlock(xs, PrintField, rest)) > Length(rest)
  {
    AllFieldsInvert(xs);
    BlockInverts(ParseField, StartsField, PrintField, xs, rest);
  }

  lemma {:induction false} EnumMembersInvert(xs: seq<EnumMemberTree>, rest: Tokens)
    ensures Block(ParseEnumMember, StartsEnumMember, PrintBlock(xs, PrintEnumMember, rest)) == Parsed(xs, rest)
    ensures Length(PrintBlock(xs, PrintEnumMember, rest)) > Length(rest)
  {
    AllEnumMembersInvert(xs);
    BlockInverts(ParseEnumMember, StartsEnumMember, PrintEnumMember, xs, rest);
  }

  lemma DeclBodyShape(d: DeclTree, rest: Tokens)
    ensures var body := PrintDeclBody(d, rest);
      Length(body) > Length(rest) && Follows(body) && StartsDecl(body.head) && !IsMeta(body.head)
  {
    match d
    case ExternTree(_, _, _) =>
    case InterfaceTree(_, _, base, members) =>
      assert Length(PrintBlock(members, PrintMember, rest)) > Length(rest) by {
        MembersInvert(members, rest);
      }
    case StructTree(_, _, fields) =>
      assert Length(PrintBlock(fields, PrintField, rest)) > Length(rest) by {
        FieldsInvert(fields, rest);
      }
    case EnumTree(_, _, values) =>
      assert Length(PrintBlock(values, PrintEnumMember, rest)) > Length(rest) by {
        EnumMembersInvert(values, rest);
      }
  }

  lemma BaseInverts(base: Option<string>, rest: Tokens)
    requires rest.Cons? && rest.head == LBrace
    ensures ParseBase(PrintBase(base, rest)) == Parsed(base, rest)
  {
  }

  lemma InterfaceInverts(d: DeclTree, rest: Tokens)
    requires d.InterfaceTree?
    ensures ParseInterface(PrintDecl(d, rest)) == Parsed(d, rest)
  {
    var block := PrintBlock(d.members, PrintMember, rest);
    var head := PrintBase(d.base, block);
    var ts := Cons(KwInterface, PrintName(d.name, head));
    BaseInverts(d.base, block);
    MembersInvert(d.members, rest);
    MetasParse(d.metas, ts);
    assert PrintDecl(d, rest) == PrintMetas(d.metas, ts);
  }

  lemma StructInverts(d: DeclTree, rest: Tokens)
    requires d.StructTree?
    ensures ParseStruct(PrintDecl(d, rest)) == Parsed(d, rest)
  {
    var ts := Cons(KwStruct, PrintName(d.name, PrintBlock(d.fields, PrintField, rest)));
    FieldsInvert(d.fields, rest);
    MetasParse(d.metas, ts);
    assert PrintDecl(d, rest) == PrintMetas(d.metas, ts);
  }

  lemma EnumInverts(d: DeclTree, rest: Tokens)
    requires d.EnumTree?
    ensures ParseEnum(PrintDecl(d, rest)) == Parsed(d, rest)
  {
    var ts := Cons(KwEnum, PrintName(d.name, PrintBlock(d.values, PrintEnumMember, rest)));
    EnumMembersInvert(d.values, rest);
    MetasParse(d.metas, ts);
    assert PrintDecl(d, rest) == PrintMetas(d.metas, ts);
  }

  lemma ExternInverts(d: DeclTree, rest: Tokens)
    requires d.ExternTree? && (rest.End? || !DeclTakes(d, rest.head))
    ensures ParseExtern(PrintDecl(d, rest)) == Parsed(d, rest)
  {
    MetasParse(d.metas, PrintDeclBody(d, rest));
  }

  lemma DeclInverts(d: DeclTree)
    ensures Inverts(ParseDecl, PrintDecl, d) && Opens(StartsDecl, PrintDecl, d)
  {
    forall rest
      ensures Follows(rest) ==> ParseDecl(PrintDecl(d, rest)) == Parsed(d, rest)
      ensures var ts := PrintDecl(d, rest); Length(ts) > Length(rest) && StartsDecl(ts.head) && Follows(ts)
    {
      DeclBodyShape(d, rest);
      MetasInvert(d.metas, PrintDeclBody(d, rest));
      if Follows(rest) {
        DeclInvertsBefore(d, rest);
      }
    }
  }

  lemma AllDeclsInvert(ds: seq<DeclTree>)
    ensures AllInvert(ParseDecl, StartsDecl, PrintDecl, ds)
  {
    forall d | d in ds
      ensures Inverts(ParseDecl, PrintDecl, d) && Opens(StartsDecl, PrintDecl, d)
    {
      DeclInverts(d);
    }
  }

  lemma AllImportsInvert(is_: seq<ImportTree>)
    ensures AllInvert(ParseImport, IsImport, PrintImport, is_)
  {
    forall i | i in is_
      ensures Inverts(ParseImport, PrintImport, i) && Opens(IsImport, PrintImport, i)
    {
      forall rest | Follows(rest)
        ensures ParseImport(PrintImport(i, rest)) == Parsed(i, rest)
      {
      }
    }
  }

  // ------------------------------------------------------------------------
  // What can go on behind a complete document
  // ------------------------------------------------------------------------

  // A module or import line still takes a semicolon, and a version before it.
  predicate LineTakes(version: Option<string>, semicolon: bool, t: Token) {
    !semicolon && (t == Semicolon || (version.None? && t.Version?))
  }

  predicate HeaderTakes(h: HeaderTree, t: Token) {
    || IsImport(t)
    || if h.imports == [] then LineTakes(h.mod.version, h.mod.semicolon, t)
       else var last := h.imports[|h.imports| - 1]; LineTakes(last.version, last.semicolon, t)
  }

  // Only an extern has an optional part at its end.
  predicate DeclTakes(d: DeclTree, t: Token) {
    d.ExternTree? && !d.semicolon && t == Semicolon
  }

  predicate DocumentTakes(d: DocumentTree, t: Token) {
    DeclsTake(d.decls, t) || (d.decls == [] && HeaderTakes(d.header, t))
  }

  lemma ModuleInverts(m: ModuleTree, rest: Tokens)
    requires rest.End? || !LineTakes(m.version, m.semicolon, rest.head)
    ensures ParseModule(PrintModule(m, rest)) == Parsed(m, rest)
  {
    MetasParse(m.metas,
      Cons(KwModule, PrintName(m.name, PrintVersion(m.version, PrintIf(m.semicolon, Semicolon, rest)))));
  }

  lemma ImportInvertsBefore(i: ImportTree, rest: Tokens)
    requires rest.End? || !LineTakes(i.version, i.semicolon, rest.head)
    ensures ParseImport(PrintImport(i, rest)) == Parsed(i, rest)
  {
  }

  function Keyword(d: DeclTree): Token {
    match d
    case ExternTree(_, _, _) => KwExtern
    case InterfaceTree(_, _, _, _) => KwInterface
    case StructTree(_, _, _) => KwStruct
    case EnumTree(_, _, _) => KwEnum
  }

  // The prediction for a declaration sees its keyword.
  lemma DeclPrediction(d: DeclTree, rest: Tokens)
    ensures Next(AfterMetas(PrintDecl(d, rest)), Keyword(d))
  {
    DeclBodyShape(d, rest);
    PredictionSkipsMetas(d.metas, PrintDeclBody(d, rest));
  }

  lemma DeclPredicted(d: DeclTree, ts: Tokens)
    requires Next(AfterMetas(ts), Keyword(d))
    ensures ParseDecl(ts) ==
            match d
            case ExternTree(_, _, _) => ParseExtern(ts)
            case InterfaceTree(_, _, _, _) => ParseInterface(ts)
            case StructTree(_, _, _) => ParseStruct(ts)
            case EnumTree(_, _, _) => ParseEnum(ts)
  {
  }

  lemma DeclInvertsBefore(d: DeclTree, rest: Tokens)
    requires rest.End? || !DeclTakes(d, rest.head)
    ensures ParseDecl(PrintDecl(d, rest)) == Parsed(d, rest)
  {
    DeclPrediction(d, rest);
    DeclPredicted(d, PrintDecl(d, rest));
    match d
    case ExternTree(_, _, _) => ExternInverts(d, rest);
    case InterfaceTree(_, _, _, _) => InterfaceInverts(d, rest);
    case StructTree(_, _, _) => StructInverts(d, rest);
    case EnumTree(_, _, _) => EnumInverts(d, rest);
  }

  lemma HeaderInverts(h: HeaderTree, rest: Tokens)
    requires rest.End? || !HeaderTakes(h, rest.head)
    ensures ParseHeader(PrintHeader(h, rest)) == Parsed(h, rest)
  {
    AllImportsInvert(h.imports);
    if h.imports != [] {
      ImportInvertsBefore(h.imports[|h.imports| - 1], rest);
    }
    ManyInvertsBefore(ParseImport, IsImport, PrintImport, h.imports, rest);
    ModuleInverts(h.mod, PrintAll(h.imports, PrintImport, rest));
  }

  lemma HeaderTakesNoDecl(h: HeaderTree, t: Token)
    requires StartsDecl(t)
    ensures !HeaderTakes(h, t)
  {
  }

  predicate DeclsTake(ds: seq<DeclTree>, t: Token) {
    StartsDecl(t) || (ds != [] && DeclTakes(ds[|ds| - 1], t))
  }

  lemma {:induction false} DeclsInvert(ds: seq<DeclTree>, rest: Tokens)
    requires rest.End? || !DeclsTake(ds, rest.head)
    ensures var ts := PrintAll(ds, PrintDecl, rest);
      && Many(ParseDecl, StartsDecl, ts) == Parsed(ds, rest)
      && if ds == [] then ts == rest else ts.Cons? && StartsDecl(ts.head)
  {
    AllDeclsInvert(ds);
    if ds != [] {
      DeclInvertsBefore(ds[|ds| - 1], rest);
    }
    ManyInvertsBefore(ParseDecl, StartsDecl, PrintDecl, ds, rest);
  }

  // Parsing undoes printing: the tree comes back with every choice it records, and
  // the tokens behind it are left, whenever they cannot go on with the document.
  lemma {:induction false} ParsingUndoesPrinting(d: DocumentTree, rest: Tokens)
    requires rest.End? || !DocumentTakes(d, rest.head)
    ensures ParseDocument(PrintDocument(d, rest)) == Parsed(d, rest)
  {
    DeclsInvert(d.decls, rest);
    if d.decls != [] {
      HeaderTakesNoDecl(d.header, PrintAll(d.decls, PrintDecl, rest).head);
    }
    HeaderInverts(d.header, PrintAll(d.decls, PrintDecl, rest));
  }

  // ------------------------------------------------------------------------
  // Nothing else is parsed
  // ------------------------------------------------------------------------

  ghost predicate SoundAt<T>(rule: Tokens -> Parsed<T>, print1: (T, Tokens) -> Tokens, ts: Tokens) {
    rule(ts).Parsed? ==> ts == print1(rule(ts).tree, rule(ts).rest)
  }

  ghost predicate Sound<T>(rule: Tokens -> Parsed<T>, print1: (T, Tokens) -> Tokens) {
    forall ts :: SoundAt(rule, print1, ts)
  }

  lemma {:induction false} ManySound<T>(rule: Tokens -> Parsed<T>, starts: Token -> bool, print1: (T,
        Tokens) -> Tokens, ts: Tokens)
    requires Sound(rule, print1)
    ensures var r := Many(rule, starts, ts);
      r.Parsed? ==> ts == PrintAll(r.tree, print1, r.rest)
    decreases Length(ts)
  {
    if ts.Cons? && starts(ts.head) && rule(ts).Parsed? && Length(rule(ts).rest) < Length(ts) {
      assert SoundAt(rule, print1, ts);
      ManySound(rule, starts, print1, rule(ts).rest);
    }
  }

  lemma MetasSound(ts: Tokens)
    ensures SoundAt(ParseMetas, PrintMetas, ts)
  {
    forall s
      ensures SoundAt(ParseMeta, PrintMeta, s)
    {
    }
    ManySound(ParseMeta, IsMeta, PrintMeta, ts);
  }

  lemma SchemaSound(ts: Tokens)
    ensures SoundAt(ParseSchema, PrintSchema, ts)
  {
  }

  lemma ParamSound(ts: Tokens)
    ensures SoundAt(ParseParam, PrintParam, ts)
  {
    if ParseParam(ts).Parsed? {
      SchemaSound(ts.tail.tail);
    }
  }

  lemma ParamsSound(ts: Tokens)
    ensures SoundAt(ParseParams, PrintParams, ts)
  {
    forall s
      ensures SoundAt(ParseParam, PrintParam, s)
    {
      ParamSound(s);
    }
    if ParseParams(ts).Parsed? {
      ManySound(ParseParam, IsName, PrintParam, ts.tail);
    }
  }

  lemma BlockSound<T>(rule: Tokens -> Parsed<T>, starts: Token -> bool, print1: (T, Tokens) -> Tokens, ts: Tokens)
    requires Sound(rule, print1)
    ensures var r := Block(rule, starts, ts);
      r.Parsed? ==> ts == PrintBlock(r.tree, print1, r.rest)
  {
    if Block(rule, starts, ts).Parsed? {
      ManySound(rule, starts, print1, ts.tail);
    }
  }

  // The tail of a property or a field, behind the meta lines.
  lemma TypedSound(ts: Tokens)
    ensures var (readonly, t1) := Skip(ts, KwReadonly);
      t1.Cons? && t1.head.Identifier? && Next(t1.tail, Colon) && ParseSchema(t1.tail.tail).Parsed? ==>
        var s := ParseSchema(t1.tail.tail);
        var (semicolon, rest) := Skip(s.rest, Semicolon);
        ts == PrintTyped(readonly, t1.head.text, s.tree, semicolon, rest)
  {
    var (readonly, t1) := Skip(ts, KwReadonly);
    if t1.Cons? && t1.head.Identifier? && Next(t1.tail, Colon) {
      SchemaSound(t1.tail.tail);
    }
  }

  lemma FieldSound(ts: Tokens)
    ensures SoundAt(ParseField, PrintField, ts)
  {
    MetasSound(ts);
    if ParseMetas(ts).Parsed? {
      TypedSound(ParseMetas(ts).rest);
    }
  }

  lemma PropertySound(ts: Tokens)
    ensures SoundAt(ParseProperty, PrintMember, ts)
  {
    MetasSound(ts);
    if ParseMetas(ts).Parsed? {
      TypedSound(ParseMetas(ts).rest);
    }
  }

  lemma ReturnSound(ts: Tokens)
    ensures SoundAt(ParseReturn, PrintReturn, ts)
  {
    if Next(ts, Colon) {
      SchemaSound(ts.tail);
    }
  }

  lemma OperationSound(ts: Tokens)
    ensures SoundAt(ParseOperation, PrintMember, ts)
  {
    MetasSound(ts);
    if ParseOperation(ts).Parsed? {
      var t1 := ParseMetas(ts).rest.tail;
      ParamsSound(t1);
      ReturnSound(ParseParams(t1).rest);
    }
  }

  lemma SignalSound(ts: Tokens)
    ensures SoundAt(ParseSignal, PrintMember, ts)
  {
    MetasSound(ts);
    if ParseSignal(ts).Parsed? {
      ParamsSound(ParseMetas(ts).rest.tail.tail);
    }
  }

  lemma MemberSound(ts: Tokens)
    ensures SoundAt(ParseMember, PrintMember, ts)
  {
    match PredictMember(ts)
    case AsProperty => PropertySound(ts);
    case AsOperation => OperationSound(ts);
    case AsSignal => SignalSound(ts);
    case NoMember =>
  }

  lemma EnumMemberSound(ts: Tokens)
    ensures SoundAt(ParseEnumMember, PrintEnumMember, ts)
  {
    MetasSound(ts);
  }

  lemma AllMembersSound()
    ensures Sound(ParseMember, PrintMember)
  {
    forall ts
      ensures SoundAt(ParseMember, PrintMember, ts)
    {
      MemberSound(ts);
    }
  }

  lemma AllFieldsSound()
    ensures Sound(ParseField, PrintField)
  {
    forall ts
      ensures SoundAt(ParseField, PrintField, ts)
    {
      FieldSound(ts);
    }
  }

  lemma AllEnumMembersSound()
    ensures Sound(ParseEnumMember, PrintEnumMember)
  {
    forall ts
      ensures SoundAt(ParseEnumMember, PrintEnumMember, ts)
    {
      EnumMemberSound(ts);
    }
  }

  lemma BaseSound(ts: Tokens)
    ensures SoundAt(ParseBase, PrintBase, ts)
  {
  }

  lemma ExternSound(ts: Tokens)
    ensures SoundAt(ParseExtern, PrintDecl, ts)
  {
    MetasSound(ts);
  }

  lemma InterfaceSound(ts: Tokens)
    ensures SoundAt(ParseInterface, PrintDecl, ts)
  {
    MetasSound(ts);
    if ParseInterface(ts).Parsed? {
      var head := ParseMetas(ts).rest.tail.tail;
      BaseSound(head);
      AllMembersSound();
      BlockSound(ParseMember, StartsMember, PrintMember, ParseBase(head).rest);
    }
  }

  lemma StructSound(ts: Tokens)
    ensures SoundAt(ParseStruct, PrintDecl, ts)
  {
    MetasSound(ts);
    if ParseStruct(ts).Parsed? {
      AllFieldsSound();
      BlockSound(ParseField, StartsField, PrintField, ParseMetas(ts).rest.tail.tail);
    }
  }

  lemma EnumSound(ts: Tokens)
    ensures SoundAt(ParseEnum, PrintDecl, ts)
  {
    MetasSound(ts);
    if ParseEnum(ts).Parsed? {
      AllEnumMembersSound();
      BlockSound(ParseEnumMember, StartsEnumMember, PrintEnumMember, ParseMetas(ts).rest.tail.tail);
    }
  }

  lemma DeclSound(ts: Tokens)
    ensures SoundAt(ParseDecl, PrintDecl, ts)
  {
    var s := AfterMetas(ts);
    if Next(s, KwExtern) {
      ExternSound(ts);
    } else if Next(s, KwInterface) {
      InterfaceSound(ts);
    } else if Next(s, KwStruct) {
      StructSound(ts);
    } else if Next(s, KwEnum) {
      EnumSound(ts);
    }
  }

  lemma ModuleSound(ts: Tokens)
    ensures SoundAt(ParseModule, PrintModule, ts)
  {
    MetasSound(ts);
  }

  lemma ImportSound(ts: Tokens)
    ensures SoundAt(ParseImport, PrintImport, ts)
  {
  }

  lemma AllImportsSound()
    ensures Sound(ParseImport, PrintImport)
  {
    forall ts
      ensures SoundAt(ParseImport, PrintImport, ts)
    {
      ImportSound(ts);
    }
  }

  lemma HeaderSound(ts: Tokens)
    ensures SoundAt(ParseHeader, PrintHeader, ts)
  {
    ModuleSound(ts);
    if ParseModule(ts).Parsed? {
      AllImportsSound();
      ManySound(ParseImport, IsImport, PrintImport, ParseModule(ts).rest);
    }
  }

  lemma DocumentSound(ts: Tokens)
    ensures SoundAt(ParseDocument, PrintDocument, ts)
  {
    HeaderSound(ts);
    if ParseHeader(ts).Parsed? {
      assert Sound(ParseDecl, PrintDecl) by {
        forall s
          ensures SoundAt(ParseDecl, PrintDecl, s)
        {
          DeclSound(s);
        }
      }
      ManySound(ParseDecl, StartsDecl, PrintDecl, ParseHeader(ts).rest);
    }
  }

  // ------------------------------------------------------------------------
  // The parser leaves nothing that it could take
  // ------------------------------------------------------------------------

  ghost predicate Leaves<T>(rule: Tokens -> Parsed<T>, x: T, rest: Tokens) {
    exists ts :: rule(ts) == Parsed(x, rest)
  }

  lemma {:induction false} ManyStops<T>(rule: Tokens -> Parsed<T>, starts: Token -> bool, ts: Tokens, xs: seq<T>,
        rest: Tokens)
    requires Many(rule, starts, ts) == Parsed(xs, rest)
    ensures rest.End? || !starts(rest.head)
    ensures if xs == [] then rest == ts else Leaves(rule, xs[|xs| - 1], rest)
    decreases Length(ts)
  {
    if ts.Cons? && starts(ts.head) {
      var x, behind := rule(ts).tree, rule(ts).rest;
      assert xs == [x] + xs[1..] && Many(rule, starts, behind) == Parsed(xs[1..], rest);
      ManyStops(rule, starts, behind, xs[1..], rest);
      if |xs| == 1 {
        assert rule(ts) == Parsed(x, rest);
      }
    }
  }

  lemma ModuleStops(ts: Tokens)
    requires ParseModule(ts).Parsed?
    ensures var r := ParseModule(ts); r.rest.End? || !LineTakes(r.tree.version, r.tree.semicolon, r.rest.head)
  {
  }

  lemma ImportStops(i: ImportTree, rest: Tokens)
    requires Leaves(ParseImport, i, rest)
    ensures rest.End? || !LineTakes(i.version, i.semicolon, rest.head)
  {
  }

  lemma HeaderStops(ts: Tokens)
    requires ParseHeader(ts).Parsed?
    ensures var r := ParseHeader(ts); r.rest.End? || !HeaderTakes(r.tree, r.rest.head)
  {
    var behind := ParseModule(ts).rest;
    ModuleStops(ts);
    var r := Many(ParseImport, IsImport, behind);
    ManyStops(ParseImport, IsImport, behind, r.tree, r.rest);
    if r.tree != [] {
      ImportStops(r.tree[|r.tree| - 1], r.rest);
    }
  }

  lemma DeclStops(d: DeclTree, rest: Tokens)
    requires Leaves(ParseDecl, d, rest)
    ensures rest.End? || !DeclTakes(d, rest.head)
  {
  }

  lemma DeclsStop(ts: Tokens, ds: seq<DeclTree>, rest: Tokens)
    requires Many(ParseDecl, StartsDecl, ts) == Parsed(ds, rest)
    ensures (rest.End? || !DeclsTake(ds, rest.head)) && (ds == [] ==> rest == ts)
  {
    ManyStops(ParseDecl, StartsDecl, ts, ds, rest);
    if ds != [] {
      DeclStops(ds[|ds| - 1], rest);
    }
  }

  lemma DocumentStops(ts: Tokens)
    requires ParseDocument(ts).Parsed?
    ensures var r := ParseDocument(ts); r.rest.End? || !DocumentTakes(r.tree, r.rest.head)
  {
    HeaderStops(ts);
    DeclsStop(ParseHeader(ts).rest, ParseDocument(ts).tree.decls, ParseDocument(ts).rest);
  }

  // The parser returns a tree and leaves certain tokens exactly when its input is
  // that tree, printed before these tokens, and they cannot go on with it.
  lemma ParserDecidesPrinted(ts: Tokens, d: DocumentTree, rest: Tokens)
    ensures ParseDocument(ts) == Parsed(d, rest) <==>
            ts == PrintDocument(d, rest) && (rest.End? || !DocumentTakes(d, rest.head))
  {
    DocumentSound(ts);
    if ParseDocument(ts) == Parsed(d, rest) {
      DocumentStops(ts);
    }
    if rest.End? || !DocumentTakes(d, rest.head) {
      ParsingUndoesPrinting(d, rest);
    }
  }

  // How each construct is written (pkg/idl/parser/ObjectApi.g4); lists are the prints
  // of their elements one after the other.
  lemma WrittenForms(x: string, y: string, rest: Tokens)
    ensures PrintModule(ModuleTree([], x, Some(y), true), rest) ==
            Cons(KwModule, Cons(Identifier(x), Cons(Version(y), Cons(Semicolon, rest))))
    ensures PrintImport(ImportTree(x, Some(y), true), rest) ==
            Cons(KwImport, Cons(Identifier(x), Cons(Version(y), Cons(Semicolon, rest))))
    ensures PrintDecl(ExternTree([], x, true), rest) == Cons(KwExtern, Cons(Identifier(x), Cons(Semicolon, rest)))
    ensures PrintDecl(InterfaceTree([], x, Some(y), []), rest) ==
            Cons(KwInterface, Cons(Identifier(x), Cons(KwExtends, Cons(Identifier(y),
              Cons(LBrace, Cons(RBrace, rest))))))
    ensures PrintDecl(StructTree([], x, []), rest) ==
            Cons(KwStruct, Cons(Identifier(x), Cons(LBrace, Cons(RBrace, rest))))
    ensures PrintDecl(EnumTree([], x, []), rest) ==
            Cons(KwEnum, Cons(Identifier(x), Cons(LBrace, Cons(RBrace, rest))))
  {
  }

  lemma WrittenMembers(x: string, n: int, s: SchemaTree, rest: Tokens)
    ensures PrintMember(PropertyTree([], true, x, s, true), rest) ==
            Cons(KwReadonly, Cons(Identifier(x), Cons(Colon, PrintSchema(s, Cons(Semicolon, rest)))))
    ensures PrintMember(OperationTree([], x, [], Some(s), true), rest) ==
            Cons(Identifier(x), Cons(LParen, Cons(RParen, Cons(Colon, PrintSchema(s, Cons(Semicolon, rest))))))
    ensures PrintMember(SignalTree([], x, [], true), rest) ==
            Cons(KwSignal, Cons(Identifier(x), Cons(LParen, Cons(RParen, Cons(Semicolon, rest)))))
    ensures PrintParam(ParamTree(x, s, true), rest) ==
            Cons(Identifier(x), Cons(Colon, PrintSchema(s, Cons(Comma, rest))))
    ensures PrintField(FieldTree([], true, x, s, true), rest) ==
            Cons(KwReadonly, Cons(Identifier(x), Cons(Colon, PrintSchema(s, Cons(Semicolon, rest)))))
    ensures PrintEnumMember(EnumMemberTree([], x, Some(n), true), rest) ==
            Cons(Identifier(x), Cons(Equals, Cons(Integer(n), Cons(Comma, rest))))
    ensures PrintSchema(SchemaTree(PrimitiveSchema(x), true), rest) ==
            Cons(PrimitiveName(x), Cons(LBracket, Cons(RBracket, rest)))
    ensures PrintSchema(SchemaTree(SymbolSchema(x), true), rest) ==
            Cons(Identifier(x), Cons(LBracket, Cons(RBracket, rest)))
  {
  }

  // So no two trees, with whatever commas and semicolons, are printed alike.
  lemma PrintingIsInjective(a: DocumentTree, b: DocumentTree)
    requires PrintDocument(a, End) == PrintDocument(b, End)
    ensures a == b
  {
    ParsingUndoesPrinting(a, End);
    ParsingUndoesPrinting(b, End);
  }

  // Every element of a list loop consumes something: the loops end.
  lemma ParseParamShrinks(ts: Tokens)
    ensures ParseParam(ts).Parsed? ==> Length(ParseParam(ts).rest) < Length(ts)
  {
    ParamSound(ts);
  }

  lemma ParseFieldShrinks(ts: Tokens)
    ensures ParseField(ts).Parsed? ==> Length(ParseField(ts).rest) < Length(ts)
  {
    FieldSound(ts);
    if ParseField(ts).Parsed? {
      FieldInverts(ParseField(ts).tree);
    }
  }

  lemma ParseMemberShrinks(ts: Tokens)
    ensures ParseMember(ts).Parsed? ==> Length(ParseMember(ts).rest) < Length(ts)
  {
    MemberSound(ts);
    if ParseMember(ts).Parsed? {
      MemberInverts(ParseMember(ts).tree);
    }
  }

  lemma ParseEnumMemberShrinks(ts: Tokens)
    ensures ParseEnumMember(ts).Parsed? ==> Length(ParseEnumMember(ts).rest) < Length(ts)
  {
    EnumMemberSound(ts);
    if ParseEnumMember(ts).Parsed? {
      EnumMemberInverts(ParseEnumMember(ts).tree);
    }
  }

  lemma ParseDeclShrinks(ts: Tokens)
    ensures ParseDecl(ts).Parsed? ==> Length(ParseDecl(ts).rest) < Length(ts)
  {
    DeclSound(ts);
    if ParseDecl(ts).Parsed? {
      DeclInverts(ParseDecl(ts).tree);
    }
  }

  lemma ParseImportShrinks(ts: Tokens)
    ensures ParseImport(ts).Parsed? ==> Length(ParseImport(ts).rest) < Length(ts)
  {
    ImportSound(ts);
  }
}
