/**
  What a document says about the module that it is loaded as, piece by piece: a
  relation between tree and module that the translation is checked against.
  */
module Meaning {
  import opened Wrappers
  import opened Names
  import opened ApiModel
  import opened Syntax
  import opened Translation

  // ------------------------------------------------------------------------
  // Lists of some of the elements, in order
  // ------------------------------------------------------------------------

  function CountIf<T>(xs: seq<T>, p: T -> bool): nat {
    if xs == [] then 0 else CountIf(xs[..|xs| - 1], p) + if p(xs[|xs| - 1]) then 1 else 0
  }

  ghost predicate PlacedAt<T, U>(xs: seq<T>, p: T -> bool, ys: seq<U>, says: (T, U) -> bool, i: nat)
    requires i < |xs|
  {
    p(xs[i]) ==> CountIf(xs[..i], p) < |ys| && says(xs[i], ys[CountIf(xs[..i], p)])
  }

  // `ys` holds what those of `xs` say that `p` selects: each at the position that is
  // the number of selected ones before it, and nothing else.
  ghost predicate Collected<T, U>(xs: seq<T>, p: T -> bool, ys: seq<U>, says: (T, U) -> bool) {
    |ys| == CountIf(xs, p) && forall i :: 0 <= i < |xs| ==> PlacedAt(xs, p, ys, says, i)
  }

  lemma CollectedNext<T, U>(xs: seq<T>, p: T -> bool, ys: seq<U>, says: (T, U) -> bool, next: seq<U>)
    requires xs != [] && Collected(xs[..|xs| - 1], p, ys, says)
    requires if p(xs[|xs| - 1]) then |next| == 1 && says(xs[|xs| - 1], next[0]) else next == []
    ensures Collected(xs, p, ys + next, says)
  {
    var front := xs[..|xs| - 1];
    forall i | 0 <= i < |xs|
      ensures PlacedAt(xs, p, ys + next, says, i)
    {
      if i < |front| {
        assert PlacedAt(front, p, ys, says, i) && front[..i] == xs[..i];
      }
    }
  }

  // ------------------------------------------------------------------------
  // Meta lines
  // ------------------------------------------------------------------------

  predicate IsDoc(m: Meta) {
    m.Doc?
  }

  predicate IsTag(m: Meta) {
    m.Tag?
  }

  // The line is the text from n to m: before it slashes and then space, behind it
  // space, and no more of either could be cut off.
  ghost predicate CutTo(text: string, line: string, k: nat, n: nat, m: nat) {
    && k <= n <= m <= |text| && line == text[n..m]
    && (forall i :: 0 <= i < k ==> text[i] == '/') && (k < |text| ==> text[k] != '/')
    && (forall i :: k <= i < n || m <= i < |text| ==> IsSpace(text[i]))
    && (n < m ==> !IsSpace(text[n]) && !IsSpace(text[m - 1]))
  }

  ghost predicate SaysLine(m: Meta, line: string) {
    exists k, n, end :: CutTo(m.text, line, k, n, end)
  }

  predicate SaysTag(m: Meta, tag: string) {
    tag == m.text
  }

  // The doc lines are the description, the tag lines the metadata.
  ghost predicate SaysNode(name: string, kind: Kind, metas: seq<Meta>, n: NamedNode) {
    && n.name == name && n.kind == kind && n.id == 0
    && Collected(metas, IsTag, n.meta, SaysTag)
    && exists lines :: Collected(metas, IsDoc, lines, SaysLine) && n.description == Join(lines, "\n")
  }

  lemma {:induction false} TrimmedLeft(s: string, cut: char) returns (k: nat)
    ensures k <= |s| && TrimLeft(s, cut) == s[k..]
    ensures (forall i :: 0 <= i < k ==> s[i] == cut) && (k < |s| ==> s[k] != cut)
  {
    k := 0;
    if s != "" && s[0] == cut {
      k := TrimmedLeft(s[1..], cut);
      k := k + 1;
    }
  }

  lemma {:induction false} TrimmedSpace(s: string) returns (n: nat, m: nat)
    ensures n <= m <= |s| && TrimSpace(s) == s[n..m]
    ensures forall i :: 0 <= i < n || m <= i < |s| ==> IsSpace(s[i])
    ensures n < m ==> !IsSpace(s[n]) && !IsSpace(s[m - 1])
  {
    n, m := 0, |s|;
    if s != "" && IsSpace(s[0]) {
      n, m := TrimmedSpace(s[1..]);
      assert s[1..][n..m] == s[n + 1..m + 1];
      n, m := n + 1, m + 1;
    } else if s != "" && IsSpace(s[|s| - 1]) {
      n, m := TrimmedSpace(s[..|s| - 1]);
      assert s[..|s| - 1][n..m] == s[n..m];
    }
  }

  lemma LineIsSaid(m: Meta)
    ensures SaysLine(m, DocText(m.text))
  {
    var k := TrimmedLeft(m.text, '/');
    var n, end := TrimmedSpace(m.text[k..]);
    assert m.text[k..][n..end] == m.text[k + n..k + end];
    assert forall i :: 0 <= i < |m.text| - k ==> m.text[k..][i] == m.text[k + i];
    assert CutTo(m.text, DocText(m.text), k, k + n, k + end) by {
      forall i | k <= i < k + n || k + end <= i < |m.text|
        ensures IsSpace(m.text[i])
      {
        assert IsSpace(m.text[k..][i - k]);
      }
    }
  }

  lemma {:induction false} MetasAreSaid(ms: seq<Meta>)
    ensures Collected(ms, IsTag, TagLines(ms), SaysTag) && Collected(ms, IsDoc, DocLines(ms), SaysLine)
  {
    if ms != [] {
      var front, last := ms[..|ms| - 1], ms[|ms| - 1];
      MetasAreSaid(front);
      LineIsSaid(last);
      CollectedNext(ms, IsTag, TagLines(front), SaysTag, if last.Tag? then [last.text] else []);
      CollectedNext(ms, IsDoc, DocLines(front), SaysLine, if last.Doc? then [DocText(last.text)] else []);
    }
  }

  lemma NodeIsSaid(name: string, kind: Kind, ms: seq<Meta>)
    ensures SaysNode(name, kind, ms, WithMeta(NewNode(name, kind), ms))
  {
    MetasAreSaid(ms);
    assert Join([], "\n") == "";
  }

  // ------------------------------------------------------------------------
  // Types
  // ------------------------------------------------------------------------

  // A written name is taken apart at its last dot.
  predicate NamedBy(written: string, imp: string, local: string) {
    if '.' in written then written == imp + "." + local && '.' !in local else imp == "" && local == written
  }

  // The type is the word of the token, or the symbol that is named.
  predicate SaysType(t: SchemaTree, s: Schema) {
    && s.isArray == t.isArray && s.isPrimitive == t.base.PrimitiveSchema? && s.isSymbol == t.base.SymbolSchema?
    && match t.base
       case PrimitiveSchema(word) => s.typeName == word && s.imp == ""
       case SymbolSchema(name) => NamedBy(name, s.imp, s.typeName)
  }

  ghost predicate SaysTyped(name: string, kind: Kind, metas: seq<Meta>, readonly: bool, schema: SchemaTree,
        t: TypedNode)
  {
    SaysNode(name, kind, metas, t.node) && t.isReadOnly == readonly && SaysType(schema, t.schema)
  }

  lemma NameIsTakenApart(written: string)
    ensures NamedBy(written, ImportOf(written), LocalOf(written))
  {
    if '.' in written {
      DottedSplits(written);
      RequalifiedName(written);
    } else {
      SplitOfPlain(written, '.');
    }
  }

  lemma TypedIsSaid(name: string, kind: Kind, metas: seq<Meta>, readonly: bool, s: SchemaTree)
    ensures SaysTyped(name, kind, metas, readonly, s, ToTyped(name, kind, metas, readonly, s))
  {
    NodeIsSaid(name, kind, metas);
    if s.base.SymbolSchema? {
      NameIsTakenApart(s.base.name);
    }
  }

  // The token that is consumed for a primitive type gives the type its name.
  lemma TypeIsTheToken(word: string, isArray: bool, rest: Tokens)
    ensures var s := SchemaTree(PrimitiveSchema(word), isArray);
      PrintSchema(s, rest).head == PrimitiveName(word) && ToSchema(s).typeName == word
  {
  }

  // ------------------------------------------------------------------------
  // Declarations
  // ------------------------------------------------------------------------

  ghost predicate SaysParams(ps: seq<ParamTree>, ts: seq<TypedNode>) {
    |ts| == |ps| && forall j :: 0 <= j < |ps| ==> SaysTyped(ps[j].name, KindParam, [], false, ps[j].schema, ts[j])
  }

  predicate IsProperty(m: MemberTree) {
    m.PropertyTree?
  }

  predicate IsOperation(m: MemberTree) {
    m.OperationTree?
  }

  predicate IsSignal(m: MemberTree) {
    m.SignalTree?
  }

  ghost predicate SaysProperty(m: MemberTree, t: TypedNode) {
    m.PropertyTree? && SaysTyped(m.name, KindProperty, m.metas, m.readonly, m.schema, t)
  }

  ghost predicate SaysOperation(m: MemberTree, o: Operation) {
    && m.OperationTree? && SaysNode(m.name, KindOperation, m.metas, o.node) && SaysParams(m.params, o.params)
    && match m.ret
       case None => o.ret.None?
       case Some(s) => o.ret.Some? && SaysTyped("", KindReturn, [], false, s, o.ret.value)
  }

  ghost predicate SaysSignal(m: MemberTree, s: Signal) {
    m.SignalTree? && SaysNode(m.name, KindSignal, m.metas, s.node) && SaysParams(m.params, s.params)
  }

  predicate SaysBase(base: Option<string>, e: Extends) {
    match base
    case None => e.name == "" && e.imp == ""
    case Some(written) => NamedBy(written, e.imp, e.name)
  }

  ghost predicate SaysInterface(d: DeclTree, i: Interface) {
    && d.InterfaceTree? && SaysNode(d.name, KindInterface, d.metas, i.node) && SaysBase(d.base, i.extends_)
    && Collected(d.members, IsProperty, i.properties, SaysProperty)
    && Collected(d.members, IsOperation, i.operations, SaysOperation)
    && Collected(d.members, IsSignal, i.signals, SaysSignal)
  }

  ghost predicate SaysStruct(d: DeclTree, s: Struct) {
    && d.StructTree? && SaysNode(d.name, KindStruct, d.metas, s.node) && |s.fields| == |d.fields|
    && forall j :: 0 <= j < |d.fields| ==>
         var f := d.fields[j]; SaysTyped(f.name, KindField, f.metas, f.readonly, f.schema, s.fields[j])
  }

  // A member without a value has the number of such members before it.
  ghost predicate SaysMember(ms: seq<EnumMemberTree>, j: nat, m: EnumMember)
    requires j < |ms|
  {
    && SaysNode(ms[j].name, KindMember, ms[j].metas, m.node)
    && m.value == if ms[j].value.Some? then ms[j].value.value else CountIf(ms[..j], HasNoValue)
  }

  predicate HasNoValue(m: EnumMemberTree) {
    m.value.None?
  }

  ghost predicate SaysEnum(d: DeclTree, e: Enum) {
    && d.EnumTree? && SaysNode(d.name, KindEnum, d.metas, e.node) && |e.members| == |d.values|
    && forall j :: 0 <= j < |d.values| ==> SaysMember(d.values, j, e.members[j])
  }

  ghost predicate SaysExtern(d: DeclTree, x: Extern) {
    d.ExternTree? && SaysNode(d.name, KindExtern, d.metas, x.node)
  }

  lemma ParamsAreSaid(ps: seq<ParamTree>)
    ensures SaysParams(ps, ToParams(ps))
  {
    forall j | 0 <= j < |ps|
      ensures SaysTyped(ps[j].name, KindParam, [], false, ps[j].schema, ToParams(ps)[j])
    {
      TypedIsSaid(ps[j].name, KindParam, [], false, ps[j].schema);
    }
  }

  lemma {:induction false} PropertiesAreSaid(ms: seq<MemberTree>)
    ensures Collected(ms, IsProperty, ToProperties(ms), SaysProperty)
  {
    if ms != [] {
      var front, m := ms[..|ms| - 1], ms[|ms| - 1];
      PropertiesAreSaid(front);
      if m.PropertyTree? {
        TypedIsSaid(m.name, KindProperty, m.metas, m.readonly, m.schema);
      }
      CollectedNext(ms, IsProperty, ToProperties(front), SaysProperty, if m.PropertyTree? then [ToProperty(m)] else []);
    }
  }

  lemma OperationIsSaid(m: MemberTree)
    requires m.OperationTree?
    ensures SaysOperation(m, ToOperation(m))
  {
    NodeIsSaid(m.name, KindOperation, m.metas);
    ParamsAreSaid(m.params);
    if m.ret.Some? {
      TypedIsSaid("", KindReturn, [], false, m.ret.value);
    }
  }

  lemma {:induction false} OperationsAreSaid(ms: seq<MemberTree>)
    ensures Collected(ms, IsOperation, ToOperations(ms), SaysOperation)
  {
    if ms != [] {
      var front, m := ms[..|ms| - 1], ms[|ms| - 1];
      OperationsAreSaid(front);
      if m.OperationTree? {
        OperationIsSaid(m);
      }
      CollectedNext(ms, IsOperation, ToOperations(front), SaysOperation,
                    if m.OperationTree? then [ToOperation(m)] else []);
    }
  }

  lemma {:induction false} SignalsAreSaid(ms: seq<MemberTree>)
    ensures Collected(ms, IsSignal, ToSignals(ms), SaysSignal)
  {
    if ms != [] {
      var front, m := ms[..|ms| - 1], ms[|ms| - 1];
      SignalsAreSaid(front);
      if m.SignalTree? {
        NodeIsSaid(m.name, KindSignal, m.metas);
        ParamsAreSaid(m.params);
      }
      CollectedNext(ms, IsSignal, ToSignals(front), SaysSignal, if m.SignalTree? then [ToSignal(m)] else []);
    }
  }

  lemma InterfaceIsSaid(d: DeclTree)
    requires d.InterfaceTree?
    ensures SaysInterface(d, ToInterface(d))
  {
    NodeIsSaid(d.name, KindInterface, d.metas);
    if d.base.Some? {
      NameIsTakenApart(d.base.value);
    }
    PropertiesAreSaid(d.members);
    OperationsAreSaid(d.members);
    SignalsAreSaid(d.members);
  }

  lemma StructIsSaid(d: DeclTree)
    requires d.StructTree?
    ensures SaysStruct(d, ToStruct(d))
  {
    NodeIsSaid(d.name, KindStruct, d.metas);
    forall j | 0 <= j < |d.fields|
      ensures var f := d.fields[j]; SaysTyped(f.name, KindField, f.metas, f.readonly, f.schema, ToFields(d.fields)[j])
    {
      var f := d.fields[j];
      TypedIsSaid(f.name, KindField, f.metas, f.readonly, f.schema);
    }
  }

  lemma {:induction false} UnvaluedCounts(ms: seq<EnumMemberTree>, n: nat)
    requires n <= |ms|
    ensures Unvalued(ms, n) == CountIf(ms[..n], HasNoValue)
  {
    if n > 0 {
      UnvaluedCounts(ms, n - 1);
      assert ms[..n][..n - 1] == ms[..n - 1];
    }
  }

  lemma EnumIsSaid(d: DeclTree)
    requires d.EnumTree?
    ensures SaysEnum(d, ToEnum(d))
  {
    NodeIsSaid(d.name, KindEnum, d.metas);
    forall j | 0 <= j < |d.values|
      ensures SaysMember(d.values, j, ToEnumMembers(d.values)[j])
    {
      NodeIsSaid(d.values[j].name, KindMember, d.values[j].metas);
      UnvaluedCounts(d.values, j);
    }
  }

  // ------------------------------------------------------------------------
  // Documents
  // ------------------------------------------------------------------------

  predicate IsExtern(d: DeclTree) {
    d.ExternTree?
  }

  predicate IsInterface(d: DeclTree) {
    d.InterfaceTree?
  }

  predicate IsStruct(d: DeclTree) {
    d.StructTree?
  }

  predicate IsEnum(d: DeclTree) {
    d.EnumTree?
  }

  ghost predicate SaysDecls(ds: seq<DeclTree>, m: Module) {
    && Collected(ds, IsExtern, m.externs, SaysExtern)
    && Collected(ds, IsInterface, m.interfaces, SaysInterface)
    && Collected(ds, IsStruct, m.structs, SaysStruct)
    && Collected(ds, IsEnum, m.enums, SaysEnum)
  }

  ghost predicate SaysHeader(h: HeaderTree, m: Module) {
    && SaysNode(h.mod.name, KindModule, h.mod.metas, m.node)
    && m.version == (match h.mod.version case Some(v) => v case None => "1.0")
    && |m.imports| == |h.imports|
    && forall j :: 0 <= j < |h.imports| ==> SaysNode(h.imports[j].name, KindImport, [], m.imports[j].node)
  }

  // Everything that a document says about its module.
  ghost predicate Says(d: DocumentTree, m: Module) {
    SaysHeader(d.header, m) && SaysDecls(d.decls, m) && m.attached && m.checksum.None?
  }

  lemma DeclIsSaid(ds: seq<DeclTree>, m: Module)
    requires ds != [] && SaysDecls(ds[..|ds| - 1], m)
    ensures SaysDecls(ds, AddDecl(m, ds[|ds| - 1]))
  {
    var d := ds[|ds| - 1];
    match d {
      case ExternTree(_, _, _) => NodeIsSaid(d.name, KindExtern, d.metas);
      case InterfaceTree(_, _, _, _) => InterfaceIsSaid(d);
      case StructTree(_, _, _) => StructIsSaid(d);
      case EnumTree(_, _, _) => EnumIsSaid(d);
    }
    CollectedNext(ds, IsExtern, m.externs, SaysExtern, if d.ExternTree? then [ToExtern(d)] else []);
    CollectedNext(ds, IsInterface, m.interfaces, SaysInterface, if d.InterfaceTree? then [ToInterface(d)] else []);
    CollectedNext(ds, IsStruct, m.structs, SaysStruct, if d.StructTree? then [ToStruct(d)] else []);
    CollectedNext(ds, IsEnum, m.enums, SaysEnum, if d.EnumTree? then [ToEnum(d)] else []);
    var r := AddDecl(m, d);
    assert r.externs == m.externs + (if d.ExternTree? then [ToExtern(d)] else []);
    assert r.interfaces == m.interfaces + (if d.InterfaceTree? then [ToInterface(d)] else []);
    assert r.structs == m.structs + (if d.StructTree? then [ToStruct(d)] else []);
    assert r.enums == m.enums + (if d.EnumTree? then [ToEnum(d)] else []);
  }

  ghost predicate SameHead(a: Module, b: Module) {
    a.node == b.node && a.version == b.version && a.imports == b.imports && a.attached == b.attached &&
    a.checksum == b.checksum
  }

  lemma {:induction false} DeclsAreSaid(m: Module, ds: seq<DeclTree>)
    requires SaysDecls([], m)
    ensures SaysDecls(ds, AddDecls(m, ds)) && SameHead(AddDecls(m, ds), m)
  {
    if ds != [] {
      DeclsAreSaid(m, ds[..|ds| - 1]);
      DeclIsSaid(ds, AddDecls(m, ds[..|ds| - 1]));
    }
  }

  lemma HeaderIsSaid(h: HeaderTree)
    ensures SaysHeader(h, ToHeader(h)) && SaysDecls([], ToHeader(h))
  {
    NodeIsSaid(h.mod.name, KindModule, h.mod.metas);
    forall j | 0 <= j < |h.imports|
      ensures SaysNode(h.imports[j].name, KindImport, [], ToImports(h.imports)[j].node)
    {
      NodeIsSaid(h.imports[j].name, KindImport, []);
    }
  }

  // The module that a document is loaded as is the one that it describes.
  lemma ModuleIsSaid(d: DocumentTree)
    ensures Says(d, ToModule(d))
  {
    HeaderIsSaid(d.header);
    DeclsAreSaid(ToHeader(d.header), d.decls);
  }
}
