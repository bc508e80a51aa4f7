/** What the text that is hashed for a module depends on, and what it can tell apart. */
module Checksums {
  import opened Wrappers
  import opened Names
  import opened ApiModel
  import opened Identifiers
  import opened Lists
  import opened SystemProperties
  import opened Validation

  type Comparison = (string, string) -> bool

  predicate Equal(a: string, b: string) {
    a == b
  }

  predicate SameLength(a: string, b: string) {
    |a| == |b|
  }

  // ------------------------------------------------------------------------
  // The names, types and values of two modules, compared one by one
  // ------------------------------------------------------------------------

  predicate TypedMatch(eq: Comparison, a: TypedNode, b: TypedNode) {
    eq(a.node.name, b.node.name) && eq(a.schema.typeName, b.schema.typeName)
  }

  ghost predicate TypedNodesMatch(eq: Comparison, a: seq<TypedNode>, b: seq<TypedNode>) {
    |a| == |b| && forall j :: 0 <= j < |a| ==> TypedMatch(eq, a[j], b[j])
  }

  function ReturnType(o: Operation): string {
    match o.ret
    case Some(t) => t.schema.typeName
    case None => ""
  }

  ghost predicate OperationMatch(eq: Comparison, a: Operation, b: Operation) {
    eq(a.node.name, b.node.name) && TypedNodesMatch(eq, a.params, b.params) && eq(ReturnType(a), ReturnType(b))
  }

  ghost predicate SignalMatch(eq: Comparison, a: Signal, b: Signal) {
    eq(a.node.name, b.node.name) && TypedNodesMatch(eq, a.params, b.params)
  }

  ghost predicate InterfaceMatch(eq: Comparison, a: Interface, b: Interface) {
    && eq(a.node.name, b.node.name) && TypedNodesMatch(eq, a.properties, b.properties)
    && |a.operations| == |b.operations|
    && (forall j :: 0 <= j < |a.operations| ==> OperationMatch(eq, a.operations[j], b.operations[j]))
    && |a.signals| == |b.signals|
    && (forall j :: 0 <= j < |a.signals| ==> SignalMatch(eq, a.signals[j], b.signals[j]))
  }

  ghost predicate StructMatch(eq: Comparison, a: Struct, b: Struct) {
    eq(a.node.name, b.node.name) && TypedNodesMatch(eq, a.fields, b.fields)
  }

  predicate MemberMatch(eq: Comparison, a: EnumMember, b: EnumMember) {
    eq(a.node.name, b.node.name) && eq(Itoa(a.value), Itoa(b.value))
  }

  ghost predicate EnumMatch(eq: Comparison, a: Enum, b: Enum) {
    && eq(a.node.name, b.node.name) && |a.members| == |b.members|
    && forall j :: 0 <= j < |a.members| ==> MemberMatch(eq, a.members[j], b.members[j])
  }

  ghost predicate ModuleMatch(eq: Comparison, a: Module, b: Module) {
    && eq(a.node.name, b.node.name)
    && |a.interfaces| == |b.interfaces|
    && (forall j :: 0 <= j < |a.interfaces| ==> InterfaceMatch(eq, a.interfaces[j], b.interfaces[j]))
    && |a.structs| == |b.structs|
    && (forall j :: 0 <= j < |a.structs| ==> StructMatch(eq, a.structs[j], b.structs[j]))
    && |a.enums| == |b.enums|
    && (forall j :: 0 <= j < |a.enums| ==> EnumMatch(eq, a.enums[j], b.enums[j]))
  }

  // ------------------------------------------------------------------------
  // Texts of pieces of equal lengths are equal exactly if the pieces are
  // ------------------------------------------------------------------------

  lemma TwoTold(a: string, b: string, c: string, d: string)
    requires |a| == |c|
    ensures a + b == c + d <==> a == c && b == d
  {
    assert (a + b)[..|a|] == a && (c + d)[..|c|] == c && (a + b)[|a|..] == b && (c + d)[|c|..] == d;
  }

  lemma {:induction false} FlattenLength<T>(xs: seq<T>, ys: seq<T>, f: T -> string)
    requires |xs| == |ys| && forall j :: 0 <= j < |xs| ==> |f(xs[j])| == |f(ys[j])|
    ensures |Flatten(xs, f)| == |Flatten(ys, f)|
  {
    if xs != [] {
      FlattenLength(xs[..|xs| - 1], ys[..|ys| - 1], f);
    }
  }

  lemma ManyTold<T>(xs: seq<T>, ys: seq<T>, f: T -> string)
    requires |xs| == |ys| && forall j :: 0 <= j < |xs| ==> |f(xs[j])| == |f(ys[j])|
    ensures |Flatten(xs, f)| == |Flatten(ys, f)|
    ensures Flatten(xs, f) == Flatten(ys, f) <==> forall j :: 0 <= j < |xs| ==> f(xs[j]) == f(ys[j])
  {
    FlattenLength(xs, ys, f);
    if Flatten(xs, f) == Flatten(ys, f) {
      FlattenInjective(xs, ys, f);
    }
    if forall j :: 0 <= j < |xs| ==> f(xs[j]) == f(ys[j]) {
      FlattenSame(xs, ys, f);
    }
  }

  lemma TypedTold(a: TypedNode, b: TypedNode)
    requires TypedMatch(SameLength, a, b)
    ensures |TypedText(a)| == |TypedText(b)| && (TypedText(a) == TypedText(b) <==> TypedMatch(Equal, a, b))
  {
    TwoTold(a.node.name, a.schema.typeName, b.node.name, b.schema.typeName);
  }

  lemma TypedNodesTold(a: seq<TypedNode>, b: seq<TypedNode>)
    requires TypedNodesMatch(SameLength, a, b)
    ensures var s, t := Flatten(a, TypedText), Flatten(b, TypedText);
      |s| == |t| && (s == t <==> TypedNodesMatch(Equal, a, b))
  {
    forall j | 0 <= j < |a|
      ensures |TypedText(a[j])| == |TypedText(b[j])|
      ensures TypedText(a[j]) == TypedText(b[j]) <==> TypedMatch(Equal, a[j], b[j])
    {
      TypedTold(a[j], b[j]);
    }
    ManyTold(a, b, TypedText);
  }

  lemma OperationTold(a: Operation, b: Operation)
    requires OperationMatch(SameLength, a, b)
    ensures |OperationText(a)| == |OperationText(b)|
    ensures OperationText(a) == OperationText(b) <==> OperationMatch(Equal, a, b)
  {
    var s, t := Flatten(a.params, TypedText), Flatten(b.params, TypedText);
    TypedNodesTold(a.params, b.params);
    TwoTold(a.node.name, s, b.node.name, t);
    TwoTold(a.node.name + s, ReturnType(a), b.node.name + t, ReturnType(b));
  }

  lemma SignalTold(a: Signal, b: Signal)
    requires SignalMatch(SameLength, a, b)
    ensures |SignalText(a)| == |SignalText(b)| && (SignalText(a) == SignalText(b) <==> SignalMatch(Equal, a, b))
  {
    TypedNodesTold(a.params, b.params);
    TwoTold(a.node.name, Flatten(a.params, TypedText), b.node.name, Flatten(b.params, TypedText));
  }

  lemma OperationsTold(a: seq<Operation>, b: seq<Operation>)
    requires |a| == |b| && forall j :: 0 <= j < |a| ==> OperationMatch(SameLength, a[j], b[j])
    ensures |Flatten(a, OperationText)| == |Flatten(b, OperationText)|
    ensures Flatten(a, OperationText) == Flatten(b, OperationText) <==>
            forall j :: 0 <= j < |a| ==> OperationMatch(Equal, a[j], b[j])
  {
    forall j | 0 <= j < |a|
      ensures |OperationText(a[j])| == |OperationText(b[j])|
      ensures OperationText(a[j]) == OperationText(b[j]) <==> OperationMatch(Equal, a[j], b[j])
    {
      OperationTold(a[j], b[j]);
    }
    ManyTold(a, b, OperationText);
  }

  lemma SignalsTold(a: seq<Signal>, b: seq<Signal>)
    requires |a| == |b| && forall j :: 0 <= j < |a| ==> SignalMatch(SameLength, a[j], b[j])
    ensures |Flatten(a, SignalText)| == |Flatten(b, SignalText)|
    ensures Flatten(a, SignalText) == Flatten(b, SignalText) <==>
            forall j :: 0 <= j < |a| ==> SignalMatch(Equal, a[j], b[j])
  {
    forall j | 0 <= j < |a|
      ensures |SignalText(a[j])| == |SignalText(b[j])|
      ensures SignalText(a[j]) == SignalText(b[j]) <==> SignalMatch(Equal, a[j], b[j])
    {
      SignalTold(a[j], b[j]);
    }
    ManyTold(a, b, SignalText);
  }

  lemma InterfaceTold(a: Interface, b: Interface)
    requires InterfaceMatch(SameLength, a, b)
    ensures |InterfaceText(a)| == |InterfaceText(b)|
    ensures InterfaceText(a) == InterfaceText(b) <==> InterfaceMatch(Equal, a, b)
  {
    OperationsTold(a.operations, b.operations);
    TypedNodesTold(a.properties, b.properties);
    SignalsTold(a.signals, b.signals);
    FourTold(a.node.name, Flatten(a.operations, OperationText), Flatten(a.properties, TypedText),
             Flatten(a.signals, SignalText), b.node.name, Flatten(b.operations, OperationText),
             Flatten(b.properties, TypedText), Flatten(b.signals, SignalText));
  }

  lemma FourTold(a: string, b: string, c: string, d: string, e: string, f: string, g: string, h: string)
    requires |a| == |e| && |b| == |f| && |c| == |g|
    ensures a + b + c + d == e + f + g + h <==> a == e && b == f && c == g && d == h
  {
    TwoTold(a, b, e, f);
    TwoTold(a + b, c, e + f, g);
    TwoTold(a + b + c, d, e + f + g, h);
  }

  lemma StructTold(a: Struct, b: Struct)
    requires StructMatch(SameLength, a, b)
    ensures |StructText(a)| == |StructText(b)| && (StructText(a) == StructText(b) <==> StructMatch(Equal, a, b))
  {
    TypedNodesTold(a.fields, b.fields);
    TwoTold(a.node.name, Flatten(a.fields, TypedText), b.node.name, Flatten(b.fields, TypedText));
  }

  lemma EnumTold(a: Enum, b: Enum)
    requires EnumMatch(SameLength, a, b)
    ensures |EnumText(a)| == |EnumText(b)| && (EnumText(a) == EnumText(b) <==> EnumMatch(Equal, a, b))
  {
    forall j | 0 <= j < |a.members|
      ensures |MemberText(a.members[j])| == |MemberText(b.members[j])|
      ensures MemberText(a.members[j]) == MemberText(b.members[j]) <==>
              MemberMatch(Equal, a.members[j], b.members[j])
    {
      TwoTold(a.members[j].node.name, Itoa(a.members[j].value), b.members[j].node.name, Itoa(b.members[j].value));
    }
    ManyTold(a.members, b.members, MemberText);
    TwoTold(a.node.name, Flatten(a.members, MemberText), b.node.name, Flatten(b.members, MemberText));
  }

  lemma InterfacesTold(a: seq<Interface>, b: seq<Interface>)
    requires |a| == |b| && forall j :: 0 <= j < |a| ==> InterfaceMatch(SameLength, a[j], b[j])
    ensures |Flatten(a, InterfaceText)| == |Flatten(b, InterfaceText)|
    ensures Flatten(a, InterfaceText) == Flatten(b, InterfaceText) <==>
            forall j :: 0 <= j < |a| ==> InterfaceMatch(Equal, a[j], b[j])
  {
    forall j | 0 <= j < |a|
      ensures |InterfaceText(a[j])| == |InterfaceText(b[j])|
      ensures InterfaceText(a[j]) == InterfaceText(b[j]) <==> InterfaceMatch(Equal, a[j], b[j])
    {
      InterfaceTold(a[j], b[j]);
    }
    ManyTold(a, b, InterfaceText);
  }

  lemma StructsTold(a: seq<Struct>, b: seq<Struct>)
    requires |a| == |b| && forall j :: 0 <= j < |a| ==> StructMatch(SameLength, a[j], b[j])
    ensures |Flatten(a, StructText)| == |Flatten(b, StructText)|
    ensures Flatten(a, StructText) == Flatten(b, StructText) <==>
            forall j :: 0 <= j < |a| ==> StructMatch(Equal, a[j], b[j])
  {
    forall j | 0 <= j < |a|
      ensures |StructText(a[j])| == |StructText(b[j])|
      ensures StructText(a[j]) == StructText(b[j]) <==> StructMatch(Equal, a[j], b[j])
    {
      StructTold(a[j], b[j]);
    }
    ManyTold(a, b, StructText);
  }

  lemma EnumsTold(a: seq<Enum>, b: seq<Enum>)
    requires |a| == |b| && forall j :: 0 <= j < |a| ==> EnumMatch(SameLength, a[j], b[j])
    ensures |Flatten(a, EnumText)| == |Flatten(b, EnumText)|
    ensures Flatten(a, EnumText) == Flatten(b, EnumText) <==>
            forall j :: 0 <= j < |a| ==> EnumMatch(Equal, a[j], b[j])
  {
    forall j | 0 <= j < |a|
      ensures |EnumText(a[j])| == |EnumText(b[j])|
      ensures EnumText(a[j]) == EnumText(b[j]) <==> EnumMatch(Equal, a[j], b[j])
    {
      EnumTold(a[j], b[j]);
    }
    ManyTold(a, b, EnumText);
  }

  // Of two modules of the same shape, whose names, types and values have the same
  // lengths, the texts are equal exactly if all names, types and values are: no piece
  // is left out.
  lemma ChecksumTellsApart(a: Module, b: Module)
    requires ModuleMatch(SameLength, a, b)
    ensures ChecksumText(a) == ChecksumText(b) <==> ModuleMatch(Equal, a, b)
  {
    InterfacesTold(a.interfaces, b.interfaces);
    StructsTold(a.structs, b.structs);
    EnumsTold(a.enums, b.enums);
    FourTold(a.node.name, Flatten(a.interfaces, InterfaceText), Flatten(a.structs, StructText),
             Flatten(a.enums, EnumText), b.node.name, Flatten(b.interfaces, InterfaceText),
             Flatten(b.structs, StructText), Flatten(b.enums, EnumText));
  }

  lemma InterfaceLengths(a: Interface, b: Interface)
    requires InterfaceMatch(Equal, a, b)
    ensures InterfaceMatch(SameLength, a, b)
  {
  }

  // And nothing else counts: read-only and array flags, imports, descriptions, ids,
  // base interfaces, externs and versions do not change the text.
  lemma NothingElseCounts(a: Module, b: Module)
    requires ModuleMatch(Equal, a, b)
    ensures ChecksumText(a) == ChecksumText(b)
  {
    forall j | 0 <= j < |a.interfaces|
      ensures InterfaceMatch(SameLength, a.interfaces[j], b.interfaces[j])
    {
      InterfaceLengths(a.interfaces[j], b.interfaces[j]);
    }
    ChecksumTellsApart(a, b);
  }

  // After a successful validation a module has the checksum of what it is then.
  lemma ChecksumOfModule(before: seq<Module>, after: seq<Module>, k: nat)
    requires ValidationOutcome(before, after) && k < |before|
    ensures |after| == |before| && after[k].checksum == Some(ChecksumText(after[k]))
  {
    ModulesIdempotent(before);
    SettledModules(ValidatedModules(before), after);
    assert ValidatedModules(after)[k] == after[k];
  }

  // ------------------------------------------------------------------------
  // Numbers as text
  // ------------------------------------------------------------------------

  lemma NumbersAreToldApart(a: int, b: int)
    ensures Itoa(a) == Itoa(b) <==> a == b
  {
    ItoaSaysNumber(a);
    ItoaSaysNumber(b);
  }

  // ------------------------------------------------------------------------
  // The order of the pieces, and what it leaves open
  // ------------------------------------------------------------------------

  lemma FlattenTwo<T>(x: T, y: T, f: T -> string)
    ensures Flatten([x], f) == f(x) && Flatten([x, y], f) == f(x) + f(y)
  {
    assert [x][..0] == [] && [x, y][..1] == [x];
  }

  // Parameters before the return type, operations before properties before signals,
  // interfaces before structs before enums; lists in order.
  lemma OrderOfThePieces(name: string, p: TypedNode, q: TypedNode, ret: TypedNode, o: Operation, x: Signal,
        i: Interface, s: Struct, e: Enum, a: EnumMember, b: EnumMember)
    ensures OperationText(Operation(NewNode(name, KindOperation), [p, q], Some(ret))) ==
            name + (p.node.name + p.schema.typeName + (q.node.name + q.schema.typeName)) + ret.schema.typeName
    ensures SignalText(Signal(NewNode(name, KindSignal), [p, q])) ==
            name + (p.node.name + p.schema.typeName + (q.node.name + q.schema.typeName))
    ensures InterfaceText(Interface(NewNode(name, KindInterface), i.extends_, [p], [o], [x])) ==
            name + OperationText(o) + (p.node.name + p.schema.typeName) + SignalText(x)
    ensures StructText(Struct(NewNode(name, KindStruct), [p, q])) ==
            name + (p.node.name + p.schema.typeName + (q.node.name + q.schema.typeName))
    ensures EnumText(Enum(NewNode(name, KindEnum), [a, b])) ==
            name + (a.node.name + Itoa(a.value) + (b.node.name + Itoa(b.value)))
    ensures ChecksumText(NewModule(name, "").(interfaces := [i], structs := [s], enums := [e])) ==
            name + InterfaceText(i) + StructText(s) + EnumText(e)
  {
    FlattenTwo(p, q, TypedText);
    FlattenTwo(o, o, OperationText);
    FlattenTwo(x, x, SignalText);
    FlattenTwo(i, i, InterfaceText);
    FlattenTwo(s, s, StructText);
    FlattenTwo(e, e, EnumText);
    FlattenTwo(a, b, MemberText);
  }

  function Typed(name: string, typeName: string): TypedNode {
    TypedNode(NewNode(name, KindField), EmptySchema.(typeName := typeName), false)
  }

  // Pieces are not separated, so that moving a letter from a type to the name before
  // it leaves the text alone.
  lemma ChecksumsCollide()
    ensures var a, b := Struct(NewNode("S", KindStruct), [Typed("ab", "c")]),
                        Struct(NewNode("S", KindStruct), [Typed("a", "bc")]);
      var m := NewModule("m", "1.0");
      ChecksumText(m.(structs := [a])) == ChecksumText(m.(structs := [b])) && !StructMatch(Equal, a, b)
  {
    assert "ab" + "c" == "a" + "bc";
  }
}
