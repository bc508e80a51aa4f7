/**
  The ids of System.computeIdentifier (pkg/model/system.go): one running counter
  over modules, interfaces with their operations, properties and signals, structs
  with their fields, and enums with their members, in that order.
  */
module Identifiers {
  import opened ApiModel
  import opened Lists

  // ------------------------------------------------------------------------
  // Reading ids, in traversal order
  // ------------------------------------------------------------------------

  function TypedId(t: TypedNode): seq<nat> { [t.node.id] }

  function OperationId(o: Operation): seq<nat> { [o.node.id] }

  function SignalId(s: Signal): seq<nat> { [s.node.id] }

  function MemberId(m: EnumMember): seq<nat> { [m.node.id] }

  function InterfaceIds(i: Interface): seq<nat> {
    [i.node.id] + Flatten(i.operations, OperationId) + Flatten(i.properties, TypedId) + Flatten(i.signals, SignalId)
  }

  function StructIds(s: Struct): seq<nat> {
    [s.node.id] + Flatten(s.fields, TypedId)
  }

  function EnumIds(e: Enum): seq<nat> {
    [e.node.id] + Flatten(e.members, MemberId)
  }

  function ModuleIds(m: Module): seq<nat> {
    [m.node.id] + Flatten(m.interfaces, InterfaceIds) + Flatten(m.structs, StructIds) + Flatten(m.enums, EnumIds)
  }

  ghost predicate CountsFrom(ids: seq<nat>, first: nat) {
    forall i :: 0 <= i < |ids| ==> ids[i] == first + i
  }

  lemma CountsConcat(a: seq<nat>, b: seq<nat>, first: nat)
    requires CountsFrom(a, first) && CountsFrom(b, first + |a|)
    ensures CountsFrom(a + b, first)
  {
  }

  // One more element of a list whose contributions count.
  lemma CountsPush<T>(xs: seq<T>, x: T, ids: T -> seq<nat>, first: nat)
    requires CountsFrom(Flatten(xs, ids), first) && CountsFrom(ids(x), first + |Flatten(xs, ids)|)
    ensures CountsFrom(Flatten(xs + [x], ids), first)
    ensures |Flatten(xs + [x], ids)| == |Flatten(xs, ids)| + |ids(x)|
  {
    FlattenPush(xs, x, ids);
    CountsConcat(Flatten(xs, ids), ids(x), first);
  }

  lemma CountsEqual(a: seq<nat>, b: seq<nat>, first: nat)
    requires |a| == |b| && CountsFrom(a, first) && CountsFrom(b, first)
    ensures a == b
  {
  }

  lemma CountsConcat4(a: seq<nat>, b: seq<nat>, c: seq<nat>, d: seq<nat>, first: nat)
    requires CountsFrom(a, first) && CountsFrom(b, first + |a|) && CountsFrom(c, first + |a| + |b|)
    requires CountsFrom(d, first + |a| + |b| + |c|)
    ensures CountsFrom(a + b + c + d, first)
  {
    CountsConcat(a, b, first);
    CountsConcat(a + b, c, first);
    CountsConcat(a + b + c, d, first);
  }

  // Counting ids are exactly first .. first + n - 1, each used once.
  lemma CountingIsBijective(ids: seq<nat>, first: nat)
    requires CountsFrom(ids, first)
    ensures forall n :: n in ids <==> first <= n < first + |ids|
    ensures forall i, j :: 0 <= i < j < |ids| ==> ids[i] < ids[j]
  {
    forall n | first <= n < first + |ids|
      ensures n in ids
    {
      assert ids[n - first] == n;
    }
  }

  // ------------------------------------------------------------------------
  // Trees that differ in nothing but ids
  // ------------------------------------------------------------------------

  function Unnumbered(n: NamedNode): NamedNode {
    n.(id := 0)
  }

  ghost predicate SameTyped(a: TypedNode, b: TypedNode) {
    Unnumbered(a.node) == Unnumbered(b.node) && a.schema == b.schema && a.isReadOnly == b.isReadOnly
  }

  ghost predicate SameOperation(a: Operation, b: Operation) {
    Unnumbered(a.node) == Unnumbered(b.node) && a.params == b.params && a.ret == b.ret
  }

  ghost predicate SameSignal(a: Signal, b: Signal) {
    Unnumbered(a.node) == Unnumbered(b.node) && a.params == b.params
  }

  ghost predicate SameMember(a: EnumMember, b: EnumMember) {
    Unnumbered(a.node) == Unnumbered(b.node) && a.value == b.value
  }

  ghost predicate SameTypedNodes(a: seq<TypedNode>, b: seq<TypedNode>) {
    |a| == |b| && forall j :: 0 <= j < |a| ==> SameTyped(a[j], b[j])
  }

  ghost predicate SameOperations(a: seq<Operation>, b: seq<Operation>) {
    |a| == |b| && forall j :: 0 <= j < |a| ==> SameOperation(a[j], b[j])
  }

  ghost predicate SameSignals(a: seq<Signal>, b: seq<Signal>) {
    |a| == |b| && forall j :: 0 <= j < |a| ==> SameSignal(a[j], b[j])
  }

  ghost predicate SameMembers(a: seq<EnumMember>, b: seq<EnumMember>) {
    |a| == |b| && forall j :: 0 <= j < |a| ==> SameMember(a[j], b[j])
  }

  ghost predicate SameInterface(a: Interface, b: Interface) {
    && Unnumbered(a.node) == Unnumbered(b.node) && a.extends_ == b.extends_
    && SameOperations(a.operations, b.operations)
    && SameTypedNodes(a.properties, b.properties)
    && SameSignals(a.signals, b.signals)
  }

  ghost predicate SameStruct(a: Struct, b: Struct) {
    Unnumbered(a.node) == Unnumbered(b.node) && SameTypedNodes(a.fields, b.fields)
  }

  ghost predicate SameEnum(a: Enum, b: Enum) {
    Unnumbered(a.node) == Unnumbered(b.node) && SameMembers(a.members, b.members)
  }

  ghost predicate SameInterfaces(a: seq<Interface>, b: seq<Interface>) {
    |a| == |b| && forall j :: 0 <= j < |a| ==> SameInterface(a[j], b[j])
  }

  ghost predicate SameStructs(a: seq<Struct>, b: seq<Struct>) {
    |a| == |b| && forall j :: 0 <= j < |a| ==> SameStruct(a[j], b[j])
  }

  ghost predicate SameEnums(a: seq<Enum>, b: seq<Enum>) {
    |a| == |b| && forall j :: 0 <= j < |a| ==> SameEnum(a[j], b[j])
  }

  ghost predicate SameModule(a: Module, b: Module) {
    && Unnumbered(a.node) == Unnumbered(b.node)
    && a.version == b.version && a.imports == b.imports && a.externs == b.externs
    && a.checksum == b.checksum && a.attached == b.attached
    && SameInterfaces(a.interfaces, b.interfaces)
    && SameStructs(a.structs, b.structs)
    && SameEnums(a.enums, b.enums)
  }

  ghost predicate SameModules(a: seq<Module>, b: seq<Module>) {
    |a| == |b| && forall j :: 0 <= j < |a| ==> SameModule(a[j], b[j])
  }

  // ------------------------------------------------------------------------
  // The ids determine the rest: equal but for ids, and equal ids, is equal
  // ------------------------------------------------------------------------

  lemma {:induction false} UnitIds<T>(xs: seq<T>, id: T -> seq<nat>)
    requires forall x :: x in xs ==> |id(x)| == 1
    ensures |Flatten(xs, id)| == |xs|
  {
    if xs != [] {
      assert xs[|xs| - 1] in xs;
      UnitIds(xs[..|xs| - 1], id);
    }
  }

  lemma SplitConcat(a: seq<nat>, b: seq<nat>, c: seq<nat>, d: seq<nat>)
    requires |a| == |c| && a + b == c + d
    ensures a == c && b == d
  {
    assert (a + b)[..|a|] == a && (c + d)[..|c|] == c && (a + b)[|a|..] == b && (c + d)[|c|..] == d;
  }

  lemma TypedEqual(a: seq<TypedNode>, b: seq<TypedNode>)
    requires SameTypedNodes(a, b) && Flatten(a, TypedId) == Flatten(b, TypedId)
    ensures a == b
  {
    FlattenInjective(a, b, TypedId);
    forall j | 0 <= j < |a|
      ensures a[j] == b[j]
    {
      assert TypedId(a[j])[0] == TypedId(b[j])[0];
    }
  }

  lemma OperationsEqual(a: seq<Operation>, b: seq<Operation>)
    requires SameOperations(a, b) && Flatten(a, OperationId) == Flatten(b, OperationId)
    ensures a == b
  {
    FlattenInjective(a, b, OperationId);
    forall j | 0 <= j < |a|
      ensures a[j] == b[j]
    {
      assert OperationId(a[j])[0] == OperationId(b[j])[0];
    }
  }

  lemma SignalsEqual(a: seq<Signal>, b: seq<Signal>)
    requires SameSignals(a, b) && Flatten(a, SignalId) == Flatten(b, SignalId)
    ensures a == b
  {
    FlattenInjective(a, b, SignalId);
    forall j | 0 <= j < |a|
      ensures a[j] == b[j]
    {
      assert SignalId(a[j])[0] == SignalId(b[j])[0];
    }
  }

  lemma MembersEqual(a: seq<EnumMember>, b: seq<EnumMember>)
    requires SameMembers(a, b) && Flatten(a, MemberId) == Flatten(b, MemberId)
    ensures a == b
  {
    FlattenInjective(a, b, MemberId);
    forall j | 0 <= j < |a|
      ensures a[j] == b[j]
    {
      assert MemberId(a[j])[0] == MemberId(b[j])[0];
    }
  }

  lemma InterfaceIdsLength(i: Interface)
    ensures |InterfaceIds(i)| == 1 + |i.operations| + |i.properties| + |i.signals|
  {
    UnitIds(i.operations, OperationId);
    UnitIds(i.properties, TypedId);
    UnitIds(i.signals, SignalId);
  }

  lemma InterfaceEqual(a: Interface, b: Interface)
    requires SameInterface(a, b) && InterfaceIds(a) == InterfaceIds(b)
    ensures a == b
  {
    UnitIds(a.operations, OperationId);
    UnitIds(b.operations, OperationId);
    UnitIds(a.properties, TypedId);
    UnitIds(b.properties, TypedId);
    var ao, ap, as_ := Flatten(a.operations, OperationId), Flatten(a.properties, TypedId), Flatten(a.signals, SignalId);
    var bo, bp, bs := Flatten(b.operations, OperationId), Flatten(b.properties, TypedId), Flatten(b.signals, SignalId);
    SplitConcat([a.node.id] + ao + ap, as_, [b.node.id] + bo + bp, bs);
    SplitConcat([a.node.id] + ao, ap, [b.node.id] + bo, bp);
    SplitConcat([a.node.id], ao, [b.node.id], bo);
    assert [a.node.id][0] == [b.node.id][0];
    OperationsEqual(a.operations, b.operations);
    TypedEqual(a.properties, b.properties);
    SignalsEqual(a.signals, b.signals);
  }

  lemma StructIdsLength(s: Struct)
    ensures |StructIds(s)| == 1 + |s.fields|
  {
    UnitIds(s.fields, TypedId);
  }

  lemma StructEqual(a: Struct, b: Struct)
    requires SameStruct(a, b) && StructIds(a) == StructIds(b)
    ensures a == b
  {
    SplitConcat([a.node.id], Flatten(a.fields, TypedId), [b.node.id], Flatten(b.fields, TypedId));
    assert [a.node.id][0] == [b.node.id][0];
    TypedEqual(a.fields, b.fields);
  }

  lemma EnumIdsLength(e: Enum)
    ensures |EnumIds(e)| == 1 + |e.members|
  {
    UnitIds(e.members, MemberId);
  }

  lemma EnumEqual(a: Enum, b: Enum)
    requires SameEnum(a, b) && EnumIds(a) == EnumIds(b)
    ensures a == b
  {
    SplitConcat([a.node.id], Flatten(a.members, MemberId), [b.node.id], Flatten(b.members, MemberId));
    assert [a.node.id][0] == [b.node.id][0];
    MembersEqual(a.members, b.members);
  }

  lemma {:induction false} SameLength<T>(xs: seq<T>, ys: seq<T>, ids: T -> seq<nat>)
    requires |xs| == |ys| && forall j :: 0 <= j < |xs| ==> |ids(xs[j])| == |ids(ys[j])|
    ensures |Flatten(xs, ids)| == |Flatten(ys, ids)|
  {
    if xs != [] {
      SameLength(xs[..|xs| - 1], ys[..|ys| - 1], ids);
    }
  }

  lemma {:induction false} InterfacesEqual(a: seq<Interface>, b: seq<Interface>)
    requires SameInterfaces(a, b)
    ensures |Flatten(a, InterfaceIds)| == |Flatten(b, InterfaceIds)|
    ensures Flatten(a, InterfaceIds) == Flatten(b, InterfaceIds) ==> a == b
  {
    forall j | 0 <= j < |a|
      ensures |InterfaceIds(a[j])| == |InterfaceIds(b[j])|
    {
      InterfaceIdsLength(a[j]);
      InterfaceIdsLength(b[j]);
    }
    SameLength(a, b, InterfaceIds);
    if Flatten(a, InterfaceIds) == Flatten(b, InterfaceIds) {
      FlattenInjective(a, b, InterfaceIds);
      forall j | 0 <= j < |a|
        ensures a[j] == b[j]
      {
        InterfaceEqual(a[j], b[j]);
      }
    }
  }

  lemma StructsEqual(a: seq<Struct>, b: seq<Struct>)
    requires SameStructs(a, b)
    ensures |Flatten(a, StructIds)| == |Flatten(b, StructIds)|
    ensures Flatten(a, StructIds) == Flatten(b, StructIds) ==> a == b
  {
    forall j | 0 <= j < |a|
      ensures |StructIds(a[j])| == |StructIds(b[j])|
    {
      StructIdsLength(a[j]);
      StructIdsLength(b[j]);
    }
    SameLength(a, b, StructIds);
    if Flatten(a, StructIds) == Flatten(b, StructIds) {
      FlattenInjective(a, b, StructIds);
      forall j | 0 <= j < |a|
        ensures a[j] == b[j]
      {
        StructEqual(a[j], b[j]);
      }
    }
  }

  lemma {:induction false} EnumsEqual(a: seq<Enum>, b: seq<Enum>)
    requires SameEnums(a, b)
    ensures |Flatten(a, EnumIds)| == |Flatten(b, EnumIds)|
    ensures Flatten(a, EnumIds) == Flatten(b, EnumIds) ==> a == b
  {
    forall j | 0 <= j < |a|
      ensures |EnumIds(a[j])| == |EnumIds(b[j])|
    {
      EnumIdsLength(a[j]);
      EnumIdsLength(b[j]);
    }
    SameLength(a, b, EnumIds);
    if Flatten(a, EnumIds) == Flatten(b, EnumIds) {
      FlattenInjective(a, b, EnumIds);
      forall j | 0 <= j < |a|
        ensures a[j] == b[j]
      {
        EnumEqual(a[j], b[j]);
      }
    }
  }

  lemma ModuleEqual(a: Module, b: Module)
    requires SameModule(a, b)
    ensures |ModuleIds(a)| == |ModuleIds(b)|
    ensures ModuleIds(a) == ModuleIds(b) ==> a == b
  {
    InterfacesEqual(a.interfaces, b.interfaces);
    StructsEqual(a.structs, b.structs);
    EnumsEqual(a.enums, b.enums);
    if ModuleIds(a) == ModuleIds(b) {
      var ai, as_, ae := Flatten(a.interfaces, InterfaceIds), Flatten(a.structs, StructIds), Flatten(a.enums, EnumIds);
      var bi, bs, be := Flatten(b.interfaces, InterfaceIds), Flatten(b.structs, StructIds), Flatten(b.enums, EnumIds);
      SplitConcat([a.node.id] + ai + as_, ae, [b.node.id] + bi + bs, be);
      SplitConcat([a.node.id] + ai, as_, [b.node.id] + bi, bs);
      SplitConcat([a.node.id], ai, [b.node.id], bi);
      assert [a.node.id][0] == [b.node.id][0];
    }
  }

  // Two numberings of one system that both count from the same id are the same.
  lemma NumberingIsUnique(a: seq<Module>, b: seq<Module>, first: nat)
    requires SameModules(a, b)
    requires CountsFrom(Flatten(a, ModuleIds), first) && CountsFrom(Flatten(b, ModuleIds), first)
    ensures a == b
  {
    forall j | 0 <= j < |a|
      ensures |ModuleIds(a[j])| == |ModuleIds(b[j])|
    {
      ModuleEqual(a[j], b[j]);
    }
    SameLength(a, b, ModuleIds);
    CountsEqual(Flatten(a, ModuleIds), Flatten(b, ModuleIds), first);
    FlattenInjective(a, b, ModuleIds);
    forall j | 0 <= j < |a|
      ensures a[j] == b[j]
    {
      ModuleEqual(a[j], b[j]);
    }
  }

  // ------------------------------------------------------------------------
  // Every id in closed form
  // ------------------------------------------------------------------------

  function Sum<T>(xs: seq<T>, size: T -> nat): nat {
    if xs == [] then 0 else Sum(xs[..|xs| - 1], size) + size(xs[|xs| - 1])
  }

  // How many ids there are in a declaration or a module.
  function InterfaceSize(i: Interface): nat {
    1 + |i.operations| + |i.properties| + |i.signals|
  }

  function StructSize(s: Struct): nat {
    1 + |s.fields|
  }

  function EnumSize(e: Enum): nat {
    1 + |e.members|
  }

  function ModuleSize(m: Module): nat {
    1 + Sum(m.interfaces, InterfaceSize) + Sum(m.structs, StructSize) + Sum(m.enums, EnumSize)
  }

  ghost predicate NumberedInterface(i: Interface, first: nat) {
    && i.node.id == first
    && (forall j :: 0 <= j < |i.operations| ==> i.operations[j].node.id == first + 1 + j)
    && (forall j :: 0 <= j < |i.properties| ==> i.properties[j].node.id == first + 1 + |i.operations| + j)
    && (forall j :: 0 <= j < |i.signals| ==>
         i.signals[j].node.id == first + 1 + |i.operations| + |i.properties| + j)
  }

  ghost predicate NumberedStruct(s: Struct, first: nat) {
    s.node.id == first && forall j :: 0 <= j < |s.fields| ==> s.fields[j].node.id == first + 1 + j
  }

  ghost predicate NumberedEnum(e: Enum, first: nat) {
    e.node.id == first && forall j :: 0 <= j < |e.members| ==> e.members[j].node.id == first + 1 + j
  }

  // Each declaration begins behind all that come before it.
  ghost predicate NumberedInterfaces(is_: seq<Interface>, first: nat) {
    forall j :: 0 <= j < |is_| ==> NumberedInterface(is_[j], first + Sum(is_[..j], InterfaceSize))
  }

  ghost predicate NumberedStructs(ss: seq<Struct>, first: nat) {
    forall j :: 0 <= j < |ss| ==> NumberedStruct(ss[j], first + Sum(ss[..j], StructSize))
  }

  ghost predicate NumberedEnums(es: seq<Enum>, first: nat) {
    forall j :: 0 <= j < |es| ==> NumberedEnum(es[j], first + Sum(es[..j], EnumSize))
  }

  // The module itself, its interfaces, its structs, its enums.
  ghost predicate NumberedModule(m: Module, first: nat) {
    var atStructs := first + 1 + Sum(m.interfaces, InterfaceSize);
    var atEnums := atStructs + Sum(m.structs, StructSize);
    && m.node.id == first && NumberedInterfaces(m.interfaces, first + 1)
    && NumberedStructs(m.structs, atStructs) && NumberedEnums(m.enums, atEnums)
  }

  lemma CountsSplit(a: seq<nat>, b: seq<nat>, first: nat)
    requires CountsFrom(a + b, first)
    ensures CountsFrom(a, first) && CountsFrom(b, first + |a|)
  {
    assert forall i :: 0 <= i < |a| ==> (a + b)[i] == a[i];
    assert forall i :: 0 <= i < |b| ==> (a + b)[|a| + i] == b[i];
  }

  ghost predicate CountsIn<T>(xs: seq<T>, ids: T -> seq<nat>, size: T -> nat, first: nat, j: nat)
    requires j < |xs|
  {
    CountsFrom(ids(xs[j]), first + Sum(xs[..j], size))
  }

  ghost predicate Sized<T(!new)>(ids: T -> seq<nat>, size: T -> nat) {
    forall x :: |ids(x)| == size(x)
  }

  lemma {:induction false} SizeOfAll<T(!new)>(xs: seq<T>, ids: T -> seq<nat>, size: T -> nat)
    requires Sized(ids, size)
    ensures |Flatten(xs, ids)| == Sum(xs, size)
  {
    if xs != [] {
      SizeOfAll(xs[..|xs| - 1], ids, size);
    }
  }

  // A list that counts counts in each of its elements, from where that begins.
  lemma {:induction false} CountsAt<T(!new)>(xs: seq<T>, ids: T -> seq<nat>, size: T -> nat, first: nat, j: nat)
    requires CountsFrom(Flatten(xs, ids), first) && Sized(ids, size) && j < |xs|
    ensures CountsIn(xs, ids, size, first, j)
  {
    var front, last := xs[..|xs| - 1], xs[|xs| - 1];
    CountsSplit(Flatten(front, ids), ids(last), first);
    if j < |front| {
      CountsAt(front, ids, size, first, j);
      assert front[..j] == xs[..j];
    } else {
      SizeOfAll(front, ids, size);
    }
  }

  // Elements with one id each.
  lemma {:induction false} UnitsAt<T>(xs: seq<T>, id: T -> seq<nat>, first: nat)
    requires CountsFrom(Flatten(xs, id), first) && forall x :: x in xs ==> |id(x)| == 1
    ensures |Flatten(xs, id)| == |xs|
    ensures forall j :: 0 <= j < |xs| ==> id(xs[j]) == [first + j]
  {
    if xs != [] {
      var front, last := xs[..|xs| - 1], xs[|xs| - 1];
      CountsSplit(Flatten(front, id), id(last), first);
      assert forall x :: x in front ==> x in xs;
      UnitsAt(front, id, first);
      assert id(last) == [first + |front|];
    }
  }

  lemma InterfaceNumbers(i: Interface, first: nat)
    requires CountsFrom(InterfaceIds(i), first)
    ensures NumberedInterface(i, first)
  {
    var os, ps, ss := Flatten(i.operations, OperationId), Flatten(i.properties, TypedId), Flatten(i.signals, SignalId);
    CountsSplit([i.node.id] + os + ps, ss, first);
    CountsSplit([i.node.id] + os, ps, first);
    CountsSplit([i.node.id], os, first);
    assert [i.node.id][0] == first;
    UnitsAt(i.operations, OperationId, first + 1);
    UnitsAt(i.properties, TypedId, first + 1 + |os|);
    UnitsAt(i.signals, SignalId, first + 1 + |os| + |ps|);
    forall j | 0 <= j < |i.operations|
      ensures i.operations[j].node.id == first + 1 + j
    {
      assert OperationId(i.operations[j])[0] == first + 1 + j;
    }
    forall j | 0 <= j < |i.properties|
      ensures i.properties[j].node.id == first + 1 + |os| + j
    {
      assert TypedId(i.properties[j])[0] == first + 1 + |os| + j;
    }
    forall j | 0 <= j < |i.signals|
      ensures i.signals[j].node.id == first + 1 + |os| + |ps| + j
    {
      assert SignalId(i.signals[j])[0] == first + 1 + |os| + |ps| + j;
    }
  }

  lemma StructNumbers(s: Struct, first: nat)
    requires CountsFrom(StructIds(s), first)
    ensures NumberedStruct(s, first)
  {
    CountsSplit([s.node.id], Flatten(s.fields, TypedId), first);
    assert [s.node.id][0] == first;
    UnitsAt(s.fields, TypedId, first + 1);
    forall j | 0 <= j < |s.fields|
      ensures s.fields[j].node.id == first + 1 + j
    {
      assert TypedId(s.fields[j])[0] == first + 1 + j;
    }
  }

  lemma EnumNumbers(e: Enum, first: nat)
    requires CountsFrom(EnumIds(e), first)
    ensures NumberedEnum(e, first)
  {
    CountsSplit([e.node.id], Flatten(e.members, MemberId), first);
    assert [e.node.id][0] == first;
    UnitsAt(e.members, MemberId, first + 1);
    forall j | 0 <= j < |e.members|
      ensures e.members[j].node.id == first + 1 + j
    {
      assert MemberId(e.members[j])[0] == first + 1 + j;
    }
  }

  lemma DeclarationSizes()
    ensures Sized(InterfaceIds, InterfaceSize) && Sized(StructIds, StructSize) && Sized(EnumIds, EnumSize)
  {
    forall i: Interface
      ensures |InterfaceIds(i)| == InterfaceSize(i)
    {
      InterfaceIdsLength(i);
    }
    forall s: Struct
      ensures |StructIds(s)| == StructSize(s)
    {
      StructIdsLength(s);
    }
    forall e: Enum
      ensures |EnumIds(e)| == EnumSize(e)
    {
      EnumIdsLength(e);
    }
  }

  lemma ModuleSizes()
    ensures Sized(ModuleIds, ModuleSize)
  {
    DeclarationSizes();
    forall m: Module
      ensures |ModuleIds(m)| == ModuleSize(m)
    {
      SizeOfAll(m.interfaces, InterfaceIds, InterfaceSize);
      SizeOfAll(m.structs, StructIds, StructSize);
      SizeOfAll(m.enums, EnumIds, EnumSize);
    }
  }

  lemma InterfacesNumber(is_: seq<Interface>, first: nat)
    requires CountsFrom(Flatten(is_, InterfaceIds), first)
    ensures NumberedInterfaces(is_, first)
  {
    DeclarationSizes();
    forall j | 0 <= j < |is_|
      ensures NumberedInterface(is_[j], first + Sum(is_[..j], InterfaceSize))
    {
      CountsAt(is_, InterfaceIds, InterfaceSize, first, j);
      InterfaceNumbers(is_[j], first + Sum(is_[..j], InterfaceSize));
    }
  }

  lemma StructsNumber(ss: seq<Struct>, first: nat)
    requires CountsFrom(Flatten(ss, StructIds), first)
    ensures NumberedStructs(ss, first)
  {
    DeclarationSizes();
    forall j | 0 <= j < |ss|
      ensures NumberedStruct(ss[j], first + Sum(ss[..j], StructSize))
    {
      CountsAt(ss, StructIds, StructSize, first, j);
      StructNumbers(ss[j], first + Sum(ss[..j], StructSize));
    }
  }

  lemma EnumsNumber(es: seq<Enum>, first: nat)
    requires CountsFrom(Flatten(es, EnumIds), first)
    ensures NumberedEnums(es, first)
  {
    DeclarationSizes();
    forall j | 0 <= j < |es|
      ensures NumberedEnum(es[j], first + Sum(es[..j], EnumSize))
    {
      CountsAt(es, EnumIds, EnumSize, first, j);
      EnumNumbers(es[j], first + Sum(es[..j], EnumSize));
    }
  }

  lemma ModuleParts(m: Module, first: nat)
    requires CountsFrom(ModuleIds(m), first)
    ensures m.node.id == first && CountsFrom(Flatten(m.interfaces, InterfaceIds), first + 1)
    ensures var atStructs := first + 1 + Sum(m.interfaces, InterfaceSize);
      && CountsFrom(Flatten(m.structs, StructIds), atStructs)
      && CountsFrom(Flatten(m.enums, EnumIds), atStructs + Sum(m.structs, StructSize))
  {
    var is_, ss, es := Flatten(m.interfaces, InterfaceIds), Flatten(m.structs, StructIds), Flatten(m.enums, EnumIds);
    DeclarationSizes();
    SizeOfAll(m.interfaces, InterfaceIds, InterfaceSize);
    SizeOfAll(m.structs, StructIds, StructSize);
    CountsSplit([m.node.id] + is_ + ss, es, first);
    CountsSplit([m.node.id] + is_, ss, first);
    CountsSplit([m.node.id], is_, first);
    assert [m.node.id][0] == first;
  }

  lemma ModuleNumbers(m: Module, first: nat)
    requires CountsFrom(ModuleIds(m), first)
    ensures NumberedModule(m, first)
  {
    var atStructs := first + 1 + Sum(m.interfaces, InterfaceSize);
    ModuleParts(m, first);
    InterfacesNumber(m.interfaces, first + 1);
    StructsNumber(m.structs, atStructs);
    EnumsNumber(m.enums, atStructs + Sum(m.structs, StructSize));
  }

  // Ids that count from 1 give each node its number: a module begins behind all
  // modules before it.
  lemma IdsInClosedForm(ms: seq<Module>, first: nat, k: nat)
    requires CountsFrom(Flatten(ms, ModuleIds), first) && k < |ms|
    ensures NumberedModule(ms[k], first + Sum(ms[..k], ModuleSize))
  {
    ModuleSizes();
    CountsAt(ms, ModuleIds, ModuleSize, first, k);
    ModuleNumbers(ms[k], first + Sum(ms[..k], ModuleSize));
  }
}
