/**
  The listener that builds a module while the parse tree is walked
  (pkg/idl/listener.go).

  Every Enter and Exit method works on the fields it finds. Its own checks that a
  field is or is not nil only log: `failedChecks` counts them. A method that
  dereferences a field requires it, as the source would crash otherwise.
  */
module Listener {
  import opened Wrappers
  import opened Names
  import opened ApiModel
  import opened Lists
  import opened Syntax
  import opened Translation

  // How many failures a check logs.
  function Failed(holds: bool): nat {
    if holds then 0 else 1
  }

  class ObjectApiListener {
    var modules: seq<Module>
    var mod: Option<Module>
    var iface: Option<Interface>
    var extern_: Option<Extern>
    var struct_: Option<Struct>
    var enum_: Option<Enum>
    var enumMember: Option<EnumMember>
    var operation: Option<Operation>
    var param: Option<TypedNode>
    var ret: Option<TypedNode>
    var signal: Option<Signal>
    var property: Option<TypedNode>
    var field: Option<TypedNode>
    var schema: Option<Schema>
    var runningValue: int
    var failedChecks: nat

    constructor (modules: seq<Module>)
      ensures this.modules == modules && Idle() && failedChecks == 0
    {
      this.modules := modules;
      mod, iface, extern_, struct_, enum_, enumMember := None, None, None, None, None, None;
      operation, param, ret, signal, property, field, schema := None, None, None, None, None, None, None;
      runningValue, failedChecks := 0, 0;
    }

    // No pointer but that to the module is set.
    ghost predicate BetweenDecls()
      reads this
    {
      && iface.None? && extern_.None? && struct_.None? && enum_.None? && enumMember.None?
      && BetweenMembers()
    }

    // No pointer into an interface member or a struct field is set.
    ghost predicate BetweenMembers()
      reads this
    {
      && operation.None? && param.None? && ret.None? && signal.None? && property.None? && field.None? && schema.None?
    }

    ghost predicate Idle()
      reads this
    {
      mod.None? && BetweenDecls()
    }

    // IsNil and IsNotNil
    method Check(holds: bool)
      modifies this`failedChecks
      ensures failedChecks == old(failedChecks) + Failed(holds)
    {
      if !holds {
        failedChecks := failedChecks + 1;
      }
    }

    method ParseMeta(node: NamedNode, metas: seq<Meta>) returns (r: NamedNode)
      ensures r == WithMeta(node, metas)
    {
      var docLines, tagLines := [], [];
      for i := 0 to |metas|
        invariant docLines == DocLines(metas[..i]) && tagLines == TagLines(metas[..i])
      {
        assert metas[..i + 1][..i] == metas[..i];
        match metas[i] {
          case Tag(text) => tagLines := tagLines + [text];
          case Doc(text) => docLines := docLines + [DocText(text)];
        }
      }
      assert metas[..|metas|] == metas;
      r := node;
      if |docLines| > 0 {
        r := r.(description := Join(docLines, "\n"));
      }
      if |tagLines| > 0 {
        r := r.(meta := tagLines);
      }
    }

    // ----------------------------------------------------------------------
    // Schemas
    // ----------------------------------------------------------------------

    method EnterSchemaRule()
      modifies this`schema, this`failedChecks
      ensures schema == Some(EmptySchema)
      ensures failedChecks == old(failedChecks) + Failed(old(schema).None?)
    {
      Check(schema.None?);
      schema := Some(EmptySchema);
    }

    method ExitSchemaRule()
      requires schema.Some?
      modifies this`failedChecks
      ensures failedChecks == old(failedChecks) + Failed(mod.Some?)
    {
      Check(schema.Some?);
      Check(mod.Some?);
    }

    method EnterPrimitiveSchema(word: string)
      requires schema.Some?
      modifies this`schema, this`failedChecks
      ensures schema == Some(old(schema).value.(typeName := word, isPrimitive := true))
      ensures failedChecks == old(failedChecks)
    {
      Check(schema.Some?);
      schema := Some(schema.value.(typeName := word, isPrimitive := true));
    }

    method EnterSymbolSchema(name: string)
      requires schema.Some?
      modifies this`schema, this`failedChecks
      ensures schema == Some(old(schema).value.(imp := ImportOf(name), typeName := LocalOf(name), isSymbol := true))
      ensures failedChecks == old(failedChecks)
    {
      Check(schema.Some?);
      var parts := Split(name, '.');
      if |parts| > 1 {
        schema := Some(schema.value.(imp := Join(parts[..|parts| - 1], "."), typeName := parts[|parts| - 1]));
      } else {
        schema := Some(schema.value.(imp := "", typeName := name));
      }
      schema := Some(schema.value.(isSymbol := true));
    }

    method EnterArrayRule()
      requires schema.Some?
      modifies this`schema, this`failedChecks
      ensures schema == Some(old(schema).value.(isArray := true)) && failedChecks == old(failedChecks)
    {
      Check(schema.Some?);
      schema := Some(schema.value.(isArray := true));
    }

    method WalkSchema(s: SchemaTree)
      requires mod.Some? && schema.None?
      modifies this`schema, this`failedChecks
      ensures schema == Some(ToSchema(s)) && failedChecks == old(failedChecks)
    {
      EnterSchemaRule();
      match s.base {
        case PrimitiveSchema(word) => EnterPrimitiveSchema(word);
        case SymbolSchema(name) => EnterSymbolSchema(name);
      }
      if s.isArray {
        EnterArrayRule();
      }
      ExitSchemaRule();
    }

    // ----------------------------------------------------------------------
    // Members of an interface
    // ----------------------------------------------------------------------

    method EnterPropertyRule(c: MemberTree)
      requires c.PropertyTree?
      modifies this`property, this`failedChecks
      ensures property == Some(NewTypedNode(c.name, KindProperty).(isReadOnly := c.readonly))
      ensures failedChecks == old(failedChecks) + Failed(iface.Some?) + Failed(mod.Some?) + Failed(old(property).None?)
    {
      Check(iface.Some?);
      Check(mod.Some?);
      Check(property.None?);
      property := Some(NewTypedNode(c.name, KindProperty).(isReadOnly := c.readonly));
    }

    method ExitPropertyRule(c: MemberTree)
      requires c.PropertyTree? && property.Some? && schema.Some? && iface.Some?
      modifies this`property, this`schema, this`iface
      ensures property.None? && schema.None?
      ensures iface == Some(old(iface).value.(properties := old(iface).value.properties +
                [old(property).value.(node := WithMeta(old(property).value.node, c.metas),
                                      schema := old(schema).value)]))
    {
      var node := ParseMeta(property.value.node, c.metas);
      property := Some(property.value.(node := node));
      property := Some(property.value.(schema := schema.value));
      schema := None;
      iface := Some(iface.value.(properties := iface.value.properties + [property.value]));
      property := None;
    }

    method EnterOperationRule(c: MemberTree)
      requires c.OperationTree?
      modifies this`operation, this`failedChecks
      ensures operation == Some(NewOperation(c.name))
      ensures failedChecks == old(failedChecks) + Failed(old(operation).None?) + Failed(param.None?) + Failed(ret.None?)
    {
      Check(operation.None?);
      Check(param.None?);
      Check(ret.None?);
      operation := Some(NewOperation(c.name));
    }

    method ExitOperationRule(c: MemberTree)
      requires c.OperationTree? && operation.Some? && iface.Some?
      modifies this`operation, this`param, this`ret, this`schema, this`iface
      ensures operation.None? && param.None? && ret.None? && schema.None?
      ensures iface == Some(old(iface).value.(operations := old(iface).value.operations +
                [old(operation).value.(node := WithMeta(old(operation).value.node, c.metas), ret := old(ret))]))
    {
      var node := ParseMeta(operation.value.node, c.metas);
      operation := Some(operation.value.(node := node));
      operation := Some(operation.value.(ret := ret));
      iface := Some(iface.value.(operations := iface.value.operations + [operation.value]));
      operation, param, ret, schema := None, None, None, None;
    }

    method EnterOperationReturnRule()
      modifies this`ret, this`failedChecks
      ensures ret == Some(NewTypedNode("", KindReturn))
      ensures failedChecks == old(failedChecks) + Failed(mod.Some?) + Failed(iface.Some?) +
          Failed(operation.Some?) + Failed(old(ret).None?) + Failed(schema.None?)
    {
      Check(mod.Some?);
      Check(iface.Some?);
      Check(operation.Some?);
      Check(ret.None?);
      Check(schema.None?);
      ret := Some(NewTypedNode("", KindReturn));
    }

    method ExitOperationReturnRule()
      requires ret.Some? && schema.Some? && operation.Some?
      modifies this`ret, this`schema, this`operation
      ensures ret == Some(old(ret).value.(schema := old(schema).value)) && schema.None?
      ensures operation == Some(old(operation).value.(ret := ret))
    {
      ret := Some(ret.value.(schema := schema.value));
      operation := Some(operation.value.(ret := ret));
      schema := None;
    }

    method EnterOperationParamRule(c: ParamTree)
      modifies this`param, this`failedChecks
      ensures param == Some(NewTypedNode(c.name, KindParam))
      ensures failedChecks == old(failedChecks) + Failed(mod.Some?) + Failed(iface.Some?) +
          Failed(old(param).None?) + Failed(schema.None?)
    {
      Check(mod.Some?);
      Check(iface.Some?);
      Check(param.None?);
      Check(schema.None?);
      param := Some(NewTypedNode(c.name, KindParam));
    }

    // A parameter goes to the operation under way, else to the signal.
    method ExitOperationParamRule()
      requires param.Some? && schema.Some?
      modifies this`param, this`schema, this`operation, this`signal
      ensures param.None? && schema.None?
      ensures old(operation).Some? ==> signal == old(signal)
      ensures old(operation).Some? ==>
                operation == Some(old(operation).value.(params := old(operation).value.params +
                  [old(param).value.(schema := old(schema).value)]))
      ensures old(operation).None? ==> operation.None?
      ensures old(operation).None? && old(signal).Some? ==>
                signal == Some(old(signal).value.(params := old(signal).value.params +
                  [old(param).value.(schema := old(schema).value)]))
    {
      param := Some(param.value.(schema := schema.value));
      if operation.Some? {
        operation := Some(operation.value.(params := operation.value.params + [param.value]));
      } else if signal.Some? {
        signal := Some(signal.value.(params := signal.value.params + [param.value]));
      }
      param := None;
      schema := None;
    }

    method EnterSignalRule(c: MemberTree)
      requires c.SignalTree?
      modifies this`signal, this`failedChecks
      ensures signal == Some(Signal(NewNode(c.name, KindSignal), []))
      ensures failedChecks == old(failedChecks) + Failed(mod.Some?) + Failed(iface.Some?) +
          Failed(old(signal).None?) + Failed(schema.None?)
    {
      Check(mod.Some?);
      Check(iface.Some?);
      Check(signal.None?);
      Check(schema.None?);
      signal := Some(Signal(NewNode(c.name, KindSignal), []));
    }

    method ExitSignalRule(c: MemberTree)
      requires c.SignalTree? && signal.Some? && iface.Some?
      modifies this`signal, this`schema, this`iface
      ensures signal.None? && schema.None?
      ensures iface == Some(old(iface).value.(signals := old(iface).value.signals +
                [old(signal).value.(node := WithMeta(old(signal).value.node, c.metas))]))
    {
      var node := ParseMeta(signal.value.node, c.metas);
      signal := Some(signal.value.(node := node));
      iface := Some(iface.value.(signals := iface.value.signals + [signal.value]));
      schema := None;
      signal := None;
    }

    method WalkParam(p: ParamTree)
      requires mod.Some? && iface.Some? && param.None? && schema.None? && (operation.Some? || signal.Some?)
      modifies this`param, this`schema, this`operation, this`signal, this`failedChecks
      ensures param.None? && schema.None? && failedChecks == old(failedChecks)
      ensures old(operation).Some? ==> signal == old(signal)
      ensures old(operation).Some? ==>
                operation == Some(old(operation).value.(params := old(operation).value.params + [ToParam(p)]))
      ensures old(operation).None? ==> operation.None?
      ensures old(operation).None? ==>
                signal == Some(old(signal).value.(params := old(signal).value.params + [ToParam(p)]))
    {
      EnterOperationParamRule(p);
      WalkSchema(p.schema);
      ExitOperationParamRule();
    }

    method WalkParams(ps: seq<ParamTree>)
      requires mod.Some? && iface.Some? && param.None? && schema.None? && (operation.Some? || signal.Some?)
      requires if operation.Some? then operation.value.params == [] else signal.value.params == []
      modifies this`param, this`schema, this`operation, this`signal, this`failedChecks
      ensures param.None? && schema.None? && failedChecks == old(failedChecks)
      ensures old(operation).Some? ==> signal == old(signal)
      ensures old(operation).Some? ==> operation == Some(old(operation).value.(params := ToParams(ps)))
      ensures old(operation).None? ==> operation.None?
      ensures old(operation).None? ==> signal == Some(old(signal).value.(params := ToParams(ps)))
    {
      assert ToParams(ps[..0]) == [];
      for i := 0 to |ps|
        invariant param.None? && schema.None? && failedChecks == old(failedChecks)
        invariant old(operation).Some? ==> signal == old(signal)
        invariant old(operation).Some? ==> operation == Some(old(operation).value.(params := ToParams(ps[..i])))
        invariant old(operation).None? ==> operation.None?
        invariant old(operation).None? ==> signal == Some(old(signal).value.(params := ToParams(ps[..i])))
      {
        assert ToParams(ps[..i + 1]) == ToParams(ps[..i]) + [ToParam(ps[i])];
        WalkParam(ps[i]);
      }
      assert ps[..|ps|] == ps;
    }

    method WalkProperty(m: MemberTree)
      requires mod.Some? && iface.Some? && BetweenMembers() && m.PropertyTree?
      modifies this`iface, this`operation, this`param, this`ret, this`signal, this`property, this`schema,
               this`failedChecks
      ensures BetweenMembers() && failedChecks == old(failedChecks)
      ensures iface == Some(AddMember(old(iface).value, m))
    {
      EnterPropertyRule(m);
      WalkSchema(m.schema);
      ExitPropertyRule(m);
    }

    method WalkOperation(m: MemberTree)
      requires mod.Some? && iface.Some? && BetweenMembers() && m.OperationTree?
      modifies this`iface, this`operation, this`param, this`ret, this`signal, this`property, this`schema,
               this`failedChecks
      ensures BetweenMembers() && failedChecks == old(failedChecks)
      ensures iface == Some(AddMember(old(iface).value, m))
    {
      EnterOperationRule(m);
      WalkParams(m.params);
      if m.ret.Some? {
        EnterOperationReturnRule();
        WalkSchema(m.ret.value);
        ExitOperationReturnRule();
      }
      ExitOperationRule(m);
    }

    method WalkSignal(m: MemberTree)
      requires mod.Some? && iface.Some? && BetweenMembers() && m.SignalTree?
      modifies this`iface, this`operation, this`param, this`ret, this`signal, this`property, this`schema,
               this`failedChecks
      ensures BetweenMembers() && failedChecks == old(failedChecks)
      ensures iface == Some(AddMember(old(iface).value, m))
    {
      EnterSignalRule(m);
      WalkParams(m.params);
      ExitSignalRule(m);
    }

    method WalkMember(m: MemberTree)
      requires mod.Some? && iface.Some? && BetweenMembers()
      modifies this`iface, this`operation, this`param, this`ret, this`signal, this`property, this`schema,
               this`failedChecks
      ensures BetweenMembers() && failedChecks == old(failedChecks)
      ensures iface == Some(AddMember(old(iface).value, m))
    {
      match m {
        case PropertyTree(_, _, _, _, _) => WalkProperty(m);
        case OperationTree(_, _, _, _, _) => WalkOperation(m);
        case SignalTree(_, _, _, _) => WalkSignal(m);
      }
    }

    // ----------------------------------------------------------------------
    // Declarations
    // ----------------------------------------------------------------------

    method EnterInterfaceRule(c: DeclTree)
      requires c.InterfaceTree?
      modifies this`iface, this`failedChecks
      ensures iface == Some(NewInterface(c.name).(extends_ := ToExtends(c.base)))
      ensures failedChecks == old(failedChecks) + Failed(mod.Some?) + Failed(old(iface).None?)
    {
      Check(mod.Some?);
      Check(iface.None?);
      iface := Some(NewInterface(c.name));
      if c.base.Some? {
        var parts := Split(c.base.value, '.');
        if |parts| > 1 {
          iface := Some(iface.value.(extends_ := Extends(parts[|parts| - 1], Join(parts[..|parts| - 1], "."), None)));
        } else {
          iface := Some(iface.value.(extends_ := Extends(c.base.value, "", None)));
        }
      }
    }

    method ExitInterfaceRule(c: DeclTree)
      requires c.InterfaceTree? && iface.Some? && mod.Some?
      modifies this`iface, this`mod, this`failedChecks
      ensures iface.None? && failedChecks == old(failedChecks)
      ensures mod == Some(old(mod).value.(interfaces := old(mod).value.interfaces +
                [old(iface).value.(node := WithMeta(old(iface).value.node, c.metas))]))
    {
      var node := ParseMeta(iface.value.node, c.metas);
      iface := Some(iface.value.(node := node));
      mod := Some(mod.value.(interfaces := mod.value.interfaces + [iface.value]));
      iface := None;
      Check(iface.None?);
      Check(mod.Some?);
    }

    method WalkInterface(d: DeclTree)
      requires d.InterfaceTree? && mod.Some? && BetweenDecls()
      modifies this`mod, this`iface, this`operation, this`param, this`ret, this`signal, this`property,
               this`schema, this`failedChecks
      ensures BetweenDecls() && failedChecks == old(failedChecks)
      ensures mod == Some(AddDecl(old(mod).value, d))
    {
      EnterInterfaceRule(d);
      WalkMembers(d.members);
      assert iface.value.(node := WithMeta(iface.value.node, d.metas)) == ToInterface(d);
      ExitInterfaceRule(d);
    }

    method WalkMembers(ms: seq<MemberTree>)
      requires mod.Some? && iface.Some? && BetweenMembers()
      requires iface.value.properties == [] && iface.value.operations == [] && iface.value.signals == []
      modifies this`iface, this`operation, this`param, this`ret, this`signal, this`property, this`schema,
               this`failedChecks
      ensures BetweenMembers() && failedChecks == old(failedChecks)
      ensures iface == Some(old(iface).value.(
                properties := ToProperties(ms), operations := ToOperations(ms), signals := ToSignals(ms)))
    {
      for i := 0 to |ms|
        invariant BetweenMembers() && failedChecks == old(failedChecks)
        invariant iface == Some(AddMembers(old(iface).value, ms[..i]))
      {
        assert ms[..i + 1][..i] == ms[..i];
        WalkMember(ms[i]);
      }
      assert ms[..|ms|] == ms;
      MembersByKind(old(iface).value, ms);
    }

    method EnterExternRule(c: DeclTree)
      requires c.ExternTree?
      modifies this`extern_, this`failedChecks
      ensures extern_ == Some(Extern(NewNode(c.name, KindExtern)))
      ensures failedChecks == old(failedChecks) + Failed(mod.Some?) + Failed(old(extern_).None?)
    {
      Check(mod.Some?);
      Check(extern_.None?);
      extern_ := Some(Extern(NewNode(c.name, KindExtern)));
    }

    method ExitExternRule(c: DeclTree)
      requires c.ExternTree? && extern_.Some? && mod.Some?
      modifies this`extern_, this`mod, this`failedChecks
      ensures extern_.None? && failedChecks == old(failedChecks)
      ensures mod == Some(old(mod).value.(externs := old(mod).value.externs +
                [Extern(WithMeta(old(extern_).value.node, c.metas))]))
    {
      var node := ParseMeta(extern_.value.node, c.metas);
      extern_ := Some(extern_.value.(node := node));
      mod := Some(mod.value.(externs := mod.value.externs + [extern_.value]));
      extern_ := None;
      Check(extern_.None?);
      Check(mod.Some?);
    }

    // The meta lines of a struct are taken on entry.
    method EnterStructRule(c: DeclTree)
      requires c.StructTree?
      modifies this`struct_, this`failedChecks
      ensures struct_ == Some(Struct(WithMeta(NewNode(c.name, KindStruct), c.metas), []))
      ensures failedChecks == old(failedChecks) + Failed(mod.Some?) + Failed(old(struct_).None?) + Failed(schema.None?)
    {
      Check(mod.Some?);
      Check(struct_.None?);
      Check(schema.None?);
      struct_ := Some(Struct(NewNode(c.name, KindStruct), []));
      var node := ParseMeta(struct_.value.node, c.metas);
      struct_ := Some(struct_.value.(node := node));
    }

    method ExitStructRule()
      requires struct_.Some? && mod.Some?
      modifies this`struct_, this`schema, this`mod, this`failedChecks
      ensures struct_.None? && schema.None? && failedChecks == old(failedChecks)
      ensures mod == Some(old(mod).value.(structs := old(mod).value.structs + [old(struct_).value]))
    {
      Check(struct_.Some?);
      mod := Some(mod.value.(structs := mod.value.structs + [struct_.value]));
      schema := None;
      struct_ := None;
    }

    method EnterStructFieldRule(c: FieldTree)
      modifies this`field, this`failedChecks
      ensures field == Some(NewTypedNode(c.name, KindField).(isReadOnly := c.readonly))
      ensures failedChecks == old(failedChecks) + Failed(struct_.Some?) + Failed(schema.None?) +
          Failed(old(field).None?)
    {
      Check(struct_.Some?);
      Check(schema.None?);
      Check(field.None?);
      field := Some(NewTypedNode(c.name, KindField).(isReadOnly := c.readonly));
    }

    method ExitStructFieldRule(c: FieldTree)
      requires field.Some? && schema.Some? && struct_.Some?
      modifies this`field, this`schema, this`struct_, this`failedChecks
      ensures field.None? && schema.None? && failedChecks == old(failedChecks)
      ensures struct_ == Some(old(struct_).value.(fields := old(struct_).value.fields +
                [old(field).value.(node := WithMeta(old(field).value.node, c.metas), schema := old(schema).value)]))
    {
      Check(field.Some?);
      var node := ParseMeta(field.value.node, c.metas);
      field := Some(field.value.(node := node));
      field := Some(field.value.(schema := schema.value));
      struct_ := Some(struct_.value.(fields := struct_.value.fields + [field.value]));
      field := None;
      schema := None;
    }

    method WalkStruct(d: DeclTree)
      requires d.StructTree? && mod.Some? && BetweenDecls()
      modifies this`mod, this`struct_, this`field, this`schema, this`failedChecks
      ensures BetweenDecls() && failedChecks == old(failedChecks)
      ensures mod == Some(AddDecl(old(mod).value, d))
    {
      EnterStructRule(d);
      WalkFields(d.fields);
      assert struct_ == Some(ToStruct(d));
      ExitStructRule();
    }

    method WalkField(f: FieldTree)
      requires mod.Some? && struct_.Some? && field.None? && schema.None?
      modifies this`struct_, this`field, this`schema, this`failedChecks
      ensures field.None? && schema.None? && failedChecks == old(failedChecks)
      ensures struct_ == Some(old(struct_).value.(fields := old(struct_).value.fields + [ToField(f)]))
    {
      EnterStructFieldRule(f);
      WalkSchema(f.schema);
      ExitStructFieldRule(f);
    }

    method WalkFields(fs: seq<FieldTree>)
      requires mod.Some? && struct_.Some? && struct_.value.fields == [] && field.None? && schema.None?
      modifies this`struct_, this`field, this`schema, this`failedChecks
      ensures field.None? && schema.None? && failedChecks == old(failedChecks)
      ensures struct_ == Some(old(struct_).value.(fields := ToFields(fs)))
    {
      for i := 0 to |fs|
        invariant field.None? && schema.None? && failedChecks == old(failedChecks)
        invariant struct_ == Some(old(struct_).value.(fields := ToFields(fs)[..i]))
      {
        FieldsNext(fs, i);
        WalkField(fs[i]);
      }
      assert ToFields(fs)[..|fs|] == ToFields(fs);
    }

    method EnterEnumRule(c: DeclTree)
      requires c.EnumTree?
      modifies this`enum_, this`runningValue, this`failedChecks
      ensures enum_ == Some(Enum(NewNode(c.name, KindEnum), [])) && runningValue == 0
      ensures failedChecks == old(failedChecks) + Failed(mod.Some?) + Failed(old(enum_).None?) + Failed(schema.None?)
    {
      Check(mod.Some?);
      Check(enum_.None?);
      Check(schema.None?);
      enum_ := Some(Enum(NewNode(c.name, KindEnum), []));
      runningValue := 0;
    }

    method ExitEnumRule(c: DeclTree)
      requires c.EnumTree? && enum_.Some? && mod.Some?
      modifies this`enum_, this`runningValue, this`mod, this`failedChecks
      ensures enum_.None? && runningValue == 0 && failedChecks == old(failedChecks)
      ensures mod == Some(old(mod).value.(enums := old(mod).value.enums +
                [old(enum_).value.(node := WithMeta(old(enum_).value.node, c.metas))]))
    {
      var node := ParseMeta(enum_.value.node, c.metas);
      enum_ := Some(enum_.value.(node := node));
      Check(enum_.Some?);
      mod := Some(mod.value.(enums := mod.value.enums + [enum_.value]));
      runningValue := 0;
      enum_ := None;
    }

    method EnterEnumMemberRule(c: EnumMemberTree)
      modifies this`enumMember, this`runningValue, this`failedChecks
      ensures enumMember == Some(EnumMember(NewNode(c.name, KindMember),
                if c.value.Some? then c.value.value else old(runningValue)))
      ensures runningValue == old(runningValue) + if c.value.Some? then 0 else 1
      ensures failedChecks == old(failedChecks) + Failed(enum_.Some?)
    {
      Check(enum_.Some?);
      var value: int;
      if c.value.Some? {
        value := c.value.value;
      } else {
        value := runningValue;
        runningValue := runningValue + 1;
      }
      enumMember := Some(EnumMember(NewNode(c.name, KindMember), value));
    }

    method ExitEnumMemberRule(c: EnumMemberTree)
      requires enumMember.Some? && enum_.Some?
      modifies this`enumMember, this`enum_, this`failedChecks
      ensures enumMember.None? && failedChecks == old(failedChecks)
      ensures enum_ == Some(old(enum_).value.(members := old(enum_).value.members +
                [old(enumMember).value.(node := WithMeta(old(enumMember).value.node, c.metas))]))
    {
      Check(enumMember.Some?);
      var node := ParseMeta(enumMember.value.node, c.metas);
      enumMember := Some(enumMember.value.(node := node));
      enum_ := Some(enum_.value.(members := enum_.value.members + [enumMember.value]));
      enumMember := None;
    }

    method WalkEnum(d: DeclTree)
      requires d.EnumTree? && mod.Some? && BetweenDecls()
      modifies this`mod, this`enum_, this`enumMember, this`runningValue, this`failedChecks
      ensures BetweenDecls() && failedChecks == old(failedChecks)
      ensures mod == Some(AddDecl(old(mod).value, d))
    {
      EnterEnumRule(d);
      WalkEnumMembers(d.values);
      assert enum_.value.(node := WithMeta(enum_.value.node, d.metas)) == ToEnum(d);
      ExitEnumRule(d);
    }

    method WalkEnumMember(ms: seq<EnumMemberTree>, i: nat)
      requires i < |ms| && enum_.Some? && enumMember.None? && runningValue == Unvalued(ms, i)
      modifies this`enum_, this`enumMember, this`runningValue, this`failedChecks
      ensures enumMember.None? && failedChecks == old(failedChecks) && runningValue == Unvalued(ms, i + 1)
      ensures enum_ == Some(old(enum_).value.(members := old(enum_).value.members + [ToEnumMember(ms, i)]))
    {
      EnterEnumMemberRule(ms[i]);
      ExitEnumMemberRule(ms[i]);
    }

    method WalkEnumMembers(ms: seq<EnumMemberTree>)
      requires enum_.Some? && enum_.value.members == [] && enumMember.None? && runningValue == 0
      modifies this`enum_, this`enumMember, this`runningValue, this`failedChecks
      ensures enumMember.None? && failedChecks == old(failedChecks)
      ensures enum_ == Some(old(enum_).value.(members := ToEnumMembers(ms)))
    {
      for i := 0 to |ms|
        invariant enumMember.None? && failedChecks == old(failedChecks) && runningValue == Unvalued(ms, i)
        invariant enum_ == Some(old(enum_).value.(members := ToEnumMembers(ms)[..i]))
      {
        EnumMembersNext(ms, i);
        WalkEnumMember(ms, i);
      }
      assert ToEnumMembers(ms)[..|ms|] == ToEnumMembers(ms);
    }

    method WalkDecl(d: DeclTree)
      requires mod.Some? && BetweenDecls()
      modifies this
      ensures BetweenDecls() && failedChecks == old(failedChecks) && modules == old(modules)
      ensures mod == Some(AddDecl(old(mod).value, d))
    {
      match d {
        case ExternTree(_, _, _) =>
          EnterExternRule(d);
          ExitExternRule(d);
        case InterfaceTree(_, _, _, _) => WalkInterface(d);
        case StructTree(_, _, _) => WalkStruct(d);
        case EnumTree(_, _, _) => WalkEnum(d);
      }
    }

    // ----------------------------------------------------------------------
    // Documents
    // ----------------------------------------------------------------------

    method EnterModuleRule(c: ModuleTree)
      modifies this`mod, this`failedChecks
      ensures mod == Some(NewModule(c.name, VersionOr(c.version)).(attached := true))
      ensures failedChecks == old(failedChecks) + Failed(old(mod).None?)
    {
      Check(mod.None?);
      var version := "";
      if c.version.None? {
        version := "1.0";
      } else {
        version := c.version.value;
      }
      mod := Some(NewModule(c.name, version));
      mod := Some(mod.value.(attached := true));
    }

    method ExitModuleRule(c: ModuleTree)
      requires mod.Some?
      modifies this`mod
      ensures mod == Some(old(mod).value.(node := WithMeta(old(mod).value.node, c.metas)))
    {
      var node := ParseMeta(mod.value.node, c.metas);
      mod := Some(mod.value.(node := node));
    }

    // The version of an import is read and dropped.
    method EnterImportRule(c: ImportTree)
      requires mod.Some?
      modifies this`mod, this`failedChecks
      ensures mod == Some(old(mod).value.(imports := old(mod).value.imports + [Import(NewNode(c.name, KindImport))]))
      ensures failedChecks == old(failedChecks)
    {
      Check(mod.Some?);
      mod := Some(mod.value.(imports := mod.value.imports + [Import(NewNode(c.name, KindImport))]));
    }

    method WalkImports(is_: seq<ImportTree>)
      requires mod.Some? && mod.value.imports == []
      modifies this`mod, this`failedChecks
      ensures mod == Some(old(mod).value.(imports := ToImports(is_))) && failedChecks == old(failedChecks)
    {
      assert ToImports(is_[..0]) == [];
      for i := 0 to |is_|
        invariant failedChecks == old(failedChecks)
        invariant mod == Some(old(mod).value.(imports := ToImports(is_[..i])))
      {
        assert ToImports(is_[..i + 1]) == ToImports(is_[..i]) + [Import(NewNode(is_[i].name, KindImport))];
        EnterImportRule(is_[i]);
      }
      assert is_[..|is_|] == is_;
    }

    method WalkHeader(h: HeaderTree)
      requires mod.None?
      modifies this`mod, this`failedChecks
      ensures mod == Some(ToHeader(h)) && failedChecks == old(failedChecks)
    {
      EnterModuleRule(h.mod);
      ExitModuleRule(h.mod);
      WalkImports(h.imports);
    }

    method ExitDocumentRule()
      requires mod.Some?
      modifies this`modules, this`mod
      ensures modules == old(modules) + [old(mod).value] && mod.None?
    {
      modules := modules + [mod.value];
      mod := None;
    }

    // The walk of a document adds the module that the document means to the
    // system. None of the checks on the way fails, and all pointers end nil.
    method WalkDocument(d: DocumentTree)
      requires Idle()
      modifies this
      ensures Idle() && failedChecks == old(failedChecks)
      ensures modules == old(modules) + [ToModule(d)]
    {
      WalkHeader(d.header);
      WalkDecls(d.decls);
      ExitDocumentRule();
    }

    method WalkDecls(ds: seq<DeclTree>)
      requires mod.Some? && BetweenDecls()
      modifies this
      ensures BetweenDecls() && failedChecks == old(failedChecks) && modules == old(modules)
      ensures mod == Some(AddDecls(old(mod).value, ds))
    {
      for i := 0 to |ds|
        invariant BetweenDecls() && failedChecks == old(failedChecks) && modules == old(modules)
        invariant mod == Some(AddDecls(old(mod).value, ds[..i]))
      {
        assert ds[..i + 1][..i] == ds[..i];
        WalkDecl(ds[i]);
      }
      assert ds[..|ds|] == ds;
    }
  }

  lemma FieldsNext(fs: seq<FieldTree>, i: nat)
    requires i < |fs|
    ensures ToFields(fs)[..i + 1] == ToFields(fs)[..i] + [ToField(fs[i])]
  {
    PrefixNext(ToFields(fs), i);
  }

  lemma EnumMembersNext(ms: seq<EnumMemberTree>, i: nat)
    requires i < |ms|
    ensures ToEnumMembers(ms)[..i + 1] == ToEnumMembers(ms)[..i] + [ToEnumMember(ms, i)]
  {
    PrefixNext(ToEnumMembers(ms), i);
  }

  // ------------------------------------------------------------------------
  // One member after the other, and member lists by kind
  // ------------------------------------------------------------------------

  function AddMember(i: Interface, m: MemberTree): Interface {
    match m
    case PropertyTree(_, _, _, _, _) => i.(properties := i.properties + [ToProperty(m)])
    case OperationTree(_, _, _, _, _) => i.(operations := i.operations + [ToOperation(m)])
    case SignalTree(_, _, _, _) => i.(signals := i.signals + [ToSignal(m)])
  }

  function AddMembers(i: Interface, ms: seq<MemberTree>): Interface {
    if ms == [] then i else AddMember(AddMembers(i, ms[..|ms| - 1]), ms[|ms| - 1])
  }

  lemma {:induction false} AddedProperties(i: Interface, ms: seq<MemberTree>)
    ensures var r := AddMembers(i, ms);
      r.node == i.node && r.extends_ == i.extends_ && r.properties == i.properties + ToProperties(ms)
  {
    if ms != [] {
      var front, m := ms[..|ms| - 1], ms[|ms| - 1];
      AddedProperties(i, front);
      assert AddMembers(i, ms) == AddMember(AddMembers(i, front), m);
    }
  }

  lemma {:induction false} AddedOperations(i: Interface, ms: seq<MemberTree>)
    ensures AddMembers(i, ms).operations == i.operations + ToOperations(ms)
  {
    if ms != [] {
      var front, m := ms[..|ms| - 1], ms[|ms| - 1];
      AddedOperations(i, front);
      assert AddMembers(i, ms) == AddMember(AddMembers(i, front), m);
    }
  }

  lemma {:induction false} AddedSignals(i: Interface, ms: seq<MemberTree>)
    ensures AddMembers(i, ms).signals == i.signals + ToSignals(ms)
  {
    if ms != [] {
      var front, m := ms[..|ms| - 1], ms[|ms| - 1];
      AddedSignals(i, front);
      assert AddMembers(i, ms) == AddMember(AddMembers(i, front), m);
    }
  }

  // Adding members one by one keeps the order within each kind.
  lemma MembersByKind(i: Interface, ms: seq<MemberTree>)
    requires i.properties == [] && i.operations == [] && i.signals == []
    ensures AddMembers(i, ms) ==
            i.(properties := ToProperties(ms), operations := ToOperations(ms), signals := ToSignals(ms))
  {
    AddedProperties(i, ms);
    AddedOperations(i, ms);
    AddedSignals(i, ms);
  }
}
