/** From tokens to the modules of a system (pkg/idl/parser.go), and what a loaded system is good for. */
module Loading {
  import opened Wrappers
  import opened ApiModel
  import opened Grammar
  import opened Kept
  import opened Lists
  import opened Lookup
  import opened Syntax
  import opened SystemProperties
  import opened Systems
  import opened Translation
  import opened Validation
  import L = Listener
  import Meaning
  import P = Parser
  import RoundTrip

  class Parser {
    const system: System

    constructor (system: System)
      ensures this.system == system
    {
      this.system := system;
    }

    // Parses a document and adds its module: what was written down is what is
    // loaded. Tokens behind the document are not looked at; a recognition error adds
    // nothing here.
    method ParseStream(tokens: seq<Token>) returns (ok: bool)
      modifies system
      ensures ok <==> ParseDocument(From(tokens, 0)).Parsed?
      ensures system.modules == old(system.modules) + Loaded(tokens)
      ensures system.checksum == old(system.checksum)
      ensures forall d, rest :: From(tokens, 0) == PrintDocument(d, rest) && EndsBefore(d, rest) ==>
                ok && Adds(old(system.modules), d, system.modules)
    {
      forall d, rest | From(tokens, 0) == PrintDocument(d, rest) && EndsBefore(d, rest)
        ensures ParseDocument(From(tokens, 0)).Parsed?
        ensures Adds(system.modules, d, system.modules + Loaded(tokens))
      {
        LoadingUndoesPrinting(d, tokens, rest);
        Meaning.ModuleIsSaid(d);
      }
      var parser := new P.ObjectApiParser(tokens);
      var start := parser.DocumentRule();
      if start.None? {
        return false;
      }
      var listener := new L.ObjectApiListener(system.modules);
      listener.WalkDocument(start.value);
      system.modules := listener.modules;
      return true;
    }
  }

  // The module that a token stream gives, if it is accepted.
  function Loaded(tokens: seq<Token>): seq<Module> {
    match ParseDocument(From(tokens, 0))
    case Parsed(d, _) => [ToModule(d)]
    case Failed => []
  }

  // One module more, and the document describes it.
  ghost predicate Adds(before: seq<Module>, d: DocumentTree, after: seq<Module>) {
    |after| == |before| + 1 && after[..|before|] == before && Meaning.Says(d, after[|before|])
  }

  // Nothing behind the document can go on with it.
  predicate EndsBefore(d: DocumentTree, rest: Tokens) {
    rest.End? || !RoundTrip.DocumentTakes(d, rest.head)
  }

  // A printed document loads as the module that it means.
  lemma {:induction false} LoadingUndoesPrinting(d: DocumentTree, tokens: seq<Token>, rest: Tokens)
    requires From(tokens, 0) == PrintDocument(d, rest) && EndsBefore(d, rest)
    ensures Loaded(tokens) == [ToModule(d)]
  {
    RoundTrip.ParsingUndoesPrinting(d, rest);
  }

  // Loads all inputs and validates the system once (pkg/sol/parse.go). It succeeds
  // exactly if all names are distinct, and then each loaded module has right caches.
  method ParseInputs(system: System, inputs: seq<seq<Token>>) returns (ok: bool)
    modifies system
    ensures var all := old(system.modules) + Flatten(inputs, Loaded);
      && (ok <==> UniqueSystem(all))
      && (ok ==> ValidationOutcome(all, system.modules))
    ensures ok ==> forall k :: |old(system.modules)| <= k < |system.modules| ==>
                RightModule(Outlines(system.modules), k, system.modules[k])
    ensures ok ==> KeptModules(old(system.modules) + Flatten(inputs, Loaded), system.modules)
  {
    for i := 0 to |inputs|
      invariant system.modules == old(system.modules) + Flatten(inputs[..i], Loaded)
    {
      FlattenNext(old(system.modules), inputs, i, Loaded);
      var parser := new Parser(system);
      var _ := parser.ParseStream(inputs[i]);
    }
    FlattenWhole(inputs, Loaded);
    ok := system.Validate();
    if ok {
      LoadedAreFresh(inputs);
      LoadedAreRight(old(system.modules), Flatten(inputs, Loaded), system.modules);
      ValidationKeepsWhatIsWritten(old(system.modules) + Flatten(inputs, Loaded), system.modules);
    }
  }

  lemma LoadedAreRight(before: seq<Module>, loaded: seq<Module>, after: seq<Module>)
    requires UniqueSystem(before + loaded) && ValidationOutcome(before + loaded, after)
    ensures |after| == |before| + |loaded|
    ensures forall k :: |before| <= k < |after| && FreshModule(loaded[k - |before|]) ==>
              RightModule(Outlines(after), k, after[k])
  {
    forall k | |before| <= k < |after| && FreshModule(loaded[k - |before|])
      ensures RightModule(Outlines(after), k, after[k])
    {
      assert (before + loaded)[k] == loaded[k - |before|];
      EveryCacheIsRight(before + loaded, after, k);
    }
  }

  lemma {:induction false} LoadedAreFresh(inputs: seq<seq<Token>>)
    ensures forall j :: 0 <= j < |Flatten(inputs, Loaded)| ==> FreshModule(Flatten(inputs, Loaded)[j])
  {
    if inputs != [] {
      LoadedAreFresh(inputs[..|inputs| - 1]);
      var last := ParseDocument(From(inputs[|inputs| - 1], 0));
      if last.Parsed? {
        LoadedIsFresh(last.tree);
      }
    }
  }

  // A word of the grammar that is written as a type is, after loading and validation,
  // void or a primitive of that name, in whatever module of whatever system.
  lemma PrimitiveIsResolved(env: seq<Outline>, k: nat, word: string, isArray: bool)
    requires k < |env| && word in PRIMITIVES
    ensures var v := ValidatedSchema(env, k, ToSchema(SchemaTree(PrimitiveSchema(word), isArray)));
      && v.typeName == word && v.isArray == isArray && !v.isSymbol && v.isPrimitive == (word != "void")
      && v.kindType == if word == "void" then TypeVoid else TypePrimitive(word)
  {
    var s := ToSchema(SchemaTree(PrimitiveSchema(word), isArray));
    ValidatedIsResolved(env, k, s);
    SchemaKept(env, k, s);
  }

  // Loaded modules are described by their documents, input by input.
  lemma LoadedAreSaid(tokens: seq<Token>)
    ensures match ParseDocument(From(tokens, 0))
            case Failed => Loaded(tokens) == []
            case Parsed(d, _) => |Loaded(tokens)| == 1 && Meaning.Says(d, Loaded(tokens)[0])
  {
    match ParseDocument(From(tokens, 0))
    case Failed =>
    case Parsed(d, _) => Meaning.ModuleIsSaid(d);
  }

  // ------------------------------------------------------------------------
  // Written enum values
  // ------------------------------------------------------------------------

  // A value written in an enum is its value after validation, unless all members
  // come out as zero and one that is not the first has its zero written.
  lemma WrittenValuesSurviveIff(d: DeclTree)
    requires d.EnumTree?
    ensures var ms, after := d.values, ValidatedEnum(ToEnum(d)).members;
      (forall i :: 0 <= i < |ms| && ms[i].value.Some? ==> after[i].value == ms[i].value.value) <==>
      !(AllZero(ToEnumMembers(ms)) && exists i :: 0 < i < |ms| && ms[i].value.Some?)
  {
    var ms, members := d.values, ToEnumMembers(d.values);
    var after := ValidatedEnum(ToEnum(d)).members;
    forall i | 0 <= i < |ms|
      ensures after[i].value == if AllZero(members) then i else members[i].value
      ensures ms[i].value.Some? ==> members[i].value == ms[i].value.value
    {
    }
    if AllZero(members) {
      forall i | 0 <= i < |ms| && ms[i].value.Some?
        ensures ms[i].value.value == 0
      {
        assert members[i].value == 0;
      }
    }
  }

  function ZeroMember(name: string): EnumMemberTree {
    EnumMemberTree([], name, Some(0), true)
  }

  // enum E { A = 0, B = 0, } comes out with B = 1.
  lemma WrittenZeroIsLost()
    ensures var d := EnumTree([], "E", [ZeroMember("A"), ZeroMember("B")]);
      d.values[1].value == Some(0) && ValidatedEnum(ToEnum(d)).members[1].value == 1
  {
    var d := EnumTree([], "E", [ZeroMember("A"), ZeroMember("B")]);
    var members := ToEnumMembers(d.values);
    assert members[0].value == 0 && members[1].value == 0;
  }

  // ------------------------------------------------------------------------
  // Loaded modules have no cache and no id yet
  // ------------------------------------------------------------------------

  lemma {:induction false} PropertiesAreFresh(ms: seq<MemberTree>)
    ensures AllFresh(ToProperties(ms))
  {
    if ms != [] {
      PropertiesAreFresh(ms[..|ms| - 1]);
    }
  }

  lemma OperationIsFresh(m: MemberTree)
    requires m.OperationTree?
    ensures FreshOperation(ToOperation(m))
  {
  }

  lemma {:induction false} OperationsAreFresh(ms: seq<MemberTree>)
    ensures forall j :: 0 <= j < |ToOperations(ms)| ==> FreshOperation(ToOperations(ms)[j])
  {
    if ms != [] {
      OperationsAreFresh(ms[..|ms| - 1]);
      var m := ms[|ms| - 1];
      if m.OperationTree? {
        OperationIsFresh(m);
        assert ToOperations(ms) == ToOperations(ms[..|ms| - 1]) + [ToOperation(m)];
      }
    }
  }

  lemma {:induction false} SignalsAreFresh(ms: seq<MemberTree>)
    ensures forall j :: 0 <= j < |ToSignals(ms)| ==> AllFresh(ToSignals(ms)[j].params)
  {
    if ms != [] {
      SignalsAreFresh(ms[..|ms| - 1]);
    }
  }

  lemma InterfaceIsFresh(d: DeclTree)
    requires d.InterfaceTree?
    ensures FreshInterface(ToInterface(d))
  {
    PropertiesAreFresh(d.members);
    OperationsAreFresh(d.members);
    SignalsAreFresh(d.members);
  }

  lemma StructIsFresh(d: DeclTree)
    requires d.StructTree?
    ensures AllFresh(ToStruct(d).fields)
  {
  }

  lemma DeclIsFresh(m: Module, d: DeclTree)
    requires FreshModule(m)
    ensures var r := AddDecl(m, d);
      FreshModule(r) && r.node == m.node && r.attached == m.attached && r.checksum == m.checksum
  {
    match d
    case ExternTree(_, _, _) =>
    case InterfaceTree(_, _, _, _) =>
      InterfaceIsFresh(d);
    case StructTree(_, _, _) =>
      StructIsFresh(d);
    case EnumTree(_, _, _) =>
  }

  lemma {:induction false} DeclsAreFresh(m: Module, ds: seq<DeclTree>)
    requires FreshModule(m)
    ensures var r := AddDecls(m, ds);
      FreshModule(r) && r.node == m.node && r.attached == m.attached && r.checksum == m.checksum
  {
    if ds != [] {
      DeclsAreFresh(m, ds[..|ds| - 1]);
      DeclIsFresh(AddDecls(m, ds[..|ds| - 1]), ds[|ds| - 1]);
    }
  }

  // So SystemProperties.EveryCacheIsRight speaks about loaded modules.
  lemma LoadedIsFresh(d: DocumentTree)
    ensures FreshModule(ToModule(d)) && ToModule(d).attached && ToModule(d).checksum.None?
    ensures ToModule(d).node.name == d.header.mod.name
  {
    DeclsAreFresh(ToHeader(d.header), d.decls);
  }
}
