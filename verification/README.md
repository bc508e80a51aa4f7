# Verified model of the ApiGear command line core

ApiGear reads an API description, resolves it into a model, and drives template
rules over that model to write files. This project models that pipeline, and the
task layer beside it, in Dafny, and proves what each part promises.

    dafny verify dfyconfig.toml

| file | what it holds |
|---|---|
| `Syntax.dfy`, `Grammar.dfy`, `Parser.dfy` | tokens, parse trees and their print; the grammar as functions; the parser with its shared token stream |
| `RoundTrip.dfy` | the parser inverts the print and accepts nothing else |
| `Translation.dfy`, `Listener.dfy`, `Loading.dfy` | the module a tree means; the listener that builds it step by step; from tokens to a system |
| `Meaning.dfy` | what a document says about its module, as a relation that the translation is checked against |
| `ApiModel.dfy`, `Names.dfy`, `Lookup.dfy` | entities; dotted names; lookups of module and system |
| `Validation.dfy`, `Identifiers.dfy`, `Systems.dfy`, `SystemProperties.dfy` | what validation computes; ids; the system that does it in place; idempotence and right caches |
| `Kept.dfy`, `Checksums.dfy` | what validation leaves as it was written; what the hashed text tells apart |
| `Features.dfy`, `Generator.dfy` | feature selection; what a generator run does to the output directory |
| `Documents.dfy` | which documents are processed, in which order, and what each does, told by the fields of the rules |
| `TaskModel.dfy`, `TaskProperties.dfy`, `Tasks.dfy` | tasks, contexts and their steps; what every run keeps; the same as objects |
| `TaskRecords.dfy` | events, registered tasks and metadata, step by step and over whole runs |
| `Emitters.dfy`, `Keywords.dfy` | the event emitter against one log of registrations; the keyword index against the scan |
| `Wrappers.dfy`, `Lists.dfy` | helpers |

## Main results

- Parsing undoes printing for every document and every choice of optional
  punctuation, and for all token lists the parser gives a tree and leaves certain
  tokens exactly if its input is the print of that tree before them and the rules
  cannot take the first of them (`RoundTrip.ParsingUndoesPrinting`, `RoundTrip.ParserDecidesPrinted`).
- The listener, which juggles a dozen pointers, adds exactly the module that a
  recursive translation of the tree gives, and its own nil checks never fail; that
  module is the one that the document describes, piece by piece
  (`Listener.ObjectApiListener.WalkDocument`, `Meaning.ModuleIsSaid`).
- Validation succeeds exactly if names are distinct in every scope, numbers all
  nodes from 1 to N, is idempotent, keeps all that was written, and leaves caches
  that agree with lookups
  (`Systems.System.Validate`, `SystemProperties.UniqueMeansNamesDiffer`,
  `SystemProperties.ValidateIsIdempotent`, `Kept.ValidationKeepsWhatIsWritten`,
  `SystemProperties.EveryCacheIsRight`, `Validation.ResolvingFindsTheFirst`,
  `Loading.ParseInputs`).
- Feature selection is exactly the reachable part of any requires graph, and
  fails exactly if something reachable is undefined
  (`Features.RulesDoc.ComputeFeatures`, `Features.ReachableIsLeastClosed`).
- The files after a generator run have a closed form, a second run changes none,
  and the counters add up to the number of document instances; each counter has a
  closed form too, which tells exactly when a dry run ends with the counts of the
  real run (`Generator.ClosedForm`, `Generator.RunIsIdempotent`,
  `Generator.CountersAreConserved`, `Generator.CountersInClosedForm`,
  `Generator.DryRunForecastsIff`).
- In every run of the task manager an item has at most one live run and one live
  watch; a cancelled task stays dead exactly if no earlier watch waits to be started
  in a live context that the cancel does not end (`TaskProperties.AtMostOneLiveInEveryRun`,
  `TaskProperties.CancelHoldsIffNoneWaiting`), and the registry events tell its
  history (`TaskProperties.RegistryHistoryFromStart`).
- A run processes exactly the documents of the enabled features, each for the
  entities of its scope, in order, and never touches a file that is to be preserved
  (`Documents.JobsAreDocuments`, `Documents.WholeRunPreserves`).
- The emitter calls exactly the handlers that are still registered, in order, and
  loses none (`Emitters.LogHoldsWhatIsInForce`, `Emitters.EmitCallsInOrder`,
  `Emitters.HandlersAreConserved`).

## How it is built

Where the source updates fields, the model has a class whose methods are proved
against functions on values, and the results are proved about those functions. Where
such a function only computes, a second description of its result, by relations and
positions, says what it has to compute (`Meaning`, `Kept`, `Documents`, `TaskRecords`,
`Identifiers.IdsInClosedForm`, `Checksums`).

Where code and documentation of the repository disagree, or a promise does not
hold for all inputs, the model follows the code and a lemma says exactly when
the promise is kept:

- `Emitter.Has` is documented to tell whether an event has handlers; it says yes
  after the last one was removed (`Emitters.HasIsRightIff`).
- A dry run counts from the files at the start and does not look for raw files. Its
  counts are in the end those of the real run exactly if both skip as many
  documents and the dry run gets at most one document further; all of this is
  known before the run (`Generator.DryRunForecastsIff`,
  `Generator.WholeDryRunForecastsIff`). They agree all the way exactly if, instead
  of the numbers, the two runs skip the same documents
  (`Generator.DryRunForecastsThroughoutIff`), which is more
  (`Generator.CountsAgreeAtTheEndOnly`). Existing raw files with distinct targets
  or force are enough for both; a shared target may or may not do harm
  (`Generator.DryRunForecasts`, `Generator.SharedTargetMisleadsDryRun`,
  `Generator.SharedTargetForecast`). When success is forecast is said by
  `Generator.DryRunForecastsSuccessIff`.
- Of two modules that share a name the later one may deny what the system finds
  (`Lookup.AnswersAsSystemIff`).
- `FeatureNamesMap` reports the last feature of a name, the selection enables
  the first (`Features.NamesMapReportsSelection`, `Features.SharedNameIsMisreported`).
- A schema getter called before validation can fix a wrong kind for good
  (`Validation.GetterBeforeValidation`, `Validation.EarlyGetterLosesEnum`).
- `TaskManager.Cancel` does not stop a watch whose goroutine has not been
  scheduled yet, and `RmTask` does not stop a watch that is not derived from the run
  (`TaskProperties.CancelHoldsIffNoneWaiting`, `TaskProperties.CancelCanFail`,
  `TaskProperties.RemovedTaskStillRuns`, `TaskProperties.RemovedTaskCanRun`).
- An enum whose members all come out as zero is renumbered, so that a written zero
  can be lost (`Validation.EnumKeepsValuesIff`, `Loading.WrittenValuesSurviveIff`,
  `Loading.WrittenZeroIsLost`).

## Model

| member | source | states |
|---|---|---|
| RoundTrip.ParsingUndoesPrinting | pkg/idl/parser/objectapi_parser.go:417-4931 | for every document tree, with any choice of optional commas and semicolons, parsing what is printed gives back that tree and leaves exactly the tokens behind it, unless the first of these is one that the rules would still take: the start of a declaration, an import behind a bare header, or a version or semicolon that the last line lacks |
| RoundTrip.ParserDecidesPrinted | pkg/idl/parser/objectapi_parser.go:417-4931 | for all token lists: the parser gives a certain tree and leaves certain tokens if and only if its input is the print of that tree followed by these tokens and the first of them is not one that the rules would still take |
| RoundTrip.DocumentStops | pkg/idl/parser/objectapi_parser.go:417-459 | the parser never stops before a token that it could still take |
| RoundTrip.PrintingIsInjective | pkg/idl/parser/objectapi_parser.go:417-4931 | two documents that print to the same tokens are the same document: the grammar is unambiguous |
| RoundTrip.WrittenForms | pkg/idl/parser/ObjectApi.g4:3-56 | how headers and declarations are written, token by token |
| RoundTrip.WrittenMembers | pkg/idl/parser/ObjectApi.g4:26-72 | how members, parameters, fields, enum members and types are written, token by token |
| RoundTrip.DocumentSound | pkg/idl/parser/objectapi_parser.go:417-459 | what is accepted as a document is, token by token, the print of the tree that is returned, followed by the rest |
| RoundTrip.DeclSound | pkg/idl/parser/objectapi_parser.go:1186-1239 | the same for a declaration, whichever of the four alternatives the look-ahead picks |
| RoundTrip.MemberSound | pkg/idl/parser/objectapi_parser.go:1870-1916 | the same for an interface member |
| RoundTrip.MemberPrediction | pkg/idl/parser/objectapi_parser.go:1870-1916 | the look-ahead past the meta lines sends the print of a property, an operation and a signal each to its own alternative |
| RoundTrip.PredictionSkipsMetas | pkg/idl/parser/objectapi_parser.go:1186-1239 | the look-ahead of the two predictions sees the first token behind all meta lines |
| RoundTrip.DeclInvertsBefore | pkg/idl/parser/objectapi_parser.go:1186-1239 | parsing undoes printing for each kind of declaration before any tokens, except a semicolon behind an extern that has none |
| RoundTrip.MemberInverts | pkg/idl/parser/objectapi_parser.go:1870-1916 | parsing undoes printing for each kind of interface member |
| RoundTrip.ParseDeclShrinks | pkg/idl/parser/objectapi_parser.go:417-459 | a declaration consumes at least one token, so the document loop ends |
| RoundTrip.ParseMemberShrinks | pkg/idl/parser/objectapi_parser.go:1630-1752 | an interface member consumes at least one token, so the member loop ends |
| Parser.ObjectApiParser.DocumentRule | pkg/idl/parser/objectapi_parser.go:417-459 | consumes and returns exactly what the document grammar accepts (the grammar that ParsingUndoesPrinting and ParserDecidesPrinted are about), or no tree; the loop over declarations ends on every input |
| Parser.ObjectApiParser.HeaderRule | pkg/idl/parser/objectapi_parser.go:586-628 | the same for the module line and the imports |
| Parser.ObjectApiParser.ModuleRule | pkg/idl/parser/objectapi_parser.go:775-871 | the same for the module line with its meta lines, optional version and optional semicolon |
| Parser.ObjectApiParser.ImportRule | pkg/idl/parser/objectapi_parser.go:975-1051 | the same for an import |
| Parser.ObjectApiParser.DeclarationsRule | pkg/idl/parser/objectapi_parser.go:1186-1239 | the same for a declaration: the alternative is picked by the token behind the meta lines |
| Parser.ObjectApiParser.ExternRule | pkg/idl/parser/objectapi_parser.go:1370-1445 | the same for an extern |
| Parser.ObjectApiParser.InterfaceRule | pkg/idl/parser/objectapi_parser.go:1630-1752 | the same for an interface with its optional base |
| Parser.ObjectApiParser.InterfaceMembersRule | pkg/idl/parser/objectapi_parser.go:1870-1916 | the same for a member: signal, operation or property by the tokens behind the meta lines |
| Parser.ObjectApiParser.PropertyRule | pkg/idl/parser/objectapi_parser.go:2086-2189 | the same for a property |
| Parser.ObjectApiParser.OperationRule | pkg/idl/parser/objectapi_parser.go:2391-2511 | the same for an operation |
| Parser.ObjectApiParser.OperationReturnRule | pkg/idl/parser/objectapi_parser.go:2606-2637 | the same for a return type |
| Parser.ObjectApiParser.OperationParamRule | pkg/idl/parser/objectapi_parser.go:2748-2810 | the same for a parameter with its optional comma |
| Parser.ObjectApiParser.SignalRule | pkg/idl/parser/objectapi_parser.go:2995-3109 | the same for a signal |
| Parser.ObjectApiParser.StructRule | pkg/idl/parser/objectapi_parser.go:3278-3371 | the same for a struct |
| Parser.ObjectApiParser.StructFieldRule | pkg/idl/parser/objectapi_parser.go:3541-3644 | the same for a struct field |
| Parser.ObjectApiParser.EnumRule | pkg/idl/parser/objectapi_parser.go:3813-3906 | the same for an enum |
| Parser.ObjectApiParser.EnumMemberRule | pkg/idl/parser/objectapi_parser.go:4048-4144 | the same for an enum member with its optional value and comma |
| Parser.ObjectApiParser.SchemaRule | pkg/idl/parser/objectapi_parser.go:4262-4317 | the same for a type: a primitive or a name, optionally an array |
| Parser.ObjectApiParser.MetaRule | pkg/idl/parser/objectapi_parser.go:4877-4931 | the same for one doc or tag line |
| Listener.ObjectApiListener.WalkDocument | pkg/idl/listener.go:74-451 | walking any error-free tree appends to the system exactly the module that the recursive translation of the tree gives; none of the nil checks on the way fails; all working pointers end nil |
| Listener.ObjectApiListener.WalkHeader | pkg/idl/listener.go:84-111 | from nil, the module pointer holds the translated module line and imports; no check fails |
| Listener.ObjectApiListener.WalkDecls | pkg/idl/listener.go:114-332 | the declarations are added to the module one by one in order; between two declarations every other pointer is nil; no check fails |
| Listener.ObjectApiListener.WalkInterface | pkg/idl/listener.go:136-272 | the translated interface is appended to the module, its members sorted by kind and in order; no check fails and no member pointer is left set |
| Listener.ObjectApiListener.WalkMembers | pkg/idl/listener.go:171-272 | properties, operations and signals end in their own lists, each in order of declaration |
| Listener.ObjectApiListener.WalkProperty | pkg/idl/listener.go:176-194 | exactly the translated property is appended to the interface |
| Listener.ObjectApiListener.WalkOperation | pkg/idl/listener.go:197-254 | exactly the translated operation is appended to the interface: its parameters, and no return node when no type is written |
| Listener.ObjectApiListener.WalkSignal | pkg/idl/listener.go:245-272 | exactly the translated signal is appended: its parameters do not go to an operation |
| Listener.ObjectApiListener.WalkParams | pkg/idl/listener.go:235-254 | the parameters go, in order, to the operation under way or else to the signal, and the other is left alone |
| Listener.ObjectApiListener.WalkStruct | pkg/idl/listener.go:275-312 | the translated struct is appended to the module |
| Listener.ObjectApiListener.WalkEnum | pkg/idl/listener.go:315-359 | the translated enum is appended to the module |
| Listener.ObjectApiListener.WalkEnumMembers | pkg/idl/listener.go:335-359 | a member without a value gets the number of members without a value before it; a given value does not move the numbering on |
| Listener.ObjectApiListener.WalkSchema | pkg/idl/listener.go:362-404 | from nil, the schema pointer holds the translated type; no check fails |
| Listener.ObjectApiListener.ParseMeta | pkg/idl/listener.go:462-502 | the doc lines, trimmed and joined, replace the description if there are any; the tag lines are kept in order |
| Listener.MembersByKind | pkg/idl/listener.go:176-272 | adding members of mixed kinds one at a time gives the same three lists as selecting each kind on its own |
| Loading.Parser.ParseStream | pkg/idl/parser.go:47-59 | the stream that a document prints to adds one module, which the document describes in every piece (ModuleIsSaid), whatever comes behind that cannot go on with it; an accepted stream adds the translation of its tree and nothing else changes |
| Loading.LoadingUndoesPrinting | pkg/idl/parser.go:47-59 | the tokens of a printed document load as the one module that the document means |
| Loading.ParseInputs | pkg/sol/parse.go:14-42 | loading any number of inputs into a system and validating it once succeeds if and only if names are distinct in every scope of all modules together; then in every loaded module every cache is right, and every module of the system has kept what was written (ValidationKeepsWhatIsWritten) |
| Loading.LoadedAreSaid | pkg/idl/parser.go:47-59 | an input that is accepted loads as one module that its document describes in every piece, any other loads as none |
| Loading.PrimitiveIsResolved | pkg/model/schema.go:48-110 | a type that is written with a word of the grammar is no symbol after loading and validation, but void or a primitive of exactly that name, array or not, in every module |
| Meaning.ModuleIsSaid | pkg/idl/listener.go:74-451 | relation between tree and loaded module, piece by piece: each declaration and member stands in the list of its kind at the position that is the number of its kind before it, with its name, meta lines, read-only and array flags, types, base, return type, values; module version, imports |
| Meaning.InterfaceIsSaid | pkg/idl/listener.go:136-272 | the same for an interface, its base and its members of mixed kinds |
| Meaning.StructIsSaid | pkg/idl/listener.go:275-312 | the same for a struct and its fields |
| Meaning.EnumIsSaid | pkg/idl/listener.go:315-359 | the same for an enum: a member has its written value, or the number of members without a value before it |
| Meaning.TypeIsTheToken | pkg/idl/listener.go:376-381 | the text of the token that is consumed for a primitive type is its type name |
| Meaning.NameIsTakenApart | pkg/idl/listener.go:384-398 | a written name is import, dot and a last part without dots, or has no import if it has no dot |
| Meaning.MetasAreSaid | pkg/idl/listener.go:462-502 | doc and tag lines are told apart and keep their order |
| Meaning.LineIsSaid | pkg/idl/listener.go:486-489 | a doc line is the text without its leading slashes and the space around the rest, and no more could be cut off |
| Loading.WrittenValuesSurviveIff | pkg/model/enum.go:42-64 | every value written in an enum is its value after loading and validation, if and only if not all members come out as zero with a written one behind the first |
| Loading.WrittenZeroIsLost | pkg/model/enum.go:42-64 | the case occurs: of two members written as 0 the second comes out as 1 |
| Loading.LoadedIsFresh | pkg/idl/listener.go:84-415 | a loaded module is attached to its system and has no resolved schema, no cached reference and no checksum |
| Names.Split | pkg/model/system.go:236-261 | the parts of a split never contain the separator, and there is at least one |
| Names.SplitOfConcat | pkg/model/system.go:236-261 | splitting at a separator splits both sides on their own, whatever they contain |
| Names.JoinOfSplit | pkg/model/system.go:236-261 | joining a split gives the string back |
| Names.FqnSplit2RoundTrip | pkg/model/system.go:236-243 | module and element come back from module.element for any module name, dotted or not, and a dot-free element |
| Names.FqnSplit3RoundTrip | pkg/model/system.go:249-261 | module, element and member come back from their dotted name, for any module name |
| Names.QualifiedName | pkg/idl/listener.go:384-398 | qualifier and name come back from a qualified name, whatever dots the qualifier has |
| Names.RequalifiedName | pkg/idl/listener.go:384-398 | any dotted name is its qualifier, a dot and a last part without dots |
| Names.ItoaSaysNumber | pkg/model/module.go:352-357 | a number is written in decimal without leading zeros, behind a sign if it is negative |
| Lookup.IndexOf | pkg/model/module.go:133-222 | the first position of a name in a list, or none exactly if the name is not in it |
| Lookup.LookupModule | pkg/model/system.go:51-58 | the first module of that name, or none exactly if no module has it |
| Lookup.LookupIsLocalToTarget | pkg/model/module.go:142-234 | the mutual recursion of module and system ends, and is decided by the lists of one module: the asked one, or the first of the given name |
| Lookup.QualifiedLookupFindsFirstModule | pkg/model/system.go:61-131 | a module answers for its own name in the system if and only if no earlier module has that name |
| Lookup.LookupIsLocationIndependent | pkg/model/module.go:142-234 | with distinct module names every attached module answers a qualified lookup as the system does |
| Lookup.AnswersAsSystemIff | pkg/model/module.go:142-234 | for any module names, an attached module answers every qualified lookup as the system does if and only if its name is empty, or it is the first of its name, or neither it nor the first of its name declares anything |
| Lookup.SharedModuleNameBreaksIndependence | pkg/model/module.go:142-234 | the failing case occurs: of two modules called m the first declares an enum, and the second denies it |
| Lookup.AddedModuleAnswers | pkg/model/system.go:45-76 | a module added last changes no answer of the system but those under its own name, and these only if no other module has the name |
| Lookup.MemberByQualifiedName | pkg/model/system.go:79-105 | looking up module.Interface#member is the direct lookup of interface and member, for any dotted module name |
| Lookup.NodeByQualifiedName | pkg/model/system.go:79-105 | looking up module.Name tries interface, struct and enum of that module, in that order |
| Lookup.PartIndex | pkg/model/iface.go:203-247 | in a list of distinct names made of parts, a name is found in the part that holds it, at its place, and in no other part |
| Lookup.LookupMemberFindsOwn | pkg/model/iface.go:203-247 | with distinct member names each property, operation and signal is found under its own name |
| Lookup.MemberNameRoundTrip | pkg/model/system.go:79-105 | in a system with distinct names the full name of every interface member leads back to that very member |
| Lookup.LookupFindsDeclared | pkg/model/system.go:51-131 | with distinct module names, a lookup answers with a certain declaration if and only if that is the first of its kind and name in the module of that name |
| Validation.AtMostOneKind | pkg/model/module.go:254-302 | in a module whose declarations have distinct names, a symbol is found as at most one of extern, enum, struct and interface |
| Validation.ResolvingFindsTheFirst | pkg/model/schema.go:81-116 | what resolving a symbol schema finds, with its kind and its cache, is what trying the four kinds in any order finds first, and nothing is found exactly if the schema stays without a kind |
| Validation.ResolutionOrderDoesNotMatter | pkg/model/schema.go:81-116 | so any two orders find the same declaration |
| Validation.EnumKeepsValuesIff | pkg/model/enum.go:42-64 | validation leaves the values of an enum as they are if and only if one of them is not zero or there are less than two |
| Validation.ValidatedIsResolved | pkg/model/schema.go:48-136 | after validation reading a cache changes nothing; a type is a symbol exactly if its name is no word of the grammar, and else void or a primitive of that name |
| Validation.PrimitivesOfTheGrammar | pkg/model/schema.go:48-67 | the names that count as primitive are the words of the grammar for primitive types, but for void |
| Validation.CacheAgreesWithLookup | pkg/model/schema.go:81-152 | after validation every getter answers what a fresh lookup of that kind answers, and the kind of the schema names exactly the kind whose lookup finds something |
| Validation.GetterBeforeValidation | pkg/model/schema.go:48-136 | a getter called before validation is harmless if and only if the loader had marked the schema as a symbol and not as a primitive; otherwise an unmarked symbol is taken for void for good |
| Validation.EarlyGetterLosesEnum | pkg/model/schema.go:48-136 | the case occurs: an enum of the own module is found by a lookup and by the getter after validation, but no longer if the getter was called before |
| Validation.EnumIdempotent | pkg/model/enum.go:42-64 | numbering the members of an all-zero enum a second time changes nothing |
| Validation.InterfaceIdempotent | pkg/model/iface.go:249-296 | validating an interface twice is validating it once: base, schemas, missing return nodes |
| Validation.ModuleIdempotent | pkg/model/module.go:254-361 | validating a module twice is validating it once, checksum text included |
| Validation.ModulesIdempotent | pkg/model/system.go:157-179 | the same for all modules of a system, with the lookups done in the validated system the second time |
| Systems.System.Validate | pkg/model/system.go:157-179 | succeeds if and only if module names, and the names in every scope of every module, are distinct; then the modules are the validated ones, with ids counting from 1 in traversal order, and the checksum is set |
| Systems.System.ValidateModules | pkg/model/system.go:157-171 | succeeds if and only if every module has distinct names in all its scopes; validating one module does not change what the others can look up |
| Systems.System.ValidateModule | pkg/model/module.go:254-305 | succeeds if and only if externs, interfaces, structs and enums have jointly distinct names and so have the members of each; then exactly this module is replaced, by its validated form |
| Systems.System.ValidateDeclarations | pkg/model/module.go:261-302 | decides the joint distinctness of names across the four lists and within each declaration |
| Systems.System.ValidateInterface | pkg/model/iface.go:249-296 | succeeds if and only if properties, operations and signals have jointly distinct names; resolves the base interface and every type |
| Systems.System.ValidateScope | pkg/model/struct.go:40-57 | succeeds if and only if no name repeats among the fields, and then all schemas are validated in order |
| Systems.System.ValidateOperation | pkg/model/iface.go:95-115 | an operation without a return node gets a void one; parameters and return are validated |
| Systems.System.ValidateEnum | pkg/model/enum.go:42-64 | succeeds if and only if member names are distinct; members are numbered 0, 1, 2, … exactly if all values were zero |
| Systems.System.ComputeModuleChecksum | pkg/model/module.go:320-361 | the text that is hashed is the module name followed by the texts of interfaces, structs and enums in order, and lookups do not see the change |
| Systems.System.ComputeIdentifier | pkg/model/system.go:182-220 | the ids of modules, interfaces, operations, properties, signals, structs, fields, enums and members count 1, 2, 3, … in traversal order, and nothing but ids changes |
| Systems.System.ComputeChecksum | pkg/model/system.go:223-234 | the system checksum is made of the module checksums in order |
| Systems.System.AddModule | pkg/model/system.go:45-48 | the module comes last and is attached; it answers under its own name if no other module has it, and every other answer of the system stays |
| Identifiers.CountingIsBijective | pkg/model/system.go:182-220 | ids that count are exactly the numbers 1 to N, each used once, and strictly increase |
| Identifiers.NumberingIsUnique | pkg/model/system.go:182-220 | a system has only one such numbering |
| Identifiers.IdsInClosedForm | pkg/model/system.go:182-220 | the id of every module, interface, operation, property, signal, struct, field, enum and member as a sum of sizes of what comes before it: operations before properties before signals, interfaces before structs before enums |
| SystemProperties.IdsAreNoNames | pkg/model/system.go:51-131 | lookups and uniqueness do not depend on ids |
| SystemProperties.ValidationKeepsNames | pkg/model/system.go:157-171 | a system has distinct names if and only if its validated form has |
| SystemProperties.SettledModules | pkg/model/system.go:157-220 | a validated system stays validated under any renumbering |
| SystemProperties.ValidateIsIdempotent | pkg/model/system.go:157-220 | after a successful validation a second one succeeds too and leaves every kind, cached reference, base, enum value, id and checksum text as it is |
| SystemProperties.UniqueMeansDistinctScopes | pkg/model/module.go:261-302 | what validation checks is what the resolution results assume |
| SystemProperties.UniqueMeansNamesDiffer | pkg/model/module.go:254-303 | validation succeeds if and only if names differ pairwise: modules, declarations of a module of whatever kinds, members of an interface of whatever kinds, fields, enum members |
| SystemProperties.EveryCacheIsRight | pkg/model/schema.go:81-152 | after the first successful validation of a loaded system, in every property, parameter, return type, signal parameter and field of every module: a type is a symbol exactly if its name is no word of the grammar, and else void or a primitive of that name; kind and cached pointer of a symbol are what a lookup answers now, and it has no kind exactly if nothing is found; any other type is void or primitive by name; and every base interface is the looked-up one |
| Kept.ValidationKeepsWhatIsWritten | pkg/model/system.go:157-180 | modules before and after, piece by piece: names, meta lines, types, imports, read-only and array flags, order, base names and written versions stay; a missing type or return type becomes void, a missing version 1.0, a base without import one of the own module, enum values that are all zero their positions |
| Kept.BaseIsLookedUp | pkg/model/iface.go:249-262 | after validation a base has the import that was written, or the own module if none was, and is what a lookup under that import answers |
| Checksums.ChecksumTellsApart | pkg/model/module.go:320-358 | of two modules of one shape, whose pieces have the same lengths, the hashed texts are equal if and only if all names, types and enum values are |
| Checksums.NothingElseCounts | pkg/model/module.go:320-358 | modules with the same names, types and enum values have the same text, whatever their flags, meta lines, ids, imports, externs, bases and versions |
| Checksums.OrderOfThePieces | pkg/model/module.go:320-358 | the order of the pieces: parameters before the return type, operations before properties before signals, interfaces before structs before enums |
| Checksums.ChecksumOfModule | pkg/model/system.go:157-180 | after a successful validation the checksum of a module is that of the module as it then is |
| Checksums.ChecksumsCollide | pkg/model/module.go:320-358 | pieces are not separated: moving a letter from a type to the name before it leaves the text alone |
| Checksums.NumbersAreToldApart | pkg/model/module.go:352-357 | different enum values have different texts |
| Features.RulesDoc.ComputeFeatures | pkg/spec/rules.go:75-123 | without `all` it succeeds if and only if every name reachable from the wanted names is defined, and else leaves every feature skipped; on success a feature is enabled exactly if it is the one its name resolves to and the name is reachable; `all` enables everything |
| Features.RulesDoc.WalkRequired | pkg/spec/rules.go:125-144 | ends on every graph, also a cyclic one; marks only reachable names; on success everything marked has its requirements marked; fails only with a reachable undefined name |
| Features.RulesDoc.WalkWanted | pkg/spec/rules.go:91-108 | on success the marked names contain the wanted ones and are closed under requires; only reachable names are marked |
| Features.RulesDoc.FeatureByName | pkg/spec/rules.go:52-59 | the first feature of that name, or nil exactly if there is none |
| Features.RulesDoc.Validate | pkg/spec/rules.go:61-71 | fails exactly if some document asks for force and preserve at once |
| Features.RulesDoc.FeatureNamesMap | pkg/spec/rules.go:170-176 | every name maps to the flag of the last feature of that name |
| Features.FeatureRule.FindScopesByMatch | pkg/spec/rules.go:202-210 | the scopes of that type, in order |
| Features.ReachableIsLeastClosed | pkg/spec/rules.go:91-143 | a set of reachable names that contains the wanted ones and is closed under requires is exactly the reachable names, and the least such set |
| Features.PathStaysInClosed | pkg/spec/rules.go:125-144 | a path of requirements from a wanted name never leaves a closed set |
| Features.NamesMapAt | pkg/spec/rules.go:170-176 | what the map says of a name is what the last feature of that name says |
| Features.NamesMapReportsSelection | pkg/spec/rules.go:170-176 | the map reports a name as enabled if and only if it is reachable and no later feature of the same name hides the enabled one |
| Features.SharedNameIsMisreported | pkg/spec/rules.go:170-176 | the case occurs: of two features of one wanted name the first is enabled and the map says that the name is not |
| Features.DistinctNamesMap | pkg/spec/rules.go:170-176 | after a successful selection with distinct names the map reports exactly the reachable names |
| Features.DistinctNamesSelection | pkg/spec/rules.go:75-123 | with distinct names the enabled features are exactly the closure |
| Features.DistinctNamesEdges | pkg/spec/rules.go:91-108 | with distinct names the root loop follows no requirement but those of the resolved features |
| Generator.Generator.ProcessRules | pkg/gen/generator.go:137-165 | invalid rules change nothing; else files, counters, touched list and success are those of the documents selected by feature, scope and entity, executed in order up to the first error |
| Generator.Generator.ProcessFeature | pkg/gen/generator.go:168-251 | one feature: system scopes, then for each module its module, interface, struct and enum scopes, entity by entity, up to the first error |
| Generator.Generator.ProcessModule | pkg/gen/generator.go:183-249 | the part of one module |
| Generator.Generator.ProcessScope | pkg/gen/generator.go:254-271 | the documents of a scope in order, an empty target replaced by the source, the prefix put before it |
| Generator.Generator.ProcessDocument | pkg/gen/generator.go:274-301 | a raw document is copied, another one rendered; an error in the target name touches nothing |
| Generator.Generator.CopyFile | pkg/gen/generator.go:321-331 | counted first, also if the copy fails; a dry run only notes the target |
| Generator.Generator.RenderFile | pkg/gen/generator.go:333-352 | an error of the template touches nothing; else the content goes to WriteFile |
| Generator.Generator.WriteFile | pkg/gen/generator.go:354-376 | force writes; without it an existing file is skipped if it is to be preserved or has the same content, else written |
| Generator.Generator.WriteToOutput | pkg/gen/generator.go:383-392 | counts and notes the file; a dry run leaves the files alone |
| Generator.Output.Compare | pkg/gen/out.go:40-42 | true exactly if the file is there with that content |
| Documents.OneDocument | pkg/gen/generator.go:274-392 | what one document does to files, counters, touched list and success, by its raw and preserve fields, its rendered target, its template and its file, with and without force and dry run |
| Documents.PreservedFileStays | pkg/gen/generator.go:354-376 | without force, a file that is there keeps its content in every run if all documents that go to it are to be preserved and not raw |
| Documents.WholeRunPreserves | pkg/gen/generator.go:137-165 | the same for a whole run, by the documents, targets and prefixes that are written in the rules |
| Documents.JobsAreDocuments | pkg/gen/generator.go:168-271 | a document is processed for an entity if and only if it is in a scope of an enabled feature and the entity is of the type of the scope; its target is prefix and target, or prefix and source if it has none |
| Documents.DocumentAt | pkg/gen/generator.go:254-271 | documents of a scope come in order |
| Documents.ScopesInOrder | pkg/gen/generator.go:168-251 | scopes come in order |
| Documents.MatchingInOrder | pkg/spec/rules.go:202-210 | selecting the scopes of a type keeps their order |
| Documents.EntityAt | pkg/gen/generator.go:199-249 | entities of a module come in order |
| Documents.EntitiesInOrder | pkg/gen/generator.go:199-249 | all scopes for an entity come before those for the next |
| Documents.ModulesInOrder | pkg/gen/generator.go:183-249 | modules come in order |
| Documents.FeaturesInOrder | pkg/gen/generator.go:137-165 | features come in order |
| Documents.ModuleStages | pkg/gen/generator.go:183-249 | within a module: module scopes, then interfaces, structs and enums |
| Documents.SystemComesFirst | pkg/gen/generator.go:168-182 | within a feature the scopes of the system come first |
| Generator.ExecuteConcat | pkg/gen/generator.go:137-301 | executing two lists of documents after one another is executing them as one, an error in the first stopping both |
| Generator.ClosedForm | pkg/gen/generator.go:254-392 | for any rules and any initial files, also if the run stops at an error: each path ends with the last overwriting document executed for it, else its initial content, else the first document rendered for it |
| Generator.LastDocumentWins | pkg/gen/generator.go:354-392 | the last document that overwrites a path decides: with force any, without it any raw or not preserved one |
| Generator.RunIsIdempotent | pkg/gen/generator.go:137-392 | running again from the result gives the same files, even when documents share targets, with or without force, and also if the first run failed |
| Generator.GeneratingAgainChangesNothing | pkg/gen/generator.go:137-165 | the same for a whole run with its feature selection |
| Generator.SkipsAllIffUpToDate | pkg/gen/generator.go:354-381 | without force a run skips all its documents if and only if all were up to date before it |
| Generator.SecondRunSkipsAll | pkg/gen/generator.go:354-381 | with distinct targets, no raw document and no force, a second run writes nothing and skips every document |
| Generator.DryRunWritesNothing | pkg/gen/generator.go:321-392 | a dry run changes no file |
| Generator.CountersInClosedForm | pkg/gen/generator.go:354-392 | for every run, real or dry and also one that stops at an error, each counter is a function of the documents and of the files at the start: skipped counts the documents that find their content, or any content if they are to be preserved, where what they find is the closed form of the files |
| Generator.DryRunForecastsIff | pkg/gen/generator.go:37-43 | for any documents and files, whether or not a run fails: a dry run ends with the written, skipped and copied counts of the real run if and only if both skip as many documents and the dry run gets at most one document further |
| Generator.WholeDryRunForecastsIff | pkg/gen/generator.go:137-165 | the same for a whole run with its feature selection |
| Generator.DryRunForecastsThroughoutIff | pkg/gen/generator.go:321-392 | the two runs count the same after every document if and only if each document before the real run stops is skipped by both or by neither, and the dry run gets at most one document further |
| Generator.CountsAgreeAtTheEndOnly | pkg/gen/generator.go:354-392 | agreeing at the end is less: of four documents one is skipped in the real run only and another in the dry run only |
| Generator.DryRunForecasts | pkg/gen/generator.go:321-392 | once the raw files exist, a dry run reports success and the written, skipped and copied counts of the real run if targets are distinct, or with force whatever the targets are |
| Generator.DryRunForecastsSuccessIff | pkg/gen/generator.go:274-352 | success is forecast if and only if the raw files exist or a target name or template fails anyway |
| Generator.SharedTargetMisleadsDryRun | pkg/gen/generator.go:321-392 | a shared target can mislead: one document twice is one write and one skip, but two writes in a dry run |
| Generator.SharedTargetForecast | pkg/gen/generator.go:321-392 | it need not: two documents of different content for one target are two writes in both |
| Generator.SuccessCondition | pkg/gen/generator.go:274-352 | a run succeeds if and only if all target names and templates render and, unless it is a dry run, every raw file exists |
| Generator.EachJobCountsOnce | pkg/gen/generator.go:41-43 | in any run each document before the one at which it stops adds one to the total of the counters, and that one does if it is a raw document |
| Generator.RulesJobsCount | pkg/gen/generator.go:168-271 | the nested loops visit as many document instances as documents times matching entities, summed over scopes of enabled features |
| Generator.CountersAreConserved | pkg/gen/generator.go:137-165 | after a successful run written + skipped + copied is that number; documents of skipped features contribute none; a failed run counts what it reached, and nothing if the selection fails |
| TaskProperties.CancelEndsSubtree | pkg/tasks/task.go:127-139 | cancelling ends a context and everything derived from it, and nothing else |
| TaskProperties.DeriveBorn | pkg/tasks/task.go:36-60 | a derived context is alive exactly if its parent is |
| TaskProperties.OwnedAfterRun | pkg/tasks/task.go:36-52 | a run replaces the previous one: the item holds the cancel function of its only live run context afterwards |
| TaskProperties.OwnedAfterWatch | pkg/tasks/task.go:56-60 | the same for a watch |
| TaskProperties.StepKeeps | pkg/tasks/manager.go:30-151 | every step of the manager, its goroutines and its callers keeps that each live context is the one its item holds |
| TaskProperties.AtMostOneLive | pkg/tasks/manager.go:30-151 | at any time an item has at most one live run context and at most one live watch context, and holds the cancel function of each |
| TaskProperties.AtMostOneLiveInEveryRun | pkg/tasks/manager.go:30-151 | the same after any sequence of steps from the start |
| TaskProperties.CancelStops | pkg/tasks/manager.go:133-142 | after Cancel no context of the task is alive |
| TaskProperties.QuietStep | pkg/tasks/task.go:108-139 | no step but a new Run or Watch in a live context brings a stopped item back, in particular no file event of an old watch loop |
| TaskProperties.RestartRevives | pkg/tasks/manager.go:82-111 | and such a Run or Watch does bring it back |
| TaskProperties.StaysStill | pkg/tasks/manager.go:133-142 | so a stopped item stays so over any number of other steps |
| TaskProperties.CancelHoldsIffNoneWaiting | pkg/tasks/manager.go:99-142 | a cancelled task stays dead in every continuation without a new Run or Watch if and only if, before the cancel, every watch of it that waits to be started waits in a context that has ended or that descends from the run or watch context of the task |
| TaskProperties.CancelCanFail | pkg/tasks/manager.go:99-142 | a run from the start gets there: Register, Watch and Cancel leave a still task whose watch waits to be started |
| TaskProperties.RemovedTaskStillRuns | pkg/tasks/manager.go:57-68 | after RmTask a file event in a watch loop of the removed task starts a live run if and only if that loop was alive and does not descend from the cancelled run |
| TaskProperties.RemovedTaskCanRun | pkg/tasks/manager.go:57-68 | a run from the start gets there: Register, Watch, the start of the watch, RmTask and a file event leave a live run of a task that is not registered |
| TaskProperties.CancelAllEndsRuns | pkg/tasks/manager.go:145-151 | CancelAll ends every run of a registered task and besides exactly what descends from one: other watches go on |
| TaskProperties.RegistryHistory | pkg/tasks/manager.go:30-68 | over any steps the Added and Removed events of each name alternate starting with Added, and the name is registered exactly if the last of them is Added |
| TaskProperties.RegistryHistoryFromStart | pkg/tasks/manager.go:125-130 | the same from the start, for every name |
| TaskProperties.RunsArePaired | pkg/tasks/manager.go:82-96 | over any steps every Running event is directly followed by one Finished or Failed of the same task, and these come in no other place |
| TaskProperties.StepGrows | pkg/tasks/task.go:36-60 | which context each step makes, if any: its parent is the context that was passed in, and its owner the item that runs or watches |
| TaskRecords.EventsOfStep | pkg/tasks/manager.go:26-142 | the events that each step fires, in order |
| TaskRecords.TasksOfStep | pkg/tasks/manager.go:26-68 | the registered tasks after each step: Register replaces a task of the name, AddTask does not |
| TaskRecords.WatchesOfStep | pkg/tasks/manager.go:99-111 | the watches that wait and the loops that run after each step |
| TaskRecords.CancelledByStep | pkg/tasks/manager.go:57-151 | the contexts that each step cancels, and no others |
| TaskRecords.NewItemOfStep | pkg/tasks/manager.go:26-40 | a new item has the given name and metadata and no context |
| TaskRecords.ItemOfStep | pkg/tasks/task.go:36-52 | an item keeps its name; its metadata changes by the error of a failing run of that item and by nothing else |
| TaskRecords.MetadataKeepsLastError | pkg/tasks/task.go:36-52 | after any steps the metadata of an item is the given one with the error of its last failing run, which later successful runs do not take away |
| Tasks.TaskManager.Register | pkg/tasks/manager.go:30-40 | a task of that name is removed first; the new item is registered; the events are fired in that order |
| Tasks.TaskManager.AddTask | pkg/tasks/manager.go:43-54 | nil and a name that is taken change nothing and fire nothing |
| Tasks.TaskManager.RmTask | pkg/tasks/manager.go:57-68 | an unknown name is an error and changes nothing; else the run is cancelled, the watch is not, and Removed is fired |
| Tasks.TaskManager.Get | pkg/tasks/manager.go:71-79 | the item registered under the name, which has that name, or nil |
| Tasks.TaskManager.Run | pkg/tasks/manager.go:82-96 | Running, the run of the item, then Failed or Finished by its outcome; an unknown name is an error without events |
| Tasks.TaskManager.Watch | pkg/tasks/manager.go:99-111 | one run without Running or Finished events, whatever its outcome, then a watch waiting to be started, and Watching |
| Tasks.TaskManager.Cancel | pkg/tasks/manager.go:133-142 | watch and run contexts are cancelled and Stopped is fired |
| Tasks.TaskManager.CancelAll | pkg/tasks/manager.go:145-151 | in whatever order the map is iterated, exactly the run contexts of the registered tasks are cancelled |
| Tasks.TaskManager.WatchStarts | pkg/tasks/task.go:56-108 | the watch context replaces the previous one; without a file watcher no loop starts |
| Tasks.TaskManager.FileWritten | pkg/tasks/task.go:108-124 | a write event runs the item in the context of its loop, without events |
| Tasks.TaskManager.LoopReturns | pkg/tasks/task.go:108-111 | a loop ends only when its context has ended |
| Tasks.TaskItem.Run | pkg/tasks/task.go:36-52 | the previous run context is cancelled before the next is derived; an error is kept in the metadata and returned |
| Tasks.TaskItem.SetUpWatch | pkg/tasks/task.go:56-60 | the previous watch context is cancelled before the next is derived |
| Tasks.TaskItem.Cancel | pkg/tasks/task.go:127-132 | without a run nothing happens |
| Tasks.TaskItem.CancelWatch | pkg/tasks/task.go:134-139 | without a watch nothing happens |
| Emitters.LogHoldsWhatIsInForce | pkg/sim/emitter.go:28-102 | after any sequence of operations the log holds, in order, exactly the registrations that no later Remove, Clear or ClearAll took away |
| Emitters.EmitCallsInOrder | pkg/sim/emitter.go:28-102 | after any sequence of operations, the k-th call of an Emit is that of the handler with k registrations of the event before it that are still in force; then come the hooks for all events in order, and nothing else is called |
| Emitters.CallsAt | pkg/sim/emitter.go:63-75 | the position at which each registration of a log is called, and the number of calls |
| Emitters.CalledInOrder | pkg/sim/hook.go:35-41 | one call for each entry, in the same order |
| Emitters.HandlersAreConserved | pkg/sim/emitter.go:28-134 | the number of handlers equals all adds minus all that was taken away, over any sequence of operations |
| Emitters.WhatIsTakenAway | pkg/sim/emitter.go:48-102 | Remove takes away one handler if its id is registered for the event and none else, Clear those of its event, ClearAll all |
| Emitters.HasIsRightIff | pkg/sim/emitter.go:104-111 | after any sequence of operations Has tells whether an event has handlers, as its comment promises, if and only if not some Remove took away the last handler and since then the event was neither added to nor cleared |
| Emitters.HasIsRightUntilLastIsRemoved | pkg/sim/emitter.go:104-111 | one operation spoils the answer of Has if and only if it is the Remove of the last handler |
| Emitters.HasCanBeWrong | pkg/sim/emitter.go:104-111 | the case occurs: after adding and removing one handler Has says yes and there is none |
| Emitters.Emitter.Add | pkg/sim/emitter.go:29-37 | the registration is added to the log, at the end of the handlers of its event |
| Emitters.Emitter.Any | pkg/sim/emitter.go:39-44 | a hook for all events is added to the log |
| Emitters.Emitter.Remove | pkg/sim/emitter.go:48-59 | exactly the registration of that event and id leaves the log, if it is there; the event stays known |
| Emitters.Emitter.Emit | pkg/sim/emitter.go:63-75 | the handlers of the event that are in force are called in order of registration, then the hooks for all events |
| Emitters.Emitter.Clear | pkg/sim/emitter.go:79-88 | the handlers of the event leave the log, and their number is returned |
| Emitters.Emitter.ClearAll | pkg/sim/emitter.go:92-102 | the log is emptied, hooks included; the number of handlers is returned |
| Emitters.Emitter.Count | pkg/sim/emitter.go:115-122 | the number of handlers of the event that are in force |
| Emitters.Emitter.CountAll | pkg/sim/emitter.go:126-134 | the number of handlers in force, in whatever order the map is iterated |
| Emitters.Hook.Add | pkg/sim/hook.go:24-33 | the hook is appended |
| Emitters.Hook.Remove | pkg/sim/hook.go:44-53 | the first hook of that id goes, the others stay in order |
| Emitters.Hook.Emit | pkg/sim/hook.go:35-41 | all hooks are called in order |
| Keywords.MakeReservedKeywords | pkg/spec/rkw/reserved.go:176-184 | for any tables and any iteration order, the index lists a language under a word as often as the table of the language has the word, and has no empty entry |
| Keywords.ReservedKeywords.IsKeywordReservedInLang | pkg/spec/rkw/reserved.go:187-199 | true exactly if the lower-cased word is in the table of a known language |
| Keywords.ReservedKeywords.IsKeywordInLangs | pkg/spec/rkw/reserved.go:201-209 | the first language in which the word is reserved, or none exactly if there is none |
| Keywords.ReservedKeywords.IsKeywordReserved | pkg/spec/rkw/reserved.go:213-220 | a language is listed if and only if the scan of its table finds the word |
| Keywords.IndexAgrees | pkg/spec/rkw/reserved.go:176-220 | index and tables agree on every word and language |
| Keywords.OrderDoesNotMatter | pkg/spec/rkw/reserved.go:176-184 | two iteration orders give the same words, with the same languages up to order |
| Listener.ObjectApiListener.EnterModuleRule | pkg/idl/listener.go:84-96 | sets a new module, with version 1.0 if none is written, attached to the system; logs a failure exactly if a module was set |
| Listener.ObjectApiListener.ExitModuleRule | pkg/idl/listener.go:423-426 | adds the meta lines to the module |
| Listener.ObjectApiListener.EnterImportRule | pkg/idl/listener.go:99-111 | appends an import to the module |
| Listener.ObjectApiListener.EnterExternRule | pkg/idl/listener.go:118-124 | sets a new extern; logs one failure for each of: no module, an extern already set |
| Listener.ObjectApiListener.ExitExternRule | pkg/idl/listener.go:126-133 | appends the extern with its meta lines and clears the pointer |
| Listener.ObjectApiListener.EnterInterfaceRule | pkg/idl/listener.go:136-159 | sets a new interface; a dotted base is split at its last dot into import and name; counts the failed checks exactly |
| Listener.ObjectApiListener.ExitInterfaceRule | pkg/idl/listener.go:162-168 | appends the interface with its meta lines and clears the pointer |
| Listener.ObjectApiListener.EnterPropertyRule | pkg/idl/listener.go:176-185 | sets a new property with its read-only flag; counts the failed checks exactly |
| Listener.ObjectApiListener.ExitPropertyRule | pkg/idl/listener.go:188-194 | the property takes the schema and is appended; both pointers are cleared |
| Listener.ObjectApiListener.EnterOperationRule | pkg/idl/listener.go:197-204 | sets a new operation; counts the failed checks exactly |
| Listener.ObjectApiListener.ExitOperationRule | pkg/idl/listener.go:207-215 | the operation takes the return node, which may be nil, and is appended; four pointers are cleared |
| Listener.ObjectApiListener.EnterOperationReturnRule | pkg/idl/listener.go:218-225 | sets a new return node; counts the failed checks exactly |
| Listener.ObjectApiListener.ExitOperationReturnRule | pkg/idl/listener.go:228-232 | the return node takes the schema and is handed to the operation; the schema is cleared |
| Listener.ObjectApiListener.EnterOperationParamRule | pkg/idl/listener.go:235-242 | sets a new parameter; counts the failed checks exactly |
| Listener.ObjectApiListener.ExitOperationParamRule | pkg/idl/listener.go:245-254 | the parameter takes the schema and goes to the operation if one is set, else to the signal; both pointers are cleared |
| Listener.ObjectApiListener.EnterSignalRule | pkg/idl/listener.go:257-264 | sets a new signal; counts the failed checks exactly |
| Listener.ObjectApiListener.ExitSignalRule | pkg/idl/listener.go:267-272 | appends the signal with its meta lines and clears two pointers |
| Listener.ObjectApiListener.EnterStructRule | pkg/idl/listener.go:275-283 | sets a new struct that has its meta lines already; counts the failed checks exactly |
| Listener.ObjectApiListener.ExitStructRule | pkg/idl/listener.go:286-291 | appends the struct and clears two pointers |
| Listener.ObjectApiListener.EnterStructFieldRule | pkg/idl/listener.go:294-302 | sets a new field with its read-only flag; counts the failed checks exactly |
| Listener.ObjectApiListener.ExitStructFieldRule | pkg/idl/listener.go:305-312 | the field takes its meta lines and the schema and is appended; both pointers are cleared |
| Listener.ObjectApiListener.EnterEnumRule | pkg/idl/listener.go:315-323 | sets a new enum and starts the numbering at 0; counts the failed checks exactly |
| Listener.ObjectApiListener.ExitEnumRule | pkg/idl/listener.go:326-332 | appends the enum with its meta lines, clears the pointer and resets the numbering |
| Listener.ObjectApiListener.EnterEnumMemberRule | pkg/idl/listener.go:335-351 | a written value is taken, else the running number, which only then moves on |
| Listener.ObjectApiListener.ExitEnumMemberRule | pkg/idl/listener.go:354-359 | appends the member with its meta lines and clears the pointer |
| Listener.ObjectApiListener.EnterSchemaRule | pkg/idl/listener.go:362-365 | sets an empty schema; logs a failure exactly if one was set |
| Listener.ObjectApiListener.EnterPrimitiveSchema | pkg/idl/listener.go:376-381 | the type name of the schema is the text of the token; the primitive flag is set |
| Listener.ObjectApiListener.EnterSymbolSchema | pkg/idl/listener.go:384-398 | a dotted name is split at its last dot into import and type, a plain one has no import |
| Listener.ObjectApiListener.ExitDocumentRule | pkg/idl/listener.go:412-415 | appends the module to the system and clears the pointer |
| Generator.Generator.SkipFile | pkg/gen/generator.go:378-381 | counts a skipped file and changes nothing else |

## Left out

- The lexer, the recovery from recognition errors, and the parse trees that it
  repairs: parsing starts from tokens, and a recognition error ends it without a
  tree. The value of an integer token is part of the token, and so is the
  text of a token of a primitive type, which the lexer takes from a fixed list.
- Loading.Parser.ParseStream: where the source walks a repaired tree after a
  recognition error, the model adds nothing, because the recovery is in a library
  that is not part of this model.
- Listener.ObjectApiListener.ParseMeta: the tag lines are kept as they are; that
  they are unmarshalled as YAML into the metadata is not modelled. Trimming knows
  the space characters of Latin-1 only.
- The `kind` field of the listener, which nothing reads, and its Enter and Exit
  methods that do nothing.
- Identity and aliasing of model nodes: nodes are values in the tree of modules
  that the system holds, and a cached pointer is an address in that tree. A
  module is stored when its loops are done, not field by field; lookups see only
  names, which the loops do not change.
- Back pointers from a schema or interface to its module, other than the address
  of the module that is being validated.
- The state that a failed validation leaves in the modules.
- The four families of lookup methods are one family, and hashing is left out: a
  checksum is the text that is hashed.
- Adding modules to a system that was already validated; import checks, which
  only log; reserved-word warnings; node visitors.
- Loading.ParseInputs: inputs are token streams of IDL files; loading YAML or JSON
  files, schema checks of such files, and missing files are not modelled.
- The engine version check of rules files, and names listed for display.
- The template engine, path cleaning and joining, template parsing and the
  language filters: rendering, paths and template files are functions that a run
  gets as parameters. The template directory is not written to.
- Errors of the file system other than a missing raw file; directories, file
  modes, time stamps and durations.
- Generator.Output.Compare: content hashes are taken for the contents.
- Tasks.TaskManager.Run: the task function runs to its end within the step; steps
  of other goroutines while it runs, data races on the unsynchronised cancel
  fields, and hooks that call the manager back are not modelled.
- Tasks.TaskItem.Run: metadata is never nil; a failing run with nil metadata
  panics in the source.
- What a watch watches: a file event is a step that may happen while a loop has
  not returned, also after its context has ended.
- Emitters.Emitter.Emit: handlers that register or remove handlers while they are
  called; the values that are passed on.
- Registry and cache downloads, the simulation engine and its proxies, network
  clients and servers, configuration, logging and the command line itself: they
  would add only easy members.
