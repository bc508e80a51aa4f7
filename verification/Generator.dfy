/**
  What a generator run does to the output directory (pkg/gen/generator.go).

  The output directory is a map from paths to contents. Rendering, path cleaning
  and joining are functions of their arguments and enter as parameters.
  */
module Generator {
  import opened Wrappers
  import opened ApiModel
  import opened Features

  type Content = seq<bv8>

  // What a template sees: the entity it is rendered for, and the enabled features.
  datatype Context =
    | SystemContext(features: map<string, bool>)
    | ModuleContext(m: Module, features: map<string, bool>)
    | InterfaceContext(m: Module, iface: Interface, features: map<string, bool>)
    | StructContext(m: Module, struct_: Struct, features: map<string, bool>)
    | EnumContext(m: Module, enum_: Enum, features: map<string, bool>)

  // The outside world: None is an error of the template engine or a template
  // file that is not there.
  datatype World = World(
    clean: string -> string,
    renderString: (string, Context) -> Option<string>,
    renderTemplate: (string, Context) -> Option<Content>,
    templateFile: string -> Option<Content>,
    outputPath: string -> string)

  datatype Options = Options(force: bool, dryRun: bool)

  // The state of a run: the output directory and the counters.
  datatype Run = Run(files: map<string, Content>, written: nat, skipped: nat, copied: nat, touched: seq<string>)

  datatype Result = Result(run: Run, ok: bool)

  // One document to be processed for one entity.
  datatype Job = Job(doc: DocumentRule, context: Context)

  // ------------------------------------------------------------------------
  // One document
  // ------------------------------------------------------------------------

  function Target(prefix: string, doc: DocumentRule): DocumentRule {
    var d := if doc.target == "" then doc.(target := doc.source) else doc;
    if prefix != "" then d.(target := prefix + d.target) else d
  }

  // What a document asks for. It depends on the document and its context only.
  datatype Action =
    | Fail
    | Copy(target: string, path: string, file: Option<Content>)
    | Render(path: string, content: Content, preserve: bool)

  function ActionOf(w: World, job: Job): Action {
    match w.renderString(w.clean(job.doc.target), job.context)
    case None => Fail
    case Some(target) =>
      var source := w.clean(job.doc.source);
      if job.doc.raw then Copy(target, w.outputPath(target), w.templateFile(source))
      else match w.renderTemplate(source, job.context)
        case None => Fail
        case Some(content) => Render(w.outputPath(target), content, job.doc.preserve)
  }

  function Written(o: Options, path: string, content: Content, run: Run): Run {
    run.(written := run.written + 1, touched := run.touched + [path],
         files := if o.dryRun then run.files else run.files[path := content])
  }

  function Skipped(run: Run): Run {
    run.(skipped := run.skipped + 1)
  }

  function Perform(o: Options, a: Action, run: Run): Result {
    match a
    case Fail => Result(run, false)
    case Copy(target, path, file) =>
      var counted := run.(copied := run.copied + 1);
      if o.dryRun then Result(counted.(touched := run.touched + [target]), true)
      else if file.None? then Result(counted, false)
      else Result(counted.(files := run.files[path := file.value]), true)
    case Render(path, content, preserve) =>
      if o.force then Result(Written(o, path, content, run), true)
      else if path in run.files && (preserve || run.files[path] == content) then Result(Skipped(run), true)
      else Result(Written(o, path, content, run), true)
  }

  // Jobs in order, up to the first error.
  function Execute(w: World, o: Options, jobs: seq<Job>, run: Run): Result {
    if jobs == [] then Result(run, true)
    else
      var front := Execute(w, o, jobs[..|jobs| - 1], run);
      if !front.ok then front else Perform(o, ActionOf(w, jobs[|jobs| - 1]), front.run)
  }

  lemma {:induction false} ExecuteConcat(w: World, o: Options, a: seq<Job>, b: seq<Job>, run: Run)
    ensures var r := Execute(w, o, a, run);
      Execute(w, o, a + b, run) == if r.ok then Execute(w, o, b, r.run) else r
  {
    if b == [] {
      assert a + b == a;
    } else {
      ExecuteConcat(w, o, a, b[..|b| - 1], run);
      assert (a + b)[..|a + b| - 1] == a + b[..|b| - 1];
    }
  }

  lemma ExecuteOne(w: World, o: Options, job: Job, run: Run)
    ensures Execute(w, o, [job], run) == Perform(o, ActionOf(w, job), run)
  {
    assert [job][..0] == [];
  }

  // ------------------------------------------------------------------------
  // The documents of a rules file, in the order of the nested loops
  // ------------------------------------------------------------------------

  function ScopeJobs(scope: ScopeRule, c: Context): (jobs: seq<Job>)
    ensures |jobs| == |scope.documents|
  {
    seq(|scope.documents|, j requires 0 <= j < |scope.documents| => Job(Target(scope.prefix, scope.documents[j]), c))
  }

  function ScopesJobs(scopes: seq<ScopeRule>, c: Context): seq<Job> {
    if scopes == [] then []
    else ScopeJobs(scopes[0], c) + ScopesJobs(scopes[1..], c)
  }

  function InterfaceContexts(m: Module, features: map<string, bool>): seq<Context> {
    seq(|m.interfaces|, j requires 0 <= j < |m.interfaces| => InterfaceContext(m, m.interfaces[j], features))
  }

  function StructContexts(m: Module, features: map<string, bool>): seq<Context> {
    seq(|m.structs|, j requires 0 <= j < |m.structs| => StructContext(m, m.structs[j], features))
  }

  function EnumContexts(m: Module, features: map<string, bool>): seq<Context> {
    seq(|m.enums|, j requires 0 <= j < |m.enums| => EnumContext(m, m.enums[j], features))
  }

  function ContextsJobs(scopes: seq<ScopeRule>, cs: seq<Context>): seq<Job> {
    if cs == [] then []
    else ScopesJobs(scopes, cs[0]) + ContextsJobs(scopes, cs[1..])
  }

  function ModuleJobs(scopes: seq<ScopeRule>, m: Module, features: map<string, bool>): seq<Job> {
    ScopesJobs(Matching(scopes, ScopeModule), ModuleContext(m, features)) +
    ContextsJobs(Matching(scopes, ScopeInterface), InterfaceContexts(m, features)) +
    ContextsJobs(Matching(scopes, ScopeStruct), StructContexts(m, features)) +
    ContextsJobs(Matching(scopes, ScopeEnum), EnumContexts(m, features))
  }

  function ModulesJobs(scopes: seq<ScopeRule>, ms: seq<Module>, features: map<string, bool>): seq<Job> {
    if ms == [] then []
    else ModuleJobs(scopes, ms[0], features) + ModulesJobs(scopes, ms[1..], features)
  }

  function FeatureJobs(scopes: seq<ScopeRule>, ms: seq<Module>, features: map<string, bool>): seq<Job> {
    ScopesJobs(Matching(scopes, ScopeSystem), SystemContext(features)) + ModulesJobs(scopes, ms, features)
  }

  function RulesJobs(fs: seq<FeatureRule>, skip: seq<bool>, ms: seq<Module>, features: map<string, bool>): seq<Job>
    requires |fs| == |skip|
  {
    if fs == [] then []
    else
      (if skip[0] then [] else FeatureJobs(fs[0].scopes, ms, features)) +
      RulesJobs(fs[1..], skip[1..], ms, features)
  }

  // The features from the i-th on: this one, unless it is skipped, and then the others.
  lemma ExecuteRulesNext(w: World, o: Options, fs: seq<FeatureRule>, skip: seq<bool>, i: nat, ms: seq<Module>,
        features: map<string, bool>, run: Run)
    requires i < |fs| == |skip|
    ensures var rest := RulesJobs(fs[i + 1..], skip[i + 1..], ms, features);
      var r := if skip[i] then Result(run, true) else Execute(w, o, FeatureJobs(fs[i].scopes, ms, features), run);
      Execute(w, o, RulesJobs(fs[i..], skip[i..], ms, features), run) == if r.ok then Execute(w, o, rest, r.run) else r
  {
    assert fs[i..][1..] == fs[i + 1..] && skip[i..][1..] == skip[i + 1..];
    var rest := RulesJobs(fs[i + 1..], skip[i + 1..], ms, features);
    assert [] + rest == rest;
    ExecuteConcat(w, o, FeatureJobs(fs[i].scopes, ms, features), rest, run);
  }

  // ------------------------------------------------------------------------
  // Counters
  // ------------------------------------------------------------------------

  // How many entities a scope of each type is applied to.
  function Entities(ms: seq<Module>, t: ScopeType): nat {
    if t == ScopeSystem then 1
    else if ms == [] then 0
    else Members(ms[0], t) + Entities(ms[1..], t)
  }

  function Members(m: Module, t: ScopeType): nat {
    match t
    case ScopeSystem => 0
    case ScopeModule => 1
    case ScopeInterface => |m.interfaces|
    case ScopeStruct => |m.structs|
    case ScopeEnum => |m.enums|
  }

  // Documents times entities, scope by scope and feature by feature.
  function ScopeInstances(scopes: seq<ScopeRule>, ms: seq<Module>): nat {
    if scopes == [] then 0
    else Entities(ms, scopes[0].match_) * |scopes[0].documents| + ScopeInstances(scopes[1..], ms)
  }

  function Instances(fs: seq<FeatureRule>, skip: seq<bool>, ms: seq<Module>): nat
    requires |fs| == |skip|
  {
    if fs == [] then 0
    else
      (if skip[0] then 0 else ScopeInstances(fs[0].scopes, ms)) +
      Instances(fs[1..], skip[1..], ms)
  }

  // Documents in the scopes of one type.
  function Documents(scopes: seq<ScopeRule>): nat {
    if scopes == [] then 0 else |scopes[0].documents| + Documents(scopes[1..])
  }

  lemma {:induction false} ScopesJobsCount(scopes: seq<ScopeRule>, c: Context)
    ensures |ScopesJobs(scopes, c)| == Documents(scopes)
  {
    if scopes != [] {
      ScopesJobsCount(scopes[1..], c);
    }
  }

  lemma {:induction false} ContextsJobsCount(scopes: seq<ScopeRule>, cs: seq<Context>)
    ensures |ContextsJobs(scopes, cs)| == |cs| * Documents(scopes)
  {
    if cs != [] {
      ContextsJobsCount(scopes, cs[1..]);
      ScopesJobsCount(scopes, cs[0]);
      assert |cs| * Documents(scopes) == (|cs| - 1) * Documents(scopes) + Documents(scopes);
    }
  }

  // Entities of one module times documents, and the same for a whole system.
  function ModuleLoad(scopes: seq<ScopeRule>, m: Module, t: ScopeType): nat {
    Members(m, t) * Documents(Matching(scopes, t))
  }

  function Load(scopes: seq<ScopeRule>, ms: seq<Module>, t: ScopeType): nat {
    Entities(ms, t) * Documents(Matching(scopes, t))
  }

  lemma ModuleJobsCount(scopes: seq<ScopeRule>, m: Module, features: map<string, bool>)
    ensures |ModuleJobs(scopes, m, features)| ==
            ModuleLoad(scopes, m, ScopeModule) + ModuleLoad(scopes, m, ScopeInterface) +
            ModuleLoad(scopes, m, ScopeStruct) + ModuleLoad(scopes, m, ScopeEnum)
  {
    ScopesJobsCount(Matching(scopes, ScopeModule), ModuleContext(m, features));
    ContextsJobsCount(Matching(scopes, ScopeInterface), InterfaceContexts(m, features));
    ContextsJobsCount(Matching(scopes, ScopeStruct), StructContexts(m, features));
    ContextsJobsCount(Matching(scopes, ScopeEnum), EnumContexts(m, features));
  }

  lemma Distribute(a: nat, b: nat, c: nat)
    ensures (a + b) * c == a * c + b * c && c * (a + b) == c * a + c * b
  {
  }

  lemma LoadOfFirstModule(scopes: seq<ScopeRule>, ms: seq<Module>, t: ScopeType)
    requires ms != [] && t != ScopeSystem
    ensures Load(scopes, ms, t) ==
            ModuleLoad(scopes, ms[0], t) + Load(scopes, ms[1..], t)
  {
    Distribute(Members(ms[0], t), Entities(ms[1..], t), Documents(Matching(scopes, t)));
  }

  lemma LoadOfFirstScope(scopes: seq<ScopeRule>, ms: seq<Module>, t: ScopeType)
    requires scopes != []
    ensures var first := scopes[0];
      Load(scopes, ms, t) ==
      (if t == first.match_ then Entities(ms, t) * |first.documents| else 0) + Load(scopes[1..], ms, t)
  {
    var first := scopes[0];
    DocumentsOfFirst(scopes, t);
    var own := if t == first.match_ then |first.documents| else 0;
    Distribute(own, Documents(Matching(scopes[1..], t)), Entities(ms, t));
  }

  lemma {:induction false} ModulesJobsCount(scopes: seq<ScopeRule>, ms: seq<Module>, features: map<string, bool>)
    ensures |ModulesJobs(scopes, ms, features)| ==
            Load(scopes, ms, ScopeModule) + Load(scopes, ms, ScopeInterface) +
            Load(scopes, ms, ScopeStruct) + Load(scopes, ms, ScopeEnum)
  {
    if ms == [] {
      assert ModulesJobs(scopes, ms, features) == [];
    } else {
      ModulesJobsCount(scopes, ms[1..], features);
      ModuleJobsCount(scopes, ms[0], features);
      LoadOfFirstModule(scopes, ms, ScopeModule);
      LoadOfFirstModule(scopes, ms, ScopeInterface);
      LoadOfFirstModule(scopes, ms, ScopeStruct);
      LoadOfFirstModule(scopes, ms, ScopeEnum);
    }
  }

  // The loops go by entity, then scope; the count goes by scope, then entity.
  lemma {:induction false} InstancesByType(scopes: seq<ScopeRule>, ms: seq<Module>)
    ensures ScopeInstances(scopes, ms) ==
            Load(scopes, ms, ScopeSystem) + Load(scopes, ms, ScopeModule) + Load(scopes, ms, ScopeInterface) +
            Load(scopes, ms, ScopeStruct) + Load(scopes, ms, ScopeEnum)
  {
    if scopes != [] {
      InstancesByType(scopes[1..], ms);
      LoadOfFirstScope(scopes, ms, ScopeSystem);
      LoadOfFirstScope(scopes, ms, ScopeModule);
      LoadOfFirstScope(scopes, ms, ScopeInterface);
      LoadOfFirstScope(scopes, ms, ScopeStruct);
      LoadOfFirstScope(scopes, ms, ScopeEnum);
    }
  }

  lemma DocumentsOfFirst(scopes: seq<ScopeRule>, t: ScopeType)
    requires scopes != []
    ensures Documents(Matching(scopes, t)) ==
            (if t == scopes[0].match_ then |scopes[0].documents| else 0) + Documents(Matching(scopes[1..], t))
  {
    if t == scopes[0].match_ {
      assert Matching(scopes, t)[1..] == Matching(scopes[1..], t);
    }
  }

  lemma {:induction false} RulesJobsCount(fs: seq<FeatureRule>, skip: seq<bool>, ms: seq<Module>,
        features: map<string, bool>)
    requires |fs| == |skip|
    ensures |RulesJobs(fs, skip, ms, features)| == Instances(fs, skip, ms)
  {
    if fs != [] {
      var scopes := fs[0].scopes;
      RulesJobsCount(fs[1..], skip[1..], ms, features);
      ScopesJobsCount(Matching(scopes, ScopeSystem), SystemContext(features));
      ModulesJobsCount(scopes, ms, features);
      InstancesByType(scopes, ms);
    }
  }

  // ------------------------------------------------------------------------
  // The final files in closed form
  // ------------------------------------------------------------------------

  function Get<K, V>(m: map<K, V>, k: K): Option<V> {
    if k in m then Some(m[k]) else None
  }

  // A run stops here. A dry run does not look for the file to copy.
  predicate Stops(o: Options, a: Action) {
    a.Fail? || (a.Copy? && a.file.None? && !o.dryRun)
  }

  // The jobs before the first one at which the run stops.
  function Executed(w: World, o: Options, jobs: seq<Job>): (r: seq<Job>)
    ensures r <= jobs && forall j :: 0 <= j < |r| ==> !Stops(o, ActionOf(w, jobs[j]))
    ensures |r| < |jobs| ==> Stops(o, ActionOf(w, jobs[|r|]))
  {
    if jobs == [] then []
    else
      var front := Executed(w, o, jobs[..|jobs| - 1]);
      if |front| < |jobs| - 1 || Stops(o, ActionOf(w, jobs[|jobs| - 1])) then front else jobs
  }

  // How many jobs a run counts: a raw document is counted before it is copied.
  function Counted(w: World, o: Options, jobs: seq<Job>): nat {
    var n := |Executed(w, o, jobs)|;
    if n < |jobs| && ActionOf(w, jobs[n]).Copy? then n + 1 else n
  }

  // What an action puts at a path whatever is there already.
  function Overwrite(o: Options, a: Action, path: string): Option<Content> {
    match a
    case Fail => None
    case Copy(_, p, file) => if p == path then file else None
    case Render(p, content, preserve) => if p == path && (o.force || !preserve) then Some(content) else None
  }

  function LastOverwrite(w: World, o: Options, jobs: seq<Job>, path: string): Option<Content> {
    if jobs == [] then None
    else
      var last := Overwrite(o, ActionOf(w, jobs[|jobs| - 1]), path);
      if last.Some? then last else LastOverwrite(w, o, jobs[..|jobs| - 1], path)
  }

  // The first document rendered for a path.
  function FirstRendered(w: World, jobs: seq<Job>, path: string): Option<Content> {
    if jobs == [] then None
    else
      var front := FirstRendered(w, jobs[..|jobs| - 1], path);
      if front.Some? then front
      else
        match ActionOf(w, jobs[|jobs| - 1])
        case Render(p, content, _) => if p == path then Some(content) else None
        case _ => None
  }

  // The last document that overwrites, else what was there, else the first
  // document for the path, which then is one to preserve.
  function FinalContent(w: World, o: Options, jobs: seq<Job>, path: string, initial: Option<Content>): Option<Content> {
    var last := LastOverwrite(w, o, jobs, path);
    if last.Some? then last
    else if initial.Some? then initial
    else FirstRendered(w, jobs, path)
  }

  lemma CountedNext(w: World, o: Options, jobs: seq<Job>)
    requires jobs != []
    ensures var front, a := jobs[..|jobs| - 1], ActionOf(w, jobs[|jobs| - 1]);
      var before := Executed(w, o, front);
      && Executed(w, o, jobs) == (if before == front && !Stops(o, a) then jobs else before)
      && Counted(w, o, jobs) ==
         if before == front then |front| + (if a.Fail? then 0 else 1) else Counted(w, o, front)
  {
  }

  lemma PerformCounts(o: Options, a: Action, run: Run)
    ensures Perform(o, a, run).ok <==> !Stops(o, a)
    ensures Stops(o, a) ==>
              Perform(o, a, run) == Result(run.(copied := run.copied + if a.Copy? then 1 else 0), false)
  {
  }

  // A run is the run of the jobs before the one at which it stops, which at most
  // counts one raw document more.
  lemma {:induction false} ExecutedIsAll(w: World, o: Options, jobs: seq<Job>, run: Run)
    ensures var executed := Executed(w, o, jobs);
      var done := Execute(w, o, executed, run);
      var more := Counted(w, o, jobs) - |executed|;
      && done.ok
      && Execute(w, o, jobs, run) == Result(done.run.(copied := done.run.copied + more), executed == jobs)
  {
    if jobs != [] {
      var front, a := jobs[..|jobs| - 1], ActionOf(w, jobs[|jobs| - 1]);
      ExecutedIsAll(w, o, front, run);
      CountedNext(w, o, jobs);
      PerformCounts(o, a, Execute(w, o, front, run).run);
    }
  }

  // What one action leaves at a path.
  lemma PerformedAt(o: Options, a: Action, run: Run, path: string)
    requires !o.dryRun && Perform(o, a, run).ok
    ensures Get(Perform(o, a, run).run.files, path) ==
            if Overwrite(o, a, path).Some? then Overwrite(o, a, path)
            else if path !in run.files && a.Render? && a.path == path then Some(a.content)
            else Get(run.files, path)
  {
  }

  lemma {:induction false} ClosedFormOfSuccess(w: World, o: Options, jobs: seq<Job>, run: Run, path: string)
    requires !o.dryRun && Execute(w, o, jobs, run).ok
    ensures Get(Execute(w, o, jobs, run).run.files, path) == FinalContent(w, o, jobs, path, Get(run.files, path))
  {
    if jobs != [] {
      ClosedFormOfSuccess(w, o, jobs[..|jobs| - 1], run, path);
      PerformedAt(o, ActionOf(w, jobs[|jobs| - 1]), Execute(w, o, jobs[..|jobs| - 1], run).run, path);
    }
  }

  // Every run, also one that stops at an error.
  lemma {:induction false} ClosedForm(w: World, o: Options, jobs: seq<Job>, run: Run, path: string)
    requires !o.dryRun
    ensures Get(Execute(w, o, jobs, run).run.files, path) ==
            FinalContent(w, o, Executed(w, o, jobs), path, Get(run.files, path))
  {
    ExecutedIsAll(w, o, jobs, run);
    ClosedFormOfSuccess(w, o, Executed(w, o, jobs), run, path);
  }

  // With force, and for documents that are not to be preserved, the last one wins;
  // without any such document an existing file is left alone.
  lemma {:induction false} LastDocumentWins(w: World, o: Options, jobs: seq<Job>, j: nat, path: string)
    requires j < |jobs| && Overwrite(o, ActionOf(w, jobs[j]), path).Some?
    requires forall i :: j < i < |jobs| ==> Overwrite(o, ActionOf(w, jobs[i]), path).None?
    ensures LastOverwrite(w, o, jobs, path) == Overwrite(o, ActionOf(w, jobs[j]), path)
  {
    if j < |jobs| - 1 {
      LastDocumentWins(w, o, jobs[..|jobs| - 1], j, path);
    }
  }

  lemma SameFiles(a: map<string, Content>, b: map<string, Content>)
    requires forall path :: Get(a, path) == Get(b, path)
    ensures a == b
  {
    forall path
      ensures path in a <==> path in b
      ensures path in a ==> a[path] == b[path]
    {
      assert Get(a, path) == Get(b, path);
    }
  }

  // Running again changes no file, whatever the documents share and whether or
  // not the first run stopped at an error.
  lemma RunIsIdempotent(w: World, o: Options, jobs: seq<Job>, first: Run, second: Run)
    requires second.files == Execute(w, o, jobs, first).run.files
    ensures Execute(w, o, jobs, second).run.files == second.files
  {
    if o.dryRun {
      DryRunWritesNothing(w, o, jobs, second);
    } else {
      forall path
        ensures Get(Execute(w, o, jobs, second).run.files, path) == Get(second.files, path)
      {
        ClosedForm(w, o, jobs, first, path);
        ClosedForm(w, o, jobs, second, path);
      }
      SameFiles(Execute(w, o, jobs, second).run.files, second.files);
    }
  }

  lemma {:induction false} DryRunWritesNothing(w: World, o: Options, jobs: seq<Job>, run: Run)
    requires o.dryRun
    ensures Execute(w, o, jobs, run).run.files == run.files
  {
    if jobs != [] {
      DryRunWritesNothing(w, o, jobs[..|jobs| - 1], run);
    }
  }

  // ------------------------------------------------------------------------
  // When a run has nothing left to do
  // ------------------------------------------------------------------------

  // The file of a rendered document is there and is to be preserved or the same.
  predicate UpToDate(a: Action, files: map<string, Content>) {
    a.Render? && a.path in files && (a.preserve || files[a.path] == a.content)
  }

  lemma {:induction false} UpToDateIsSkipped(w: World, o: Options, jobs: seq<Job>, run: Run)
    requires !o.force && forall j :: 0 <= j < |jobs| ==> UpToDate(ActionOf(w, jobs[j]), run.files)
    ensures Execute(w, o, jobs, run) == Result(run.(skipped := run.skipped + |jobs|), true)
  {
    if jobs != [] {
      UpToDateIsSkipped(w, o, jobs[..|jobs| - 1], run);
    }
  }

  lemma {:induction false} CountersGrow(w: World, o: Options, jobs: seq<Job>, run: Run)
    ensures var r := Execute(w, o, jobs, run).run;
      && run.written <= r.written && run.skipped <= r.skipped && run.copied <= r.copied
      && r.skipped <= run.skipped + |jobs|
  {
    if jobs != [] {
      CountersGrow(w, o, jobs[..|jobs| - 1], run);
    }
  }

  // Without force, a run skips all its documents if and only if they all are up
  // to date beforehand.
  lemma {:induction false} SkipsAllIffUpToDate(w: World, o: Options, jobs: seq<Job>, run: Run)
    requires !o.force
    ensures Execute(w, o, jobs, run).run.skipped == run.skipped + |jobs| <==>
            forall j :: 0 <= j < |jobs| ==> UpToDate(ActionOf(w, jobs[j]), run.files)
  {
    if forall j :: 0 <= j < |jobs| ==> UpToDate(ActionOf(w, jobs[j]), run.files) {
      UpToDateIsSkipped(w, o, jobs, run);
    } else if jobs != [] {
      var front := jobs[..|jobs| - 1];
      SkipsAllIffUpToDate(w, o, front, run);
      CountersGrow(w, o, front, run);
      if forall j :: 0 <= j < |front| ==> UpToDate(ActionOf(w, front[j]), run.files) {
        UpToDateIsSkipped(w, o, front, run);
        assert !UpToDate(ActionOf(w, jobs[|jobs| - 1]), run.files);
      }
    }
  }

  ghost predicate DistinctPaths(w: World, jobs: seq<Job>) {
    forall i, j :: 0 <= i < j < |jobs| ==> ActionPath(ActionOf(w, jobs[i])) != ActionPath(ActionOf(w, jobs[j]))
  }

  function ActionPath(a: Action): Option<string> {
    if a.Fail? then None else Some(a.path)
  }

  lemma {:induction false} OthersLeavePathAlone(w: World, o: Options, jobs: seq<Job>, run: Run, path: string)
    requires forall j :: 0 <= j < |jobs| ==> ActionPath(ActionOf(w, jobs[j])) != Some(path)
    ensures Get(Execute(w, o, jobs, run).run.files, path) == Get(run.files, path)
  {
    if jobs != [] {
      OthersLeavePathAlone(w, o, jobs[..|jobs| - 1], run, path);
    }
  }

  lemma {:induction false} UpToDateAfterwards(w: World, o: Options, jobs: seq<Job>, run: Run, j: nat)
    requires !o.force && !o.dryRun && DistinctPaths(w, jobs) && Execute(w, o, jobs, run).ok
    requires j < |jobs| && ActionOf(w, jobs[j]).Render?
    ensures UpToDate(ActionOf(w, jobs[j]), Execute(w, o, jobs, run).run.files)
  {
    var front := jobs[..|jobs| - 1];
    if j < |jobs| - 1 {
      UpToDateAfterwards(w, o, front, run, j);
      var path := ActionOf(w, jobs[j]).path;
      assert ActionPath(ActionOf(w, jobs[j])) != ActionPath(ActionOf(w, jobs[|jobs| - 1]));
      OthersLeavePathAlone(w, o, [jobs[|jobs| - 1]], Execute(w, o, front, run).run, path);
      assert [jobs[|jobs| - 1]][..0] == [];
    }
  }

  // With distinct targets, no raw documents and no force, the second run writes
  // nothing and skips every document.
  lemma {:induction false} SecondRunSkipsAll(w: World, o: Options, jobs: seq<Job>, first: Run, second: Run)
    requires !o.force && !o.dryRun && DistinctPaths(w, jobs) && Execute(w, o, jobs, first).ok
    requires forall j :: 0 <= j < |jobs| ==> !jobs[j].doc.raw
    requires second.files == Execute(w, o, jobs, first).run.files
    ensures Execute(w, o, jobs, second) == Result(second.(skipped := second.skipped + |jobs|), true)
  {
    ExecutedIsAll(w, o, jobs, first);
    forall j | 0 <= j < |jobs|
      ensures UpToDate(ActionOf(w, jobs[j]), second.files)
    {
      SuccessMeansNoFail(w, o, jobs, first, j);
      UpToDateAfterwards(w, o, jobs, first, j);
    }
    UpToDateIsSkipped(w, o, jobs, second);
  }

  lemma {:induction false} SuccessMeansNoFail(w: World, o: Options, jobs: seq<Job>, run: Run, j: nat)
    requires Execute(w, o, jobs, run).ok && j < |jobs|
    ensures !ActionOf(w, jobs[j]).Fail?
  {
    if j < |jobs| - 1 {
      SuccessMeansNoFail(w, o, jobs[..|jobs| - 1], run, j);
    }
  }

  // ------------------------------------------------------------------------
  // The final counters in closed form
  // ------------------------------------------------------------------------

  function Total(run: Run): nat {
    run.written + run.skipped + run.copied
  }

  // What a document finds at its path, behind the documents before it. A dry run
  // finds what was there at the start.
  function Finds(w: World, o: Options, before: seq<Job>, files: map<string, Content>, path: string): Option<Content> {
    if o.dryRun then Get(files, path) else FinalContent(w, o, before, path, Get(files, path))
  }

  // A document that finds this at its path is skipped.
  predicate SkippedFor(o: Options, a: Action, there: Option<Content>) {
    a.Render? && !o.force && there.Some? && (a.preserve || there.value == a.content)
  }

  predicate SkippedBehind(w: World, o: Options, before: seq<Job>, files: map<string, Content>, a: Action) {
    a.Render? && SkippedFor(o, a, Finds(w, o, before, files, a.path))
  }

  // How many documents are skipped.
  function Skips(w: World, o: Options, jobs: seq<Job>, files: map<string, Content>): nat {
    if jobs == [] then 0
    else
      var front, a := jobs[..|jobs| - 1], ActionOf(w, jobs[|jobs| - 1]);
      Skips(w, o, front, files) + if SkippedBehind(w, o, front, files, a) then 1 else 0
  }

  function Renders(w: World, jobs: seq<Job>): nat {
    if jobs == [] then 0
    else Renders(w, jobs[..|jobs| - 1]) + if ActionOf(w, jobs[|jobs| - 1]).Render? then 1 else 0
  }

  lemma FoundAtPath(w: World, o: Options, jobs: seq<Job>, run: Run, path: string)
    requires Execute(w, o, jobs, run).ok
    ensures Get(Execute(w, o, jobs, run).run.files, path) == Finds(w, o, jobs, run.files, path)
  {
    if o.dryRun {
      DryRunWritesNothing(w, o, jobs, run);
    } else {
      ClosedFormOfSuccess(w, o, jobs, run, path);
    }
  }

  lemma {:induction false} CountersOfSuccess(w: World, o: Options, jobs: seq<Job>, run: Run)
    requires Execute(w, o, jobs, run).ok
    ensures var r := Execute(w, o, jobs, run).run;
      && r.skipped == run.skipped + Skips(w, o, jobs, run.files)
      && r.written + r.skipped == run.written + run.skipped + Renders(w, jobs)
      && r.copied + Renders(w, jobs) == run.copied + |jobs|
  {
    if jobs != [] {
      var front, a := jobs[..|jobs| - 1], ActionOf(w, jobs[|jobs| - 1]);
      CountersOfSuccess(w, o, front, run);
      if a.Render? {
        FoundAtPath(w, o, front, run, a.path);
      }
    }
  }

  // Every run, real or dry, also one that stops at an error.
  lemma {:induction false} CountersInClosedForm(w: World, o: Options, jobs: seq<Job>, run: Run)
    ensures var r, executed := Execute(w, o, jobs, run).run, Executed(w, o, jobs);
      && r.skipped == run.skipped + Skips(w, o, executed, run.files)
      && r.written + r.skipped == run.written + run.skipped + Renders(w, executed)
      && r.copied + Renders(w, executed) == run.copied + Counted(w, o, jobs)
  {
    ExecutedIsAll(w, o, jobs, run);
    CountersOfSuccess(w, o, Executed(w, o, jobs), run);
  }

  // Each document before an error counts once, and of the document at the error
  // itself a raw one does.
  lemma {:induction false} EachJobCountsOnce(w: World, o: Options, jobs: seq<Job>, run: Run)
    ensures Total(Execute(w, o, jobs, run).run) == Total(run) + Counted(w, o, jobs)
    ensures Execute(w, o, jobs, run).ok ==> Counted(w, o, jobs) == |jobs|
  {
    CountersInClosedForm(w, o, jobs, run);
    ExecutedIsAll(w, o, jobs, run);
  }

  // ------------------------------------------------------------------------
  // When a dry run forecasts the real one
  // ------------------------------------------------------------------------

  predicate RawFilesExist(w: World, jobs: seq<Job>) {
    forall j :: 0 <= j < |jobs| && ActionOf(w, jobs[j]).Copy? ==> ActionOf(w, jobs[j]).file.Some?
  }

  predicate SameCounters(a: Run, b: Run) {
    a.written == b.written && a.skipped == b.skipped && a.copied == b.copied
  }

  function Dry(o: Options): Options {
    o.(dryRun := true)
  }

  // Both runs skip the j-th document, or neither does.
  predicate SkippedAlike(w: World, o: Options, jobs: seq<Job>, files: map<string, Content>, j: nat)
    requires j < |jobs|
  {
    var a := ActionOf(w, jobs[j]);
    SkippedBehind(w, Dry(o), jobs[..j], files, a) == SkippedBehind(w, o, jobs[..j], files, a)
  }

  // Both runs skip as many of the documents that they get to, and the dry run gets
  // at most one document further. All of it can be computed before the run.
  predicate CountsAlike(w: World, o: Options, jobs: seq<Job>, files: map<string, Content>) {
    var dry, done := Executed(w, Dry(o), jobs), Executed(w, o, jobs);
    |dry| <= |done| + 1 && Skips(w, Dry(o), dry, files) == Skips(w, o, done, files)
  }

  // The real run alone stops at a raw document only.
  lemma StopsFirst(w: World, o: Options, jobs: seq<Job>)
    requires !o.dryRun
    ensures var d, r := |Executed(w, Dry(o), jobs)|, |Executed(w, o, jobs)|;
      r <= d && (r < d ==> ActionOf(w, jobs[r]).Copy?)
  {
  }

  // Both runs count this raw document.
  lemma OneFurther(w: World, o: Options, jobs: seq<Job>)
    requires !o.dryRun
    ensures var dry, done := Executed(w, Dry(o), jobs), Executed(w, o, jobs);
      && (Counted(w, o, jobs) == Counted(w, Dry(o), jobs) <==> |dry| <= |done| + 1)
      && (|dry| <= |done| + 1 ==> Renders(w, dry) == Renders(w, done))
  {
    var dry, done := Executed(w, Dry(o), jobs), Executed(w, o, jobs);
    StopsFirst(w, o, jobs);
    if |dry| == |done| + 1 {
      assert dry[..|done|] == done;
    }
  }

  // A dry run reports at its end what the real run reports at its end, if and only
  // if CountsAlike holds.
  lemma {:induction false} DryRunForecastsIff(w: World, o: Options, jobs: seq<Job>, run: Run)
    requires !o.dryRun
    ensures SameCounters(Execute(w, Dry(o), jobs, run).run, Execute(w, o, jobs, run).run) <==>
            CountsAlike(w, o, jobs, run.files)
  {
    OneFurther(w, o, jobs);
    CountersInClosedForm(w, o, jobs, run);
    CountersInClosedForm(w, Dry(o), jobs, run);
  }

  lemma ExecutedPrefix(w: World, o: Options, jobs: seq<Job>, m: nat)
    requires m <= |jobs|
    ensures Executed(w, o, jobs[..m]) == jobs[..if m <= |Executed(w, o, jobs)| then m else |Executed(w, o, jobs)|]
  {
    var short, long := Executed(w, o, jobs[..m]), Executed(w, o, jobs);
    assert |short| < m ==> jobs[..m][|short|] == jobs[|short|];
    assert forall j :: 0 <= j < |short| ==> jobs[..m][j] == jobs[j];
    assert |long| < m ==> jobs[..m][|long|] == jobs[|long|];
  }

  lemma SkipsNext(w: World, o: Options, jobs: seq<Job>, files: map<string, Content>, j: nat)
    requires j < |jobs|
    ensures Skips(w, o, jobs[..j + 1], files) ==
            Skips(w, o, jobs[..j], files) + if SkippedBehind(w, o, jobs[..j], files, ActionOf(w, jobs[j])) then 1 else 0
  {
    assert jobs[..j + 1][..j] == jobs[..j];
  }

  // Both runs skip as many of the first m documents.
  predicate SameSkips(w: World, o: Options, jobs: seq<Job>, files: map<string, Content>, m: nat)
    requires m <= |jobs|
  {
    Skips(w, Dry(o), jobs[..m], files) == Skips(w, o, jobs[..m], files)
  }

  lemma SameSkipsNext(w: World, o: Options, jobs: seq<Job>, files: map<string, Content>, j: nat)
    requires j < |jobs| && SameSkips(w, o, jobs, files, j)
    ensures SameSkips(w, o, jobs, files, j + 1) <==> SkippedAlike(w, o, jobs, files, j)
  {
    SkipsNext(w, o, jobs, files, j);
    SkipsNext(w, Dry(o), jobs, files, j);
  }

  lemma {:induction false} SkipsAlike(w: World, o: Options, jobs: seq<Job>, files: map<string, Content>, n: nat)
    requires n <= |jobs|
    ensures (forall m :: 0 <= m <= n ==> SameSkips(w, o, jobs, files, m)) <==>
            forall j :: 0 <= j < n ==> SkippedAlike(w, o, jobs, files, j)
  {
    if n == 0 {
      assert jobs[..0] == [];
    } else {
      SkipsAlike(w, o, jobs, files, n - 1);
      if SameSkips(w, o, jobs, files, n - 1) {
        SameSkipsNext(w, o, jobs, files, n - 1);
      }
    }
  }

  // Both runs report the same about the first m documents.
  ghost predicate SameAt(w: World, o: Options, jobs: seq<Job>, run: Run, m: nat)
    requires m <= |jobs|
  {
    SameCounters(Execute(w, Dry(o), jobs[..m], run).run, Execute(w, o, jobs[..m], run).run)
  }

  // What counts is how much is skipped before the real run stops.
  lemma SameAtIff(w: World, o: Options, jobs: seq<Job>, run: Run, m: nat)
    requires !o.dryRun && m <= |jobs|
    requires m <= |Executed(w, o, jobs)| || |Executed(w, Dry(o), jobs)| <= |Executed(w, o, jobs)| + 1
    ensures var r := |Executed(w, o, jobs)|;
      SameAt(w, o, jobs, run, m) <==> SameSkips(w, o, jobs, run.files, if m <= r then m else r)
  {
    DryRunForecastsIff(w, o, jobs[..m], run);
    CountsAlikeAt(w, o, jobs, run.files, m);
  }

  lemma CountsAlikeAt(w: World, o: Options, jobs: seq<Job>, files: map<string, Content>, m: nat)
    requires !o.dryRun && m <= |jobs|
    requires m <= |Executed(w, o, jobs)| || |Executed(w, Dry(o), jobs)| <= |Executed(w, o, jobs)| + 1
    ensures var r := |Executed(w, o, jobs)|;
      CountsAlike(w, o, jobs[..m], files) <==> SameSkips(w, o, jobs, files, if m <= r then m else r)
  {
    var d, r := |Executed(w, Dry(o), jobs)|, |Executed(w, o, jobs)|;
    StopsFirst(w, o, jobs);
    ExecutedPrefix(w, o, jobs, m);
    ExecutedPrefix(w, Dry(o), jobs, m);
    if r < m && d == r + 1 {
      assert Executed(w, Dry(o), jobs[..m]) == jobs[..r + 1];
      SkipsNext(w, Dry(o), jobs, files, r);
    } else {
      assert Executed(w, Dry(o), jobs[..m]) == Executed(w, o, jobs[..m]);
    }
  }

  // The two runs report the same throughout, document by document, if and only if no
  // document has its skipping decided by what an earlier one writes, and the dry run
  // gets at most one document further.
  lemma DryRunForecastsThroughoutIff(w: World, o: Options, jobs: seq<Job>, run: Run)
    requires !o.dryRun
    ensures (forall m :: 0 <= m <= |jobs| ==> SameAt(w, o, jobs, run, m)) <==>
            |Executed(w, Dry(o), jobs)| <= |Executed(w, o, jobs)| + 1 &&
            forall j :: 0 <= j < |Executed(w, o, jobs)| ==> SkippedAlike(w, o, jobs, run.files, j)
  {
    var d, r := |Executed(w, Dry(o), jobs)|, |Executed(w, o, jobs)|;
    SkipsAlike(w, o, jobs, run.files, r);
    if d <= r + 1 {
      forall m | 0 <= m <= |jobs|
        ensures SameAt(w, o, jobs, run, m) <==> SameSkips(w, o, jobs, run.files, if m <= r then m else r)
      {
        SameAtIff(w, o, jobs, run, m);
      }
      assert forall m :: 0 <= m <= r ==> (SameAt(w, o, jobs, run, m) <==> SameSkips(w, o, jobs, run.files, m));
    } else {
      DryRunForecastsIff(w, o, jobs, run);
      assert jobs[..|jobs|] == jobs;
      assert !SameAt(w, o, jobs, run, |jobs|);
    }
  }

  lemma {:induction false} UntouchedContent(w: World, o: Options, jobs: seq<Job>, path: string,
        initial: Option<Content>)
    requires forall j :: 0 <= j < |jobs| ==> ActionPath(ActionOf(w, jobs[j])) != Some(path)
    ensures LastOverwrite(w, o, jobs, path).None? && FirstRendered(w, jobs, path).None?
    ensures FinalContent(w, o, jobs, path, initial) == initial
  {
    if jobs != [] {
      UntouchedContent(w, o, jobs[..|jobs| - 1], path, initial);
    }
  }

  // It does with distinct targets, and with force whatever the targets are, once the
  // raw files exist, also for runs that stop at an error.
  lemma DryRunForecasts(w: World, o: Options, jobs: seq<Job>, run: Run)
    requires !o.dryRun && RawFilesExist(w, jobs) && (DistinctPaths(w, jobs) || o.force)
    ensures var done, dry := Execute(w, o, jobs, run), Execute(w, Dry(o), jobs, run);
      dry.ok == done.ok && dry.run.files == run.files && SameCounters(dry.run, done.run)
  {
    forall j | 0 <= j < |Executed(w, o, jobs)|
      ensures SkippedAlike(w, o, jobs, run.files, j)
    {
      var a := ActionOf(w, jobs[j]);
      if a.Render? && !o.force {
        forall i | 0 <= i < j
          ensures ActionPath(ActionOf(w, jobs[..j][i])) != Some(a.path)
        {
          assert ActionPath(ActionOf(w, jobs[i])) != ActionPath(ActionOf(w, jobs[j]));
        }
        UntouchedContent(w, o, jobs[..j], a.path, Get(run.files, a.path));
      }
    }
    OneFurther(w, o, jobs);
    DryRunForecastsThroughoutIff(w, o, jobs, run);
    assert SameAt(w, o, jobs, run, |jobs|) && jobs[..|jobs|] == jobs;
    DryRunWritesNothing(w, Dry(o), jobs, run);
    DryRunForecastsSuccessIff(w, o, jobs, run);
  }

  // A run succeeds exactly when every target and template renders and, if it is
  // no dry run, every file to be copied exists: a dry run does not look for them.
  lemma {:induction false} SuccessCondition(w: World, o: Options, jobs: seq<Job>, run: Run)
    ensures Execute(w, o, jobs, run).ok <==>
            forall j :: 0 <= j < |jobs| ==>
              var a := ActionOf(w, jobs[j]); !a.Fail? && (a.Copy? && !o.dryRun ==> a.file.Some?)
  {
    ExecutedIsAll(w, o, jobs, run);
    assert Executed(w, o, jobs) == jobs <==> forall j :: 0 <= j < |jobs| ==> !Stops(o, ActionOf(w, jobs[j]));
  }

  // Success alone is forecast if and only if the raw files exist or the run fails on
  // a target name or a template anyway.
  lemma {:induction false} DryRunForecastsSuccessIff(w: World, o: Options, jobs: seq<Job>, run: Run)
    requires !o.dryRun
    ensures Execute(w, Dry(o), jobs, run).ok == Execute(w, o, jobs, run).ok <==>
            RawFilesExist(w, jobs) || exists j :: 0 <= j < |jobs| && ActionOf(w, jobs[j]).Fail?
  {
    SuccessCondition(w, o, jobs, run);
    SuccessCondition(w, Dry(o), jobs, run);
  }

  // A shared target can mislead: the same document twice, in an empty directory, is
  // written once and then skipped, but a dry run reports two writes.
  lemma SharedTargetMisleadsDryRun(w: World, job: Job, path: string, content: Content)
    requires ActionOf(w, job) == Render(path, content, false)
    ensures var start := Run(map[], 0, 0, 0, []);
      && Execute(w, Options(false, false), [job, job], start) ==
         Result(Run(map[path := content], 1, 1, 0, [path]), true)
      && Execute(w, Options(false, true), [job, job], start) == Result(Run(map[], 2, 0, 0, [path, path]), true)
  {
    var start := Run(map[], 0, 0, 0, []);
    assert [job, job][..1] == [job];
    ExecuteOne(w, Options(false, false), job, start);
    ExecuteOne(w, Options(false, true), job, start);
  }

  // It need not: two documents of different content for one target are written
  // twice, and a dry run says so.
  lemma SharedTargetForecast(w: World, a: Job, b: Job, path: string, one: Content, two: Content)
    requires ActionOf(w, a) == Render(path, one, false) && ActionOf(w, b) == Render(path, two, false) && one != two
    ensures var start := Run(map[], 0, 0, 0, []);
      && Execute(w, Options(false, false), [a, b], start) == Result(Run(map[path := two], 2, 0, 0, [path, path]), true)
      && Execute(w, Options(false, true), [a, b], start) == Result(Run(map[], 2, 0, 0, [path, path]), true)
  {
    var start := Run(map[], 0, 0, 0, []);
    assert [a, b][..1] == [a];
    ExecuteOne(w, Options(false, false), a, start);
    ExecuteOne(w, Options(false, true), a, start);
    assert map[path := one][path := two] == map[path := two];
  }

  // The final counts can agree although the reports on the way do not: one document
  // is skipped in the real run only, and another one in the dry run only.
  lemma CountsAgreeAtTheEndOnly(w: World, a: Job, b: Job, c: Job, p: string, q: string, one: Content, two: Content,
        three: Content)
    requires ActionOf(w, a) == Render(p, one, false) && p != q
    requires ActionOf(w, b) == Render(q, two, false) && ActionOf(w, c) == Render(q, three, false) && two != three
    ensures var jobs, start := [a, a, b, c], Run(map[q := three], 0, 0, 0, []);
      && SameAt(w, Options(false, false), jobs, start, 4)
      && !SameAt(w, Options(false, false), jobs, start, 2)
  {
    var jobs, o, start := [a, a, b, c], Options(false, false), Run(map[q := three], 0, 0, 0, []);
    assert jobs[..1] == [a] && jobs[..2] == [a] + [a] && jobs[..3] == jobs[..2] + [b] && jobs[..4] == jobs[..3] + [c];
    forall o' | o' == o || o' == Dry(o)
      ensures Execute(w, o', jobs[..1], start) == Perform(o', ActionOf(w, a), start)
      ensures Execute(w, o', jobs[..2], start) == Perform(o', ActionOf(w, a), Execute(w, o', jobs[..1], start).run)
      ensures Execute(w, o', jobs[..3], start) == Perform(o', ActionOf(w, b), Execute(w, o', jobs[..2], start).run)
      ensures Execute(w, o', jobs[..4], start) == Perform(o', ActionOf(w, c), Execute(w, o', jobs[..3], start).run)
    {
      ExecuteOne(w, o', a, start);
      assert jobs[..2][..1] == jobs[..1] && jobs[..3][..2] == jobs[..2] && jobs[..4][..3] == jobs[..3];
    }
  }

  // ------------------------------------------------------------------------
  // The whole run, as a function of its inputs
  // ------------------------------------------------------------------------

  ghost predicate SelectionSucceeds(fs: seq<FeatureRule>, wanted: seq<string>) {
    "all" in wanted || AllReachableDefined(fs, wanted)
  }

  ghost function SelectedJobs(fs: seq<FeatureRule>, wanted: seq<string>, ms: seq<Module>): seq<Job> {
    var skip := SelectedFlags(fs, wanted);
    RulesJobs(fs, skip, ms, NamesMap(fs, skip))
  }

  ghost function WholeRun(w: World, o: Options, fs: seq<FeatureRule>, wanted: seq<string>, ms: seq<Module>,
        files: map<string, Content>): Result
  {
    var start := Run(files, 0, 0, 0, []);
    if SelectionSucceeds(fs, wanted) then Execute(w, o, SelectedJobs(fs, wanted, ms), start) else Result(start, false)
  }

  // Generating twice leaves the files of generating once.
  lemma GeneratingAgainChangesNothing(w: World, o: Options, fs: seq<FeatureRule>, wanted: seq<string>,
        ms: seq<Module>, files: map<string, Content>)
    ensures var once := WholeRun(w, o, fs, wanted, ms, files).run.files;
      WholeRun(w, o, fs, wanted, ms, once).run.files == once
  {
    var once := WholeRun(w, o, fs, wanted, ms, files).run.files;
    if SelectionSucceeds(fs, wanted) {
      RunIsIdempotent(w, o, SelectedJobs(fs, wanted, ms), Run(files, 0, 0, 0, []), Run(once, 0, 0, 0, []));
    }
  }

  // A dry run of the generator reports at its end what the real run reports.
  lemma WholeDryRunForecastsIff(w: World, o: Options, fs: seq<FeatureRule>, wanted: seq<string>, ms: seq<Module>,
        files: map<string, Content>)
    requires !o.dryRun
    ensures SameCounters(WholeRun(w, Dry(o), fs, wanted, ms, files).run, WholeRun(w, o, fs, wanted, ms, files).run) <==>
            (SelectionSucceeds(fs, wanted) ==> CountsAlike(w, o, SelectedJobs(fs, wanted, ms), files))
  {
    DryRunForecastsIff(w, o, SelectedJobs(fs, wanted, ms), Run(files, 0, 0, 0, []));
  }

  // A successful run counts every document of every enabled feature once for
  // every entity its scope is for, and nothing else. A run that fails counts the
  // documents up to where it stops.
  lemma {:induction false} CountersAreConserved(w: World, o: Options, fs: seq<FeatureRule>, wanted: seq<string>,
        ms: seq<Module>, files: map<string, Content>)
    ensures var r, all := WholeRun(w, o, fs, wanted, ms, files), Instances(fs, SelectedFlags(fs, wanted), ms);
      && (r.ok ==> Total(r.run) == all)
      && (SelectionSucceeds(fs, wanted) ==> Total(r.run) == Counted(w, o, SelectedJobs(fs, wanted, ms)) <= all)
      && (!SelectionSucceeds(fs, wanted) ==> Total(r.run) == 0)
  {
    var skip := SelectedFlags(fs, wanted);
    EachJobCountsOnce(w, o, SelectedJobs(fs, wanted, ms), Run(files, 0, 0, 0, []));
    RulesJobsCount(fs, skip, ms, NamesMap(fs, skip));
  }

  // ------------------------------------------------------------------------
  // The generator
  // ------------------------------------------------------------------------

  class Output {
    var files: map<string, Content>

    constructor (files: map<string, Content>)
      ensures this.files == files
    {
      this.files := files;
    }

    method Write(input: Content, target: string)
      modifies this
      ensures files == old(files)[target := input]
    {
      files := files[target := input];
    }

    method CopyTo(file: Option<Content>, target: string) returns (ok: bool)
      modifies this
      ensures ok <==> file.Some?
      ensures files == if file.Some? then old(files)[target := file.value] else old(files)
    {
      if file.None? {
        return false;
      }
      files := files[target := file.value];
      return true;
    }

    // The hashes that are compared stand for the contents.
    method Compare(input: Content, target: string) returns (same: bool)
      ensures same <==> target in files && files[target] == input
    {
      if target !in files {
        return false;
      }
      return files[target] == input;
    }
  }

  class Generator {
    const world: World
    const options: Options
    const wanted: seq<string>
    const modules: seq<Module>
    const output: Output
    var features: map<string, bool>
    var filesWritten: nat
    var filesSkipped: nat
    var filesCopied: nat
    var filesTouched: seq<string>

    constructor (world: World, options: Options, wanted: seq<string>, modules: seq<Module>, output: Output)
      ensures this.world == world && this.options == options && this.modules == modules && this.output == output
      ensures this.wanted == if wanted == [] then ["all"] else wanted
      ensures Now() == Run(output.files, 0, 0, 0, [])
    {
      this.world, this.options, this.modules, this.output := world, options, modules, output;
      this.wanted := if wanted == [] then ["all"] else wanted;
      features, filesWritten, filesSkipped, filesCopied, filesTouched := map[], 0, 0, 0, [];
    }

    ghost function Now(): Run
      reads this, output
    {
      Run(output.files, filesWritten, filesSkipped, filesCopied, filesTouched)
    }

    method ProcessRules(doc: RulesDoc) returns (ok: bool)
      modifies this, output, doc.features
      ensures !ValidRules(doc.features) ==> !ok && Now() == old(Now())
      ensures ValidRules(doc.features) ==>
                Result(Now(), ok) == WholeRun(world, options, doc.features, wanted, modules, old(output.files))
    {
      ok := doc.Validate();
      if !ok {
        return false;
      }
      filesWritten, filesSkipped, filesCopied, filesTouched := 0, 0, 0, [];
      ok := SelectFeatures(doc);
      if !ok {
        return false;
      }
      ok := ProcessFeatures(doc);
    }

    method SelectFeatures(doc: RulesDoc) returns (ok: bool)
      modifies this`features, doc.features
      ensures ok <==> SelectionSucceeds(doc.features, wanted)
      ensures ok ==> SkipFlags(doc.features) == SelectedFlags(doc.features, wanted)
      ensures ok ==> features == NamesMap(doc.features, SelectedFlags(doc.features, wanted))
    {
      ok := doc.ComputeFeatures(wanted);
      if ok {
        features := doc.FeatureNamesMap();
      }
    }

    method ProcessFeatures(doc: RulesDoc) returns (ok: bool)
      modifies this`filesWritten, this`filesSkipped, this`filesCopied, this`filesTouched, output
      ensures Result(Now(), ok) == Execute(world, options,
                RulesJobs(doc.features, SkipFlags(doc.features), modules, features), old(Now()))
    {
      ghost var skip := SkipFlags(doc.features);
      ghost var all := RulesJobs(doc.features, skip, modules, features);
      for i := 0 to |doc.features|
        invariant skip == SkipFlags(doc.features)
        invariant Execute(world, options, all, old(Now())) ==
                  Execute(world, options, RulesJobs(doc.features[i..], skip[i..], modules, features), Now())
      {
        ExecuteRulesNext(world, options, doc.features, skip, i, modules, features, Now());
        if doc.features[i].skip {
          continue;
        }
        ok := ProcessFeature(doc.features[i]);
        if !ok {
          return false;
        }
      }
      return true;
    }

    method ProcessFeature(f: FeatureRule) returns (ok: bool)
      modifies this`filesWritten, this`filesSkipped, this`filesCopied, this`filesTouched, output
      ensures Result(Now(), ok) == Execute(world, options, FeatureJobs(f.scopes, modules, features), old(Now()))
    {
      var scopes := f.FindScopesByMatch(ScopeSystem);
      ghost var rest := ModulesJobs(f.scopes, modules, features);
      ExecuteConcat(world, options, ScopesJobs(scopes, SystemContext(features)), rest, Now());
      ok := ProcessScopes(scopes, SystemContext(features));
      if !ok {
        return false;
      }
      for i := 0 to |modules|
        invariant Execute(world, options, FeatureJobs(f.scopes, modules, features), old(Now())) ==
                  Execute(world, options, ModulesJobs(f.scopes, modules[i..], features), Now())
      {
        assert modules[i..][1..] == modules[i + 1..];
        rest := ModulesJobs(f.scopes, modules[i + 1..], features);
        ExecuteConcat(world, options, ModuleJobs(f.scopes, modules[i], features), rest, Now());
        ok := ProcessModule(f, modules[i]);
        if !ok {
          return false;
        }
      }
      return true;
    }

    // The body of the module loop of processFeature.
    method ProcessModule(f: FeatureRule, m: Module) returns (ok: bool)
      modifies this`filesWritten, this`filesSkipped, this`filesCopied, this`filesTouched, output
      ensures Result(Now(), ok) == Execute(world, options, ModuleJobs(f.scopes, m, features), old(Now()))
    {
      ghost var a := ScopesJobs(Matching(f.scopes, ScopeModule), ModuleContext(m, features));
      ghost var b := ContextsJobs(Matching(f.scopes, ScopeInterface), InterfaceContexts(m, features));
      ghost var c := ContextsJobs(Matching(f.scopes, ScopeStruct), StructContexts(m, features));
      ghost var d := ContextsJobs(Matching(f.scopes, ScopeEnum), EnumContexts(m, features));
      ExecuteConcat(world, options, a + b + c, d, Now());
      ExecuteConcat(world, options, a + b, c, Now());
      ExecuteConcat(world, options, a, b, Now());
      var scopes := f.FindScopesByMatch(ScopeModule);
      ok := ProcessScopes(scopes, ModuleContext(m, features));
      if !ok {
        return false;
      }
      ok := ProcessEntities(f, ScopeInterface, InterfaceContexts(m, features));
      if !ok {
        return false;
      }
      ok := ProcessEntities(f, ScopeStruct, StructContexts(m, features));
      if !ok {
        return false;
      }
      ok := ProcessEntities(f, ScopeEnum, EnumContexts(m, features));
    }

    // The interface, struct and enum loops, which look up their scopes each time.
    method ProcessEntities(f: FeatureRule, t: ScopeType, contexts: seq<Context>) returns (ok: bool)
      modifies this`filesWritten, this`filesSkipped, this`filesCopied, this`filesTouched, output
      ensures Result(Now(), ok) == Execute(world, options, ContextsJobs(Matching(f.scopes, t), contexts), old(Now()))
    {
      ghost var wantedScopes := Matching(f.scopes, t);
      for i := 0 to |contexts|
        invariant Execute(world, options, ContextsJobs(wantedScopes, contexts), old(Now())) ==
                  Execute(world, options, ContextsJobs(wantedScopes, contexts[i..]), Now())
      {
        assert contexts[i..][1..] == contexts[i + 1..];
        var scopes := f.FindScopesByMatch(t);
        ExecuteConcat(world, options, ScopesJobs(scopes, contexts[i]), ContextsJobs(scopes, contexts[i + 1..]), Now());
        ok := ProcessScopes(scopes, contexts[i]);
        if !ok {
          return false;
        }
      }
      return true;
    }

    method ProcessScopes(scopes: seq<ScopeRule>, c: Context) returns (ok: bool)
      modifies this`filesWritten, this`filesSkipped, this`filesCopied, this`filesTouched, output
      ensures Result(Now(), ok) == Execute(world, options, ScopesJobs(scopes, c), old(Now()))
    {
      for i := 0 to |scopes|
        invariant Execute(world, options, ScopesJobs(scopes, c), old(Now())) ==
                  Execute(world, options, ScopesJobs(scopes[i..], c), Now())
      {
        assert scopes[i..][1..] == scopes[i + 1..];
        ExecuteConcat(world, options, ScopeJobs(scopes[i], c), ScopesJobs(scopes[i + 1..], c), Now());
        ok := ProcessScope(scopes[i], c);
        if !ok {
          return false;
        }
      }
      return true;
    }

    method ProcessScope(scope: ScopeRule, c: Context) returns (ok: bool)
      modifies this`filesWritten, this`filesSkipped, this`filesCopied, this`filesTouched, output
      ensures Result(Now(), ok) == Execute(world, options, ScopeJobs(scope, c), old(Now()))
    {
      ghost var jobs := ScopeJobs(scope, c);
      for i := 0 to |scope.documents|
        invariant Execute(world, options, jobs, old(Now())) == Execute(world, options, jobs[i..], Now())
      {
        var doc := scope.documents[i];
        if doc.target == "" {
          doc := doc.(target := doc.source);
        }
        if scope.prefix != "" {
          doc := doc.(target := scope.prefix + doc.target);
        }
        assert jobs[i..] == [Job(doc, c)] + jobs[i + 1..];
        ExecuteConcat(world, options, [Job(doc, c)], jobs[i + 1..], Now());
        ExecuteOne(world, options, Job(doc, c), Now());
        ok := ProcessDocument(doc, c);
        if !ok {
          return false;
        }
      }
      return true;
    }

    method ProcessDocument(doc: DocumentRule, c: Context) returns (ok: bool)
      modifies this`filesWritten, this`filesSkipped, this`filesCopied, this`filesTouched, output
      ensures Result(Now(), ok) == Perform(options, ActionOf(world, Job(doc, c)), old(Now()))
    {
      var source := world.clean(doc.source);
      var rendered := world.renderString(world.clean(doc.target), c);
      if rendered.None? {
        return false;
      }
      if doc.raw {
        ok := CopyFile(source, rendered.value);
      } else {
        ok := RenderFile(source, rendered.value, c, doc.preserve);
      }
    }

    method CopyFile(source: string, target: string) returns (ok: bool)
      modifies this`filesCopied, this`filesTouched, output
      ensures Result(Now(), ok) ==
              Perform(options, Copy(target, world.outputPath(target), world.templateFile(source)), old(Now()))
    {
      filesCopied := filesCopied + 1;
      if options.dryRun {
        filesTouched := filesTouched + [target];
        return true;
      }
      ok := output.CopyTo(world.templateFile(source), world.outputPath(target));
    }

    method RenderFile(source: string, target: string, c: Context, preserve: bool) returns (ok: bool)
      modifies this`filesWritten, this`filesSkipped, this`filesTouched, output
      ensures Result(Now(), ok) ==
              match world.renderTemplate(source, c)
              case None => Result(old(Now()), false)
              case Some(content) => Perform(options, Render(world.outputPath(target), content, preserve), old(Now()))
    {
      var rendered := world.renderTemplate(source, c);
      if rendered.None? {
        return false;
      }
      WriteFile(rendered.value, target, preserve);
      return true;
    }

    method WriteFile(input: Content, target: string, preserve: bool)
      modifies this`filesWritten, this`filesSkipped, this`filesTouched, output
      ensures Result(Now(), true) == Perform(options, Render(world.outputPath(target), input, preserve), old(Now()))
    {
      var path := world.outputPath(target);
      if options.force {
        WriteToOutput(input, path);
        return;
      }
      if path in output.files {
        if preserve {
          SkipFile();
          return;
        }
        var isSame := output.Compare(input, path);
        if isSame {
          SkipFile();
          return;
        }
      }
      WriteToOutput(input, path);
    }

    method SkipFile()
      modifies this`filesSkipped
      ensures Now() == Skipped(old(Now()))
    {
      filesSkipped := filesSkipped + 1;
    }

    method WriteToOutput(input: Content, path: string)
      modifies this`filesWritten, this`filesTouched, output
      ensures Now() == Written(options, path, input, old(Now()))
    {
      filesTouched := filesTouched + [path];
      filesWritten := filesWritten + 1;
      if options.dryRun {
        return;
      }
      output.Write(input, path);
    }
  }
}
