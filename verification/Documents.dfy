/**
  What becomes of the documents of a rules file, told by the fields that are
  written in it: which documents are processed, for which entities and in which
  order, what each of them does, and which files a run must not touch.
  */
module Documents {
  import opened Wrappers
  import opened ApiModel
  import opened Features
  import opened Generator

  // ------------------------------------------------------------------------
  // One document
  // ------------------------------------------------------------------------

  // A raw document is counted, and its file is at the path. A dry run only notes the
  // target, and does not look for the file.
  predicate Copied(o: Options, target: string, path: string, file: Option<Content>, run: Run, r: Result) {
    && r.run.copied == run.copied + 1 && r.run.written == run.written && r.run.skipped == run.skipped
    && r.run.touched == (if o.dryRun then run.touched + [target] else run.touched)
    && r.ok == (o.dryRun || file.Some?)
    && r.run.files == if !o.dryRun && file.Some? then run.files[path := file.value] else run.files
  }

  // Without force a file that is there is skipped if it is to be preserved or the same.
  predicate Rendered(o: Options, preserve: bool, path: string, content: Content, run: Run, r: Result) {
    && r.ok && r.run.copied == run.copied
    && if !o.force && path in run.files && (preserve || run.files[path] == content)
       then && r.run.skipped == run.skipped + 1 && r.run.written == run.written
            && r.run.files == run.files && r.run.touched == run.touched
       else && r.run.written == run.written + 1 && r.run.skipped == run.skipped
            && r.run.touched == run.touched + [path]
            && r.run.files == if o.dryRun then run.files else run.files[path := content]
  }

  // An error of the target or the template changes nothing at all.
  lemma OneDocument(w: World, o: Options, doc: DocumentRule, c: Context, run: Run)
    ensures var r := Execute(w, o, [Job(doc, c)], run);
      match w.renderString(w.clean(doc.target), c)
      case None => r == Result(run, false)
      case Some(target) =>
        if doc.raw then Copied(o, target, w.outputPath(target), w.templateFile(w.clean(doc.source)), run, r)
        else
          match w.renderTemplate(w.clean(doc.source), c)
          case None => r == Result(run, false)
          case Some(content) => Rendered(o, doc.preserve, w.outputPath(target), content, run, r)
  {
    ExecuteOne(w, o, Job(doc, c), run);
  }

  // ------------------------------------------------------------------------
  // Files that are to be preserved
  // ------------------------------------------------------------------------

  predicate GoesTo(w: World, job: Job, path: string) {
    var target := w.renderString(w.clean(job.doc.target), job.context);
    target.Some? && w.outputPath(target.value) == path
  }

  predicate Preserved(doc: DocumentRule) {
    doc.preserve && !doc.raw
  }

  ghost predicate PreservedAt(w: World, jobs: seq<Job>, path: string) {
    forall j :: 0 <= j < |jobs| && GoesTo(w, jobs[j], path) ==> Preserved(jobs[j].doc)
  }

  lemma StepPreserves(w: World, o: Options, job: Job, run: Run, path: string)
    requires !o.force && path in run.files && (GoesTo(w, job, path) ==> Preserved(job.doc))
    ensures Get(Execute(w, o, [job], run).run.files, path) == Some(run.files[path])
  {
    OneDocument(w, o, job.doc, job.context, run);
  }

  // Without force, a file that is there at the start keeps its content if all documents
  // for it ask for that, in every run.
  lemma {:induction false} PreservedFileStays(w: World, o: Options, jobs: seq<Job>, run: Run, path: string)
    requires !o.force && path in run.files && PreservedAt(w, jobs, path)
    ensures Get(Execute(w, o, jobs, run).run.files, path) == Some(run.files[path])
  {
    if jobs != [] {
      var front, last := jobs[..|jobs| - 1], jobs[|jobs| - 1];
      PreservedFileStays(w, o, front, run, path);
      assert front + [last] == jobs;
      ExecuteConcat(w, o, front, [last], run);
      if Execute(w, o, front, run).ok {
        StepPreserves(w, o, last, Execute(w, o, front, run).run, path);
      }
    }
  }

  // ------------------------------------------------------------------------
  // The documents of a rules file
  // ------------------------------------------------------------------------

  // A document goes to the prefix of its scope and its target, or its source if it has
  // no target.
  function Placed(prefix: string, doc: DocumentRule): DocumentRule {
    doc.(target := prefix + if doc.target == "" then doc.source else doc.target)
  }

  // What a scope of each type is processed for.
  ghost predicate Fits(t: ScopeType, ms: seq<Module>, features: map<string, bool>, c: Context) {
    match t
    case ScopeSystem => c == SystemContext(features)
    case ScopeModule => exists m :: m in ms && c == ModuleContext(m, features)
    case ScopeInterface => exists m, x :: m in ms && x in m.interfaces && c == InterfaceContext(m, x, features)
    case ScopeStruct => exists m, x :: m in ms && x in m.structs && c == StructContext(m, x, features)
    case ScopeEnum => exists m, x :: m in ms && x in m.enums && c == EnumContext(m, x, features)
  }

  ghost predicate OfScope(s: ScopeRule, doc: DocumentRule) {
    exists d :: d in s.documents && doc == Placed(s.prefix, d)
  }

  ghost predicate OfScopes(scopes: seq<ScopeRule>, ms: seq<Module>, features: map<string, bool>, job: Job) {
    exists s :: s in scopes && OfScope(s, job.doc) && Fits(s.match_, ms, features, job.context)
  }

  lemma PlacedIsTarget(prefix: string, doc: DocumentRule)
    ensures Placed(prefix, doc) == Target(prefix, doc)
  {
  }

  lemma InScopeJobs(s: ScopeRule, c: Context, job: Job)
    ensures job in ScopeJobs(s, c) <==> OfScope(s, job.doc) && job.context == c
  {
    forall d
      ensures Placed(s.prefix, d) == Target(s.prefix, d)
    {
      PlacedIsTarget(s.prefix, d);
    }
    if OfScope(s, job.doc) && job.context == c {
      var d :| d in s.documents && job.doc == Placed(s.prefix, d);
      var j :| 0 <= j < |s.documents| && s.documents[j] == d;
      assert ScopeJobs(s, c)[j] == job;
    }
  }

  lemma {:induction false} InScopesJobs(scopes: seq<ScopeRule>, c: Context, job: Job)
    ensures job in ScopesJobs(scopes, c) <==> job.context == c && exists s :: s in scopes && OfScope(s, job.doc)
  {
    if scopes != [] {
      InScopeJobs(scopes[0], c, job);
      InScopesJobs(scopes[1..], c, job);
      assert forall s :: s in scopes <==> s == scopes[0] || s in scopes[1..];
    }
  }

  lemma {:induction false} InContextsJobs(scopes: seq<ScopeRule>, cs: seq<Context>, job: Job)
    ensures job in ContextsJobs(scopes, cs) <==> job.context in cs && exists s :: s in scopes && OfScope(s, job.doc)
  {
    if cs != [] {
      InScopesJobs(scopes, cs[0], job);
      InContextsJobs(scopes, cs[1..], job);
    }
  }

  lemma {:induction false} InMatching(scopes: seq<ScopeRule>, t: ScopeType, s: ScopeRule)
    ensures s in Matching(scopes, t) <==> s in scopes && s.match_ == t
  {
    if scopes != [] {
      InMatching(scopes[1..], t, s);
    }
  }

  // Documents of the scopes of one type, for entities of that type.
  lemma InTypeJobs(scopes: seq<ScopeRule>, t: ScopeType, cs: seq<Context>, job: Job)
    ensures job in ContextsJobs(Matching(scopes, t), cs) <==>
            job.context in cs && exists s :: s in scopes && s.match_ == t && OfScope(s, job.doc)
  {
    InContextsJobs(Matching(scopes, t), cs, job);
    forall s: ScopeRule
      ensures s in Matching(scopes, t) <==> s in scopes && s.match_ == t
    {
      InMatching(scopes, t, s);
    }
  }

  lemma EntityContexts(m: Module, features: map<string, bool>, c: Context)
    ensures c in InterfaceContexts(m, features) <==> Fits(ScopeInterface, [m], features, c)
    ensures c in StructContexts(m, features) <==> Fits(ScopeStruct, [m], features, c)
    ensures c in EnumContexts(m, features) <==> Fits(ScopeEnum, [m], features, c)
    ensures c in [ModuleContext(m, features)] <==> Fits(ScopeModule, [m], features, c)
  {
    assert m in [m];
    if Fits(ScopeInterface, [m], features, c) {
      var j :| 0 <= j < |m.interfaces| && c == InterfaceContext(m, m.interfaces[j], features);
      assert InterfaceContexts(m, features)[j] == c;
    }
    if Fits(ScopeStruct, [m], features, c) {
      var j :| 0 <= j < |m.structs| && c == StructContext(m, m.structs[j], features);
      assert StructContexts(m, features)[j] == c;
    }
    if Fits(ScopeEnum, [m], features, c) {
      var j :| 0 <= j < |m.enums| && c == EnumContext(m, m.enums[j], features);
      assert EnumContexts(m, features)[j] == c;
    }
  }

  lemma OneContext(scopes: seq<ScopeRule>, c: Context)
    ensures ContextsJobs(scopes, [c]) == ScopesJobs(scopes, c)
  {
    assert [c][1..] == [] && ContextsJobs(scopes, []) == [];
  }

  ghost predicate OfEntities(scopes: seq<ScopeRule>, ms: seq<Module>, features: map<string, bool>, job: Job) {
    exists s :: s in scopes && s.match_ != ScopeSystem && OfScope(s, job.doc) &&
                Fits(s.match_, ms, features, job.context)
  }

  lemma InModuleJobs(scopes: seq<ScopeRule>, m: Module, features: map<string, bool>, job: Job)
    ensures job in ModuleJobs(scopes, m, features) <==> OfEntities(scopes, [m], features, job)
  {
    var c := ModuleContext(m, features);
    OneContext(Matching(scopes, ScopeModule), c);
    InTypeJobs(scopes, ScopeModule, [c], job);
    InTypeJobs(scopes, ScopeInterface, InterfaceContexts(m, features), job);
    InTypeJobs(scopes, ScopeStruct, StructContexts(m, features), job);
    InTypeJobs(scopes, ScopeEnum, EnumContexts(m, features), job);
    EntityContexts(m, features, job.context);
    InFourLists(ScopesJobs(Matching(scopes, ScopeModule), c),
                ContextsJobs(Matching(scopes, ScopeInterface), InterfaceContexts(m, features)),
                ContextsJobs(Matching(scopes, ScopeStruct), StructContexts(m, features)),
                ContextsJobs(Matching(scopes, ScopeEnum), EnumContexts(m, features)), job);
  }

  lemma InFourLists(a: seq<Job>, b: seq<Job>, c: seq<Job>, d: seq<Job>, job: Job)
    ensures job in a + b + c + d <==> job in a || job in b || job in c || job in d
  {
  }

  lemma {:induction false} InModulesJobs(scopes: seq<ScopeRule>, ms: seq<Module>, features: map<string, bool>,
        job: Job)
    ensures job in ModulesJobs(scopes, ms, features) <==> OfEntities(scopes, ms, features, job)
  {
    if ms != [] {
      InModuleJobs(scopes, ms[0], features, job);
      InModulesJobs(scopes, ms[1..], features, job);
      forall t: ScopeType | t != ScopeSystem
        ensures Fits(t, ms, features, job.context) <==>
                Fits(t, [ms[0]], features, job.context) || Fits(t, ms[1..], features, job.context)
      {
        assert forall m :: m in ms <==> m in [ms[0]] || m in ms[1..];
      }
    }
  }

  lemma InFeatureJobs(scopes: seq<ScopeRule>, ms: seq<Module>, features: map<string, bool>, job: Job)
    ensures job in FeatureJobs(scopes, ms, features) <==> OfScopes(scopes, ms, features, job)
  {
    var c := SystemContext(features);
    OneContext(Matching(scopes, ScopeSystem), c);
    InTypeJobs(scopes, ScopeSystem, [c], job);
    InModulesJobs(scopes, ms, features, job);
  }

  // The documents that a run processes are those of the scopes of the enabled
  // features, each for the entities of the type of its scope.
  lemma {:induction false} JobsAreDocuments(fs: seq<FeatureRule>, skip: seq<bool>, ms: seq<Module>,
        features: map<string, bool>, job: Job)
    requires |fs| == |skip|
    ensures job in RulesJobs(fs, skip, ms, features) <==>
            exists i :: 0 <= i < |fs| && !skip[i] && OfScopes(fs[i].scopes, ms, features, job)
  {
    if fs != [] {
      var own := if skip[0] then [] else FeatureJobs(fs[0].scopes, ms, features);
      JobsAreDocuments(fs[1..], skip[1..], ms, features, job);
      InFeatureJobs(fs[0].scopes, ms, features, job);
      if i :| 0 <= i < |fs| && !skip[i] && OfScopes(fs[i].scopes, ms, features, job) {
        if i > 0 {
          assert fs[1..][i - 1] == fs[i] && skip[1..][i - 1] == skip[i];
        }
      }
      if i :| 0 <= i < |fs| - 1 && !skip[1..][i] && OfScopes(fs[1..][i].scopes, ms, features, job) {
        assert fs[1..][i] == fs[i + 1] && skip[1..][i] == skip[i + 1];
      }
      assert job in own + RulesJobs(fs[1..], skip[1..], ms, features) <==>
             job in own || job in RulesJobs(fs[1..], skip[1..], ms, features);
    }
  }

  // ------------------------------------------------------------------------
  // Their order
  // ------------------------------------------------------------------------

  // The documents of a scope come as they are written.
  lemma DocumentAt(s: ScopeRule, c: Context, j: nat)
    requires j < |s.documents|
    ensures |ScopeJobs(s, c)| == |s.documents| && ScopeJobs(s, c)[j] == Job(Placed(s.prefix, s.documents[j]), c)
  {
    PlacedIsTarget(s.prefix, s.documents[j]);
  }

  // The entities of a module come as they are declared.
  lemma EntityAt(m: Module, features: map<string, bool>, j: nat)
    ensures |InterfaceContexts(m, features)| == |m.interfaces| && |StructContexts(m, features)| == |m.structs|
    ensures |EnumContexts(m, features)| == |m.enums|
    ensures j < |m.interfaces| ==> InterfaceContexts(m, features)[j] == InterfaceContext(m, m.interfaces[j], features)
    ensures j < |m.structs| ==> StructContexts(m, features)[j] == StructContext(m, m.structs[j], features)
    ensures j < |m.enums| ==> EnumContexts(m, features)[j] == EnumContext(m, m.enums[j], features)
  {
  }

  lemma {:induction false} MatchingInOrder(a: seq<ScopeRule>, b: seq<ScopeRule>, t: ScopeType)
    ensures Matching(a + b, t) == Matching(a, t) + Matching(b, t)
  {
    if a == [] {
      assert a + b == b;
    } else {
      assert (a + b)[1..] == a[1..] + b;
      MatchingInOrder(a[1..], b, t);
    }
  }

  lemma {:induction false} ScopesInOrder(a: seq<ScopeRule>, b: seq<ScopeRule>, c: Context)
    ensures ScopesJobs(a + b, c) == ScopesJobs(a, c) + ScopesJobs(b, c)
  {
    if a == [] {
      assert a + b == b;
    } else {
      assert (a + b)[1..] == a[1..] + b;
      ScopesInOrder(a[1..], b, c);
    }
  }

  lemma {:induction false} EntitiesInOrder(scopes: seq<ScopeRule>, a: seq<Context>, b: seq<Context>)
    ensures ContextsJobs(scopes, a + b) == ContextsJobs(scopes, a) + ContextsJobs(scopes, b)
  {
    if a == [] {
      assert a + b == b;
    } else {
      assert (a + b)[1..] == a[1..] + b;
      EntitiesInOrder(scopes, a[1..], b);
    }
  }

  lemma {:induction false} ModulesInOrder(scopes: seq<ScopeRule>, a: seq<Module>, b: seq<Module>,
        features: map<string, bool>)
    ensures ModulesJobs(scopes, a + b, features) == ModulesJobs(scopes, a, features) + ModulesJobs(scopes, b, features)
  {
    if a == [] {
      assert a + b == b;
    } else {
      var first := ModuleJobs(scopes, a[0], features);
      assert (a + b)[1..] == a[1..] + b && (a + b)[0] == a[0];
      ModulesInOrder(scopes, a[1..], b, features);
      var own, others := ModulesJobs(scopes, a[1..], features), ModulesJobs(scopes, b, features);
      assert first + (own + others) == (first + own) + others;
    }
  }

  lemma {:induction false} FeaturesInOrder(a: seq<FeatureRule>, b: seq<FeatureRule>, skipA: seq<bool>,
        skipB: seq<bool>, ms: seq<Module>, features: map<string, bool>)
    requires |a| == |skipA| && |b| == |skipB|
    ensures RulesJobs(a + b, skipA + skipB, ms, features) ==
            RulesJobs(a, skipA, ms, features) + RulesJobs(b, skipB, ms, features)
  {
    if a == [] {
      assert a + b == b && skipA + skipB == skipB;
    } else {
      assert (a + b)[1..] == a[1..] + b && (skipA + skipB)[1..] == skipA[1..] + skipB;
      FeaturesInOrder(a[1..], b, skipA[1..], skipB, ms, features);
    }
  }

  // System, module, interfaces, structs, enums.
  function Stage(c: Context): nat {
    match c
    case SystemContext(_) => 0
    case ModuleContext(_, _) => 1
    case InterfaceContext(_, _, _) => 2
    case StructContext(_, _, _) => 3
    case EnumContext(_, _, _) => 4
  }

  ghost predicate AllOfStage(jobs: seq<Job>, stage: nat) {
    forall job :: job in jobs ==> Stage(job.context) == stage
  }

  ghost predicate StagesAscend(jobs: seq<Job>) {
    forall i, j :: 0 <= i < j < |jobs| ==> Stage(jobs[i].context) <= Stage(jobs[j].context)
  }

  lemma TypeIsStage(scopes: seq<ScopeRule>, t: ScopeType, cs: seq<Context>, stage: nat)
    requires forall c :: c in cs ==> Stage(c) == stage
    ensures AllOfStage(ContextsJobs(Matching(scopes, t), cs), stage)
  {
    forall job | job in ContextsJobs(Matching(scopes, t), cs)
      ensures Stage(job.context) == stage
    {
      InTypeJobs(scopes, t, cs, job);
    }
  }

  lemma AscendingStages(a: seq<Job>, b: seq<Job>, c: seq<Job>, d: seq<Job>)
    requires AllOfStage(a, 1) && AllOfStage(b, 2) && AllOfStage(c, 3) && AllOfStage(d, 4)
    ensures StagesAscend(a + b + c + d)
  {
    var all := a + b + c + d;
    forall i | 0 <= i < |all|
      ensures Stage(all[i].context) ==
              if i < |a| then 1 else if i < |a| + |b| then 2 else if i < |a| + |b| + |c| then 3 else 4
    {
      if i < |a| {
        assert all[i] in a;
      } else if i < |a| + |b| {
        assert all[i] in b;
      } else if i < |a| + |b| + |c| {
        assert all[i] in c;
      } else {
        assert all[i] in d;
      }
    }
  }

  // Within a module its own scopes come before those of its interfaces, these before
  // structs, and structs before enums.
  lemma ModuleStages(scopes: seq<ScopeRule>, m: Module, features: map<string, bool>)
    ensures StagesAscend(ModuleJobs(scopes, m, features))
  {
    var c := ModuleContext(m, features);
    OneContext(Matching(scopes, ScopeModule), c);
    TypeIsStage(scopes, ScopeModule, [c], 1);
    TypeIsStage(scopes, ScopeInterface, InterfaceContexts(m, features), 2);
    TypeIsStage(scopes, ScopeStruct, StructContexts(m, features), 3);
    TypeIsStage(scopes, ScopeEnum, EnumContexts(m, features), 4);
    AscendingStages(ScopesJobs(Matching(scopes, ScopeModule), c),
                    ContextsJobs(Matching(scopes, ScopeInterface), InterfaceContexts(m, features)),
                    ContextsJobs(Matching(scopes, ScopeStruct), StructContexts(m, features)),
                    ContextsJobs(Matching(scopes, ScopeEnum), EnumContexts(m, features)));
  }

  // Within a feature the system comes before the modules.
  lemma SystemComesFirst(scopes: seq<ScopeRule>, ms: seq<Module>, features: map<string, bool>, i: nat, j: nat)
    requires i < j < |FeatureJobs(scopes, ms, features)|
    ensures var jobs := FeatureJobs(scopes, ms, features);
      Stage(jobs[j].context) == 0 ==> Stage(jobs[i].context) == 0
  {
    var c, jobs := SystemContext(features), FeatureJobs(scopes, ms, features);
    var own, rest := ScopesJobs(Matching(scopes, ScopeSystem), c), ModulesJobs(scopes, ms, features);
    OneContext(Matching(scopes, ScopeSystem), c);
    TypeIsStage(scopes, ScopeSystem, [c], 0);
    if j >= |own| {
      assert jobs[j] in rest;
      InModulesJobs(scopes, ms, features, jobs[j]);
    } else {
      assert jobs[i] in own;
    }
  }

  // ------------------------------------------------------------------------
  // The whole run
  // ------------------------------------------------------------------------

  // Whatever it is processed for, the document never goes to the path.
  ghost predicate NeverGoesTo(w: World, doc: DocumentRule, path: string) {
    forall c :: !GoesTo(w, Job(doc, c), path)
  }

  ghost predicate ScopePreserves(w: World, s: ScopeRule, path: string) {
    forall d :: d in s.documents ==> Preserved(d) || NeverGoesTo(w, Placed(s.prefix, d), path)
  }

  ghost predicate AllPreserve(w: World, fs: seq<FeatureRule>, path: string) {
    forall i, s :: 0 <= i < |fs| && s in fs[i].scopes ==> ScopePreserves(w, s, path)
  }

  lemma ScopePreservesAt(w: World, s: ScopeRule, path: string, job: Job)
    requires ScopePreserves(w, s, path) && OfScope(s, job.doc) && GoesTo(w, job, path)
    ensures Preserved(job.doc)
  {
    var d :| d in s.documents && job.doc == Placed(s.prefix, d);
    assert job == Job(job.doc, job.context);
  }

  lemma ScopesPreserve(w: World, scopes: seq<ScopeRule>, ms: seq<Module>, features: map<string, bool>, path: string,
        job: Job)
    requires forall s :: s in scopes ==> ScopePreserves(w, s, path)
    requires OfScopes(scopes, ms, features, job) && GoesTo(w, job, path)
    ensures Preserved(job.doc)
  {
    var s :| s in scopes && OfScope(s, job.doc) && Fits(s.match_, ms, features, job.context);
    ScopePreservesAt(w, s, path, job);
  }

  lemma RulesPreserve(w: World, fs: seq<FeatureRule>, skip: seq<bool>, ms: seq<Module>, features: map<string, bool>,
        path: string, job: Job)
    requires |fs| == |skip| && AllPreserve(w, fs, path)
    requires job in RulesJobs(fs, skip, ms, features) && GoesTo(w, job, path)
    ensures Preserved(job.doc)
  {
    JobsAreDocuments(fs, skip, ms, features, job);
    var i :| 0 <= i < |fs| && !skip[i] && OfScopes(fs[i].scopes, ms, features, job);
    ScopesPreserve(w, fs[i].scopes, ms, features, path, job);
  }

  // A whole run without force leaves a file alone that is there at its start, if each
  // document of the rules asks for that or does not go there.
  lemma WholeRunPreserves(w: World, o: Options, fs: seq<FeatureRule>, wanted: seq<string>, ms: seq<Module>,
        files: map<string, Content>, path: string)
    requires !o.force && path in files && AllPreserve(w, fs, path)
    ensures Get(WholeRun(w, o, fs, wanted, ms, files).run.files, path) == Some(files[path])
  {
    var skip := SelectedFlags(fs, wanted);
    var features := NamesMap(fs, skip);
    var jobs := RulesJobs(fs, skip, ms, features);
    forall j | 0 <= j < |jobs| && GoesTo(w, jobs[j], path)
      ensures Preserved(jobs[j].doc)
    {
      RulesPreserve(w, fs, skip, ms, features, path, jobs[j]);
    }
    PreservedFileStays(w, o, jobs, Run(files, 0, 0, 0, []), path);
  }
}
