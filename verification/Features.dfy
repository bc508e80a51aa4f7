/**
  Feature selection of a rules document (pkg/spec/rules.go).

  `ComputeFeatures` enables the wanted features and everything they require,
  directly or through other features, on a graph that may have cycles.
  Feature names need not be distinct: `FeatureByName` answers with the first
  feature of a name, while every feature whose name is wanted is walked.
  */
module Features {

  datatype ScopeType = ScopeSystem | ScopeModule | ScopeInterface | ScopeStruct | ScopeEnum

  datatype DocumentRule = DocumentRule(source: string, target: string, raw: bool, force: bool, preserve: bool)

  datatype ScopeRule = ScopeRule(match_: ScopeType, prefix: string, documents: seq<DocumentRule>)

  class FeatureRule {
    const name: string
    const needs: seq<string>
    const scopes: seq<ScopeRule>
    var skip: bool

    constructor (name: string, needs: seq<string>, scopes: seq<ScopeRule>)
      ensures this.name == name && this.needs == needs && this.scopes == scopes && !skip
    {
      this.name, this.needs, this.scopes, this.skip := name, needs, scopes, false;
    }

    // The scopes of one type, in document order.
    method FindScopesByMatch(m: ScopeType) returns (found: seq<ScopeRule>)
      ensures found == Matching(scopes, m)
    {
      found := [];
      for i := 0 to |scopes|
        invariant found + Matching(scopes[i..], m) == Matching(scopes, m)
      {
        if scopes[i].match_ == m {
          found := found + [scopes[i]];
        }
        assert scopes[i..][1..] == scopes[i + 1..];
      }
    }
  }

  function Matching(scopes: seq<ScopeRule>, m: ScopeType): seq<ScopeRule> {
    if scopes == [] then []
    else if scopes[0].match_ == m then [scopes[0]] + Matching(scopes[1..], m)
    else Matching(scopes[1..], m)
  }

  // ------------------------------------------------------------------------
  // The requires graph
  // ------------------------------------------------------------------------

  // Index of the first feature called `name`, or |fs| if there is none.
  function FirstIndex(fs: seq<FeatureRule>, name: string): (i: nat)
    ensures i <= |fs|
    ensures i < |fs| ==> fs[i].name == name
    ensures forall j :: 0 <= j < i ==> fs[j].name != name
  {
    if fs == [] then 0
    else if fs[0].name == name then 0
    else 1 + FirstIndex(fs[1..], name)
  }

  ghost predicate Defined(fs: seq<FeatureRule>, name: string) {
    exists f :: f in fs && f.name == name
  }

  // `b` is required by the feature that the name `a` resolves to.
  ghost predicate Requires(fs: seq<FeatureRule>, a: string, b: string) {
    var i := FirstIndex(fs, a);
    i < |fs| && b in fs[i].needs
  }

  // The edges the selection follows: besides the resolved feature of a name,
  // every feature carrying a wanted name contributes its requirements.
  ghost predicate Edge(fs: seq<FeatureRule>, wanted: seq<string>, a: string, b: string) {
    || Requires(fs, a, b)
    || (a in wanted && exists f :: f in fs && f.name == a && b in f.needs)
  }

  ghost predicate IsPath(fs: seq<FeatureRule>, wanted: seq<string>, p: seq<string>) {
    && p != []
    && p[0] in wanted
    && forall i :: 0 <= i < |p| - 1 ==> Edge(fs, wanted, p[i], p[i + 1])
  }

  ghost predicate IsPathTo(fs: seq<FeatureRule>, wanted: seq<string>, p: seq<string>, name: string) {
    IsPath(fs, wanted, p) && p[|p| - 1] == name
  }

  ghost predicate Reachable(fs: seq<FeatureRule>, wanted: seq<string>, name: string) {
    exists p :: IsPathTo(fs, wanted, p, name)
  }

  lemma WantedIsReachable(fs: seq<FeatureRule>, wanted: seq<string>, name: string)
    requires name in wanted
    ensures Reachable(fs, wanted, name)
  {
    assert IsPathTo(fs, wanted, [name], name);
  }

  lemma EdgeIsReachable(fs: seq<FeatureRule>, wanted: seq<string>, a: string, b: string)
    requires Reachable(fs, wanted, a) && Edge(fs, wanted, a, b)
    ensures Reachable(fs, wanted, b)
  {
    var p :| IsPathTo(fs, wanted, p, a);
    var q := p + [b];
    forall i | 0 <= i < |q| - 1
      ensures Edge(fs, wanted, q[i], q[i + 1])
    {
      if i < |p| - 1 {
        assert q[i] == p[i] && q[i + 1] == p[i + 1];
      }
    }
    assert IsPathTo(fs, wanted, q, b);
  }

  ghost predicate ClosedUnderRequires(fs: seq<FeatureRule>, wanted: seq<string>, names: set<string>) {
    && (forall w :: w in wanted ==> w in names)
    && (forall a, b :: a in names && Edge(fs, wanted, a, b) ==> b in names)
  }

  // A set that holds the wanted names and is closed holds everything reachable.
  lemma {:induction false} PathStaysInClosed(fs: seq<FeatureRule>, wanted: seq<string>, names: set<string>,
        p: seq<string>)
    requires ClosedUnderRequires(fs, wanted, names) && IsPath(fs, wanted, p)
    ensures p[|p| - 1] in names
    decreases |p|
  {
    if |p| > 1 {
      var q := p[..|p| - 1];
      PathStaysInClosed(fs, wanted, names, q);
      assert Edge(fs, wanted, p[|p| - 2], p[|p| - 1]);
    }
  }

  // The reachable names are the least set that holds the wanted names and is
  // closed under the edges.
  lemma ReachableIsLeastClosed(fs: seq<FeatureRule>, wanted: seq<string>, names: set<string>)
    requires ClosedUnderRequires(fs, wanted, names)
    requires forall n :: n in names ==> Reachable(fs, wanted, n)
    ensures forall n :: n in names <==> Reachable(fs, wanted, n)
    ensures forall other :: ClosedUnderRequires(fs, wanted, other) ==> names <= other
  {
    forall other, n | ClosedUnderRequires(fs, wanted, other) && Reachable(fs, wanted, n)
      ensures n in other
    {
      var p :| IsPathTo(fs, wanted, p, n);
      PathStaysInClosed(fs, wanted, other, p);
    }
  }

  // The `features` map of ComputeFeatures, shared by all recursive calls. Its
  // values are only ever true, so it is the set of its keys.
  class Marks {
    var names: set<string>

    constructor ()
      ensures names == {}
    {
      names := {};
    }
  }

  ghost predicate NamesWithin(fs: seq<FeatureRule>, universe: set<string>) {
    forall f, x :: f in fs && x in f.needs ==> x in universe
  }

  ghost function NeededNames(fs: seq<FeatureRule>): set<string> {
    set f, x | f in fs && x in f.needs :: x
  }

  // Every name marked since `before` has all its requirements marked.
  ghost predicate WalkedSince(fs: seq<FeatureRule>, before: set<string>, now: set<string>) {
    && (forall a :: a in now && a !in before ==> FirstIndex(fs, a) < |fs|)
    && (forall a, b :: a in now && a !in before && Requires(fs, a, b) ==> b in now)
  }

  // A feature is marked, and so are all names that it requires.
  ghost predicate Walked(f: FeatureRule, names: set<string>) {
    f.name in names && forall x :: x in f.needs ==> x in names
  }

  lemma WalkedIsClosed(fs: seq<FeatureRule>, wanted: seq<string>, names: set<string>)
    requires forall w :: w in wanted ==> Defined(fs, w)
    requires WalkedSince(fs, {}, names)
    requires forall j :: 0 <= j < |fs| && fs[j].name in wanted ==> Walked(fs[j], names)
    ensures ClosedUnderRequires(fs, wanted, names)
  {
  }

  class RulesDoc {
    const name: string
    const features: seq<FeatureRule>

    constructor (name: string, features: seq<FeatureRule>)
      ensures this.name == name && this.features == features
    {
      this.name, this.features := name, features;
    }

    method FeatureByName(name: string) returns (f: FeatureRule?)
      ensures f == null <==> !Defined(features, name)
      ensures f != null ==> FirstIndex(features, name) < |features| && f == features[FirstIndex(features, name)]
    {
      for i := 0 to |features|
        invariant forall j :: 0 <= j < i ==> features[j].name != name
      {
        if features[i].name == name {
          return features[i];
        }
      }
      return null;
    }

    // A document entry may not ask for force and preserve at once.
    method Validate() returns (ok: bool)
      ensures ok <==> ValidRules(features)
    {
      for i := 0 to |features|
        invariant forall f :: f in features[..i] ==> ValidScopes(f.scopes)
      {
        for j := 0 to |features[i].scopes|
          invariant forall s :: s in features[i].scopes[..j] ==> ValidDocuments(s.documents)
        {
          var docs := features[i].scopes[j].documents;
          for k := 0 to |docs|
            invariant forall d :: d in docs[..k] ==> !(d.force && d.preserve)
          {
            if docs[k].force && docs[k].preserve {
              assert docs[k] in docs && features[i].scopes[j] in features[i].scopes && features[i] in features;
              return false;
            }
          }
        }
      }
      return true;
    }

    method WalkRequired(needed: seq<string>, marks: Marks, ghost wanted: seq<string>, ghost universe: set<string>)
      returns (ok: bool)
      requires NamesWithin(features, universe) && forall x :: x in needed ==> x in universe
      requires forall x :: x in needed ==> Reachable(features, wanted, x)
      modifies marks
      ensures old(marks.names) <= marks.names
      ensures forall n :: n in marks.names && n !in old(marks.names) ==> Reachable(features, wanted, n)
      ensures ok ==> forall x :: x in needed ==> x in marks.names
      ensures ok ==> WalkedSince(features, old(marks.names), marks.names)
      ensures !ok ==> exists n :: Reachable(features, wanted, n) && !Defined(features, n)
      decreases universe - marks.names
    {
      for i := 0 to |needed|
        invariant old(marks.names) <= marks.names
        invariant forall x :: x in needed[..i] ==> x in marks.names
        invariant forall n :: n in marks.names && n !in old(marks.names) ==> Reachable(features, wanted, n)
        invariant WalkedSince(features, old(marks.names), marks.names)
      {
        var name := needed[i];
        if name in marks.names {
          continue;
        }
        marks.names := marks.names + {name};
        var f := FeatureByName(name);
        if f == null {
          return false;
        }
        forall x | x in f.needs
          ensures Reachable(features, wanted, x)
        {
          assert Requires(features, name, x);
          EdgeIsReachable(features, wanted, name, x);
        }
        assert universe - marks.names < universe - old(marks.names) by {
          assert name in universe - old(marks.names) && name !in universe - marks.names;
        }
        ok := WalkRequired(f.needs, marks, wanted, universe);
        if !ok {
          return false;
        }
      }
      return true;
    }

    // The postconditions state the whole outcome. `all` enables everything.
    // Without it the call fails exactly when something reachable is undefined,
    // and then every feature stays skipped; otherwise a feature is enabled
    // exactly when it is the one its name resolves to and its name is reachable.
    method ComputeFeatures(wanted: seq<string>) returns (ok: bool)
      modifies features
      ensures "all" in wanted ==> ok && forall f :: f in features ==> !f.skip
      ensures "all" !in wanted ==> (ok <==> AllReachableDefined(features, wanted))
      ensures "all" !in wanted && !ok ==> forall f :: f in features ==> f.skip
      ensures ok ==> SkipFlags(features) == SelectedFlags(features, wanted)
    {
      SetAllSkipped(true);
      for i := 0 to |wanted|
        invariant "all" !in wanted[..i]
        invariant forall f :: f in features ==> f.skip
      {
        if wanted[i] == "all" {
          SetAllSkipped(false);
          return true;
        }
      }
      for i := 0 to |wanted|
        invariant forall w :: w in wanted[..i] ==> Defined(features, w)
        invariant forall f :: f in features ==> f.skip
      {
        var f := FeatureByName(wanted[i]);
        if f == null {
          WantedIsReachable(features, wanted, wanted[i]);
          return false;
        }
      }
      var marks := new Marks();
      ok := WalkWanted(wanted, marks);
      if !ok {
        return false;
      }
      ReachableIsLeastClosed(features, wanted, marks.names);
      EnableNamed(marks.names);
      forall n | Reachable(features, wanted, n)
        ensures Defined(features, n)
      {
        assert features[FirstIndex(features, n)] in features;
      }
      return true;
    }

    method SetAllSkipped(skip: bool)
      modifies features
      ensures forall f :: f in features ==> f.skip == skip
    {
      for i := 0 to |features|
        invariant forall f :: f in features[..i] ==> f.skip == skip
      {
        features[i].skip := skip;
      }
    }

    // Go walks the keys of the map in an arbitrary order.
    method EnableNamed(names: set<string>)
      requires forall f :: f in features ==> f.skip
      requires forall n :: n in names ==> FirstIndex(features, n) < |features|
      modifies features
      ensures forall f :: f in features ==> (!f.skip <==> EnabledBy(features, names, f))
    {
      var rest := names;
      while rest != {}
        invariant rest <= names
        invariant forall f :: f in features ==> (!f.skip <==> EnabledBy(features, names - rest, f))
        decreases rest
      {
        var name :| name in rest;
        var f := FeatureByName(name);
        if f == null {
          assert false;
        }
        f.skip := false;
        rest := rest - {name};
      }
    }

    // The root loop: every feature whose name is wanted is marked and walked.
    method WalkWanted(wanted: seq<string>, marks: Marks) returns (ok: bool)
      requires forall w :: w in wanted ==> Defined(features, w)
      requires marks.names == {}
      modifies marks
      ensures forall n :: n in marks.names ==> Reachable(features, wanted, n)
      ensures ok ==> forall n :: n in marks.names ==> FirstIndex(features, n) < |features|
      ensures ok ==> ClosedUnderRequires(features, wanted, marks.names)
      ensures !ok ==> exists n :: Reachable(features, wanted, n) && !Defined(features, n)
    {
      for i := 0 to |features|
        invariant forall n :: n in marks.names ==> Reachable(features, wanted, n)
        invariant WalkedSince(features, {}, marks.names)
        invariant forall j :: 0 <= j < i && features[j].name in wanted ==> Walked(features[j], marks.names)
      {
        if features[i].name in wanted {
          ok := WalkFeature(i, wanted, marks);
          if !ok {
            return false;
          }
        }
      }
      WalkedIsClosed(features, wanted, marks.names);
      return true;
    }

    method WalkFeature(i: nat, wanted: seq<string>, marks: Marks) returns (ok: bool)
      requires i < |features| && features[i].name in wanted
      requires WalkedSince(features, {}, marks.names)
      requires forall j :: 0 <= j < i && features[j].name in wanted ==> Walked(features[j], marks.names)
      modifies marks
      ensures old(marks.names) <= marks.names
      ensures forall n :: n in marks.names && n !in old(marks.names) ==> Reachable(features, wanted, n)
      ensures ok ==> Walked(features[i], marks.names) && WalkedSince(features, {}, marks.names)
      ensures !ok ==> exists n :: Reachable(features, wanted, n) && !Defined(features, n)
    {
      var f := features[i];
      WantedIsReachable(features, wanted, f.name);
      marks.names := marks.names + {f.name};
      forall x | x in f.needs
        ensures Reachable(features, wanted, x)
      {
        assert Edge(features, wanted, f.name, x);
        EdgeIsReachable(features, wanted, f.name, x);
      }
      ok := WalkRequired(f.needs, marks, wanted, NeededNames(features));
      FirstIsNotLater(features, i);
    }

    // Later features overwrite the entry of an earlier one with the same name.
    method FeatureNamesMap() returns (m: map<string, bool>)
      ensures m == NamesMap(features, SkipFlags(features))
    {
      m := map[];
      ghost var flags := SkipFlags(features);
      for i := 0 to |features|
        invariant m == NamesMap(features[..i], flags[..i])
      {
        assert features[..i + 1][..i] == features[..i] && flags[..i + 1][..i] == flags[..i];
        m := m[features[i].name := !features[i].skip];
      }
      assert features[..|features|] == features && flags[..|features|] == flags;
    }
  }

  ghost predicate EnabledBy(fs: seq<FeatureRule>, names: set<string>, f: FeatureRule)
    requires f in fs
  {
    f.name in names && f == fs[FirstIndex(fs, f.name)]
  }

  lemma FirstIsNotLater(fs: seq<FeatureRule>, i: nat)
    requires i < |fs|
    ensures FirstIndex(fs, fs[i].name) <= i
  {
  }

  ghost predicate AllReachableDefined(fs: seq<FeatureRule>, wanted: seq<string>) {
    forall n :: Reachable(fs, wanted, n) ==> Defined(fs, n)
  }

  function SkipFlags(fs: seq<FeatureRule>): (flags: seq<bool>)
    reads fs
    ensures |flags| == |fs| && forall i :: 0 <= i < |fs| ==> flags[i] == fs[i].skip
  {
    seq(|fs|, i requires 0 <= i < |fs| reads fs => fs[i].skip)
  }

  function NamesMap(fs: seq<FeatureRule>, flags: seq<bool>): map<string, bool>
    requires |fs| == |flags|
  {
    if fs == [] then map[]
    else NamesMap(fs[..|fs| - 1], flags[..|fs| - 1])[fs[|fs| - 1].name := !flags[|fs| - 1]]
  }

  // The flags that a successful selection leaves, as a function of its inputs.
  ghost function SelectedFlags(fs: seq<FeatureRule>, wanted: seq<string>): (flags: seq<bool>)
    ensures |flags| == |fs|
  {
    seq(|fs|, i requires 0 <= i < |fs| =>
      !("all" in wanted || (Reachable(fs, wanted, fs[i].name) && fs[i] == fs[FirstIndex(fs, fs[i].name)])))
  }

  // Index of the last feature called `name`, or -1 if there is none.
  function LastIndex(fs: seq<FeatureRule>, name: string): (i: int)
    ensures -1 <= i < |fs|
    ensures 0 <= i ==> fs[i].name == name
    ensures forall j :: i < j < |fs| ==> fs[j].name != name
  {
    if fs == [] then -1
    else if fs[|fs| - 1].name == name then |fs| - 1
    else LastIndex(fs[..|fs| - 1], name)
  }

  lemma {:induction false} NamesMapAt(fs: seq<FeatureRule>, flags: seq<bool>, name: string)
    requires |fs| == |flags|
    ensures var m := NamesMap(fs, flags);
      (name in m <==> 0 <= LastIndex(fs, name)) && (name in m ==> m[name] == !flags[LastIndex(fs, name)])
  {
    if fs != [] {
      NamesMapAt(fs[..|fs| - 1], flags[..|fs| - 1], name);
    }
  }

  // After a successful selection the map reports a defined name as enabled
  // exactly when the name is reachable and no later feature object hides the
  // one that the name resolves to.
  lemma NamesMapReportsSelection(fs: seq<FeatureRule>, wanted: seq<string>, name: string)
    requires "all" !in wanted && Defined(fs, name)
    ensures var m := NamesMap(fs, SelectedFlags(fs, wanted));
      name in m &&
      (m[name] <==> Reachable(fs, wanted, name) && fs[LastIndex(fs, name)] == fs[FirstIndex(fs, name)])
  {
    NamesMapAt(fs, SelectedFlags(fs, wanted), name);
  }

  // The case occurs: of two features of one name the first is enabled, and the map
  // reports the other.
  lemma SharedNameIsMisreported(f: FeatureRule, g: FeatureRule, name: string)
    requires f != g && f.name == g.name == name != "all" && f.needs == g.needs == []
    ensures var fs, wanted := [f, g], [name];
      && Reachable(fs, wanted, name) && AllReachableDefined(fs, wanted)
      && SelectedFlags(fs, wanted) == [false, true]
      && NamesMap(fs, SelectedFlags(fs, wanted)) == map[name := false]
  {
    var fs, wanted := [f, g], [name];
    WantedIsReachable(fs, wanted, name);
    ReachableIsLeastClosed(fs, wanted, {name});
    assert f in fs && fs[..1] == [f] && fs[..1][..0] == [];
    var flags := SelectedFlags(fs, wanted);
    assert flags == [false, true] && flags[..1] == [false];
    NamesMapAt(fs, flags, name);
    assert NamesMap(fs[..1], flags[..1]) == map[name := true];
  }

  ghost predicate DistinctNames(fs: seq<FeatureRule>) {
    forall i, j :: 0 <= i < j < |fs| ==> fs[i].name != fs[j].name
  }

  // With distinct names the enabled features are the closure, the map reports
  // it, and the extra edges of wanted names are none.
  lemma DistinctNamesSelection(fs: seq<FeatureRule>, wanted: seq<string>)
    requires "all" !in wanted && DistinctNames(fs)
    ensures forall i :: 0 <= i < |fs| ==> (!SelectedFlags(fs, wanted)[i] <==> Reachable(fs, wanted, fs[i].name))
  {
  }

  lemma DistinctNamesMap(fs: seq<FeatureRule>, wanted: seq<string>, name: string)
    requires "all" !in wanted && DistinctNames(fs) && AllReachableDefined(fs, wanted)
    ensures var m := NamesMap(fs, SelectedFlags(fs, wanted));
      Reachable(fs, wanted, name) <==> name in m && m[name]
  {
    NamesMapAt(fs, SelectedFlags(fs, wanted), name);
    if Defined(fs, name) {
      NamesMapReportsSelection(fs, wanted, name);
    }
  }

  lemma DistinctNamesEdges(fs: seq<FeatureRule>, wanted: seq<string>, a: string, b: string)
    requires DistinctNames(fs)
    ensures Edge(fs, wanted, a, b) <==> Requires(fs, a, b)
  {
    if f :| f in fs && f.name == a && b in f.needs {
      var i :| 0 <= i < |fs| && fs[i] == f;
      assert FirstIndex(fs, a) == i;
    }
  }

  ghost predicate ValidDocuments(docs: seq<DocumentRule>) {
    forall d :: d in docs ==> !(d.force && d.preserve)
  }

  ghost predicate ValidScopes(scopes: seq<ScopeRule>) {
    forall s :: s in scopes ==> ValidDocuments(s.documents)
  }

  ghost predicate ValidRules(fs: seq<FeatureRule>) {
    forall f :: f in fs ==> ValidScopes(f.scopes)
  }
}
