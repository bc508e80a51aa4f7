/** Prefixes of lists, and concatenating what each element of a list contributes. */
module Lists {

  lemma PrefixNext<T>(xs: seq<T>, i: nat)
    requires i < |xs|
    ensures xs[..i + 1] == xs[..i] + [xs[i]]
  {
  }

  function Flatten<T, U>(xs: seq<T>, f: T -> seq<U>): seq<U> {
    if xs == [] then [] else Flatten(xs[..|xs| - 1], f) + f(xs[|xs| - 1])
  }

  lemma {:induction false} FlattenSame<T, U>(xs: seq<T>, ys: seq<T>, f: T -> seq<U>)
    requires |xs| == |ys| && forall j :: 0 <= j < |xs| ==> f(xs[j]) == f(ys[j])
    ensures Flatten(xs, f) == Flatten(ys, f)
  {
    if xs != [] {
      FlattenSame(xs[..|xs| - 1], ys[..|ys| - 1], f);
    }
  }

  // One more element of a list that is being written behind `start`.
  lemma FlattenNext<T, U>(start: seq<U>, xs: seq<T>, j: nat, f: T -> seq<U>)
    requires j < |xs|
    ensures start + Flatten(xs[..j], f) + f(xs[j]) == start + Flatten(xs[..j + 1], f)
  {
    assert xs[..j + 1][..j] == xs[..j];
  }

  lemma FlattenPush<T, U>(xs: seq<T>, x: T, f: T -> seq<U>)
    ensures Flatten(xs + [x], f) == Flatten(xs, f) + f(x)
  {
    assert (xs + [x])[..|xs|] == xs;
  }

  lemma {:induction false} FlattenWhole<T, U>(xs: seq<T>, f: T -> seq<U>)
    ensures Flatten(xs[..|xs|], f) == Flatten(xs, f)
  {
    assert xs[..|xs|] == xs;
  }

  // Contributions of known lengths can be told apart in the whole.
  lemma {:induction false} FlattenInjective<T, U>(xs: seq<T>, ys: seq<T>, f: T -> seq<U>)
    requires |xs| == |ys| && forall j :: 0 <= j < |xs| ==> |f(xs[j])| == |f(ys[j])|
    requires Flatten(xs, f) == Flatten(ys, f)
    ensures forall j :: 0 <= j < |xs| ==> f(xs[j]) == f(ys[j])
  {
    if xs != [] {
      var a, b := Flatten(xs[..|xs| - 1], f), Flatten(ys[..|ys| - 1], f);
      var c, d := f(xs[|xs| - 1]), f(ys[|ys| - 1]);
      assert (a + c)[|a|..] == c && (b + d)[|b|..] == d && (a + c)[..|a|] == a && (b + d)[..|b|] == b;
      FlattenInjective(xs[..|xs| - 1], ys[..|ys| - 1], f);
      forall j | 0 <= j < |xs|
        ensures f(xs[j]) == f(ys[j])
      {
        if j < |xs| - 1 {
          assert xs[j] == xs[..|xs| - 1][j] && ys[j] == ys[..|ys| - 1][j];
        }
      }
    }
  }
}
