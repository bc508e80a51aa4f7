/** Dotted names: the parts of Go's strings package that the model relies on. */
module Names {

  // strings.Split for a separator of one character: never empty.
  function Split(s: string, sep: char): (parts: seq<string>)
    ensures |parts| >= 1
    ensures forall p :: p in parts ==> sep !in p
  {
    if s == "" then [""]
    else
      var rest := Split(s[1..], sep);
      if s[0] == sep then [""] + rest else [[s[0]] + rest[0]] + rest[1..]
  }

  // strings.Join
  function Join(parts: seq<string>, sep: string): string {
    if parts == [] then ""
    else if |parts| == 1 then parts[0]
    else parts[0] + sep + Join(parts[1..], sep)
  }

  lemma {:induction false} SplitOfPlain(s: string, sep: char)
    requires sep !in s
    ensures Split(s, sep) == [s]
  {
    if s != "" {
      SplitOfPlain(s[1..], sep);
      assert s == [s[0]] + s[1..];
    }
  }

  // Splitting at a separator that is there splits both sides on their own.
  lemma {:induction false} SplitOfConcat(a: string, b: string, sep: char)
    ensures Split(a + [sep] + b, sep) == Split(a, sep) + Split(b, sep)
  {
    var whole := a + [sep] + b;
    if a == "" {
      assert whole[1..] == b;
    } else {
      assert whole[1..] == a[1..] + [sep] + b;
      SplitOfConcat(a[1..], b, sep);
    }
  }

  lemma {:induction false} JoinOfSplit(s: string, sep: char)
    ensures Join(Split(s, sep), [sep]) == s
  {
    if s != "" {
      var rest := Split(s[1..], sep);
      JoinOfSplit(s[1..], sep);
      if s[0] != sep {
        assert ([[s[0]] + rest[0]] + rest[1..])[1..] == rest[1..];
      } else {
        assert ([""] + rest)[1..] == rest;
      }
    }
  }

  // All but the last part, joined again, and the last part.
  function Qualifier(s: string): string {
    var parts := Split(s, '.');
    Join(parts[..|parts| - 1], ".")
  }

  function LastPart(s: string): string {
    var parts := Split(s, '.');
    parts[|parts| - 1]
  }

  // Any qualifier, dotted or not, comes back from a qualified name.
  lemma QualifiedName(qualifier: string, name: string)
    requires '.' !in name
    ensures |Split(qualifier + "." + name, '.')| >= 2
    ensures Qualifier(qualifier + "." + name) == qualifier
    ensures LastPart(qualifier + "." + name) == name
  {
    SplitOfConcat(qualifier, name, '.');
    SplitOfPlain(name, '.');
    JoinOfSplit(qualifier, '.');
    var parts := Split(qualifier + "." + name, '.');
    assert parts[..|parts| - 1] == Split(qualifier, '.');
  }

  lemma {:induction false} JoinOfLast(parts: seq<string>, sep: string)
    requires |parts| >= 2
    ensures Join(parts, sep) == Join(parts[..|parts| - 1], sep) + sep + parts[|parts| - 1]
  {
    if |parts| > 2 {
      JoinOfLast(parts[1..], sep);
      assert parts[1..][..|parts| - 2] == parts[..|parts| - 1][1..];
    }
  }

  lemma {:induction false} DottedSplits(s: string)
    requires '.' in s
    ensures |Split(s, '.')| >= 2
  {
    if s[0] != '.' {
      DottedSplits(s[1..]);
    }
  }

  // A name with a dot is its qualifier, a dot and its last part.
  lemma RequalifiedName(s: string)
    requires '.' in s
    ensures s == Qualifier(s) + "." + LastPart(s)
    ensures '.' !in LastPart(s)
  {
    DottedSplits(s);
    JoinOfSplit(s, '.');
    JoinOfLast(Split(s, '.'), ".");
  }

  // strconv.Itoa
  function Digits(n: nat): string {
    var d := ['0' + (n % 10) as char];
    if n < 10 then d else Digits(n / 10) + d
  }

  function Itoa(n: int): string {
    if n < 0 then "-" + Digits(-n) else Digits(n)
  }

  // What a string of decimal digits says.
  function ValueOf(s: string): int {
    if s == "" then 0 else ValueOf(s[..|s| - 1]) * 10 + (s[|s| - 1] as int - '0' as int)
  }

  predicate IsDigit(c: char) {
    '0' <= c <= '9'
  }

  lemma {:induction false} DigitsSayNumber(n: nat)
    ensures Digits(n) != "" && ValueOf(Digits(n)) == n && (n > 0 ==> Digits(n)[0] != '0')
    ensures forall i :: 0 <= i < |Digits(n)| ==> IsDigit(Digits(n)[i])
  {
    if n < 10 {
      assert Digits(n)[..0] == "";
    } else {
      var s := Digits(n);
      DigitsSayNumber(n / 10);
      assert s[..|s| - 1] == Digits(n / 10);
    }
  }

  // A number is written in decimal, without leading zeros, behind a sign if it is negative.
  lemma ItoaSaysNumber(n: int)
    ensures var s := Itoa(n);
      && s != "" && (s[0] == '-' <==> n < 0)
      && ValueOf(if n < 0 then s[1..] else s) == if n < 0 then -n else n
  {
    DigitsSayNumber(if n < 0 then -n else n);
    if n < 0 {
      assert Itoa(n)[1..] == Digits(-n);
    } else {
      assert IsDigit(Digits(n)[0]);
    }
  }

  // FQNSplit2: module and element of a dotted name.
  function FqnSplit2(fqn: string): (string, string) {
    if |Split(fqn, '.')| < 2 then ("", "") else (Qualifier(fqn), LastPart(fqn))
  }

  // FQNSplit3: module, element and member of a dotted name.
  function FqnSplit3(fqn: string): (string, string, string) {
    var parts := Split(fqn, '.');
    if |parts| < 3 then ("", "", "")
    else (Join(parts[..|parts| - 2], "."), parts[|parts| - 2], parts[|parts| - 1])
  }

  lemma FqnSplit2RoundTrip(m: string, e: string)
    requires '.' !in e
    ensures FqnSplit2(m + "." + e) == (m, e)
  {
    QualifiedName(m, e);
  }

  lemma FqnSplit3RoundTrip(m: string, e: string, n: string)
    requires '.' !in e && '.' !in n
    ensures FqnSplit3(m + "." + e + "." + n) == (m, e, n)
  {
    SplitOfConcat(m + "." + e, n, '.');
    SplitOfPlain(n, '.');
    SplitOfConcat(m, e, '.');
    SplitOfPlain(e, '.');
    JoinOfSplit(m, '.');
    var parts := Split(m + "." + e + "." + n, '.');
    assert parts == Split(m, '.') + [e] + [n];
    assert parts[..|parts| - 2] == Split(m, '.');
  }
}
