/**
  Reserved keywords: the index from keyword to languages, against the scan of the
  lists (pkg/spec/rkw/reserved.go). Words are lower-cased by `lower` before they
  are looked for.
  */
module Keywords {
  import opened Wrappers

  type Lang = string

  // How often the index lists a language under a word.
  function Listed(index: map<string, seq<Lang>>, word: string, lang: Lang): nat {
    if word in index then multiset(index[word])[lang] else 0
  }

  // How often a language has a word.
  function Occurrences(perLang: map<Lang, seq<string>>, word: string, lang: Lang): nat {
    if lang in perLang then multiset(perLang[lang])[word] else 0
  }

  // The inverted index holds what the lists hold, with all repetitions, and has no
  // empty entry.
  ghost predicate Inverts(index: map<string, seq<Lang>>, perLang: map<Lang, seq<string>>) {
    && (forall word, lang :: Listed(index, word, lang) == Occurrences(perLang, word, lang))
    && (forall word :: word in index ==> index[word] != [])
  }

  // Every word of one language gets that language once more for each time it occurs.
  ghost predicate Extended(before: map<string, seq<Lang>>, index: map<string, seq<Lang>>, lang: Lang,
        words: seq<string>) {
    && (forall word, l :: Listed(index, word, l) ==
                          Listed(before, word, l) + if l == lang then multiset(words)[word] else 0)
    && (forall word :: word in index ==> index[word] != [])
  }

  lemma ExtendedNext(before: map<string, seq<Lang>>, index: map<string, seq<Lang>>, lang: Lang, words: seq<string>,
        next: string)
    requires Extended(before, index, lang, words)
    ensures var langs := if next in index then index[next] else [];
      Extended(before, index[next := langs + [lang]], lang, words + [next])
  {
    var langs := if next in index then index[next] else [];
    var more := index[next := langs + [lang]];
    forall word, l
      ensures Listed(more, word, l) ==
              Listed(before, word, l) + if l == lang then multiset(words + [next])[word] else 0
    {
      assert Listed(more, word, l) == Listed(index, word, l) + if word == next && l == lang then 1 else 0;
    }
  }

  lemma InvertsNext(before: map<string, seq<Lang>>, index: map<string, seq<Lang>>, perLang: map<Lang, seq<string>>,
        rest: set<Lang>, lang: Lang)
    requires lang in rest && lang in perLang && Inverts(before, perLang - rest)
    requires Extended(before, index, lang, perLang[lang])
    ensures Inverts(index, perLang - (rest - {lang}))
  {
    forall word, l
      ensures Listed(index, word, l) == Occurrences(perLang - (rest - {lang}), word, l)
    {
      assert Listed(before, word, l) == Occurrences(perLang - rest, word, l);
    }
  }

  // The languages come in any order.
  method MakeReservedKeywords(perLang: map<Lang, seq<string>>) returns (index: map<string, seq<Lang>>)
    ensures Inverts(index, perLang)
  {
    index := map[];
    var rest := perLang.Keys;
    while rest != {}
      invariant rest <= perLang.Keys
      invariant Inverts(index, perLang - rest)
    {
      var lang :| lang in rest;
      var keywords := perLang[lang];
      ghost var before := index;
      for i := 0 to |keywords|
        invariant Extended(before, index, lang, keywords[..i])
      {
        ExtendedNext(before, index, lang, keywords[..i], keywords[i]);
        assert keywords[..i + 1] == keywords[..i] + [keywords[i]];
        var langs := if keywords[i] in index then index[keywords[i]] else [];
        index := index[keywords[i] := langs + [lang]];
      }
      assert keywords[..|keywords|] == keywords;
      InvertsNext(before, index, perLang, rest, lang);
      rest := rest - {lang};
    }
    assert perLang - rest == perLang;
  }

  class ReservedKeywords {
    const lower: string -> string
    const perLang: map<Lang, seq<string>>
    const index: map<string, seq<Lang>>

    constructor (lower: string -> string, perLang: map<Lang, seq<string>>)
      ensures this.lower == lower && this.perLang == perLang && Inverts(index, perLang)
    {
      var inverted := MakeReservedKeywords(perLang);
      this.lower, this.perLang, this.index := lower, perLang, inverted;
    }

    // The word is a keyword of the language, whatever its case.
    ghost predicate Reserved(lang: Lang, word: string) {
      lang in perLang && lower(word) in perLang[lang]
    }

    ghost predicate First(langs: seq<Lang>, word: string, i: int) {
      0 <= i < |langs| && Reserved(langs[i], word) && forall j :: 0 <= j < i ==> !Reserved(langs[j], word)
    }

    method IsKeywordReservedInLang(lang: Lang, word: string) returns (r: bool)
      ensures r <==> Reserved(lang, word)
    {
      var w := lower(word);
      if lang !in perLang {
        return false;
      }
      for i := 0 to |perLang[lang]|
        invariant w !in perLang[lang][..i]
      {
        if perLang[lang][i] == w {
          return true;
        }
      }
      return false;
    }

    // The first of the languages in which the word is reserved. It is lower-cased
    // here and again in every scan.
    method IsKeywordInLangs(langs: seq<Lang>, word: string) returns (r: Option<Lang>)
      ensures r.None? <==> forall i :: 0 <= i < |langs| ==> !Reserved(langs[i], lower(word))
      ensures r.Some? ==> exists i :: First(langs, lower(word), i) && langs[i] == r.value
    {
      for i := 0 to |langs|
        invariant forall j :: 0 <= j < i ==> !Reserved(langs[j], lower(word))
      {
        var found := IsKeywordReservedInLang(langs[i], lower(word));
        if found {
          assert First(langs, lower(word), i);
          return Some(langs[i]);
        }
      }
      return None;
    }

    // The index and the scan agree on every word and language.
    method IsKeywordReserved(word: string) returns (langs: seq<Lang>, ok: bool)
      requires Inverts(index, perLang)
      ensures forall lang :: lang in langs <==> Reserved(lang, word)
      ensures ok <==> exists lang :: Reserved(lang, word)
    {
      var w := lower(word);
      IndexAgrees(index, perLang, w);
      if w !in index {
        return [], false;
      }
      assert index[w][0] in index[w];
      return index[w], true;
    }
  }

  lemma IndexAgrees(index: map<string, seq<Lang>>, perLang: map<Lang, seq<string>>, word: string)
    requires Inverts(index, perLang)
    ensures forall lang :: word in index && lang in index[word] <==> lang in perLang && word in perLang[lang]
  {
    forall lang: Lang
      ensures word in index && lang in index[word] <==> lang in perLang && word in perLang[lang]
    {
      assert Listed(index, word, lang) == Occurrences(perLang, word, lang);
    }
  }

  // Iterating over the languages in another order permutes the answers at most.
  lemma OrderDoesNotMatter(a: map<string, seq<Lang>>, b: map<string, seq<Lang>>, perLang: map<Lang, seq<string>>)
    requires Inverts(a, perLang) && Inverts(b, perLang)
    ensures a.Keys == b.Keys && forall word :: word in a ==> multiset(a[word]) == multiset(b[word])
  {
    forall word
      ensures word in a <==> word in b
      ensures word in a ==> multiset(a[word]) == multiset(b[word])
    {
      SamePermutation(a, b, perLang, word);
    }
  }

  lemma SamePermutation(a: map<string, seq<Lang>>, b: map<string, seq<Lang>>, perLang: map<Lang, seq<string>>,
        word: string)
    requires Inverts(a, perLang) && Inverts(b, perLang)
    ensures word in a <==> word in b
    ensures word in a ==> multiset(a[word]) == multiset(b[word])
  {
    forall lang: Lang
      ensures Listed(a, word, lang) == Listed(b, word, lang)
    {
      assert Listed(a, word, lang) == Occurrences(perLang, word, lang);
    }
    if word in a {
      assert Listed(a, word, a[word][0]) > 0;
    }
    if word in b {
      assert Listed(b, word, b[word][0]) > 0;
    }
    if word in a && word in b {
      forall lang
        ensures multiset(a[word])[lang] == multiset(b[word])[lang]
      {
        assert Listed(a, word, lang) == Listed(b, word, lang);
      }
    }
  }
}
