/** A worked instance of `extract_keywords` (rag_chain.py:162-204) on the
    query "태재대학교 비전이 뭐야?": the source's suffix list, and a dictionary
    with its entries for 태재대학교 and 비전 (rag_chain.py:103, 105), no entry
    for 뭐야, and none of the three tokens a stopword, give exactly nine
    keywords in a fixed order. */
module KeywordExample {
  import opened Wrappers
  import opened Text
  import opened Synonyms
  import opened Keywords

  lemma {:induction false} StripSuffixAt(token: string, sufs: seq<string>, i: nat)
    requires i < |sufs| && Strips(token, sufs[i])
    requires forall j :: 0 <= j < i ==> !Strips(token, sufs[j])
    ensures StripSuffix(token, sufs) == token[..|token| - |sufs[i]|]
    decreases i
  {
    if i > 0 {
      assert sufs[1..][i - 1] == sufs[i];
      assert forall j :: 0 <= j < i - 1 ==> sufs[1..][j] == sufs[j + 1];
      StripSuffixAt(token, sufs[1..], i - 1);
    }
  }

  lemma {:induction false} StripSuffixNone(token: string, sufs: seq<string>)
    requires forall j :: 0 <= j < |sufs| ==> !Strips(token, sufs[j])
    ensures StripSuffix(token, sufs) == token
    decreases |sufs|
  {
    if sufs != [] {
      assert forall j :: 0 <= j < |sufs| - 1 ==> sufs[1..][j] == sufs[j + 1];
      StripSuffixNone(token, sufs[1..]);
    }
  }

  const Query: string := "태재대학교 비전이 뭐야?"

  lemma Cleaned()
    ensures Clean(Query) == "태재대학교 비전이 뭐야 "
  {
    var c := "태재대학교 비전이 뭐야 ";
    assert |Clean(Query)| == |c|;
    forall i | 0 <= i < |c| ensures Clean(Query)[i] == c[i] {
      assert Clean(Query)[i] == CleanChar(Query[i]);
    }
  }

  lemma HangulNoSpace(w: string)
    requires forall i :: 0 <= i < |w| ==> '\U{AC00}' <= w[i] <= '\U{D7A3}'
    ensures NoSpace(w)
  {
  }

  lemma Words()
    ensures NoSpace("태재대학교") && NoSpace("비전이") && NoSpace("뭐야")
  {
    HangulNoSpace("태재대학교");
    HangulNoSpace("비전이");
    HangulNoSpace("뭐야");
  }

  lemma SplitTail()
    ensures SplitWhitespace(" 뭐야 ") == ["뭐야"]
  {
    Words();
    assert " 뭐야 "[1..] == "뭐야" + " ";
    SplitFirstWord("뭐야", " ");
    assert " "[1..] == [];
  }

  lemma SplitMiddle()
    ensures SplitWhitespace(" 비전이 뭐야 ") == ["비전이", "뭐야"]
  {
    Words();
    assert " 비전이 뭐야 "[1..] == "비전이" + " 뭐야 ";
    SplitFirstWord("비전이", " 뭐야 ");
    SplitTail();
  }

  lemma ExampleTokens()
    ensures Tokens(Query) == ["태재대학교", "비전이", "뭐야"]
  {
    Cleaned();
    Words();
    assert "태재대학교 비전이 뭐야 " == "태재대학교" + " 비전이 뭐야 ";
    SplitFirstWord("태재대학교", " 비전이 뭐야 ");
    SplitMiddle();
  }

  /** A whitespace-free token is its own stripped form. */
  lemma TokenStripped(t: string)
    requires t == "태재대학교" || t == "비전이" || t == "뭐야"
    ensures Strip(t) == t
  {
    Words();
    StripNoSpace(t);
  }

  lemma FirstTokenBase(t: string)
    requires t == "태재대학교"
    ensures Base(t, SuffixesLongestFirst) == t
  {
    forall j | 0 <= j < |SuffixesLongestFirst| ensures !Strips(t, SuffixesLongestFirst[j]) {
    }
    StripSuffixNone(t, SuffixesLongestFirst);
  }

  lemma SecondTokenBase(t: string)
    requires t == "비전이"
    ensures Base(t, SuffixesLongestFirst) == "비전" != t
  {
    forall j | 0 <= j < 5 ensures !Strips(t, SuffixesLongestFirst[j]) {
    }
    assert EndsWith(t, SuffixesLongestFirst[5]);
    StripSuffixAt(t, SuffixesLongestFirst, 5);
  }

  lemma ThirdTokenBase(t: string)
    requires t == "뭐야"
    ensures Base(t, SuffixesLongestFirst) == t
  {
    // Every suffix has at least one character, so none leaves two behind.
    LongestFirstLengths();
    StripSuffixNone(t, SuffixesLongestFirst);
  }

  lemma {:induction false} LongWordsAll(ws: seq<string>)
    requires forall i :: 0 <= i < |ws| ==> |ws[i]| >= 2
    ensures LongWords(ws) == ws
    decreases |ws|
  {
    if ws != [] {
      var init, last := ws[..|ws| - 1], ws[|ws| - 1];
      assert forall i :: 0 <= i < |init| ==> |init[i]| >= 2;
      LongWordsAll(init);
      assert LongWords(ws) == LongWords(init) + [last];
      InitLast(ws);
    }
  }

  lemma EntryWords(words: seq<string>)
    requires forall w :: w in words ==> |w| >= 2 && NoSpace(w)
    ensures LongWords(SplitWhitespace(Join(words, " "))) == words
  {
    SplitJoinWords(words);
    forall i | 0 <= i < |words| ensures |words[i]| >= 2 {
      assert words[i] in words;
    }
    LongWordsAll(words);
  }

  lemma PrintableNoSpace(w: string)
    requires forall i :: 0 <= i < |w| ==> '!' <= w[i] <= '~'
    ensures NoSpace(w)
  {
  }

  lemma JoinTwo(a: string, b: string)
    ensures Join([a, b], " ") == a + " " + b
  {
    assert [a, b][1..] == [b];
  }

  lemma JoinThree(a: string, b: string, c: string)
    ensures Join([a, b, c], " ") == a + " " + b + " " + c
  {
    assert [a, b, c][1..] == [b, c];
    JoinTwo(b, c);
  }

  lemma FirstEntryWords(en: string)
    requires en == "Taejae TAEJAE taejae.ac.kr"
    ensures LongWords(SplitWhitespace(en)) == ["Taejae", "TAEJAE", "taejae.ac.kr"]
  {
    assert en == "Taejae" + " " + "TAEJAE" + " " + "taejae.ac.kr";
    PrintableNoSpace("Taejae");
    PrintableNoSpace("TAEJAE");
    PrintableNoSpace("taejae.ac.kr");
    JoinThree("Taejae", "TAEJAE", "taejae.ac.kr");
    EntryWords(["Taejae", "TAEJAE", "taejae.ac.kr"]);
  }

  lemma SecondEntryWords(en: string)
    requires en == "vision visions"
    ensures LongWords(SplitWhitespace(en)) == ["vision", "visions"]
  {
    assert en == "vision" + " " + "visions";
    PrintableNoSpace("vision");
    PrintableNoSpace("visions");
    JoinTwo("vision", "visions");
    EntryWords(["vision", "visions"]);
  }

  /** The dictionary facts the example relies on. */
  predicate ExampleDictionary(rules: Rules) {
    && rules.suffixes == SuffixesLongestFirst
    && "태재대학교" !in rules.stopWords && "비전이" !in rules.stopWords && "뭐야" !in rules.stopWords
    && Lookup(rules.table, "태재대학교") == Some("Taejae TAEJAE taejae.ac.kr")
    && Lookup(rules.table, "비전") == Some("vision visions")
    && Lookup(rules.table, "뭐야") == None
  }

  /** What a kept token emits when no suffix comes off. */
  lemma EmitsWhole(t: string, rules: Rules, words: seq<string>)
    requires Strip(t) == t && !Dropped(t, rules)
    requires Base(t, rules.suffixes) == t && SynonymWords(t, rules.table) == words
    ensures TokenKeywords(t, rules) == [t] + words
  {
  }

  /** What a kept token emits when a suffix comes off. */
  lemma EmitsStripped(t: string, rules: Rules, b: string, words: seq<string>)
    requires Strip(t) == t && !Dropped(t, rules)
    requires Base(t, rules.suffixes) == b && b != t && SynonymWords(b, rules.table) == words
    ensures TokenKeywords(t, rules) == [b, t] + words
  {
  }

  lemma FirstSynonyms(rules: Rules, t: string)
    requires ExampleDictionary(rules) && t == "태재대학교"
    ensures !Dropped(t, rules) && Base(t, rules.suffixes) == t
    ensures SynonymWords(t, rules.table) == ["Taejae", "TAEJAE", "taejae.ac.kr"]
  {
    FirstTokenBase(t);
    FirstEntryWords(Lookup(rules.table, t).value);
  }

  lemma SecondSynonyms(rules: Rules, t: string)
    requires ExampleDictionary(rules) && t == "비전이"
    ensures !Dropped(t, rules) && Base(t, rules.suffixes) == "비전"
    ensures SynonymWords("비전", rules.table) == ["vision", "visions"]
  {
    SecondTokenBase(t);
    SecondEntryWords(Lookup(rules.table, "비전").value);
  }

  lemma ThirdSynonyms(rules: Rules, t: string)
    requires ExampleDictionary(rules) && t == "뭐야"
    ensures !Dropped(t, rules) && Base(t, rules.suffixes) == t
    ensures SynonymWords(t, rules.table) == []
  {
    ThirdTokenBase(t);
  }

  lemma FirstDisplay(t: string)
    ensures [t] + ["Taejae", "TAEJAE", "taejae.ac.kr"] == [t, "Taejae", "TAEJAE", "taejae.ac.kr"]
  {
  }

  lemma SecondDisplay(t: string)
    ensures ["비전", t] + ["vision", "visions"] == ["비전", t, "vision", "visions"]
  {
  }

  lemma FirstTokenKeywords(rules: Rules, t: string)
    requires ExampleDictionary(rules) && t == "태재대학교"
    ensures TokenKeywords(t, rules) == [t, "Taejae", "TAEJAE", "taejae.ac.kr"]
  {
    TokenStripped(t);
    FirstSynonyms(rules, t);
    var w := ["Taejae", "TAEJAE", "taejae.ac.kr"];
    EmitsWhole(t, rules, w);
    FirstDisplay(t);
  }

  lemma SecondTokenKeywords(rules: Rules, t: string)
    requires ExampleDictionary(rules) && t == "비전이"
    ensures TokenKeywords(t, rules) == ["비전", t, "vision", "visions"]
  {
    TokenStripped(t);
    SecondSynonyms(rules, t);
    var w := ["vision", "visions"];
    EmitsStripped(t, rules, "비전", w);
    SecondDisplay(t);
  }

  lemma ThirdTokenKeywords(rules: Rules, t: string)
    requires ExampleDictionary(rules) && t == "뭐야"
    ensures TokenKeywords(t, rules) == [t]
  {
    TokenStripped(t);
    ThirdSynonyms(rules, t);
    EmitsWhole(t, rules, []);
  }

  lemma FlatMapThree<A, B>(a: A, b: A, c: A, f: A -> seq<B>)
    ensures FlatMap([a, b, c], f) == f(a) + f(b) + f(c)
  {
    assert [a, b, c][..2] == [a, b];
    assert [a, b][..1] == [a];
    assert [a][..0] == [];
    assert FlatMap([a], f) == f(a);
    assert FlatMap([a, b], f) == f(a) + f(b);
  }

  const ExpectedKeywords: seq<string> :=
    ["태재대학교", "Taejae", "TAEJAE", "taejae.ac.kr", "비전", "비전이", "vision", "visions", "뭐야"]

  lemma DiffAt(a: string, b: string, i: nat)
    requires i < |a| && i < |b| && a[i] != b[i]
    ensures a != b
  {
  }

  lemma ExpectedDistinct()
    ensures NoDuplicates(ExpectedKeywords)
  {
    DiffAt("Taejae", "TAEJAE", 1);
    DiffAt("Taejae", "vision", 0);
    DiffAt("TAEJAE", "vision", 0);
    DiffAt("비전", "뭐야", 0);
  }

  lemma RawExample(rules: Rules, ts: seq<string>)
    requires ExampleDictionary(rules) && ts == ["태재대학교", "비전이", "뭐야"]
    ensures RawKeywords(ts, rules) == ExpectedKeywords
  {
    FlatMapThree(ts[0], ts[1], ts[2], t => TokenKeywords(t, rules));
    FirstTokenKeywords(rules, ts[0]);
    SecondTokenKeywords(rules, ts[1]);
    ThirdTokenKeywords(rules, ts[2]);
    NineDisplay(ts[0], ts[1], ts[2]);
  }

  lemma NineDisplay(a: string, b: string, c: string)
    requires a == "태재대학교" && b == "비전이" && c == "뭐야"
    ensures [a, "Taejae", "TAEJAE", "taejae.ac.kr"] + ["비전", b, "vision", "visions"] + [c] == ExpectedKeywords
  {
  }

  /** The example query of the source: for the source's stopwords and
      suffixes and a dictionary holding its entries for 태재대학교 and 비전
      and none for 뭐야, the keywords are exactly these nine, in this order. */
  lemma ExampleKeywords(rules: Rules)
    requires ExampleDictionary(rules)
    ensures KeywordsWith(Query, rules) == ExpectedKeywords
  {
    ExampleTokens();
    RawExample(rules, Tokens(Query));
    ExpectedDistinct();
    DistinctOfNoDuplicates(ExpectedKeywords);
  }
}
