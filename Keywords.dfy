/** Rule-based keyword extraction (rag_chain.py:162-204): punctuation becomes
    a space, the query is split on whitespace, short tokens and stopwords are
    dropped, at most one grammatical suffix is stripped (longest first), the
    stripped base, the original token and the base's dictionary synonyms are
    emitted, and the emitted list is de-duplicated in first-occurrence order. */
module Keywords {
  import opened Wrappers
  import opened Text
  import opened Synonyms

  /** `stop_words` (rag_chain.py:165-174). */
  const StopWords: set<string> := {
    "은", "는", "이", "가", "을", "를", "의", "에", "에서", "으로", "로", "와", "과", "도", "만",
    "까지", "부터", "에게", "한테", "께", "있다", "없다", "하다", "되다", "이다", "아니다",
    "그", "저", "것", "수", "등", "및", "또는", "그리고", "무엇", "어떤", "어떻게", "왜", "언제",
    "어디", "좀", "더", "매우", "가장", "정말", "아주", "대해", "대한", "관한", "관해", "대하여",
    "관하여", "알려", "알려줘", "설명", "뭐", "뭔가", "인가", "인지"
  }

  /** `suffixes` in the order the source lists them (rag_chain.py:176). */
  const Suffixes: seq<string> := [
    "은", "는", "이", "가", "을", "를", "의", "에서", "에게", "으로", "에", "로", "와", "과",
    "도", "만", "요", "까"
  ]

  /** `sorted(suffixes, key=len, reverse=True)`: the three two-character
      suffixes first, each group in source order (Python's sort is stable). */
  const SuffixesLongestFirst: seq<string> := [
    "에서", "에게", "으로", "은", "는", "이", "가", "을", "를", "의", "에", "로", "와", "과",
    "도", "만", "요", "까"
  ]

  /** The character class of the regular expression of rag_chain.py:178,
      whose members are replaced by a space. */
  predicate IsPunctuation(c: char) {
    c == '?' || c == '!' || c == '.' || c == ',' || c == ';' || c == ':' || c == '\'' || c == '"'
    || c == '(' || c == ')' || c == '（' || c == '）' || c == '「' || c == '」' || c == '『' || c == '』'
    || c == '[' || c == ']' || c == '{' || c == '}'
  }

  /** The three fixed tables extract_keywords consults. */
  datatype Rules = Rules(stopWords: set<string>, suffixes: seq<string>, table: seq<Entry>)

  /** The tables as the source defines them, suffixes in the order they are tried. */
  const SourceRules: Rules := Rules(StopWords, SuffixesLongestFirst, KrEnMap)

  predicate SortedByLengthDesc(sufs: seq<string>) {
    forall i, j :: 0 <= i < j < |sufs| ==> |sufs[i]| >= |sufs[j]|
  }

  lemma LongestFirstLengths()
    ensures forall i :: 0 <= i < |SuffixesLongestFirst| ==> |SuffixesLongestFirst[i]| == if i < 3 then 2 else 1
  {
  }

  lemma SourceSuffixLengths()
    ensures forall i :: 0 <= i < |Suffixes| ==> |Suffixes[i]| == if 7 <= i < 10 then 2 else 1
  {
  }

  /** The order in which suffixes are tried is the stable longest-first sort
      of the source list: its two-character suffixes (positions 7 to 9), then
      the one-character ones, each group in source order. */
  lemma SuffixesSorted()
    ensures SortedByLengthDesc(SuffixesLongestFirst)
    ensures SuffixesLongestFirst == Suffixes[7..10] + Suffixes[..7] + Suffixes[10..]
    ensures forall i :: 0 <= i < |Suffixes| ==> |Suffixes[i]| == if 7 <= i < 10 then 2 else 1
  {
    LongestFirstLengths();
    SourceSuffixLengths();
  }

  // ---------------------------------------------------------------- tokenizing

  function CleanChar(c: char): char {
    if IsPunctuation(c) then ' ' else c
  }

  /** `re.sub(r'[...]', ' ', query)`. */
  function Clean(query: string): (r: string)
    ensures |r| == |query|
  {
    seq(|query|, i requires 0 <= i < |query| => CleanChar(query[i]))
  }

  /** `cleaned.split()`. */
  function Tokens(query: string): seq<string> {
    SplitWhitespace(Clean(query))
  }

  // ---------------------------------------------------------------- suffixes

  /** The guard of rag_chain.py:190: `suffix` ends `token` and leaves at least two characters. */
  predicate Strips(token: string, suffix: string) {
    |token| > |suffix| + 1 && EndsWith(token, suffix)
  }

  /** The inner loop of rag_chain.py:189-192: remove the first listed suffix that strips. */
  function StripSuffix(token: string, sufs: seq<string>): string
    decreases |sufs|
  {
    if sufs == [] then token
    else if Strips(token, sufs[0]) then token[..|token| - |sufs[0]|]
    else StripSuffix(token, sufs[1..])
  }

  /** The base form of a token (rag_chain.py:194). */
  function Base(token: string, sufs: seq<string>): string {
    var stripped := StripSuffix(token, sufs);
    if |stripped| >= 2 then stripped else token
  }

  /** Over a list sorted longest first, the suffix removed is one that
      strips and no strictly longer listed suffix would strip; when no
      suffix strips, the token is unchanged. */
  lemma {:induction false} StripSuffixLongest(token: string, sufs: seq<string>)
    requires SortedByLengthDesc(sufs)
    ensures var r := StripSuffix(token, sufs);
      ((forall s :: s in sufs ==> !Strips(token, s)) ==> r == token)
      && (r == token || exists s :: (s in sufs && Strips(token, s) && r + s == token
            && forall t :: t in sufs && |t| > |s| ==> !Strips(token, t)))
    decreases |sufs|
  {
    if sufs != [] {
      var s0 := sufs[0];
      if Strips(token, s0) {
        var r := token[..|token| - |s0|];
        assert r + s0 == token;
        assert forall t :: t in sufs ==> |t| <= |s0|;
      } else {
        var rest := sufs[1..];
        assert SortedByLengthDesc(rest);
        StripSuffixLongest(token, rest);
        var r := StripSuffix(token, rest);
        if r != token {
          var s :| s in rest && Strips(token, s) && r + s == token
            && forall t :: t in rest && |t| > |s| ==> !Strips(token, t);
          forall t | t in sufs && |t| > |s| ensures !Strips(token, t) {
            var k :| 0 <= k < |sufs| && sufs[k] == t;
            if k != 0 {
              assert t in rest;
            }
          }
        }
      }
    }
  }

  /** A base is never shorter than two characters, loses at most one
      listed suffix, and that suffix is the longest one that strips. */
  lemma BaseShape(token: string, sufs: seq<string>)
    requires |token| >= 2 && SortedByLengthDesc(sufs)
    ensures var b := Base(token, sufs);
      |b| >= 2
      && ((forall s :: s in sufs ==> !Strips(token, s)) ==> b == token)
      && (b == token || exists s :: (s in sufs && Strips(token, s) && b + s == token
            && forall t :: t in sufs && |t| > |s| ==> !Strips(token, t)))
  {
    StripSuffixLongest(token, sufs);
  }

  // ---------------------------------------------------------------- emission

  /** The dictionary words of rag_chain.py:200-202 that are at least two characters long. */
  function LongWords(ws: seq<string>): (r: seq<string>)
    ensures forall w :: w in r ==> |w| >= 2 && w in ws
    decreases |ws|
  {
    if ws == [] then []
    else
      var last := ws[|ws| - 1];
      LongWords(ws[..|ws| - 1]) + (if |last| >= 2 then [last] else [])
  }

  /** The synonyms emitted for a base that is a dictionary key. */
  function SynonymWords(base: string, table: seq<Entry>): seq<string> {
    match Lookup(table, base)
    case None => []
    case Some(en) => LongWords(SplitWhitespace(en))
  }

  /** A token is dropped when it is shorter than two characters or a stopword. */
  predicate Dropped(token: string, rules: Rules) {
    |token| < 2 || token in rules.stopWords
  }

  /** What a kept token emits (rag_chain.py:194-202). */
  function KeptTokenKeywords(token: string, rules: Rules): seq<string> {
    var base := Base(token, rules.suffixes);
    [base] + (if base != token then [token] else []) + SynonymWords(base, rules.table)
  }

  /** What one whitespace token appends to `keywords` (rag_chain.py:184-202). */
  function TokenKeywords(token0: string, rules: Rules): seq<string> {
    var token := Strip(token0);
    if Dropped(token, rules) then [] else KeptTokenKeywords(token, rules)
  }

  /** The whole `keywords` list before de-duplication. */
  function RawKeywords(tokens: seq<string>, rules: Rules): seq<string> {
    FlatMap(tokens, t => TokenKeywords(t, rules))
  }

  /** extract_keywords as a value: `list(dict.fromkeys(keywords))`. */
  function KeywordsWith(query: string, rules: Rules): seq<string> {
    Distinct(RawKeywords(Tokens(query), rules))
  }

  function KeywordsOf(query: string): seq<string> {
    KeywordsWith(query, SourceRules)
  }

  // ---------------------------------------------------------------- the loop

  /** extract_keywords, with the source's nested loops and early `break`. */
  method ExtractKeywords(query: string) returns (keywords: seq<string>)
    ensures keywords == KeywordsOf(query)
    ensures NoDuplicates(keywords)
    ensures forall w :: w in keywords ==> |w| >= 2
  {
    SuffixesSorted();
    keywords := ExtractKeywordsWith(query, SourceRules);
  }

  method ExtractKeywordsWith(query: string, rules: Rules) returns (keywords: seq<string>)
    requires SortedByLengthDesc(rules.suffixes)
    ensures keywords == KeywordsWith(query, rules)
    ensures NoDuplicates(keywords)
    ensures forall w :: w in keywords ==> |w| >= 2
  {
    var cleaned := Clean(query);
    var tokens := SplitWhitespace(cleaned);
    var raw: seq<string> := [];
    for i := 0 to |tokens|
      invariant raw == RawKeywords(tokens[..i], rules)
    {
      assert tokens[..i + 1][..i] == tokens[..i];
      var token := Strip(tokens[i]);
      if |token| < 2 || token in rules.stopWords {
        continue;
      }
      var emitted := EmitToken(token, rules);
      raw := raw + emitted;
    }
    assert tokens[..|tokens|] == tokens;
    keywords := Distinct(raw);
    KeywordsShape(query, rules);
  }

  /** The body of the token loop for a kept token: strip, emit base and
      token, then the dictionary words of the base. */
  method EmitToken(token: string, rules: Rules) returns (emitted: seq<string>)
    ensures emitted == KeptTokenKeywords(token, rules)
  {
    var stripped := StripOneSuffix(token, rules.suffixes);
    var base := if |stripped| >= 2 then stripped else token;
    assert base == Base(token, rules.suffixes);
    emitted := [base];
    if base != token {
      emitted := emitted + [token];
    }
    assert emitted == [base] + (if base != token then [token] else []);
    var found := Lookup(rules.table, base);
    if found.Some? {
      var words := LongWordsOf(SplitWhitespace(found.value));
      assert words == SynonymWords(base, rules.table);
      emitted := emitted + words;
    } else {
      assert SynonymWords(base, rules.table) == [];
    }
  }

  /** The loop over `KR_EN_MAP[base].split()` keeping words of two or more characters. */
  method LongWordsOf(words: seq<string>) returns (kept: seq<string>)
    ensures kept == LongWords(words)
  {
    kept := [];
    for w := 0 to |words|
      invariant kept == LongWords(words[..w])
    {
      assert words[..w + 1][..w] == words[..w];
      if |words[w]| >= 2 {
        kept := kept + [words[w]];
      }
    }
    assert words[..|words|] == words;
  }

  /** The suffix loop with its early `break` (rag_chain.py:188-192). */
  method StripOneSuffix(token: string, sufs: seq<string>) returns (stripped: string)
    ensures stripped == StripSuffix(token, sufs)
  {
    stripped := token;
    var j := 0;
    while j < |sufs|
      invariant 0 <= j <= |sufs|
      invariant stripped == token
      invariant StripSuffix(token, sufs[j..]) == StripSuffix(token, sufs)
    {
      var suffix := sufs[j];
      if |stripped| > |suffix| + 1 && EndsWith(stripped, suffix) {
        stripped := stripped[..|stripped| - |suffix|];
        break;
      }
      assert sufs[j..][1..] == sufs[j + 1..];
      j := j + 1;
    }
  }

  // ---------------------------------------------------------------- properties

  lemma {:induction false} RawKeywordsLong(tokens: seq<string>, rules: Rules)
    requires SortedByLengthDesc(rules.suffixes)
    ensures forall w :: w in RawKeywords(tokens, rules) ==> |w| >= 2
    decreases |tokens|
  {
    if tokens != [] {
      RawKeywordsLong(tokens[..|tokens| - 1], rules);
      var token := Strip(tokens[|tokens| - 1]);
      if !Dropped(token, rules) {
        BaseShape(token, rules.suffixes);
      }
    }
  }

  /** The result has no duplicates and every keyword has at least two characters. */
  lemma KeywordsShape(query: string, rules: Rules)
    requires SortedByLengthDesc(rules.suffixes)
    ensures NoDuplicates(KeywordsWith(query, rules))
    ensures forall w :: w in KeywordsWith(query, rules) ==> |w| >= 2
  {
    var raw := RawKeywords(Tokens(query), rules);
    DistinctNoDuplicates(raw);
    DistinctElements(raw);
    RawKeywordsLong(Tokens(query), rules);
  }

  /** A token that is too short or a stopword contributes nothing: deleting
      it from the token list leaves the emitted keywords unchanged. */
  lemma DroppedTokenIrrelevant(a: seq<string>, t: string, b: seq<string>, rules: Rules)
    requires Dropped(Strip(t), rules)
    ensures RawKeywords(a + [t] + b, rules) == RawKeywords(a + b, rules)
  {
    FlatMapSkip(a, t, b, t => TokenKeywords(t, rules));
  }

  /** A word is a keyword of the query exactly when some whitespace token of
      the cleaned query emits it. */
  lemma KeywordsMembership(query: string, rules: Rules, x: string)
    ensures x in KeywordsWith(query, rules) <==>
      exists t :: t in Tokens(query) && x in TokenKeywords(t, rules)
  {
    DistinctElements(RawKeywords(Tokens(query), rules));
    FlatMapMembership(Tokens(query), t => TokenKeywords(t, rules), x);
  }

  /** What a kept token emits: its base first, then the token itself when
      a suffix was stripped, then the base's long dictionary synonyms. */
  lemma TokenEmission(token: string, rules: Rules, x: string)
    requires NoSpace(token) && !Dropped(token, rules)
    ensures var e := TokenKeywords(token, rules);
      var b := Base(token, rules.suffixes);
      |e| >= 1 && e[0] == b
      && (b != token ==> |e| >= 2 && e[1] == token)
      && (x in e <==> (x == b || x == token
            || (HasKey(rules.table, b) && |x| >= 2 && x in SplitWhitespace(Lookup(rules.table, b).value))))
  {
    StripNoSpace(token);
    var b := Base(token, rules.suffixes);
    if HasKey(rules.table, b) {
      var ws := SplitWhitespace(Lookup(rules.table, b).value);
      LongWordsMembership(ws, x);
    }
  }

  lemma {:induction false} LongWordsMembership(ws: seq<string>, x: string)
    ensures x in LongWords(ws) <==> x in ws && |x| >= 2
    decreases |ws|
  {
    if ws != [] {
      LongWordsMembership(ws[..|ws| - 1], x);
      assert ws == ws[..|ws| - 1] + [ws[|ws| - 1]];
    }
  }
}
