/** The text clean-up at the end of `fetch_news_article` (ingest.py 700-707):
    keep the lines whose stripped form is longer than ten characters, join
    them with newlines and cut the result to 5000 characters. */
module NewsText {
  import opened Text
  import opened Sorting

  const MinLineLength: nat := 10
  const MaxArticleLength: nat := 5000

  predicate IsContentLine(line: string) {
    |Strip(line)| > MinLineLength
  }

  /** `[line for line in text.split('\n') if len(line.strip()) > 10]`. */
  function KeptLines(text: string): seq<string> {
    Filter(SplitOn(text, '\n'), IsContentLine)
  }

  function Article(text: string): string {
    var joined := Join(KeptLines(text), "\n");
    if |joined| > MaxArticleLength then joined[..MaxArticleLength] else joined
  }

  /** The article is at most 5000 characters, and it is the joined kept lines
      themselves or, when those are longer, their first 5000 characters. */
  lemma ArticleBound(text: string)
    ensures |Article(text)| <= MaxArticleLength
    ensures var joined := Join(KeptLines(text), "\n");
      StartsWith(joined, Article(text))
      && (|joined| <= MaxArticleLength ==> Article(text) == joined)
  {
  }

  /** The kept lines are exactly the lines of the text that are long enough. */
  lemma KeptLinesMembership(text: string, line: string)
    ensures line in KeptLines(text) <==> line in SplitOn(text, '\n') && IsContentLine(line)
  {
  }

  /** When nothing is cut, splitting the article gives back the kept lines. */
  lemma ArticleLines(text: string)
    requires |Join(KeptLines(text), "\n")| <= MaxArticleLength
    requires KeptLines(text) != []
    ensures SplitOn(Article(text), '\n') == KeptLines(text)
  {
    SplitOnJoin(KeptLines(text), '\n');
  }

  /** Cleaning an empty article gives an empty article. */
  lemma EmptyArticle()
    ensures Article("") == ""
  {
    assert SplitOn("", '\n') == [""];
    FilterNone([""], IsContentLine);
  }

  /** When nothing is cut, cleaning the article again changes nothing. */
  lemma ArticleIdempotent(text: string)
    requires |Join(KeptLines(text), "\n")| <= MaxArticleLength
    ensures Article(Article(text)) == Article(text)
  {
    var kept := KeptLines(text);
    var a := Article(text);
    assert a == Join(kept, "\n");
    if kept == [] {
      EmptyArticle();
    } else {
      ArticleLines(text);
      FilterAll(kept, IsContentLine);
      assert KeptLines(a) == kept;
    }
  }

  /** A text whose lines are all short gives an empty article. */
  lemma NoContentLines(text: string)
    requires forall line :: line in SplitOn(text, '\n') ==> !IsContentLine(line)
    ensures Article(text) == ""
  {
    FilterNone(SplitOn(text, '\n'), IsContentLine);
  }
}
