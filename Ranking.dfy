/** The ranking of `search_similar_documents` (rag_chain.py:207-291). The SQL
    is modelled on an abstract table of rows carrying their base similarity
    `1 - (embedding <=> query)`. With keywords, a semantic pool (top 50 by
    similarity) and a keyword pool (matching rows, top 50 by number of
    matched keywords) are united, de-duplicated by content keeping the
    highest similarity, boosted, sorted and cut to `k`; without keywords it is
    a plain vector top-`k`. Tie order is left open, as in the SQL. */
module Ranking {
  import opened Wrappers
  import opened Text
  import opened Sorting
  import opened Documents

  /** A row of the search: `content`, `metadata` and `base_similarity`. */
  datatype Row = Row(content: string, metadata: Metadata, sim: real)

  /** Both pools are capped by `LIMIT 50`. */
  const PoolLimit: nat := 50

  /** `metadata->>'field' ILIKE '%kw%'`; a missing field is NULL and never matches. */
  predicate FieldMatches(m: Metadata, field: string, kw: string) {
    field in m && ContainsIgnoreCase(m[field], kw)
  }

  /** `content_or_meta(kw)` (rag_chain.py:221). */
  predicate Matches(r: Row, kw: string) {
    ContainsIgnoreCase(r.content, kw) || FieldMatches(r.metadata, "filename", kw) || FieldMatches(r.metadata, "source", kw)
  }

  /** The keyword condition: the row matches some keyword. */
  predicate MatchesAny(r: Row, kws: seq<string>) {
    exists i :: 0 <= i < |kws| && Matches(r, kws[i])
  }

  /** The full-match condition: the row matches every keyword. */
  predicate MatchesAll(r: Row, kws: seq<string>) {
    forall i :: 0 <= i < |kws| ==> Matches(r, kws[i])
  }

  /** `keyword_count_expr`: one for every keyword the row matches. */
  function MatchCount(r: Row, kws: seq<string>): (n: nat)
    ensures n <= |kws|
  {
    if kws == [] then 0
    else MatchCount(r, kws[..|kws| - 1]) + (if Matches(r, kws[|kws| - 1]) then 1 else 0)
  }

  /** `boost_expr`: 0.03 per matched keyword and 0.3 when all match. */
  function Boost(r: Row, kws: seq<string>): real {
    0.03 * MatchCount(r, kws) as real + (if MatchesAll(r, kws) then 0.3 else 0.0)
  }

  /** `final_similarity`. */
  function Score(r: Row, kws: seq<string>): real {
    r.sim + Boost(r, kws)
  }

  function SimKey(): Row -> real {
    (r: Row) => r.sim
  }

  function CountKey(kws: seq<string>): Row -> real {
    (r: Row) => MatchCount(r, kws) as real
  }

  function ScoreKey(kws: seq<string>): Row -> real {
    (r: Row) => Score(r, kws)
  }

  function MatchesAnyOf(kws: seq<string>): Row -> bool {
    (r: Row) => MatchesAny(r, kws)
  }

  /** The count of matched keywords is positive exactly when the keyword
      condition holds, and equals the number of keywords exactly when the
      full-match condition holds. */
  lemma {:induction false} MatchCountMeaning(r: Row, kws: seq<string>)
    ensures MatchCount(r, kws) > 0 <==> MatchesAny(r, kws)
    ensures MatchCount(r, kws) == |kws| <==> MatchesAll(r, kws)
    decreases |kws|
  {
    if kws != [] {
      var init := kws[..|kws| - 1];
      MatchCountMeaning(r, init);
      assert forall i :: 0 <= i < |init| ==> init[i] == kws[i];
      if MatchesAny(r, kws) && !Matches(r, kws[|kws| - 1]) {
        var i :| 0 <= i < |kws| && Matches(r, kws[i]);
        assert i < |init|;
      }
    }
  }

  /** Exact additive scoring: a row matching all `n >= 2` keywords beats a
      row of equal base similarity matching exactly one of them by
      0.3 + 0.03 * (n - 1). */
  lemma FullMatchAdvantage(full: Row, one: Row, kws: seq<string>)
    requires |kws| >= 2 && full.sim == one.sim
    requires MatchesAll(full, kws) && MatchCount(one, kws) == 1
    ensures Score(full, kws) - Score(one, kws) == 0.3 + 0.03 * (|kws| - 1) as real
  {
    MatchCountMeaning(full, kws);
    MatchCountMeaning(one, kws);
  }

  // ---- DISTINCT ON (content) ... ORDER BY content, base_similarity DESC ----

  ghost predicate DistinctContents(c: seq<Row>) {
    forall i, j :: 0 <= i < j < |c| ==> c[i].content != c[j].content
  }

  /** Every row of `u` has a row of `c` with the same content and at least
      its similarity. */
  ghost predicate Dominates(c: seq<Row>, u: seq<Row>) {
    forall y :: y in u ==> exists z :: z in c && z.content == y.content && z.sim >= y.sim
  }

  /** A valid result of `SELECT DISTINCT ON (content) ... ORDER BY content,
      base_similarity DESC` over `u`: rows of `u`, one per content, each of
      maximal similarity among the rows of `u` with its content. Which of two
      rows of equal content and similarity survives is left open. */
  ghost predicate IsDistinctOnContent(c: seq<Row>, u: seq<Row>) {
    multiset(c) <= multiset(u) && DistinctContents(c) && Dominates(c, u)
  }

  /** Folds one row into a content-distinct list, keeping the higher similarity. */
  function MergeMax(x: Row, c: seq<Row>): seq<Row> {
    if c == [] then [x]
    else if c[0].content == x.content then (if x.sim > c[0].sim then [x] else [c[0]]) + c[1..]
    else [c[0]] + MergeMax(x, c[1..])
  }

  /** The concrete `DISTINCT ON` used by the model. */
  function DedupeMax(u: seq<Row>): seq<Row> {
    if u == [] then [] else MergeMax(u[0], DedupeMax(u[1..]))
  }

  lemma {:induction false} MergeMaxRows(x: Row, c: seq<Row>)
    ensures multiset(MergeMax(x, c)) <= multiset(c) + multiset{x}
    ensures forall z :: z in MergeMax(x, c) ==> z == x || z in c
  {
    assert c != [] ==> c == [c[0]] + c[1..];
    if c != [] && c[0].content != x.content {
      MergeMaxRows(x, c[1..]);
    }
    var m := MergeMax(x, c);
    forall z | z in m ensures z == x || z in c {
      assert z in multiset(m);
    }
  }

  lemma DistinctContentsTail(c: seq<Row>)
    requires c != [] && DistinctContents(c)
    ensures DistinctContents(c[1..])
    ensures forall z :: z in c[1..] ==> z.content != c[0].content
  {
    forall i, j | 0 <= i < j < |c[1..]| ensures c[1..][i].content != c[1..][j].content {
      assert c[1..][i] == c[i + 1] && c[1..][j] == c[j + 1];
    }
    forall z | z in c[1..] ensures z.content != c[0].content {
      var k :| 0 <= k < |c[1..]| && c[1..][k] == z;
      assert c[k + 1] == z;
    }
  }

  lemma DistinctContentsCons(h: Row, rest: seq<Row>)
    requires DistinctContents(rest)
    requires forall z :: z in rest ==> z.content != h.content
    ensures DistinctContents([h] + rest)
  {
    var m := [h] + rest;
    forall i, j | 0 <= i < j < |m| ensures m[i].content != m[j].content {
      assert m[j] == rest[j - 1];
      if i > 0 {
        assert m[i] == rest[i - 1];
      } else {
        assert rest[j - 1] in rest;
      }
    }
  }

  lemma {:induction false} MergeMaxDistinct(x: Row, c: seq<Row>)
    requires DistinctContents(c)
    ensures DistinctContents(MergeMax(x, c))
  {
    if c != [] {
      DistinctContentsTail(c);
      if c[0].content == x.content {
        DistinctContentsCons(if x.sim > c[0].sim then x else c[0], c[1..]);
      } else {
        MergeMaxDistinct(x, c[1..]);
        MergeMaxRows(x, c[1..]);
        DistinctContentsCons(c[0], MergeMax(x, c[1..]));
      }
    }
  }

  lemma {:induction false} MergeMaxCovers(x: Row, c: seq<Row>)
    ensures exists z :: z in MergeMax(x, c) && z.content == x.content && z.sim >= x.sim
    ensures Dominates(MergeMax(x, c), c)
  {
    var m := MergeMax(x, c);
    if c == [] {
      assert m[0] == x;
    } else if c[0].content == x.content {
      assert m[0] in m;
      forall y | y in c ensures exists z :: z in m && z.content == y.content && z.sim >= y.sim {
        if y == c[0] {
          assert m[0] in m;
        } else {
          var i :| 1 <= i < |c| && c[i] == y;
          assert m[i] == y;
        }
      }
    } else {
      var rest := MergeMax(x, c[1..]);
      MergeMaxCovers(x, c[1..]);
      assert c == [c[0]] + c[1..];
      assert m == [c[0]] + rest;
      forall y | y in c ensures exists z :: z in m && z.content == y.content && z.sim >= y.sim {
        if y == c[0] {
          assert m[0] in m;
        } else {
          assert y in c[1..];
          var z :| z in rest && z.content == y.content && z.sim >= y.sim;
          assert z in m;
        }
      }
      var zx :| zx in rest && zx.content == x.content && zx.sim >= x.sim;
      assert zx in m;
    }
  }

  /** The concrete de-duplication is an admissible `DISTINCT ON (content)`. */
  lemma {:induction false} DedupeMaxIsDistinctOn(u: seq<Row>)
    ensures IsDistinctOnContent(DedupeMax(u), u)
  {
    if u != [] {
      var c := DedupeMax(u[1..]);
      DedupeMaxIsDistinctOn(u[1..]);
      MergeMaxRows(u[0], c);
      MergeMaxDistinct(u[0], c);
      MergeMaxCovers(u[0], c);
      var m := DedupeMax(u);
      assert u == [u[0]] + u[1..];
      assert multiset(u) == multiset{u[0]} + multiset(u[1..]);
      forall y | y in u ensures exists z :: z in m && z.content == y.content && z.sim >= y.sim {
        if y != u[0] {
          assert y in u[1..];
          var w :| w in c && w.content == y.content && w.sim >= y.sim;
          var z :| z in m && z.content == w.content && z.sim >= w.sim;
        }
      }
    }
  }

  lemma SameContentSameRow(c: seq<Row>, x: Row, z: Row)
    requires DistinctContents(c) && x in c && z in c && x.content == z.content
    ensures x == z
  {
    var i :| 0 <= i < |c| && c[i] == x;
    var j :| 0 <= j < |c| && c[j] == z;
    if i < j || j < i {
      assert false;
    }
  }

  /** A surviving row has the maximal similarity of all rows with its content. */
  lemma DistinctOnKeepsMax(c: seq<Row>, u: seq<Row>, x: Row, y: Row)
    requires IsDistinctOnContent(c, u) && x in c && y in u && y.content == x.content
    ensures y.sim <= x.sim
  {
    var z :| z in c && z.content == y.content && z.sim >= y.sim;
    SameContentSameRow(c, x, z);
  }

  lemma {:induction false} DistinctContentsCount(c: seq<Row>, x: Row)
    requires DistinctContents(c)
    ensures multiset(c)[x] <= 1
  {
    if c != [] {
      assert c == [c[0]] + c[1..];
      DistinctContentsTail(c);
      DistinctContentsCount(c[1..], x);
    }
  }

  lemma RepeatedCount(s: seq<Row>, i: nat, j: nat)
    requires i < j < |s| && s[i] == s[j]
    ensures multiset(s)[s[i]] >= 2
  {
    assert s == s[..j] + [s[j]] + s[j + 1..];
    assert s[i] in s[..j];
  }

  /** Any selection of rows from a content-distinct list is content-distinct. */
  lemma SubDistinctContents(s: seq<Row>, c: seq<Row>)
    requires multiset(s) <= multiset(c) && DistinctContents(c)
    ensures DistinctContents(s)
  {
    forall i, j | 0 <= i < j < |s| ensures s[i].content != s[j].content {
      assert s[i] in multiset(s) && s[j] in multiset(s);
      if s[i].content == s[j].content {
        SameContentSameRow(c, s[i], s[j]);
        RepeatedCount(s, i, j);
        DistinctContentsCount(c, s[i]);
        assert false;
      }
    }
  }

  // ---- The hybrid query ----

  /** Every admissible answer of the hybrid query: `sem`, `kw` and `comb` are
      the CTEs `semantic`, `keyword` and `combined`. */
  ghost predicate IsHybridAnswer(rows: seq<Row>, kws: seq<string>, k: nat,
                                 sem: seq<Row>, kw: seq<Row>, comb: seq<Row>, result: seq<Row>) {
    && IsTopBy(sem, rows, SimKey(), PoolLimit)
    && IsTopBy(kw, Filter(rows, MatchesAnyOf(kws)), CountKey(kws), PoolLimit)
    && IsDistinctOnContent(comb, sem + kw)
    && IsTopBy(result, comb, ScoreKey(kws), k)
  }

  function SemanticPool(rows: seq<Row>): seq<Row> {
    TopBy(rows, SimKey(), PoolLimit)
  }

  function KeywordPool(rows: seq<Row>, kws: seq<string>): seq<Row> {
    TopBy(Filter(rows, MatchesAnyOf(kws)), CountKey(kws), PoolLimit)
  }

  function Combined(rows: seq<Row>, kws: seq<string>): seq<Row> {
    DedupeMax(SemanticPool(rows) + KeywordPool(rows, kws))
  }

  /** The concrete hybrid answer used by the model. */
  function Hybrid(rows: seq<Row>, kws: seq<string>, k: nat): seq<Row> {
    TopBy(Combined(rows, kws), ScoreKey(kws), k)
  }

  /** The concrete hybrid answer is one the SQL may return. */
  lemma HybridIsAnswer(rows: seq<Row>, kws: seq<string>, k: nat)
    ensures IsHybridAnswer(rows, kws, k, SemanticPool(rows), KeywordPool(rows, kws),
                           Combined(rows, kws), Hybrid(rows, kws, k))
  {
    TopByIsTop(rows, SimKey(), PoolLimit);
    TopByIsTop(Filter(rows, MatchesAnyOf(kws)), CountKey(kws), PoolLimit);
    DedupeMaxIsDistinctOn(SemanticPool(rows) + KeywordPool(rows, kws));
    TopByIsTop(Combined(rows, kws), ScoreKey(kws), k);
  }

  /** What every admissible hybrid answer guarantees: at most `k` rows, all
      from the table, with pairwise distinct contents, sorted by final score;
      each pool has at most 50 rows; every keyword-pool row matches some
      keyword; and a returned row has the highest base similarity among the
      pooled rows with its content. */
  lemma HybridShape(rows: seq<Row>, kws: seq<string>, k: nat,
                    sem: seq<Row>, kw: seq<Row>, comb: seq<Row>, result: seq<Row>)
    requires IsHybridAnswer(rows, kws, k, sem, kw, comb, result)
    ensures |result| <= k && |sem| <= PoolLimit && |kw| <= PoolLimit
    ensures DistinctContents(result)
    ensures forall i, j :: 0 <= i < j < |result| ==> Score(result[i], kws) >= Score(result[j], kws)
    ensures forall x :: x in kw ==> MatchesAny(x, kws) && x in rows
    ensures forall x :: x in result ==> x in rows
    ensures forall x, y :: x in result && y in sem + kw && y.content == x.content ==> y.sim <= x.sim
  {
    TopBounds(sem, rows, SimKey(), PoolLimit);
    TopBounds(kw, Filter(rows, MatchesAnyOf(kws)), CountKey(kws), PoolLimit);
    TopBounds(result, comb, ScoreKey(kws), k);
    SubDistinctContents(result, comb);
    forall x | x in result ensures x in rows {
      assert x in comb;
      assert x in multiset(comb);
      assert x in sem + kw;
    }
    forall x, y | x in result && y in sem + kw && y.content == x.content ensures y.sim <= x.sim {
      assert x in comb;
      DistinctOnKeepsMax(comb, sem + kw, x, y);
    }
    assert forall i, j :: 0 <= i < j < |result| ==> ScoreKey(kws)(result[i]) >= ScoreKey(kws)(result[j]);
  }

  /** `search_similar_documents` after the embedding: a negative `k` makes
      the query fail (`LIMIT` must not be negative) and a failing query yields
      no documents; without keywords it is the plain vector top-`k`. */
  function Rank(rows: seq<Row>, kws: seq<string>, k: int, queryFails: bool): seq<Row> {
    if queryFails || k < 0 then []
    else if kws == [] then TopBy(rows, SimKey(), k)
    else Hybrid(rows, kws, k)
  }

  /** The documents built from the fetched rows, in order. */
  function ToDocuments(rows: seq<Row>): (docs: seq<Document>)
    ensures |docs| == |rows|
    ensures forall i :: 0 <= i < |rows| ==> docs[i] == Document(rows[i].content, rows[i].metadata)
  {
    if rows == [] then [] else [Document(rows[0].content, rows[0].metadata)] + ToDocuments(rows[1..])
  }

  /** The ranking is an admissible answer of the SQL in each branch, and a
      failing query or a negative limit yields nothing. */
  lemma RankIsAnswer(rows: seq<Row>, kws: seq<string>, k: int, queryFails: bool)
    ensures queryFails || k < 0 ==> Rank(rows, kws, k, queryFails) == []
    ensures !queryFails && k >= 0 && kws == [] ==> IsTopBy(Rank(rows, kws, k, queryFails), rows, SimKey(), k)
    ensures !queryFails && k >= 0 && kws != [] ==>
      IsHybridAnswer(rows, kws, k, SemanticPool(rows), KeywordPool(rows, kws),
                     Combined(rows, kws), Rank(rows, kws, k, queryFails))
  {
    if !queryFails && k >= 0 {
      if kws == [] {
        TopByIsTop(rows, SimKey(), k);
      } else {
        HybridIsAnswer(rows, kws, k);
      }
    }
  }

  /** Without keywords the answer is not de-duplicated: two stored chunks with
      the same content both come back. */
  lemma PlainTopKeepsDuplicates(r: Row, top: seq<Row>)
    requires IsTopBy(top, [r, r], SimKey(), 2)
    ensures top == [r, r]
  {
    assert |top| == 2;
    assert multiset(top) <= multiset{r, r};
    assert top[0] in multiset(top) && top[1] in multiset(top);
  }
}
