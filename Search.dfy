/** `search_similar_documents` end to end (rag_chain.py:207-291): expand the
    query, embed the expansion (a failure here is not caught), extract the
    keywords from the original query, score every stored row against the
    query vector and rank. The vector distance is an abstract function. */
module Search {
  import opened Wrappers
  import opened Synonyms
  import opened QueryExpansion
  import opened Keywords
  import opened Embedding
  import opened Documents
  import opened DocumentStore
  import opened Ranking

  /** `1 - (embedding <=> query_vector)` for every stored row. */
  function Scored(store: seq<StoredDoc>, similarity: (Vector, Vector) -> real, q: Vector): (rows: seq<Row>)
    ensures |rows| == |store|
    ensures forall i :: 0 <= i < |store| ==>
      rows[i] == Row(store[i].content, store[i].metadata, similarity(q, store[i].embedding))
  {
    seq(|store|, i requires 0 <= i < |store| => Row(store[i].content, store[i].metadata, similarity(q, store[i].embedding)))
  }

  method SearchSimilarDocuments(query: string, call: Oracle, store: seq<StoredDoc>,
                                similarity: (Vector, Vector) -> real, queryFails: bool, k: int)
    returns (r: Result<seq<Document>, Failure>)
    ensures var e := EmbedQuery(call, query + Appended(query, KrEnMap), DefaultRetries);
      && (e.Err? ==> r == Err(e.error))
      && (e.Ok? ==> r == Ok(ToDocuments(Rank(Scored(store, similarity, e.value), KeywordsOf(query), k, queryFails))))
  {
    var expanded := ExpandQuery(query);
    var embedded, _ := EmbedTexts([expanded], call, DefaultRetries);
    assert EmbedRun(call, [expanded], 0, DefaultRetries) == Run(Ok([]), []);
    if embedded.Err? {
      return Err(embedded.error);
    }
    if |embedded.value| == 0 {
      return Err(NoVector);
    }
    var q := embedded.value[0];
    var keywords := ExtractKeywords(query);
    var rows := Scored(store, similarity, q);
    r := Ok(ToDocuments(Rank(rows, keywords, k, queryFails)));
  }
}
