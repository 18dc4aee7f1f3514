/** Query expansion (rag_chain.py:153-159): the query is kept as written and,
    for every dictionary key that occurs in it, a space and that key's
    synonyms are appended, in dictionary order. */
module QueryExpansion {
  import opened Text
  import opened Synonyms

  /** What one dictionary entry contributes to the expansion of `query`. */
  function Piece(query: string, entry: Entry): string {
    if Contains(query, entry.0) then " " + entry.1 else ""
  }

  /** Everything appended to `query` by the entries of `table`, in table order. */
  function Appended(query: string, table: seq<Entry>): string
    decreases |table|
  {
    if table == [] then ""
    else Appended(query, table[..|table| - 1]) + Piece(query, table[|table| - 1])
  }

  /** expand_query: `expanded` starts as the query and grows by `+=` inside
      the loop over the dictionary; keys are matched against the original
      query only. */
  method ExpandQuery(query: string) returns (expanded: string)
    ensures expanded == query + Appended(query, KrEnMap)
    ensures StartsWith(expanded, query)
    ensures forall i :: 0 <= i < |KrEnMap| && Contains(query, KrEnMap[i].0) ==>
      Contains(expanded, " " + KrEnMap[i].1)
    ensures (forall i :: 0 <= i < |KrEnMap| ==> !Contains(query, KrEnMap[i].0)) ==> expanded == query
  {
    expanded := ExpandWith(query, KrEnMap);
  }

  /** The loop of expand_query over an arbitrary dictionary `table`. */
  method ExpandWith(query: string, table: seq<Entry>) returns (expanded: string)
    ensures expanded == query + Appended(query, table)
    ensures StartsWith(expanded, query)
    ensures forall i :: 0 <= i < |table| && Contains(query, table[i].0) ==>
      Contains(expanded, " " + table[i].1)
    ensures (forall i :: 0 <= i < |table| ==> !Contains(query, table[i].0)) ==> expanded == query
  {
    expanded := query;
    for i := 0 to |table|
      invariant expanded == query + Appended(query, table[..i])
    {
      var (kr, en) := table[i];
      assert table[..i + 1][..i] == table[..i];
      if Contains(query, kr) {
        expanded := expanded + " " + en;
      }
    }
    assert table[..|table|] == table;
    assert expanded[..|query|] == query;
    forall i | 0 <= i < |table| && Contains(query, table[i].0)
      ensures Contains(expanded, " " + table[i].1)
    {
      MatchedSynonymsAppended(query, table, i);
      ContainsSuffixPart(query, Appended(query, table), " " + table[i].1);
    }
    if forall i :: 0 <= i < |table| ==> !Contains(query, table[i].0) {
      NoMatchNoChange(query, table);
    }
  }

  /** Appending follows the dictionary order: the expansion by a table split
      in two is the expansion by the first part followed by the second. */
  lemma {:induction false} AppendedConcat(query: string, t1: seq<Entry>, t2: seq<Entry>)
    ensures Appended(query, t1 + t2) == Appended(query, t1) + Appended(query, t2)
    decreases |t2|
  {
    if t2 != [] {
      var t2i := t2[..|t2| - 1];
      assert (t1 + t2)[..|t1 + t2| - 1] == t1 + t2i;
      AppendedConcat(query, t1, t2i);
    } else {
      assert t1 + t2 == t1;
    }
  }

  /** Every entry whose key occurs in the query has its synonyms appended,
      preceded by a space; matches accumulate without short-circuit. */
  lemma {:induction false} MatchedSynonymsAppended(query: string, table: seq<Entry>, i: nat)
    requires i < |table| && Contains(query, table[i].0)
    ensures Contains(Appended(query, table), " " + table[i].1)
    decreases |table|
  {
    var init := table[..|table| - 1];
    if i == |table| - 1 {
      assert StartsWith(" " + table[i].1, " " + table[i].1);
      ContainsSuffixPart(Appended(query, init), " " + table[i].1, " " + table[i].1);
    } else {
      assert init[i] == table[i];
      MatchedSynonymsAppended(query, init, i);
      ContainsInPrefix(Appended(query, init), Piece(query, table[|table| - 1]), " " + table[i].1);
    }
  }

  /** When no key occurs in the query, expansion leaves it unchanged. */
  lemma {:induction false} NoMatchNoChange(query: string, table: seq<Entry>)
    requires forall i :: 0 <= i < |table| ==> !Contains(query, table[i].0)
    ensures Appended(query, table) == ""
    decreases |table|
  {
    if table != [] {
      var init := table[..|table| - 1];
      assert forall i :: 0 <= i < |init| ==> init[i] == table[i];
      NoMatchNoChange(query, init);
    }
  }

  /** The appended text depends only on which keys occur in the original
      query: appending synonyms never makes further entries match, because
      matching never looks at the growing expansion. */
  lemma {:induction false} AppendedDependsOnlyOnMatches(q1: string, q2: string, table: seq<Entry>)
    requires forall i :: 0 <= i < |table| ==> (Contains(q1, table[i].0) <==> Contains(q2, table[i].0))
    ensures Appended(q1, table) == Appended(q2, table)
    decreases |table|
  {
    if table != [] {
      var init := table[..|table| - 1];
      assert forall i :: 0 <= i < |init| ==> init[i] == table[i];
      AppendedDependsOnlyOnMatches(q1, q2, init);
    }
  }
}
