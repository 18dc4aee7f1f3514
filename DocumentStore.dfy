/** The `documents` table and the store operations of rag_chain.py:68-99 and
    294-370, on an in-memory table. Each operation that may fail in the
    database takes a flag saying whether the statement fails; a failing
    statement is rolled back and leaves the table unchanged. */
module DocumentStore {
  import opened Wrappers
  import opened Text
  import opened Sorting
  import opened Documents
  import opened Embedding

  /** A row of `documents (content, embedding, metadata)`. */
  datatype StoredDoc = StoredDoc(content: string, embedding: Vector, metadata: Metadata)

  /** "Database error", "Failed to clear database", "Failed to clear documents
      by type", and an embedding failure passed through unchanged. */
  datatype StoreError = EmbeddingError(failure: Failure) | DatabaseError | ClearFailed | ClearByTypeFailed

  function Texts(docs: seq<Document>): (texts: seq<string>)
    ensures |texts| == |docs| && forall i :: 0 <= i < |docs| ==> texts[i] == docs[i].content
  {
    seq(|docs|, i requires 0 <= i < |docs| => docs[i].content)
  }

  /** `zip(documents, embeddings)` turned into table rows. */
  function ZipRows(docs: seq<Document>, vectors: seq<Vector>): (r: seq<StoredDoc>)
    ensures |r| == if |docs| < |vectors| then |docs| else |vectors|
  {
    var n := if |docs| < |vectors| then |docs| else |vectors|;
    seq(n, i requires 0 <= i < n => StoredDoc(docs[i].content, vectors[i], docs[i].metadata))
  }

  /** `metadata->>'type'`. */
  function TypeOf(d: StoredDoc): Option<string> {
    if "type" in d.metadata then Some(d.metadata["type"]) else None
  }

  /** `COALESCE(metadata->>'type', 'unknown')`. */
  function GroupOf(d: StoredDoc): string {
    if "type" in d.metadata then d.metadata["type"] else "unknown"
  }

  /** The legacy per-format types that `migrate_file_types` rewrites. */
  predicate IsLegacyType(t: string) {
    t == "pdf" || t == "docx" || t == "pptx" || t == "xlsx"
  }

  predicate IsLegacy(d: StoredDoc) {
    "type" in d.metadata && IsLegacyType(d.metadata["type"])
  }

  /** `jsonb_set(metadata, '{type}', '"file"')` on the rows the `WHERE` selects. */
  function Migrated(d: StoredDoc): StoredDoc {
    if IsLegacy(d) then d.(metadata := d.metadata["type" := "file"]) else d
  }

  function MigrateAll(rows: seq<StoredDoc>): (r: seq<StoredDoc>)
    ensures |r| == |rows| && forall i :: 0 <= i < |rows| ==> r[i] == Migrated(rows[i])
  {
    seq(|rows|, i requires 0 <= i < |rows| => Migrated(rows[i]))
  }

  function NotOfType(t: string): StoredDoc -> bool {
    (d: StoredDoc) => TypeOf(d) != Some(t)
  }

  function OfType(t: string): StoredDoc -> bool {
    (d: StoredDoc) => TypeOf(d) == Some(t)
  }

  function InGroup(g: string): StoredDoc -> bool {
    (d: StoredDoc) => GroupOf(d) == g
  }

  function Groups(rows: seq<StoredDoc>): (gs: seq<string>)
    ensures |gs| == |rows| && forall i :: 0 <= i < |rows| ==> gs[i] == GroupOf(rows[i])
  {
    seq(|rows|, i requires 0 <= i < |rows| => GroupOf(rows[i]))
  }

  /** `COUNT(*)` of one group. */
  function GroupCount(rows: seq<StoredDoc>, g: string): nat {
    |Filter(rows, InGroup(g))|
  }

  /** `{doc_type: cnt}` built from the `GROUP BY doc_type` result. */
  function GroupCounts(rows: seq<StoredDoc>): map<string, nat> {
    map g | g in Groups(rows) :: GroupCount(rows, g)
  }

  class DocumentTable {
    var rows: seq<StoredDoc>

    constructor ()
      ensures rows == []
    {
      rows := [];
    }

    /** `add_documents_to_vectorstore`: nothing to do for an empty list,
        otherwise embed every text (an embedding failure propagates before
        the database is touched), then insert one row per document and return
        the number of documents; a failing insert is rolled back. */
    method AddDocuments(docs: seq<Document>, call: Oracle, insertFails: bool) returns (r: Result<nat, StoreError>)
      modifies this
      ensures docs == [] ==> r == Ok(0) && rows == old(rows)
      ensures docs != [] ==>
        var run := EmbedRun(call, Texts(docs), |docs|, DefaultRetries).result;
        && (run.Err? ==> r == Err(EmbeddingError(run.error)) && rows == old(rows))
        && (run.Ok? && insertFails ==> r == Err(DatabaseError) && rows == old(rows))
        && (run.Ok? && !insertFails ==> r == Ok(|docs|) && rows == old(rows) + ZipRows(docs, run.value))
    {
      if docs == [] {
        return Ok(0);
      }
      var texts := Texts(docs);
      var embedded, _ := EmbedTexts(texts, call, DefaultRetries);
      if embedded.Err? {
        return Err(EmbeddingError(embedded.error));
      }
      var vectors := embedded.value;
      var n := if |docs| < |vectors| then |docs| else |vectors|;
      var data: seq<StoredDoc> := [];
      for i := 0 to n
        invariant |data| == i
        invariant forall j :: 0 <= j < i ==> data[j] == StoredDoc(docs[j].content, vectors[j], docs[j].metadata)
      {
        data := data + [StoredDoc(docs[i].content, vectors[i], docs[i].metadata)];
      }
      if insertFails {
        return Err(DatabaseError);
      }
      rows := rows + data;
      return Ok(|docs|);
    }

    /** `get_document_count`: `SELECT COUNT(*)`, or 0 when the query fails. */
    method Count(queryFails: bool) returns (n: nat)
      ensures n == if queryFails then 0 else |rows|
    {
      if queryFails {
        return 0;
      }
      return |rows|;
    }

    /** `migrate_file_types`: rows whose type is pdf, docx, pptx or xlsx get
        type `file`; `updated` is the row count it prints, not a value it
        returns. A failing update is rolled back and skipped. */
    method MigrateFileTypes(updateFails: bool) returns (updated: nat)
      modifies this
      ensures updateFails ==> rows == old(rows) && updated == 0
      ensures !updateFails ==> rows == MigrateAll(old(rows)) && updated == |Filter(old(rows), IsLegacy)|
    {
      if updateFails {
        return 0;
      }
      updated := |Filter(rows, IsLegacy)|;
      rows := MigrateAll(rows);
    }

    /** `clear_vectorstore`: `DELETE FROM documents`. */
    method ClearAll(deleteFails: bool) returns (r: Result<(), StoreError>)
      modifies this
      ensures deleteFails ==> r == Err(ClearFailed) && rows == old(rows)
      ensures !deleteFails ==> r == Ok(()) && rows == []
    {
      if deleteFails {
        return Err(ClearFailed);
      }
      rows := [];
      return Ok(());
    }

    /** `clear_vectorstore_by_type(t)`: `DELETE ... WHERE metadata->>'type' = t`,
        returning the number of deleted rows. */
    method ClearByType(t: string, deleteFails: bool) returns (r: Result<nat, StoreError>)
      modifies this
      ensures deleteFails ==> r == Err(ClearByTypeFailed) && rows == old(rows)
      ensures !deleteFails ==> rows == Filter(old(rows), NotOfType(t)) && r == Ok(|Filter(old(rows), OfType(t))|)
    {
      if deleteFails {
        return Err(ClearByTypeFailed);
      }
      var deleted := |Filter(rows, OfType(t))|;
      rows := Filter(rows, NotOfType(t));
      return Ok(deleted);
    }

    /** `get_document_counts_by_type`: rows grouped by type, a missing type
        counted as `unknown`; an empty dictionary when the query fails. */
    method CountsByType(queryFails: bool) returns (counts: map<string, nat>)
      ensures counts == if queryFails then map[] else GroupCounts(rows)
    {
      if queryFails {
        return map[];
      }
      return GroupCounts(rows);
    }
  }

  /** A successful insert stores exactly one row per document, in order,
      carrying the document's text and metadata and the vector of that text's
      first successful embedding attempt. */
  lemma InsertedRows(docs: seq<Document>, call: Oracle)
    requires EmbedRun(call, Texts(docs), |docs|, DefaultRetries).result.Ok?
    ensures var vs := EmbedRun(call, Texts(docs), |docs|, DefaultRetries).result.value;
      var added := ZipRows(docs, vs);
      && |added| == |docs|
      && forall i :: 0 <= i < |docs| ==>
           added[i].content == docs[i].content && added[i].metadata == docs[i].metadata
           && TextRunFrom(call, docs[i].content, DefaultRetries, 0).outcome == Embedded(added[i].embedding)
  {
    EmbedRunVectors(call, Texts(docs), |docs|, DefaultRetries);
  }

  /** Migration rewrites only the type, only of legacy rows, and leaves no
      legacy type behind. */
  lemma MigratedShape(d: StoredDoc)
    ensures Migrated(d).content == d.content && Migrated(d).embedding == d.embedding
    ensures Migrated(d).metadata.Keys == d.metadata.Keys
    ensures forall key :: key in d.metadata && key != "type" ==> Migrated(d).metadata[key] == d.metadata[key]
    ensures TypeOf(Migrated(d)) == if IsLegacy(d) then Some("file") else TypeOf(d)
    ensures !IsLegacy(Migrated(d))
  {
  }

  /** Running the migration twice is the same as running it once. */
  lemma MigrateIdempotent(rows: seq<StoredDoc>)
    ensures MigrateAll(MigrateAll(rows)) == MigrateAll(rows)
    ensures |Filter(MigrateAll(rows), IsLegacy)| == 0
  {
    forall i | 0 <= i < |rows| ensures Migrated(Migrated(rows[i])) == Migrated(rows[i]) {
      MigratedShape(rows[i]);
    }
    var m := MigrateAll(rows);
    forall d | d in m ensures !IsLegacy(d) {
      var i :| 0 <= i < |m| && m[i] == d;
      MigratedShape(rows[i]);
    }
    FilterNone(m, IsLegacy);
  }

  /** Deleting by type removes exactly the rows of that type: the kept rows
      are the other rows in their order, the deleted count plus the kept
      rows is the old total, and rows without a type are never deleted. */
  lemma {:induction false} ClearByTypeSplit(rows: seq<StoredDoc>, t: string)
    ensures |Filter(rows, OfType(t))| + |Filter(rows, NotOfType(t))| == |rows|
    ensures forall d :: d in rows && TypeOf(d).None? ==> d in Filter(rows, NotOfType(t))
    ensures forall d :: d in Filter(rows, NotOfType(t)) <==> d in rows && TypeOf(d) != Some(t)
  {
    if rows != [] {
      ClearByTypeSplit(rows[1..], t);
    }
  }

  /** The counts of all groups add up to the number of rows. */
  function SumCounts(gs: seq<string>, rows: seq<StoredDoc>): nat {
    if gs == [] then 0 else SumCounts(gs[..|gs| - 1], rows) + GroupCount(rows, gs[|gs| - 1])
  }

  lemma {:induction false} GroupCountSnoc(rows: seq<StoredDoc>, d: StoredDoc, g: string)
    ensures GroupCount(rows + [d], g) == GroupCount(rows, g) + (if GroupOf(d) == g then 1 else 0)
    decreases |rows|
  {
    if rows == [] {
      assert Filter([d], InGroup(g)) == (if GroupOf(d) == g then [d] else []) + Filter([], InGroup(g));
    } else {
      assert (rows + [d])[1..] == rows[1..] + [d];
      GroupCountSnoc(rows[1..], d, g);
    }
  }

  lemma GroupCountAbsent(rows: seq<StoredDoc>, g: string)
    requires g !in Groups(rows)
    ensures GroupCount(rows, g) == 0
  {
    forall d | d in rows ensures GroupOf(d) != g {
      var i :| 0 <= i < |rows| && rows[i] == d;
      assert Groups(rows)[i] == GroupOf(d);
    }
    FilterNone(rows, InGroup(g));
  }

  lemma {:induction false} SumCountsSnoc(gs: seq<string>, rows: seq<StoredDoc>, d: StoredDoc)
    requires NoDuplicates(gs)
    ensures SumCounts(gs, rows + [d]) == SumCounts(gs, rows) + (if GroupOf(d) in gs then 1 else 0)
    decreases |gs|
  {
    if gs != [] {
      var init := gs[..|gs| - 1];
      var last := gs[|gs| - 1];
      assert NoDuplicates(init);
      SumCountsSnoc(init, rows, d);
      GroupCountSnoc(rows, d, last);
      assert gs == init + [last];
      assert (GroupOf(d) in gs) == (GroupOf(d) in init || GroupOf(d) == last);
      if GroupOf(d) == last {
        assert last !in init;
      }
    }
  }

  /** The groups of the counts are the distinct groups of the rows. */
  lemma CountsKeys(rows: seq<StoredDoc>)
    ensures GroupCounts(rows).Keys == set g | g in Distinct(Groups(rows))
  {
    DistinctElements(Groups(rows));
  }

  /** A row of a group already present adds one to that group's count. */
  lemma CountsSumOld(init: seq<StoredDoc>, d: StoredDoc)
    requires GroupOf(d) in Distinct(Groups(init))
    ensures SumCounts(Distinct(Groups(init)), init + [d]) == SumCounts(Distinct(Groups(init)), init) + 1
  {
    DistinctNoDuplicates(Groups(init));
    SumCountsSnoc(Distinct(Groups(init)), init, d);
  }

  /** A row of a new group adds that group, with count one. */
  lemma CountsSumNew(init: seq<StoredDoc>, d: StoredDoc)
    requires GroupOf(d) !in Distinct(Groups(init))
    ensures SumCounts(Distinct(Groups(init)) + [GroupOf(d)], init + [d])
      == SumCounts(Distinct(Groups(init)), init) + 1
  {
    var gs0 := Distinct(Groups(init));
    var g := GroupOf(d);
    DistinctNoDuplicates(Groups(init));
    SumCountsSnoc(gs0, init, d);
    DistinctElements(Groups(init));
    var gs := gs0 + [g];
    assert gs[..|gs| - 1] == gs0;
    GroupCountAbsent(init, g);
    GroupCountSnoc(init, d, g);
  }

  /** One more row adds one to the sum over the distinct groups. */
  lemma CountsSumStep(init: seq<StoredDoc>, d: StoredDoc)
    ensures SumCounts(Distinct(Groups(init + [d])), init + [d])
      == SumCounts(Distinct(Groups(init)), init) + 1
  {
    var rows := init + [d];
    var gs0 := Distinct(Groups(init));
    assert Groups(rows)[..|rows| - 1] == Groups(init);
    assert Groups(rows)[|rows| - 1] == GroupOf(d);
    if GroupOf(d) in gs0 {
      assert Distinct(Groups(rows)) == gs0;
      CountsSumOld(init, d);
    } else {
      assert Distinct(Groups(rows)) == gs0 + [GroupOf(d)];
      CountsSumNew(init, d);
    }
  }

  /** The per-type counts add up to `get_document_count`: summing the
      count of every distinct group (in first-occurrence order) gives the
      number of rows. */
  lemma {:induction false} CountsSumToTotal(rows: seq<StoredDoc>)
    ensures SumCounts(Distinct(Groups(rows)), rows) == |rows|
    decreases |rows|
  {
    if rows != [] {
      var init := rows[..|rows| - 1];
      assert rows == init + [rows[|rows| - 1]];
      CountsSumToTotal(init);
      CountsSumStep(init, rows[|rows| - 1]);
    }
  }
}
