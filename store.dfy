/**
 * The `showboat_chunks` table as a sequence of rows in id order, and the two
 * writes the receive handler makes to it: INSERT of one row and DELETE of a
 * document's newest row.
 */
module Store {
  import opened Common

  /** One row of `showboat_chunks`: id, showboat_id, created_at, markdown, image. */
  datatype Row = Row(id: nat, showboatId: string, createdAt: string, markdown: string, image: Option<seq<byte>>)

  /** The table in id order: every id is larger than the ids before it. */
  predicate IdsAscending(rows: seq<Row>) {
    forall i, j :: 0 <= i < j < |rows| ==> rows[i].id < rows[j].id
  }

  /** The rows of one document, in table order (`WHERE showboat_id = ?`). */
  function DocRows(rows: seq<Row>, doc: string): (r: seq<Row>)
    ensures |r| <= |rows|
  {
    if rows == [] then []
    else
      var last := rows[|rows| - 1];
      DocRows(rows[..|rows| - 1], doc) + (if last.showboatId == doc then [last] else [])
  }

  /** The document's rows are exactly the table's rows with its `showboat_id`. */
  lemma {:induction false} DocRowsMembers(rows: seq<Row>, doc: string)
    ensures forall row :: row in DocRows(rows, doc) <==> row in rows && row.showboatId == doc
  {
    if rows != [] {
      var init := rows[..|rows| - 1];
      DocRowsMembers(init, doc);
      assert rows == init + [rows[|rows| - 1]];
    }
  }

  /** Selecting one document's rows distributes over concatenation. */
  lemma {:induction false} DocRowsConcat(a: seq<Row>, b: seq<Row>, doc: string)
    ensures DocRows(a + b, doc) == DocRows(a, doc) + DocRows(b, doc)
    decreases |b|
  {
    if b != [] {
      var n := |b| - 1;
      assert (a + b)[..|a + b| - 1] == a + b[..n];
      DocRowsConcat(a, b[..n], doc);
    } else {
      assert a + b == a;
    }
  }

  /** The position of the document's newest row: its last row in table order. */
  function NewestIndex(rows: seq<Row>, doc: string): (r: Option<nat>)
    ensures r.Some? ==> r.value < |rows| && rows[r.value].showboatId == doc
    ensures r.Some? ==> forall j :: r.value < j < |rows| ==> rows[j].showboatId != doc
    ensures r.None? <==> forall j :: 0 <= j < |rows| ==> rows[j].showboatId != doc
  {
    if rows == [] then None
    else if rows[|rows| - 1].showboatId == doc then Some(|rows| - 1)
    else NewestIndex(rows[..|rows| - 1], doc)
  }

  /**
   * The `pop` DELETE: remove the row whose id is
   * `SELECT id ... WHERE showboat_id = ? ORDER BY id DESC LIMIT 1`, if any.
   */
  function WithoutNewest(rows: seq<Row>, doc: string): seq<Row> {
    match NewestIndex(rows, doc)
    case None => rows
    case Some(k) => rows[..k] + rows[k + 1..]
  }

  /** A document has a newest row exactly when it has rows at all. */
  lemma NewestIndexIffRows(rows: seq<Row>, doc: string)
    ensures NewestIndex(rows, doc).None? <==> DocRows(rows, doc) == []
  {
  }

  /** The row `pop` removes is the one with the largest id among the document's rows. */
  lemma PopTakesLargestId(rows: seq<Row>, doc: string)
    requires IdsAscending(rows)
    ensures DocRows(rows, doc) == [] ==> WithoutNewest(rows, doc) == rows
    ensures DocRows(rows, doc) != [] ==>
      exists k :: 0 <= k < |rows| && rows[k].showboatId == doc
        && (forall j :: 0 <= j < |rows| && rows[j].showboatId == doc ==> rows[j].id <= rows[k].id)
        && WithoutNewest(rows, doc) == rows[..k] + rows[k + 1..]
  {
    NewestIndexIffRows(rows, doc);
    if DocRows(rows, doc) != [] {
      var k := NewestIndex(rows, doc).value;
      forall j | 0 <= j < |rows| && rows[j].showboatId == doc
        ensures rows[j].id <= rows[k].id
      {
        assert j <= k;
      }
    }
  }

  /**
   * `pop` drops the last of the document's rows and leaves every other
   * document's rows as they were.
   */
  lemma PopDropsLastOfDocument(rows: seq<Row>, doc: string, other: string)
    ensures var before := DocRows(rows, doc);
      DocRows(WithoutNewest(rows, doc), doc) == if before == [] then [] else before[..|before| - 1]
    ensures other != doc ==> DocRows(WithoutNewest(rows, doc), other) == DocRows(rows, other)
  {
    NewestIndexIffRows(rows, doc);
    if NewestIndex(rows, doc).Some? {
      var k := NewestIndex(rows, doc).value;
      var pre, post := rows[..k], rows[k + 1..];
      DocRowsAroundNewest(rows, doc, k);
      RemoveAtSplit(rows, doc, k);
      RemoveAtSplit(rows, other, k);
      assert DocRows([rows[k]], doc) == [rows[k]];
      var before := DocRows(rows, doc);
      assert before == DocRows(pre, doc) + [rows[k]];
      assert before[..|before| - 1] == DocRows(pre, doc);
      if other != doc {
        assert DocRows([rows[k]], other) == [];
      }
    }
  }

  /** Around the newest row there is nothing of the document after it. */
  lemma DocRowsAroundNewest(rows: seq<Row>, doc: string, k: nat)
    requires NewestIndex(rows, doc) == Some(k)
    ensures DocRows(rows[k + 1..], doc) == []
  {
    DocRowsNone(rows[k + 1..], doc);
  }

  /** A document none of whose rows are present selects nothing. */
  lemma {:induction false} DocRowsNone(rows: seq<Row>, doc: string)
    requires forall j :: 0 <= j < |rows| ==> rows[j].showboatId != doc
    ensures DocRows(rows, doc) == []
  {
    if rows != [] {
      DocRowsNone(rows[..|rows| - 1], doc);
    }
  }

  /** The rows of a document before and after removing position `k`. */
  lemma RemoveAtSplit(rows: seq<Row>, doc: string, k: nat)
    requires k < |rows|
    ensures DocRows(rows, doc) == DocRows(rows[..k], doc) + DocRows([rows[k]], doc) + DocRows(rows[k + 1..], doc)
    ensures DocRows(rows[..k] + rows[k + 1..], doc) == DocRows(rows[..k], doc) + DocRows(rows[k + 1..], doc)
  {
    var pre, post := rows[..k], rows[k + 1..];
    assert rows == pre + [rows[k]] + post;
    DocRowsConcat(pre + [rows[k]], post, doc);
    DocRowsConcat(pre, [rows[k]], doc);
    DocRowsConcat(pre, post, doc);
  }

  /** Deleting a row keeps the table in id order. */
  lemma PopKeepsIdOrder(rows: seq<Row>, doc: string)
    requires IdsAscending(rows)
    ensures IdsAscending(WithoutNewest(rows, doc))
    ensures forall row :: row in WithoutNewest(rows, doc) ==> row in rows
  {
  }
}
