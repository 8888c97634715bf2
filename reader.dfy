/**
 * The document listing (`showboat_document_json`): one document's rows after
 * an optional cursor, in id order, each shaped as a JSON chunk with its image
 * base64-encoded.
 */
module Reader {
  import opened Common
  import opened Store
  import Base64

  /** One entry of `chunks`: keys id, showboat_id, created_at, markdown, and image when present. */
  datatype ChunkJson = ChunkJson(id: nat, showboatId: string, createdAt: string, markdown: string, image: Option<string>)

  /** The JSON shape of a row: the image only when the stored blob is non-empty (`if row[4]:`). */
  function ChunkOf(row: Row): (c: ChunkJson)
    ensures c.id == row.id && c.showboatId == row.showboatId
    ensures c.createdAt == row.createdAt && c.markdown == row.markdown
    ensures c.image.Some? <==> row.image.Some? && row.image.value != []
    ensures c.image.Some? ==> Base64.Decode(c.image.value) == row.image
  {
    var image :=
      if row.image.Some? && row.image.value != [] then
        Base64.DecodeEncode(row.image.value);
        Some(Base64.Encode(row.image.value))
      else None;
    ChunkJson(row.id, row.showboatId, row.createdAt, row.markdown, image)
  }

  /** The cursor condition: no cursor (absent or empty `after`) or `id > after`. */
  predicate PastCursor(after: Option<int>, id: nat) {
    after.None? || id > after.value
  }

  /** The rows past the cursor, in order. */
  function After(rows: seq<Row>, after: Option<int>): (r: seq<Row>)
    ensures |r| <= |rows|
  {
    if rows == [] then []
    else (if PastCursor(after, rows[0].id) then [rows[0]] else []) + After(rows[1..], after)
  }

  /** The `chunks` list for document `doc` and cursor `after`. */
  function Listing(rows: seq<Row>, doc: string, after: Option<int>): (r: seq<ChunkJson>)
    ensures |r| <= |rows|
    ensures forall i :: 0 <= i < |r| ==> r[i].showboatId == doc && PastCursor(after, r[i].id)
  {
    var selected := After(DocRows(rows, doc), after);
    DocRowsMembers(rows, doc);
    AfterMembers(DocRows(rows, doc), after);
    assert forall i :: 0 <= i < |selected| ==> selected[i] in selected;
    seq(|selected|, i requires 0 <= i < |selected| => ChunkOf(selected[i]))
  }

  // ---------------------------------------------------------------------------
  // What the listing contains

  lemma {:induction false} AfterMembers(rows: seq<Row>, after: Option<int>)
    ensures forall row :: row in After(rows, after) <==> row in rows && PastCursor(after, row.id)
  {
    if rows != [] {
      AfterMembers(rows[1..], after);
      assert rows == [rows[0]] + rows[1..];
    }
  }

  /**
   * The listing holds exactly the chunks of the document's rows past the
   * cursor: nothing else, and none of them missing.
   */
  lemma ListingContents(rows: seq<Row>, doc: string, after: Option<int>)
    ensures forall row :: row in rows && row.showboatId == doc && PastCursor(after, row.id) ==>
      ChunkOf(row) in Listing(rows, doc, after)
    ensures forall c :: c in Listing(rows, doc, after) ==>
      exists row :: row in rows && row.showboatId == doc && PastCursor(after, row.id) && c == ChunkOf(row)
  {
    var selected := After(DocRows(rows, doc), after);
    var r := Listing(rows, doc, after);
    DocRowsMembers(rows, doc);
    AfterMembers(DocRows(rows, doc), after);
    forall row | row in rows && row.showboatId == doc && PastCursor(after, row.id)
      ensures ChunkOf(row) in r
    {
      var i :| 0 <= i < |selected| && selected[i] == row;
      assert r[i] == ChunkOf(row);
    }
    forall c | c in r
      ensures exists row :: row in rows && row.showboatId == doc && PastCursor(after, row.id) && c == ChunkOf(row)
    {
      var i :| 0 <= i < |r| && r[i] == c;
      assert selected[i] in selected;
    }
  }

  // ---------------------------------------------------------------------------
  // Order and the polling cursor

  lemma {:induction false} DocRowsAscending(rows: seq<Row>, doc: string)
    requires IdsAscending(rows)
    ensures IdsAscending(DocRows(rows, doc))
  {
    if rows != [] {
      var init := rows[..|rows| - 1];
      DocRowsAscending(init, doc);
      DocRowsMembers(init, doc);
      forall row | row in DocRows(init, doc) ensures row.id < rows[|rows| - 1].id {
        var j :| 0 <= j < |init| && init[j] == row;
      }
    }
  }

  lemma {:induction false} AfterAscending(rows: seq<Row>, after: Option<int>)
    requires IdsAscending(rows)
    ensures IdsAscending(After(rows, after))
  {
    if rows != [] {
      AfterAscending(rows[1..], after);
      AfterMembers(rows[1..], after);
      forall row | row in After(rows[1..], after) ensures rows[0].id < row.id {
        var j :| 0 <= j < |rows[1..]| && rows[1..][j] == row;
        assert row == rows[j + 1];
      }
    }
  }

  /** `ORDER BY id`: the listing's ids strictly increase. */
  lemma ListingAscending(rows: seq<Row>, doc: string, after: Option<int>)
    requires IdsAscending(rows)
    ensures var r := Listing(rows, doc, after);
      forall i, j :: 0 <= i < j < |r| ==> r[i].id < r[j].id
  {
    DocRowsAscending(rows, doc);
    AfterAscending(DocRows(rows, doc), after);
  }

  /** With no cursor every row is past it. */
  lemma {:induction false} AfterNone(rows: seq<Row>)
    ensures After(rows, None) == rows
  {
    if rows != [] {
      AfterNone(rows[1..]);
      assert rows == [rows[0]] + rows[1..];
    }
  }

  /** Rows all past the cursor are kept whole. */
  lemma {:induction false} AfterAll(rows: seq<Row>, a: int)
    requires forall i :: 0 <= i < |rows| ==> rows[i].id > a
    ensures After(rows, Some(a)) == rows
  {
    if rows != [] {
      AfterAll(rows[1..], a);
      assert rows == [rows[0]] + rows[1..];
    }
  }

  /** In id order, the rows past the id of the k-th row are the rows after it. */
  lemma {:induction false} AfterCursorIsSuffix(rows: seq<Row>, k: nat)
    requires IdsAscending(rows) && k < |rows|
    ensures After(rows, Some(rows[k].id)) == rows[k + 1..]
  {
    if k == 0 {
      AfterAll(rows[1..], rows[0].id);
    } else {
      AfterCursorIsSuffix(rows[1..], k - 1);
    }
  }

  /**
   * Polling: a client whose cursor is the id of the k-th chunk it has seen
   * receives exactly the chunks after it.
   */
  lemma PollingReturnsTheRest(rows: seq<Row>, doc: string, k: nat)
    requires IdsAscending(rows)
    requires k < |Listing(rows, doc, None)|
    ensures var full := Listing(rows, doc, None);
      Listing(rows, doc, Some(full[k].id)) == full[k + 1..]
  {
    var d := DocRows(rows, doc);
    DocRowsAscending(rows, doc);
    AfterNone(d);
    AfterCursorIsSuffix(d, k);
  }

  /** A row appended to the table is listed last, after the document's earlier chunks. */
  lemma AppendThenList(rows: seq<Row>, row: Row)
    ensures Listing(rows + [row], row.showboatId, None) == Listing(rows, row.showboatId, None) + [ChunkOf(row)]
  {
    var doc := row.showboatId;
    assert (rows + [row])[..|rows|] == rows;
    AfterNone(DocRows(rows, doc));
    AfterNone(DocRows(rows + [row], doc));
  }
}
