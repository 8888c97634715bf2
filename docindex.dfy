/**
 * The document index (`showboat_index`): one summary per `showboat_id` with
 * COUNT(*), MIN(created_at) and MAX(created_at), ordered by
 * MAX(created_at) descending.
 */
module DocIndex {
  import opened Common
  import opened Store

  /** One entry of the index: showboat_id, chunk_count, first_chunk, last_chunk. */
  datatype Summary = Summary(showboatId: string, chunkCount: nat, firstChunk: string, lastChunk: string)

  // ---------------------------------------------------------------------------
  // Text ordering: SQLite compares TEXT code point by code point

  /** `a <= b` in lexicographic order of code points. */
  predicate StrLe(a: string, b: string) {
    a == [] || (b != [] && (a[0] < b[0] || (a[0] == b[0] && StrLe(a[1..], b[1..]))))
  }

  lemma {:induction false} StrLeRefl(a: string)
    ensures StrLe(a, a)
  {
    if a != [] {
      StrLeRefl(a[1..]);
    }
  }

  lemma {:induction false} StrLeTotal(a: string, b: string)
    ensures StrLe(a, b) || StrLe(b, a)
  {
    if a != [] && b != [] && a[0] == b[0] {
      StrLeTotal(a[1..], b[1..]);
    }
  }

  lemma {:induction false} StrLeTrans(a: string, b: string, c: string)
    requires StrLe(a, b) && StrLe(b, c)
    ensures StrLe(a, c)
  {
    if a != [] && a[0] == b[0] && b[0] == c[0] {
      StrLeTrans(a[1..], b[1..], c[1..]);
    }
  }

  /** A lower bound of `b` below which `a` lies bounds every element above `b`. */
  lemma StrLeBelowAll(a: string, b: string, xs: seq<string>)
    requires StrLe(a, b) && forall i :: 0 <= i < |xs| ==> StrLe(b, xs[i])
    ensures forall i :: 0 <= i < |xs| ==> StrLe(a, xs[i])
  {
    forall i | 0 <= i < |xs| ensures StrLe(a, xs[i]) {
      StrLeTrans(a, b, xs[i]);
    }
  }

  lemma StrLeAboveAll(a: string, b: string, xs: seq<string>)
    requires StrLe(b, a) && forall i :: 0 <= i < |xs| ==> StrLe(xs[i], b)
    ensures forall i :: 0 <= i < |xs| ==> StrLe(xs[i], a)
  {
    forall i | 0 <= i < |xs| ensures StrLe(xs[i], a) {
      StrLeTrans(xs[i], b, a);
    }
  }

  /** MIN over a non-empty column. */
  function MinText(xs: seq<string>): (m: string)
    requires xs != []
    ensures m in xs && forall i :: 0 <= i < |xs| ==> StrLe(m, xs[i])
  {
    if |xs| == 1 then StrLeRefl(xs[0]); xs[0]
    else
      var m := MinText(xs[1..]);
      StrLeTotal(xs[0], m);
      if StrLe(xs[0], m) then
        StrLeBelowAll(xs[0], m, xs[1..]);
        StrLeRefl(xs[0]);
        assert forall i :: 1 <= i < |xs| ==> xs[i] == xs[1..][i - 1];
        xs[0]
      else m
  }

  /** MAX over a non-empty column. */
  function MaxText(xs: seq<string>): (m: string)
    requires xs != []
    ensures m in xs && forall i :: 0 <= i < |xs| ==> StrLe(xs[i], m)
  {
    if |xs| == 1 then StrLeRefl(xs[0]); xs[0]
    else
      var m := MaxText(xs[1..]);
      StrLeTotal(xs[0], m);
      if StrLe(m, xs[0]) then
        StrLeAboveAll(xs[0], m, xs[1..]);
        StrLeRefl(xs[0]);
        assert forall i :: 1 <= i < |xs| ==> xs[i] == xs[1..][i - 1];
        xs[0]
      else m
  }

  // ---------------------------------------------------------------------------
  // GROUP BY showboat_id

  /** The distinct `showboat_id`s of the table, in order of first appearance. */
  function DocIds(rows: seq<Row>): (r: seq<string>)
    ensures forall i, j :: 0 <= i < j < |r| ==> r[i] != r[j]
    ensures forall i :: 0 <= i < |rows| ==> rows[i].showboatId in r
    ensures forall d :: d in r ==> DocRows(rows, d) != []
  {
    if rows == [] then []
    else
      var init := rows[..|rows| - 1];
      var d := rows[|rows| - 1].showboatId;
      var p := DocIds(init);
      assert forall i :: 0 <= i < |init| ==> rows[i] == init[i];
      if d in p then p else p + [d]
  }

  /** The `created_at` column of some rows. */
  function CreatedAts(rows: seq<Row>): seq<string> {
    seq(|rows|, i requires 0 <= i < |rows| => rows[i].createdAt)
  }

  /** The aggregate row for one document that has rows. */
  function Summarize(rows: seq<Row>, doc: string): (s: Summary)
    requires DocRows(rows, doc) != []
    ensures s.showboatId == doc && s.chunkCount == |DocRows(rows, doc)| > 0
    ensures s.firstChunk in CreatedAts(DocRows(rows, doc)) && s.lastChunk in CreatedAts(DocRows(rows, doc))
    ensures forall row :: row in DocRows(rows, doc) ==> StrLe(s.firstChunk, row.createdAt) && StrLe(row.createdAt, s.lastChunk)
    ensures StrLe(s.firstChunk, s.lastChunk)
  {
    var d := DocRows(rows, doc);
    var times := CreatedAts(d);
    var first, last := MinText(times), MaxText(times);
    assert forall i :: 0 <= i < |d| ==> times[i] == d[i].createdAt;
    StrLeTrans(first, times[0], last);
    Summary(doc, |d|, first, last)
  }

  // ---------------------------------------------------------------------------
  // ORDER BY MAX(created_at) DESC

  predicate SortedDesc(s: seq<Summary>) {
    forall i, j :: 0 <= i < j < |s| ==> StrLe(s[j].lastChunk, s[i].lastChunk)
  }

  predicate DistinctIds(s: seq<Summary>) {
    forall i, j :: 0 <= i < j < |s| ==> s[i].showboatId != s[j].showboatId
  }

  /** Insert into a list ordered by `last_chunk`, descending. */
  function InsertDesc(x: Summary, s: seq<Summary>): seq<Summary> {
    if s == [] then [x]
    else if StrLe(s[0].lastChunk, x.lastChunk) then [x] + s
    else [s[0]] + InsertDesc(x, s[1..])
  }

  function SortDesc(s: seq<Summary>): seq<Summary> {
    if s == [] then [] else InsertDesc(s[0], SortDesc(s[1..]))
  }

  lemma {:induction false} InsertDescSpec(x: Summary, s: seq<Summary>)
    requires SortedDesc(s)
    ensures SortedDesc(InsertDesc(x, s))
    ensures multiset(InsertDesc(x, s)) == multiset(s) + multiset{x}
  {
    if s == [] {
    } else if StrLe(s[0].lastChunk, x.lastChunk) {
      forall j | 0 < j < |s| ensures StrLe(s[j].lastChunk, x.lastChunk) {
        StrLeTrans(s[j].lastChunk, s[0].lastChunk, x.lastChunk);
      }
    } else {
      var t := InsertDesc(x, s[1..]);
      InsertDescSpec(x, s[1..]);
      StrLeTotal(s[0].lastChunk, x.lastChunk);
      assert s == [s[0]] + s[1..];
      forall j | 0 <= j < |t| ensures StrLe(t[j].lastChunk, s[0].lastChunk) {
        assert t[j] in multiset(t);
        if t[j] != x {
          var i :| 0 <= i < |s[1..]| && s[1..][i] == t[j];
          assert s[i + 1] == t[j];
        }
      }
    }
  }

  lemma {:induction false} InsertDescDistinct(x: Summary, s: seq<Summary>)
    requires SortedDesc(s) && DistinctIds(s)
    requires forall e :: e in s ==> e.showboatId != x.showboatId
    ensures DistinctIds(InsertDesc(x, s))
  {
    if s != [] && !StrLe(s[0].lastChunk, x.lastChunk) {
      var t := InsertDesc(x, s[1..]);
      InsertDescDistinct(x, s[1..]);
      InsertDescSpec(x, s[1..]);
      forall j | 0 <= j < |t| ensures t[j].showboatId != s[0].showboatId {
        assert t[j] in multiset(t);
        if t[j] != x {
          var i :| 0 <= i < |s[1..]| && s[1..][i] == t[j];
          assert s[i + 1] == t[j];
        }
      }
    }
  }

  /** Insertion sort yields a descending permutation that keeps ids distinct. */
  lemma {:induction false} SortDescSpec(s: seq<Summary>)
    ensures SortedDesc(SortDesc(s)) && multiset(SortDesc(s)) == multiset(s)
    ensures DistinctIds(s) ==> DistinctIds(SortDesc(s))
  {
    if s != [] {
      var t := SortDesc(s[1..]);
      SortDescSpec(s[1..]);
      InsertDescSpec(s[0], t);
      assert s == [s[0]] + s[1..];
      if DistinctIds(s) {
        forall e | e in t ensures e.showboatId != s[0].showboatId {
          assert e in multiset(s[1..]);
          var i :| 0 <= i < |s[1..]| && s[1..][i] == e;
          assert s[i + 1] == e;
        }
        InsertDescDistinct(s[0], t);
      }
    }
  }

  // ---------------------------------------------------------------------------
  // The index

  /** The summaries in order of first appearance, before sorting. */
  function Summaries(rows: seq<Row>): (u: seq<Summary>)
    ensures DistinctIds(u)
    ensures |u| == |DocIds(rows)|
    ensures forall i :: 0 <= i < |u| ==> u[i].showboatId == DocIds(rows)[i] && u[i] == Summarize(rows, u[i].showboatId)
  {
    var ids := DocIds(rows);
    seq(|ids|, i requires 0 <= i < |ids| => Summarize(rows, ids[i]))
  }

  /**
   * The `documents` list the index page renders: one entry per document,
   * most recently active first.
   */
  function Index(rows: seq<Row>): (r: seq<Summary>)
    ensures SortedDesc(r) && DistinctIds(r)
    ensures multiset(r) == multiset(Summaries(rows))
  {
    SortDescSpec(Summaries(rows));
    SortDesc(Summaries(rows))
  }

  /** Every entry is its document's aggregate: count, earliest and latest `created_at`. */
  lemma IndexEntriesAreAggregates(rows: seq<Row>)
    ensures forall e :: e in Index(rows) ==>
      DocRows(rows, e.showboatId) != [] && e == Summarize(rows, e.showboatId)
  {
    var u := Summaries(rows);
    SortDescSpec(u);
    forall e | e in Index(rows)
      ensures DocRows(rows, e.showboatId) != [] && e == Summarize(rows, e.showboatId)
    {
      assert e in multiset(u);
      var i :| 0 <= i < |u| && u[i] == e;
    }
  }

  /** Every document with a row in the table has an entry. */
  lemma IndexCoversEveryDocument(rows: seq<Row>)
    ensures forall i :: 0 <= i < |rows| ==> rows[i].showboatId in (set e | e in Index(rows) :: e.showboatId)
  {
    var u := Summaries(rows);
    var ids := DocIds(rows);
    SortDescSpec(u);
    forall i | 0 <= i < |rows|
      ensures rows[i].showboatId in (set e | e in Index(rows) :: e.showboatId)
    {
      var j :| 0 <= j < |ids| && ids[j] == rows[i].showboatId;
      assert u[j] in multiset(Index(rows));
    }
  }

  /** A document whose rows were all popped has no entry. */
  lemma IndexOmitsEmptiedDocuments(rows: seq<Row>, doc: string)
    requires DocRows(rows, doc) == []
    ensures forall e :: e in Index(rows) ==> e.showboatId != doc
  {
    IndexEntriesAreAggregates(rows);
  }
}
