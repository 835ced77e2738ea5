/**
 * The per-origin summary `table_totals`: the grouped failing count joined
 * with the grouped total count, and the failure percentage of each row
 * (samples_report.py:22-31).
 */
module Summary {
  import opened Records
  import opened Grouping

  /** One row of `table_totals`, indexed by its origin. */
  datatype Row = Row(origin: char, nFail: nat, nTotal: nat)

  /** Origins strictly ascending: the order the grouped tables give the rows. */
  predicate Ascending(rows: seq<Row>) {
    forall i, j :: 0 <= i < j < |rows| ==> rows[i].origin < rows[j].origin
  }

  /** The index of a summary table. */
  function OriginsOf(rows: seq<Row>): (os: seq<char>)
    ensures |os| == |rows| && forall j :: 0 <= j < |rows| ==> os[j] == rows[j].origin
  {
    if rows == [] then [] else [rows[0].origin] + OriginsOf(rows[1..])
  }

  /**
   * `pd.merge(fails, totals, left_index=True, right_index=True)`: an inner
   * join on the key, in the order of the left table. A key that only one
   * side has produces no row.
   */
  function InnerJoin(fails: seq<Entry>, totals: seq<Entry>): (rows: seq<Row>)
    requires Wellformed(fails) && Wellformed(totals)
    ensures Ascending(rows)
    ensures forall j :: 0 <= j < |rows| ==>
      && rows[j].origin in KeySet(fails) && rows[j].origin in KeySet(totals)
      && rows[j].nFail == CountOf(fails, rows[j].origin)
      && rows[j].nTotal == CountOf(totals, rows[j].origin)
    ensures forall k :: k in KeySet(fails) && k in KeySet(totals) ==> k in OriginsOf(rows)
  {
    if fails == [] then []
    else
      var e := fails[0];
      var rest := InnerJoin(fails[1..], totals);
      KeysAboveHead(fails);
      if e.key in KeySet(totals) then
        var rows := [Row(e.key, e.count, CountOf(totals, e.key))] + rest;
        assert rows[1..] == rest;
        rows
      else
        rest
  }

  /**
   * `table_totals` for a record set: the failing origins and all origins
   * grouped and counted, then inner-joined. Fails with the error of the
   * first identifier that has no origin.
   */
  function Summarize(rs: seq<Record>): (res: Result<seq<Row>, Error>)
    ensures res.Success? <==> Origins(rs).Success?
    ensures res.Failure? ==> res.error == Origins(rs).error
  {
    match Origins(rs)
    case Failure(e) => Failure(e)
    case Success(os) =>
      Success(InnerJoin(GroupCount(FailingOrigins(rs, os)), GroupCount(os)))
  }

  /**
   * `n_fail_qc / n_total_samples * 100`, computed exactly: the percentage
   * `p` for which `p` percent of `n_total_samples` is `n_fail_qc`.
   */
  function Pct(row: Row): (p: real)
    requires row.nTotal > 0
    ensures p * row.nTotal as real == row.nFail as real * 100.0
  {
    (row.nFail as real / row.nTotal as real) * 100.0
  }

  /**
   * The rows of the summary are exactly the origins with at least one
   * failing record, in ascending order; origins whose records all pass do
   * not appear.
   */
  lemma SummaryOrigins(rs: seq<Record>)
    requires Origins(rs).Success?
    ensures Ascending(Summarize(rs).value)
    ensures forall c :: c in OriginsOf(Summarize(rs).value) <==>
      (exists i :: 0 <= i < |rs| && rs[i].sampleId[1] == c && FailsQc(rs[i]))
  {
    var os := Origins(rs).value;
    var f := FailingOrigins(rs, os);
    assert forall c :: c in f ==> c in os;
    JoinKeys(f, os);
    forall c ensures c in f <==>
      (exists i :: 0 <= i < |rs| && rs[i].sampleId[1] == c && FailsQc(rs[i]))
    {
      if c in f {
        var i :| 0 <= i < |rs| && os[i] == c && FailsQc(rs[i]);
        assert rs[i].sampleId[1] == c;
      }
      if exists i :: 0 <= i < |rs| && rs[i].sampleId[1] == c && FailsQc(rs[i]) {
        var i :| 0 <= i < |rs| && rs[i].sampleId[1] == c && FailsQc(rs[i]);
        assert os[i] == c;
      }
    }
  }

  /**
   * Joining the grouped count of a sub-column with the grouped count of the
   * whole column keeps exactly the keys of the sub-column.
   */
  lemma JoinKeys(f: seq<char>, os: seq<char>)
    requires forall c :: c in f ==> c in os
    ensures forall c :: c in OriginsOf(InnerJoin(GroupCount(f), GroupCount(os))) <==> c in f
  {
  }

  /**
   * Every summary row counts the records of its origin: `n_total_samples`
   * is the number of records with that origin, `n_fail_qc` the number of
   * positions holding a record of that origin that fails QC, `1 <= n_fail_qc <= n_total_samples`, and the two
   * are equal exactly when every record of that origin fails.
   */
  lemma SummaryCounts(rs: seq<Record>)
    requires Origins(rs).Success?
    ensures forall row :: row in Summarize(rs).value ==>
      && row.nTotal == multiset(Origins(rs).value)[row.origin]
      && row.nFail == |FailingPositions(rs, Origins(rs).value, row.origin)|
      && 1 <= row.nFail <= row.nTotal
      && (row.nFail == row.nTotal <==>
          forall i :: 0 <= i < |rs| && rs[i].sampleId[1] == row.origin ==> FailsQc(rs[i]))
  {
    var os := Origins(rs).value;
    FailingWithinOrigin(rs, os);
    var f := FailingOrigins(rs, os);
    forall row | row in Summarize(rs).value ensures row.nFail >= 1 {
      KeyPresence(GroupCount(f), row.origin);
    }
  }

  /** The bounds of `SummaryCounts` alone: `1 <= n_fail_qc <= n_total_samples`. */
  lemma SummaryBounds(rs: seq<Record>)
    requires Origins(rs).Success?
    ensures forall row :: row in Summarize(rs).value ==> 1 <= row.nFail <= row.nTotal
  {
    SummaryCounts(rs);
  }

  /** Every summary row has a percentage in (0, 100]. */
  lemma PctRange(row: Row)
    requires 1 <= row.nFail <= row.nTotal
    ensures 0.0 < Pct(row) <= 100.0
  {
    var q := row.nFail as real / row.nTotal as real;
    assert q * row.nTotal as real == row.nFail as real;
    assert 0.0 < q <= 1.0;
  }

  /** Every row of the summary has a percentage in (0, 100]. */
  lemma SummaryPctRange(rs: seq<Record>)
    requires Origins(rs).Success?
    ensures forall row :: row in Summarize(rs).value ==> row.nTotal > 0 && 0.0 < Pct(row) <= 100.0
  {
    SummaryBounds(rs);
    forall row | row in Summarize(rs).value ensures row.nTotal > 0 && 0.0 < Pct(row) <= 100.0 {
      PctRange(row);
    }
  }

  /**
   * The percentage exceeds an integer threshold exactly when the
   * cross-multiplied integer comparison holds; at equality it does not.
   */
  lemma PctAbove(row: Row, t: int)
    requires row.nTotal > 0
    ensures Pct(row) > t as real <==> row.nFail * 100 > t * row.nTotal
  {
  }
}
