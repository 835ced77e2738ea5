/**
 * The threshold check on `table_totals` and the warning it raises
 * (samples_report.py:9,34-40).
 */
module Report {
  import opened Records
  import opened Summary
  import opened Text

  /** Every row has a positive total, so its percentage is defined. */
  predicate Defined(rows: seq<Row>) {
    forall j :: 0 <= j < |rows| ==> rows[j].nTotal > 0
  }

  /**
   * `pct > fail_val` for one row, with `fail_val` the threshold as a number:
   * more than `t` percent of the row's records fail, that is
   * `n_fail_qc * 100 > t * n_total_samples`.
   */
  predicate Exceeds(row: Row, t: int)
    requires row.nTotal > 0
    ensures Exceeds(row, t) <==> row.nFail * 100 > t * row.nTotal
  {
    PctAbove(row, t);
    Pct(row) > t as real
  }

  /** `any(table_totals["pct"] > fail_val)`: some row exceeds the threshold. */
  function AnyExceeds(rows: seq<Row>, t: int): (b: bool)
    requires Defined(rows)
    ensures b <==> exists j :: 0 <= j < |rows| && Exceeds(rows[j], t)
  {
    if rows == [] then false
    else
      var rest := AnyExceeds(rows[1..], t);
      assert rest <==> exists j :: 1 <= j < |rows| && Exceeds(rows[j], t) by {
        if rest {
          var j :| 0 <= j < |rows| - 1 && Exceeds(rows[1..][j], t);
          assert rows[j + 1] == rows[1..][j];
        }
        if exists j :: 1 <= j < |rows| && Exceeds(rows[j], t) {
          var j :| 1 <= j < |rows| && Exceeds(rows[j], t);
          assert rows[1..][j - 1] == rows[j];
        }
      }
      Exceeds(rows[0], t) || rest
  }

  /** `table_totals.query(f"pct >{fail_val}")`: the rows above the threshold, in table order. */
  function FlaggedRows(rows: seq<Row>, t: int): (flagged: seq<Row>)
    requires Defined(rows)
    ensures Defined(flagged)
    ensures forall row :: row in flagged <==> row in rows && row.nTotal > 0 && Exceeds(row, t)
    ensures Ascending(rows) ==> Ascending(flagged)
  {
    if rows == [] then []
    else
      var rest := FlaggedRows(rows[1..], t);
      assert forall row :: row in rest ==> row in rows[1..];
      if Exceeds(rows[0], t) then [rows[0]] + rest else rest
  }

  /** The fixed text in front of the threshold in the warning. */
  const Lead: string := "The following origins have more than "

  /** The fixed text between the threshold and the list of origins. */
  const Tail: string := "% failed samples: "

  /**
   * The text in front of the list of origins in the warning: the fixed
   * lead, the threshold as `float` text, which reads back as `t`, then the
   * fixed tail.
   */
  function Header(t: int): (h: string)
    ensures |h| == |Lead| + |FloatText(t)| + |Tail|
    ensures h[..|Lead|] == Lead && h[|h| - |Tail|..] == Tail
    ensures FloatShape(h[|Lead|..|h| - |Tail|]) && FloatTextValue(h[|Lead|..|h| - |Tail|]) == t
  {
    var h := Lead + FloatText(t) + Tail;
    assert h[|Lead|..|h| - |Tail|] == FloatText(t);
    FloatTextRoundTrip(t);
    h
  }

  /**
   * The warning message for the threshold `t` and the flagged origins: the
   * header, then the origins joined with ", ", which split back out of the
   * message in order.
   */
  function WarningMessage(t: int, origins: seq<char>): (m: string)
    ensures |m| >= |Header(t)| && m[..|Header(t)|] == Header(t)
    ensures m[|Header(t)|..] == JoinOrigins(origins)
    ensures SplitOrigins(m[|Header(t)|..]) == origins
  {
    var m := Header(t) + JoinOrigins(origins);
    assert m[|Header(t)|..] == JoinOrigins(origins);
    JoinSplit(origins);
    m
  }

  /** `2^n`. */
  function Pow2(n: nat): (p: nat)
    ensures p >= 1
  {
    if n == 0 then 1 else 2 * Pow2(n - 1)
  }

  /**
   * `float(fail_val)` raises OverflowError: the magnitude of `t` is at least
   * 2^1024 - 2^970, from where rounding to the nearest double goes past the
   * largest finite one.
   */
  predicate FloatOverflows(t: int) {
    t >= Pow2(1024) - Pow2(970) || -t >= Pow2(1024) - Pow2(970)
  }

  /**
   * What one run reports: nothing when no origin exceeds the threshold, or
   * the rows that do (what is printed) and the text of the warning.
   */
  datatype Outcome = Passed | Warned(failed: seq<Row>, message: string)

  /**
   * The whole report: the summary of the records, then the warning when any
   * row's percentage exceeds `t`. An identifier without an origin stops the
   * run with its IndexError; otherwise a threshold too large for a double
   * stops it with OverflowError once the summary is built.
   */
  function Run(rs: seq<Record>, t: int): (res: Result<Outcome, Error>)
    ensures res.Failure? <==> Origins(rs).Failure? || FloatOverflows(t)
    ensures Origins(rs).Failure? ==> res == Failure(Origins(rs).error)
    ensures Origins(rs).Success? && FloatOverflows(t) ==> res == Failure(OverflowError)
  {
    match Summarize(rs)
    case Failure(e) => Failure(e)
    case Success(rows) =>
      SummaryCounts(rs);
      if FloatOverflows(t) then Failure(OverflowError)
      else if AnyExceeds(rows, t) then
        var flagged := FlaggedRows(rows, t);
        Success(Warned(flagged, WarningMessage(t, OriginsOf(flagged))))
      else
        Success(Passed)
  }

  /** `any` holds exactly when the query keeps at least one row. */
  lemma {:induction false} AnyIffFlagged(rows: seq<Row>, t: int)
    requires Defined(rows)
    ensures AnyExceeds(rows, t) <==> FlaggedRows(rows, t) != []
  {
    if rows != [] {
      AnyIffFlagged(rows[1..], t);
    }
  }

  /**
   * The warning is raised exactly when some summary row has more than `t`
   * percent failing records; it carries every such row and no other, in
   * ascending origin order, and its message is the header followed by
   * their origins joined with ", ".
   */
  lemma RunWarning(rs: seq<Record>, t: int)
    requires Origins(rs).Success? && !FloatOverflows(t)
    ensures Run(rs, t).Success?
    ensures Run(rs, t).value.Warned? <==>
      exists row :: row in Summarize(rs).value && row.nFail * 100 > t * row.nTotal
    ensures Run(rs, t).value.Warned? ==>
      && Ascending(Run(rs, t).value.failed)
      && (forall row :: row in Run(rs, t).value.failed <==>
            row in Summarize(rs).value && row.nFail * 100 > t * row.nTotal)
      && Run(rs, t).value.message[..|Header(t)|] == Header(t)
      && Run(rs, t).value.message[|Header(t)|..] == JoinOrigins(OriginsOf(Run(rs, t).value.failed))
      && SplitOrigins(Run(rs, t).value.message[|Header(t)|..]) == OriginsOf(Run(rs, t).value.failed)
  {
    var rows := Summarize(rs).value;
    SummaryCounts(rs);
    SummaryOrigins(rs);
    AnyIffFlagged(rows, t);
    var flagged := FlaggedRows(rows, t);
    if flagged == [] {
      assert forall row :: row in rows ==> !Exceeds(row, t);
    }
  }

  /**
   * With a threshold at or below zero every summary row is flagged, since
   * each has at least one failing record.
   */
  lemma NonPositiveThresholdFlagsAll(rs: seq<Record>, t: int)
    requires Origins(rs).Success? && t <= 0
    ensures forall row :: row in Summarize(rs).value ==> row.nFail * 100 > t * row.nTotal
  {
    SummaryBounds(rs);
    forall row | row in Summarize(rs).value ensures row.nFail * 100 > t * row.nTotal {
      RowAboveNonPositive(row, t);
    }
  }

  /** One row with a failing record is above a threshold at or below zero. */
  lemma RowAboveNonPositive(row: Row, t: int)
    requires 1 <= row.nFail && t <= 0
    ensures row.nFail * 100 > t * row.nTotal
  {
  }

  /** With a threshold of 100 or more no warning is ever raised. */
  lemma FullThresholdNeverWarns(rs: seq<Record>, t: int)
    requires Origins(rs).Success? && t >= 100 && !FloatOverflows(t)
    ensures Run(rs, t) == Success(Passed)
  {
    SummaryBounds(rs);
    RunWarning(rs, t);
    forall row | row in Summarize(rs).value ensures row.nFail * 100 <= t * row.nTotal {
      RowBelowFull(row, t);
    }
  }

  /** One row with no more failing than total records is not above a threshold of 100 or more. */
  lemma RowBelowFull(row: Row, t: int)
    requires row.nFail <= row.nTotal && t >= 100
    ensures row.nFail * 100 <= t * row.nTotal
  {
  }
}
