# QC failure report of sample origins, modelled in Dafny

`samples_report.py` reads a table of sequenced samples and warns about the
sample origins where too many samples failed quality control. Each sample's
origin is the second character of its identifier. A sample fails QC when
fewer than 95% of its bases are covered or when its `qc_pass` flag is false.
The script counts failing and total samples per origin and joins the two
counts into `table_totals`. It adds the failure percentage of each origin
and raises a warning naming every origin whose percentage is strictly above
an integer threshold.

The model is pure, like the script's core: datatypes, functions over
sequences and lemmas. It has five modules, one per step of the pipeline:

- `Records` (`records.dfy`): the `Record` datatype, the `origin` column and
  its `IndexError` as a `Result`, the QC criterion, the failing subset.
- `Grouping` (`grouping.dfy`): `groupby(...).count()` as a table of
  `(key, count)` entries in ascending key order, built one row at a time
  and specified against multiset occurrence counts.
- `Summary` (`summary.dfy`): the inner `pd.merge` of the failing counts
  with the total counts, the `pct` column and its bounds.
- `Text` (`text.dfy`): the threshold as Python prints `float(t)`, and the
  `", "`-join of the flagged origins with its inverse.
- `Report` (`report.dfy`): `any(pct > t)`, the `query` for the flagged
  rows, the warning message, and the whole run `Run`.

Percentages are exact Dafny `real`s. `Summary.PctAbove` shows that
`pct > t` is the integer comparison `n_fail_qc * 100 > t * n_total_samples`.

The join is an inner merge, so an origin with no failing sample gets no
row in `table_totals`; no zero-count row is produced.
`Summary.SummaryOrigins` proves it.

The threshold is an integer (`type=int`) that the script converts with
`float`. A threshold whose magnitude is at least 2^1024 - 2^970 makes that
conversion raise `OverflowError`; `Report.Run` returns that error after
the summary is built, as the script does.

When no origin is flagged the script prints nothing. It writes no output
file and prints no success line.

## Model

| member | source | states |
|---|---|---|
| Records.Origins | samples_report.py:19 | the origin column holds character 1 of every identifier, in order; it fails exactly when some identifier is shorter than 2, and the error names the first such record |
| Records.FailsQc | samples_report.py:22 | a record fails QC on coverage below 95 alone or on a false flag alone; coverage of 95 or more with the flag set passes |
| Records.FailingOrigins | samples_report.py:22 | an origin occurs in the failing subset exactly when some record of that origin fails QC, and it occurs there once per failing record of that origin |
| Records.FailingPositionsCons | samples_report.py:22 | the failing positions of an origin are those of the remaining records, plus the first record when it has that origin and fails |
| Records.FailingWithinOrigin | samples_report.py:22-25 | per origin, failing records never outnumber all records, and the counts are equal exactly when every record of that origin fails |
| Grouping.Insert | samples_report.py:22-25 | counting one more row keeps the keys strictly ascending with positive counts, adds one to that key's count only, and adds one to the sum |
| Grouping.GroupCount | samples_report.py:22-25 | the grouped count has one entry per distinct value, in ascending order, whose count is the value's number of occurrences |
| Grouping.GroupCountTotal | samples_report.py:25 | summed over all origins, the grouped counts give back the number of records |
| Summary.InnerJoin | samples_report.py:30 | the join has a row for exactly the keys present on both sides, ascending, carrying each side's count |
| Summary.Summarize | samples_report.py:19-30 | the summary exists exactly when every identifier has an origin, and otherwise fails with the origin column's error |
| Summary.SummaryOrigins | samples_report.py:22-30 | the summary rows are ascending and are exactly the origins with at least one failing record; origins whose records all pass are dropped |
| Summary.SummaryCounts | samples_report.py:22-30 | each row's `n_total_samples` is the number of records of its origin, `n_fail_qc` the number of positions holding a failing record of that origin, 1 <= n_fail_qc <= n_total_samples, equal exactly when all of them fail |
| Summary.SummaryBounds | samples_report.py:30 | every summary row has 1 <= n_fail_qc <= n_total_samples |
| Summary.Pct | samples_report.py:31 | pct is the percentage for which pct percent of n_total_samples is n_fail_qc |
| Summary.PctRange | samples_report.py:31 | a row with 1 <= n_fail_qc <= n_total_samples has 0 < pct <= 100 |
| Summary.SummaryPctRange | samples_report.py:31 | every summary row has a defined pct with 0 < pct <= 100 |
| Summary.PctAbove | samples_report.py:31-35 | pct is above an integer threshold exactly when n_fail_qc * 100 > t * n_total_samples |
| Report.Exceeds | samples_report.py:35 | a row is above the threshold exactly when n_fail_qc * 100 > t * n_total_samples |
| Report.AnyExceeds | samples_report.py:35 | `any` holds exactly when some row is above the threshold |
| Report.FlaggedRows | samples_report.py:36 | the query keeps exactly the rows whose pct exceeds the threshold, and keeps them ascending |
| Report.AnyIffFlagged | samples_report.py:35-36 | `any(pct > t)` holds exactly when the query result is non-empty |
| Report.Header | samples_report.py:40 | the warning header is the fixed lead, the threshold text, which reads back as the threshold, and the fixed tail |
| Report.WarningMessage | samples_report.py:38-40 | the message is the header followed by the `", "`-join of the flagged origins, which splits back into exactly those origins, in order |
| Report.Run | samples_report.py:19-40 | the run fails exactly when the origin column fails, with its IndexError, or when the threshold overflows a double, with OverflowError |
| Report.RunWarning | samples_report.py:34-40 | the warning is raised exactly when some summary row has n_fail_qc * 100 > t * n_total_samples; it carries exactly those rows, ascending, and its message is the header followed by the `", "`-join of their origins, which reads back as exactly those origins |
| Report.NonPositiveThresholdFlagsAll | samples_report.py:34-36 | with a threshold at or below 0 every summary row is above it |
| Report.FullThresholdNeverWarns | samples_report.py:34-35 | with a threshold of 100 or more the run never warns |
| Text.FloatText | samples_report.py:34 | the threshold text is an optional minus sign, decimal digits without a leading zero (zero unsigned, as "0"), then ".0" |
| Text.FloatTextRoundTrip | samples_report.py:34-40 | the threshold text in the message reads back as the threshold |
| Text.JoinOrigins | samples_report.py:38 | origin i sits at position 3 * i of the joined text, with ", " between consecutive origins, and the text has length 3n - 2 |
| Text.JoinSplit | samples_report.py:38 | splitting the joined text gives back the origins, in order |

## Left out

- Command-line parsing (`argparse`, including the repeated `parse_args`
  call and the `-p` default next to `required=True`): the threshold is an
  `int` parameter of `Report.Run`.
- Reading the CSV file: the input is a `seq<Record>` with the identifier,
  coverage and flag columns already typed. Missing values, `NaN` coverage,
  non-string identifiers and the non-null semantics of pandas' `.count()`
  are not modelled. The identifier is taken to be the `sample` column,
  which the script reads both as `iloc[:, 0]` and by name.
- Printing the flagged rows and emitting the warning through `warnings`:
  `Report.Run` returns the flagged rows and the message text instead.
  Python's warning prefix (file, line, `UserWarning`) is not modelled.
- Floating-point arithmetic: `pct` is an exact real. In double arithmetic
  the quotient can round across an integer threshold; for example
  7 / 100 * 100 rounds to a value just above 7, so the script would flag
  such a row at threshold 7, and the model does not.
- Text.FloatText: renders `float(t)` as the integer's digits followed by
  ".0", which is Python's rendering only while |t| <= 2^53. Above that
  `float(t)` can round to a nearby double (2^53 + 1 prints as
  "9007199254740992.0"), and from 10^16 on it prints in exponent
  notation. Neither is modelled.
- Text.FloatTextRoundTrip: the threshold text reads back as `t` in the
  model for every `t`; in the script it reads back as `float(t)`, which
  differs from `t` for some |t| > 2^53, the first being 2^53 + 1. The
  comparison `pct > fail_val` is not affected by that rounding, because
  `pct` lies in (0, 100].
- The comment about sending results by email describes nothing the script
  does.
