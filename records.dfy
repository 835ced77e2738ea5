/**
 * The sample records of the QC report, the origin key derived from each
 * sample identifier, and the QC-failure criterion (samples_report.py:19-22).
 */
module Records {

  /** The outcome of a step that can raise: a value, or the error it raises. */
  datatype Result<+T, +E> = Success(value: T) | Failure(error: E)

  /**
   * One row of the samples table, reduced to the three columns the report
   * reads: the identifier in the first column, the percentage of covered
   * bases and the boolean QC flag.
   */
  datatype Record = Record(sampleId: string, pctCovered: real, qcPass: bool)

  /**
   * The errors a report run can raise. `IndexError` is raised by `x[1]` when
   * an identifier has fewer than two characters; Python reports only the
   * message, and `index` (the position of the offending record) together
   * with `sampleId` is what this model adds to identify it. `OverflowError`
   * is raised by `float(fail_val)` when the threshold is too large for a
   * double.
   */
  datatype Error = IndexError(index: nat, sampleId: string) | OverflowError

  /** A record whose identifier has a character at index 1. */
  predicate HasOrigin(r: Record) {
    |r.sampleId| >= 2
  }

  /**
   * The query `pct_covered_bases < 95 | qc_pass == False`: coverage strictly
   * below 95 fails on its own, a cleared flag fails on its own, and coverage
   * of exactly 95 with the flag set passes.
   */
  predicate FailsQc(r: Record)
    ensures r.pctCovered < 95.0 ==> FailsQc(r)
    ensures !r.qcPass ==> FailsQc(r)
    ensures r.pctCovered >= 95.0 && r.qcPass ==> !FailsQc(r)
  {
    r.pctCovered < 95.0 || !r.qcPass
  }

  /**
   * The `origin` column: the character at index 1 of every identifier, in
   * record order. `apply` visits the records in order, so the first record
   * without an origin is the one that raises.
   */
  function Origins(rs: seq<Record>): (res: Result<seq<char>, Error>)
    ensures res.Success? <==> forall i :: 0 <= i < |rs| ==> HasOrigin(rs[i])
    ensures res.Success? ==>
      && |res.value| == |rs|
      && forall i :: 0 <= i < |rs| ==> res.value[i] == rs[i].sampleId[1]
    ensures res.Failure? ==>
      && res.error.IndexError?
      && res.error.index < |rs|
      && !HasOrigin(rs[res.error.index])
      && res.error.sampleId == rs[res.error.index].sampleId
      && forall i :: 0 <= i < res.error.index ==> HasOrigin(rs[i])
  {
    if rs == [] then Success([])
    else if !HasOrigin(rs[0]) then Failure(IndexError(0, rs[0].sampleId))
    else match Origins(rs[1..])
      case Failure(e) => Failure(IndexError(e.index + 1, e.sampleId))
      case Success(os) => Success([rs[0].sampleId[1]] + os)
  }

  /** The positions of the records with origin `c` that fail QC. */
  function FailingPositions(rs: seq<Record>, os: seq<char>, c: char): set<int>
    requires |os| == |rs|
  {
    set i | 0 <= i < |rs| && os[i] == c && FailsQc(rs[i])
  }

  /** Every position of `a` moved up by one. */
  function Shift(a: set<int>): set<int> {
    set i | i in a :: i + 1
  }

  /** Shifting a set of positions below `n` by one keeps its size. */
  lemma {:induction false} ShiftSize(a: set<int>, n: nat)
    requires forall i :: i in a ==> 0 <= i < n
    ensures |Shift(a)| == |a|
  {
    if n > 0 {
      var b := a - {n - 1};
      ShiftSize(b, n - 1);
      if n - 1 in a {
        assert a == b + {n - 1};
        assert Shift(a) == Shift(b) + {n};
        assert n !in Shift(b);
      } else {
        assert a == b;
      }
    } else {
      assert forall i :: i !in a;
      assert a == {};
      assert forall i :: i !in Shift(a);
      assert Shift(a) == {};
    }
  }

  /** The failing positions of a non-empty column: the first record, then the rest shifted by one. */
  lemma FailingPositionsCons(rs: seq<Record>, os: seq<char>)
    requires |os| == |rs| && rs != []
    ensures forall c :: (|FailingPositions(rs, os, c)| ==
      (if os[0] == c && FailsQc(rs[0]) then 1 else 0) + |FailingPositions(rs[1..], os[1..], c)|)
  {
    forall c ensures (|FailingPositions(rs, os, c)| ==
      (if os[0] == c && FailsQc(rs[0]) then 1 else 0) + |FailingPositions(rs[1..], os[1..], c)|)
    {
      var tail := FailingPositions(rs[1..], os[1..], c);
      var shifted := Shift(tail);
      ShiftSize(tail, |rs| - 1);
      var head: set<int> := if os[0] == c && FailsQc(rs[0]) then {0} else {};
      assert FailingPositions(rs, os, c) == head + shifted by {
        forall i | i in FailingPositions(rs, os, c) ensures i in head + shifted {
          if i > 0 {
            assert os[1..][i - 1] == c && FailsQc(rs[1..][i - 1]);
            assert i - 1 in tail;
          }
        }
        forall i | i in shifted ensures i in FailingPositions(rs, os, c) {
          var j :| j in tail && i == j + 1;
          assert os[1..][j] == os[i] && rs[1..][j] == rs[i];
        }
      }
      assert 0 !in shifted;
    }
  }

  /** The origins the first record contributes to the failing origins: its own, when it fails. */
  function HeadFailing(rs: seq<Record>, os: seq<char>): seq<char>
    requires |os| == |rs| && rs != []
  {
    if FailsQc(rs[0]) then [os[0]] else []
  }

  /** The failing origins of the rest, with the first record's in front, hold every failing position's origin. */
  lemma FailingMembersStep(rs: seq<Record>, os: seq<char>, rest: seq<char>)
    requires |os| == |rs| && rs != []
    requires forall c :: c in rest <==>
      exists i :: 0 <= i < |rs| - 1 && os[1..][i] == c && FailsQc(rs[1..][i])
    ensures forall c :: c in HeadFailing(rs, os) + rest <==>
      exists i :: 0 <= i < |rs| && os[i] == c && FailsQc(rs[i])
  {
    forall c | c in rest ensures exists i :: 1 <= i < |rs| && os[i] == c && FailsQc(rs[i]) {
      var i :| 0 <= i < |rs| - 1 && os[1..][i] == c && FailsQc(rs[1..][i]);
      assert os[i + 1] == c && FailsQc(rs[i + 1]);
    }
    forall c | exists i :: 1 <= i < |rs| && os[i] == c && FailsQc(rs[i]) ensures c in rest {
      var i :| 1 <= i < |rs| && os[i] == c && FailsQc(rs[i]);
      assert os[1..][i - 1] == c && FailsQc(rs[1..][i - 1]);
    }
  }

  /** The same step for the number of times each origin occurs. */
  lemma FailingCountStep(rs: seq<Record>, os: seq<char>, rest: seq<char>)
    requires |os| == |rs| && rs != []
    requires forall c :: multiset(rest)[c] == |FailingPositions(rs[1..], os[1..], c)|
    ensures forall c :: multiset(HeadFailing(rs, os) + rest)[c] == |FailingPositions(rs, os, c)|
  {
    FailingPositionsCons(rs, os);
    assert multiset(HeadFailing(rs, os) + rest) == multiset(HeadFailing(rs, os)) + multiset(rest);
  }

  /**
   * The origins of the records that fail QC, in record order: the `origin`
   * column of the frame the query keeps. Each origin occurs once per failing
   * record that carries it.
   */
  function FailingOrigins(rs: seq<Record>, os: seq<char>): (f: seq<char>)
    requires |os| == |rs|
    ensures |f| <= |rs|
    ensures forall c :: c in f <==> exists i :: 0 <= i < |rs| && os[i] == c && FailsQc(rs[i])
    ensures forall c :: multiset(f)[c] == |FailingPositions(rs, os, c)|
  {
    if rs == [] then
      assert forall c :: FailingPositions(rs, os, c) == {} by {
        forall c ensures FailingPositions(rs, os, c) == {} {
          assert forall i :: i !in FailingPositions(rs, os, c);
        }
      }
      []
    else
      var rest := FailingOrigins(rs[1..], os[1..]);
      FailingMembersStep(rs, os, rest);
      FailingCountStep(rs, os, rest);
      HeadFailing(rs, os) + rest
  }

  /** Every record whose origin is `c` fails QC. */
  predicate AllFail(rs: seq<Record>, os: seq<char>, c: char)
    requires |os| == |rs|
  {
    forall i :: 0 <= i < |rs| && os[i] == c ==> FailsQc(rs[i])
  }

  /** `AllFail` over a non-empty column: the first record, then the rest. */
  lemma AllFailCons(rs: seq<Record>, os: seq<char>, c: char)
    requires |os| == |rs| && rs != []
    ensures AllFail(rs, os, c) <==>
      (os[0] == c ==> FailsQc(rs[0])) && AllFail(rs[1..], os[1..], c)
  {
  }

  /**
   * Each record contributes at most once to the failing origins, and only to
   * its own origin: per origin, the failing count never exceeds the total
   * count, and the two are equal exactly when every record of that origin
   * fails QC.
   */
  lemma {:induction false} FailingWithinOrigin(rs: seq<Record>, os: seq<char>)
    requires |os| == |rs|
    ensures multiset(FailingOrigins(rs, os)) <= multiset(os)
    ensures forall c :: multiset(FailingOrigins(rs, os))[c] == multiset(os)[c] <==> AllFail(rs, os, c)
  {
    if rs != [] {
      FailingWithinOrigin(rs[1..], os[1..]);
      var rest := FailingOrigins(rs[1..], os[1..]);
      var head := HeadFailing(rs, os);
      assert FailingOrigins(rs, os) == head + rest;
      assert multiset(os) == multiset{os[0]} + multiset(os[1..]) by {
        assert os == [os[0]] + os[1..];
      }
      forall c
        ensures multiset(FailingOrigins(rs, os))[c] == multiset(os)[c] <==> AllFail(rs, os, c)
      {
        AllFailCons(rs, os, c);
      }
    }
  }
}
