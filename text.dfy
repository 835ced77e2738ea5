/**
 * The text pieces of the warning message: the threshold as Python renders
 * `float(t)` for an integer `t`, and the origins joined with ", "
 * (samples_report.py:34,38,40).
 */
module Text {

  predicate IsDigit(c: char) {
    '0' as int <= c as int <= '9' as int
  }

  function DigitChar(d: nat): (c: char)
    requires d < 10
    ensures IsDigit(c) && c as int - '0' as int == d
  {
    ('0' as int + d) as char
  }

  /** The decimal digits of `n`, most significant first, without leading zeros. */
  function Digits(n: nat): (s: string)
    ensures |s| >= 1
    ensures forall i :: 0 <= i < |s| ==> IsDigit(s[i])
    ensures s[0] == '0' ==> n == 0
    ensures n < 10 ==> |s| == 1
  {
    if n < 10 then [DigitChar(n)] else Digits(n / 10) + [DigitChar(n % 10)]
  }

  /** The value of a string of decimal digits. */
  function DigitsValue(s: string): nat
    requires forall i :: 0 <= i < |s| ==> IsDigit(s[i])
  {
    if s == [] then 0
    else
      assert IsDigit(s[|s| - 1]);
      DigitsValue(s[..|s| - 1]) * 10 + (s[|s| - 1] as int - '0' as int)
  }

  /**
   * An optional minus sign, decimal digits without a leading zero (zero
   * itself is the single digit "0", and never signed), then ".0".
   */
  predicate FloatShape(s: string) {
    && |s| >= 3
    && (s[0] == '-' || IsDigit(s[0]))
    && (forall i :: 1 <= i < |s| - 2 ==> IsDigit(s[i]))
    && s[|s| - 2..] == ".0"
    && (s[0] == '-' ==> |s| >= 4 && s[1] != '0')
    && (s[0] == '0' ==> |s| == 3)
  }

  /** `str(float(t))` for an integer `t`: its decimal digits, a sign when negative, then ".0". */
  function FloatText(t: int): (s: string)
    ensures FloatShape(s)
  {
    (if t < 0 then "-" + Digits(-t) else Digits(t)) + ".0"
  }

  /** The integer written before the ".0" of a `FloatText`. */
  function FloatTextValue(s: string): int
    requires FloatShape(s)
  {
    if s[0] == '-' then -(DigitsValue(s[1..|s| - 2]) as int) else DigitsValue(s[..|s| - 2])
  }

  /** Reading the digits of `n` back gives `n`. */
  lemma {:induction false} DigitsRoundTrip(n: nat)
    ensures DigitsValue(Digits(n)) == n
  {
    if n >= 10 {
      DigitsRoundTrip(n / 10);
      var s := Digits(n);
      assert s[..|s| - 1] == Digits(n / 10);
    }
  }

  /** The threshold text in the warning gives back the threshold. */
  lemma FloatTextRoundTrip(t: int)
    ensures FloatTextValue(FloatText(t)) == t
  {
    var s := FloatText(t);
    if t < 0 {
      assert s[1..|s| - 2] == Digits(-t);
      DigitsRoundTrip(-t);
    } else {
      assert s[..|s| - 2] == Digits(t);
      DigitsRoundTrip(t);
    }
  }

  /**
   * `', '.join(origins)` for one-character origins: origin `i` sits at
   * position `3 * i`, with ", " between consecutive origins.
   */
  function JoinOrigins(cs: seq<char>): (s: string)
    ensures cs == [] ==> s == ""
    ensures cs != [] ==> |s| == 3 * |cs| - 2
    ensures forall i :: 0 <= i < |cs| ==> s[3 * i] == cs[i]
    ensures forall i :: 0 <= i < |cs| - 1 ==> s[3 * i + 1] == ',' && s[3 * i + 2] == ' '
  {
    if cs == [] then ""
    else if |cs| == 1 then [cs[0]]
    else
      var rest := JoinOrigins(cs[1..]);
      var s := [cs[0]] + ", " + rest;
      assert s[1] == ',' && s[2] == ' ';
      forall i | 1 <= i < |cs| ensures s[3 * i] == cs[i] {
        var j := i - 1;
        assert s[3 * i] == rest[3 * j] == cs[1..][j];
      }
      forall i | 1 <= i < |cs| - 1 ensures s[3 * i + 1] == ',' && s[3 * i + 2] == ' ' {
        var j := i - 1;
        assert s[3 * i + 1] == rest[3 * j + 1] && s[3 * i + 2] == rest[3 * j + 2];
      }
      s
  }

  /** Reads the origins back out of a ", "-joined list. */
  function SplitOrigins(s: string): seq<char>
    decreases |s|
  {
    if s == [] then []
    else if |s| < 4 then [s[0]]
    else [s[0]] + SplitOrigins(s[3..])
  }

  /** Splitting the joined list gives back every origin, in order. */
  lemma {:induction false} JoinSplit(cs: seq<char>)
    ensures SplitOrigins(JoinOrigins(cs)) == cs
  {
    if |cs| > 1 {
      JoinSplit(cs[1..]);
      assert JoinOrigins(cs)[3..] == JoinOrigins(cs[1..]);
    }
  }
}
