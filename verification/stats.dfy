/** The statistics panel: the size reduction as a rounded percentage and the
    compression ratio with two decimals. Byte counts are naturals and the
    quotients are taken exactly; JavaScript's `Math.round` and `toFixed(2)`
    both round a tie upwards, which is what `RoundHalfUp` does. A division by
    zero yields JavaScript's `Infinity`, and 0 / 0 its `NaN`. */
module Stats {
  import opened Results
  import opened Rounding

  /** A non-negative number as the panel shows it after rounding: a finite
      count of units (whole percent, or hundredths), `Infinity` or `NaN`. */
  datatype Shown = Units(n: nat) | Infinity | NaN

  /** `scale * num / den` rounded to the nearest unit, as a JavaScript number would show it. */
  function RoundedQuotient(num: nat, den: nat, scale: nat): (r: Shown)
    ensures r.Units? <==> den > 0
    ensures r == NaN <==> num == 0 && den == 0
    ensures r.Units? ==> 2 * den * r.n <= 2 * (scale * num) + den < 2 * den * (r.n + 1)
  {
    if den > 0 then Units(RoundHalfUp(scale * num, den))
    else if num > 0 then Infinity
    else NaN
  }

  /** The "Reduction" line: whether the file shrank (shown in green, without
      a sign) and the rounded percentage of the original size by which it changed. */
  datatype Reduction = Reduction(saved: bool, percent: Shown)

  function ReductionOf(original: nat, compressed: nat): (r: Reduction)
    ensures r.saved <==> compressed < original
    ensures r.percent.Units? <==> original > 0
    ensures r.saved ==> r.percent.Units? && r.percent.n <= 100
    ensures r.percent == Infinity <==> original == 0 && compressed > 0
    ensures r.percent.Units? ==>
      var change := if r.saved then original - compressed else compressed - original;
      2 * original * r.percent.n <= 200 * change + original < 2 * original * (r.percent.n + 1)
  {
    if compressed < original then
      var p := RoundedQuotient(original - compressed, original, 100);
      assert p.n <= 100 by {
        if p.n > 100 {
          MulLe(101, p.n, 2 * original);
        }
      }
      Reduction(true, p)
    else
      Reduction(false, RoundedQuotient(compressed - original, original, 100))
  }

  /** The "Ratio" line: `x:1` when the file shrank, `1:x` otherwise, with x in hundredths. */
  datatype Ratio = Ratio(smaller: bool, hundredths: Shown)

  function RatioOf(original: nat, compressed: nat): (r: Ratio)
    ensures r.smaller <==> compressed < original
    ensures r.smaller ==> (r.hundredths == Infinity <==> compressed == 0)
    ensures r.hundredths.Units? <==> (if r.smaller then compressed > 0 else original > 0)
    ensures !r.smaller ==> (r.hundredths.Units? <==> original > 0)
    ensures !r.smaller ==> (r.hundredths == NaN <==> compressed == 0)
    ensures r.hundredths.Units? ==> r.hundredths.n >= 100
    ensures r.hundredths.Units? ==>
      var (big, small) := if r.smaller then (original, compressed) else (compressed, original);
      2 * small * r.hundredths.n <= 200 * big + small < 2 * small * (r.hundredths.n + 1)
  {
    var smaller := compressed < original;
    var big := if smaller then original else compressed;
    var small := if smaller then compressed else original;
    var h := RoundedQuotient(big, small, 100);
    assert h.Units? <==> small > 0;
    assert h.Units? ==> h.n >= 100 by {
      if h.Units? && h.n < 100 {
        MulLe(h.n + 1, 100, 2 * small);
        MulLe(small, big, 200);
      }
    }
    Ratio(compressed < original, h)
  }

  /** A smaller output never shows a smaller saving: the percentage is
      antitone in the compressed size. */
  lemma ReductionAntitone(original: nat, c1: nat, c2: nat)
    requires c1 <= c2 < original
    ensures ReductionOf(original, c1).percent.n >= ReductionOf(original, c2).percent.n
  {
    RoundHalfUpMonotone(100 * (original - c2), 100 * (original - c1), original);
  }

  /** The saving is shown as a full 100% exactly when the output is at most
      half a percent of the original. */
  lemma FullReductionIff(original: nat, compressed: nat)
    requires compressed < original
    ensures ReductionOf(original, compressed).percent == Units(100) <==> 200 * compressed <= original
  {
    if 200 * compressed <= original {
      RoundHalfUpUnique(100 * (original - compressed), original, 100);
    }
  }

  // ---- Rendering ---------------------------------------------------------

  predicate IsDigit(ch: char)
  {
    '0' <= ch <= '9'
  }

  predicate AllDigits(s: string)
  {
    forall i :: 0 <= i < |s| ==> IsDigit(s[i])
  }

  function DigitChar(d: nat): (ch: char)
    requires d < 10
    ensures IsDigit(ch)
  {
    (48 + d) as char
  }

  function DigitValue(ch: char): (d: nat)
    requires IsDigit(ch)
    ensures d < 10
  {
    (ch as int) - 48
  }

  /** JavaScript's decimal rendering of a non-negative integer: no sign, no
      leading zero. */
  function DecimalText(n: nat): (s: string)
    ensures 1 <= |s| && AllDigits(s)
    ensures |s| > 1 ==> s[0] != '0'
    decreases n
  {
    if n < 10 then [DigitChar(n)] else DecimalText(n / 10) + [DigitChar(n % 10)]
  }

  /** Reads a run of decimal digits. */
  function ParseDigits(s: string): (n: nat)
    requires AllDigits(s)
    decreases |s|
  {
    if |s| == 0 then 0 else 10 * ParseDigits(s[..|s| - 1]) + DigitValue(s[|s| - 1])
  }

  lemma {:induction false} ParseDecimalText(n: nat)
    ensures ParseDigits(DecimalText(n)) == n
    decreases n
  {
    if n >= 10 {
      var s := DecimalText(n);
      assert s[..|s| - 1] == DecimalText(n / 10);
      ParseDecimalText(n / 10);
    }
  }

  /** A number in a template literal after `Math.round`: a finite value is
      plain digits with no leading zero. */
  function WholeText(v: Shown): (s: string)
    ensures 1 <= |s| && s[0] != '-' && ':' !in s && '%' !in s
    ensures v.Units? ==> AllDigits(s) && (|s| > 1 ==> s[0] != '0')
  {
    match v
    case Units(n) => DecimalText(n)
    case Infinity => "Infinity"
    case NaN => "NaN"
  }

  /** `toFixed(2)` of a number held in hundredths. */
  function FixedText(v: Shown): (s: string)
    ensures 3 <= |s| && s[0] != '-' && ':' !in s && '%' !in s
    ensures v.Units? ==> 4 <= |s| && s[|s| - 3] == '.'
    ensures v.Units? ==> AllDigits(s[..|s| - 3]) && AllDigits(s[|s| - 2..])
    ensures v.Units? && |s| > 4 ==> s[0] != '0'
  {
    match v
    case Units(h) =>
      var whole := DecimalText(h / 100);
      var s := whole + "." + [DigitChar(h % 100 / 10), DigitChar(h % 10)];
      assert s[..|s| - 3] == whole;
      assert s[|s| - 2..] == [DigitChar(h % 100 / 10), DigitChar(h % 10)];
      s
    case Infinity => "Infinity"
    case NaN => "NaN"
  }

  /** The green or red text of the "Reduction" line: a minus sign exactly
      when nothing was saved, and a single percent sign, at the end. */
  function ReductionText(r: Reduction): (s: string)
    ensures 2 <= |s| && s[|s| - 1] == '%' && '%' !in s[..|s| - 1]
    ensures s[0] == '-' <==> !r.saved
    ensures r.percent.Units? ==>
      var body := s[(if r.saved then 0 else 1)..|s| - 1];
      AllDigits(body) && (|body| > 1 ==> body[0] != '0')
  {
    var w := WholeText(r.percent);
    var s := (if r.saved then "" else "-") + w + "%";
    assert s[..|s| - 1] == (if r.saved then "" else "-") + w;
    assert s[(if r.saved then 0 else 1)..|s| - 1] == w;
    s
  }

  /** The text of the "Ratio" line: `1:` in front exactly when the file did
      not shrink, `:1` behind exactly when it did, and no other colon. */
  function RatioText(r: Ratio): (s: string)
    ensures 5 <= |s|
    ensures s[..2] == "1:" <==> !r.smaller
    ensures s[|s| - 2..] == ":1" <==> r.smaller
    ensures r.smaller ==> ':' !in s[..|s| - 2]
    ensures !r.smaller ==> ':' !in s[2..]
    ensures r.hundredths.Units? ==>
      var x := if r.smaller then s[..|s| - 2] else s[2..];
      4 <= |x| && x[|x| - 3] == '.' && AllDigits(x[..|x| - 3]) && AllDigits(x[|x| - 2..])
      && (|x| > 4 ==> x[0] != '0')
  {
    var f := FixedText(r.hundredths);
    if r.smaller then
      var s := f + ":1";
      assert s[..|s| - 2] == f;
      assert s[1] == f[1];
      s
    else
      var s := "1:" + f;
      assert s[2..] == f;
      assert s[|s| - 2] == f[|f| - 2];
      s
  }

  // ---- Reading the panel back ---------------------------------------------

  function ParseWhole(s: string): Option<Shown>
  {
    if s == "Infinity" then Some(Infinity)
    else if s == "NaN" then Some(NaN)
    else if 1 <= |s| && AllDigits(s) then Some(Units(ParseDigits(s)))
    else None
  }

  function ParseFixed(s: string): Option<Shown>
  {
    if s == "Infinity" then Some(Infinity)
    else if s == "NaN" then Some(NaN)
    else if 4 <= |s| && s[|s| - 3] == '.' && AllDigits(s[..|s| - 3]) && AllDigits(s[|s| - 2..]) then
      Some(Units(100 * ParseDigits(s[..|s| - 3]) + ParseDigits(s[|s| - 2..])))
    else None
  }

  function ParseReduction(s: string): Option<Reduction>
  {
    if |s| == 0 || s[|s| - 1] != '%' then None
    else
      var saved := s[0] != '-';
      var body := if saved then s[..|s| - 1] else s[1..|s| - 1];
      match ParseWhole(body)
      case Some(v) => Some(Reduction(saved, v))
      case None => None
  }

  function ParseRatio(s: string): Option<Ratio>
  {
    if 2 <= |s| && s[..2] == "1:" then
      match ParseFixed(s[2..])
      case Some(v) => Some(Ratio(false, v))
      case None => None
    else if 2 <= |s| && s[|s| - 2..] == ":1" then
      match ParseFixed(s[..|s| - 2])
      case Some(v) => Some(Ratio(true, v))
      case None => None
    else None
  }

  lemma ParseWholeText(v: Shown)
    ensures ParseWhole(WholeText(v)) == Some(v)
  {
    if v.Units? {
      var s := DecimalText(v.n);
      assert s[0] != "Infinity"[0] && s[0] != "NaN"[0];
      ParseDecimalText(v.n);
    }
  }

  lemma ParseFixedText(v: Shown)
    ensures ParseFixed(FixedText(v)) == Some(v)
  {
    if v.Units? {
      var h := v.n;
      var whole := DecimalText(h / 100);
      var frac := [DigitChar(h % 100 / 10), DigitChar(h % 10)];
      var s := FixedText(v);
      assert s == whole + "." + frac;
      assert s[0] != "Infinity"[0] && s[0] != "NaN"[0];
      assert s[..|s| - 3] == whole && s[|s| - 3] == '.' && s[|s| - 2..] == frac;
      assert ParseDigits(whole) == h / 100 by {
        ParseDecimalText(h / 100);
      }
      assert ParseDigits(frac) == h % 100 by {
        TwoDigits(h);
      }
    }
  }

  /** The last two decimal digits read back as the remainder modulo 100. */
  lemma TwoDigits(h: nat)
    ensures ParseDigits([DigitChar(h % 100 / 10), DigitChar(h % 10)]) == h % 100
  {
    var frac := [DigitChar(h % 100 / 10), DigitChar(h % 10)];
    assert frac[..1] == [DigitChar(h % 100 / 10)];
    assert ParseDigits(frac[..1]) == h % 100 / 10;
    assert h % 10 == h % 100 % 10;
  }

  /** The reduction line determines the reduction it renders. */
  lemma ReductionTextRoundTrip(r: Reduction)
    ensures ParseReduction(ReductionText(r)) == Some(r)
  {
    var w := WholeText(r.percent);
    var s := ReductionText(r);
    if r.saved {
      assert s == w + "%";
      assert s[..|s| - 1] == w;
    } else {
      assert s == "-" + w + "%";
      assert s[1..|s| - 1] == w;
    }
    ParseWholeText(r.percent);
  }

  /** The ratio line determines the ratio it renders. */
  lemma RatioTextRoundTrip(r: Ratio)
    ensures ParseRatio(RatioText(r)) == Some(r)
  {
    var f := FixedText(r.hundredths);
    var s := RatioText(r);
    if r.smaller {
      assert s == f + ":1";
      assert s[1] == f[1];
      assert s[..2] != "1:" by {
        assert f[1] in f;
      }
      assert s[|s| - 2..] == ":1";
      assert s[..|s| - 2] == f;
    } else {
      assert s[..2] == "1:";
      assert s[2..] == f;
    }
    ParseFixedText(r.hundredths);
  }

  // ---- Examples ------------------------------------------------------------

  /** Halving a file: "50%" saved and a "2.00:1" ratio. */
  lemma HalvedExample()
    ensures ReductionText(ReductionOf(1000, 500)) == "50%"
    ensures RatioText(RatioOf(1000, 500)) == "2.00:1"
  {
    assert ReductionOf(1000, 500) == Reduction(true, Units(50)) by {
      RoundHalfUpUnique(100 * 500, 1000, 50);
    }
    assert RatioOf(1000, 500) == Ratio(true, Units(200)) by {
      RoundHalfUpUnique(100 * 1000, 500, 200);
    }
    assert DecimalText(50) == "50";
    assert FixedText(Units(200)) == "2.00";
  }

  /** A file that grows by half: "-50%" and "1:1.50". */
  lemma GrownExample()
    ensures ReductionText(ReductionOf(1000, 1500)) == "-50%"
    ensures RatioText(RatioOf(1000, 1500)) == "1:1.50"
  {
    assert ReductionOf(1000, 1500) == Reduction(false, Units(50)) by {
      RoundHalfUpUnique(100 * 500, 1000, 50);
    }
    assert RatioOf(1000, 1500) == Ratio(false, Units(150)) by {
      RoundHalfUpUnique(100 * 1500, 1000, 150);
    }
    assert DecimalText(50) == "50";
    assert FixedText(Units(150)) == "1.50";
  }

  /** An unchanged size is shown in red as "-0%" with ratio "1:1.00". */
  lemma UnchangedExample()
    ensures ReductionText(ReductionOf(1000, 1000)) == "-0%"
    ensures RatioText(RatioOf(1000, 1000)) == "1:1.00"
  {
    assert ReductionOf(1000, 1000) == Reduction(false, Units(0)) by {
      RoundHalfUpUnique(0, 1000, 0);
    }
    assert RatioOf(1000, 1000) == Ratio(false, Units(100)) by {
      RoundHalfUpUnique(100 * 1000, 1000, 100);
    }
    assert FixedText(Units(100)) == "1.00";
  }

  /** An empty output: "100%" saved and the ratio "Infinity:1". */
  lemma EmptyOutputExample()
    ensures ReductionText(ReductionOf(1000, 0)) == "100%"
    ensures RatioText(RatioOf(1000, 0)) == "Infinity:1"
  {
    assert ReductionOf(1000, 0) == Reduction(true, Units(100)) by {
      RoundHalfUpUnique(100 * 1000, 1000, 100);
    }
    assert DecimalText(100) == "100";
  }
}
