/**
 * The computations of `MarketChart` that decide what is drawn: preprocessing the history rows into
 * columns, the price axis limits, the unit of the spread panel, whether the median series is drawn,
 * and the x-axis label interval and date format.
 *
 * Drawing is not modelled. `datetime.fromisoformat` is a parameter `parses` that says which
 * timestamps it accepts; a parsed timestamp stands for itself. Prices are exact reals.
 */
module Chart {
  import opened Wrappers

  /** `MAX_X_AXIS_LABELS`. */
  const MaxXAxisLabels: nat := 8
  /** `MIN_PRICE_MARGIN`, in euros. */
  const MinPriceMargin: real := 0.1
  /** `PRICE_MARGIN_PERCENTAGE`. */
  const PriceMarginPercentage: real := 0.05

  /** One row of the price history: timestamp, lowest price, median price, volume, absolute and
    * percentage spread. */
  datatype Row = Row(timestamp: string, lowestPrice: real, medianPrice: real, volume: int,
                     spreadAbsolute: real, spreadPercentage: real)

  /** The arrays `_preprocess_data` returns. */
  datatype Series = Series(timestamps: seq<string>, prices: seq<real>, medianPrices: seq<real>,
                           volumes: seq<int>, spreadAbsolute: seq<real>, spreadPercentage: seq<real>)

  /** `np.maximum(x, 0.0)` on one value. */
  function ClampReal(x: real): real { if x < 0.0 then 0.0 else x }

  /** `np.maximum(x, 0)` on one value. */
  function ClampInt(x: int): int { if x < 0 then 0 else x }

  // ----- preprocessing -----

  /** The timestamps of `rows` that parse, in order: what the first loop collects. */
  function ParsedTimestamps(rows: seq<Row>, parses: string -> bool): (ts: seq<string>)
    ensures |ts| <= |rows|
  {
    if rows == [] then []
    else
      var last := rows[|rows| - 1];
      ParsedTimestamps(rows[..|rows| - 1], parses) + (if parses(last.timestamp) then [last.timestamp] else [])
  }

  /** The rows whose timestamps parse, in order. */
  function ParsedRows(rows: seq<Row>, parses: string -> bool): (r: seq<Row>)
    ensures |r| <= |rows|
  {
    if rows == [] then []
    else
      var last := rows[|rows| - 1];
      ParsedRows(rows[..|rows| - 1], parses) + (if parses(last.timestamp) then [last] else [])
  }

  /** The clamped columns of the first `k` rows of `rows`, next to the given timestamps. */
  function Columns(timestamps: seq<string>, rows: seq<Row>, k: nat): (s: Series)
    requires k <= |rows|
  {
    Series(timestamps,
           seq(k, i requires 0 <= i < k => ClampReal(rows[i].lowestPrice)),
           seq(k, i requires 0 <= i < k => ClampReal(rows[i].medianPrice)),
           seq(k, i requires 0 <= i < k => ClampInt(rows[i].volume)),
           seq(k, i requires 0 <= i < k => ClampReal(rows[i].spreadAbsolute)),
           seq(k, i requires 0 <= i < k => ClampReal(rows[i].spreadPercentage)))
  }

  /** `_preprocess_data` as written: none without a parseable timestamp; otherwise the parsed
    * timestamps and, for `k` of them, the clamped values of the first `k` rows. */
  function Preprocess(rows: seq<Row>, parses: string -> bool): Option<Series>
  {
    var ts := ParsedTimestamps(rows, parses);
    if ts == [] then None else Some(Columns(ts, rows, |ts|))
  }

  /** All values of a series are at least zero. */
  predicate NonNegative(s: Series)
  {
    && (forall i :: 0 <= i < |s.prices| ==> s.prices[i] >= 0.0)
    && (forall i :: 0 <= i < |s.medianPrices| ==> s.medianPrices[i] >= 0.0)
    && (forall i :: 0 <= i < |s.volumes| ==> s.volumes[i] >= 0)
    && (forall i :: 0 <= i < |s.spreadAbsolute| ==> s.spreadAbsolute[i] >= 0.0)
    && (forall i :: 0 <= i < |s.spreadPercentage| ==> s.spreadPercentage[i] >= 0.0)
  }

  /** Every column has one entry per timestamp. */
  predicate SameLength(s: Series)
  {
    && |s.prices| == |s.timestamps| && |s.medianPrices| == |s.timestamps| && |s.volumes| == |s.timestamps|
    && |s.spreadAbsolute| == |s.timestamps| && |s.spreadPercentage| == |s.timestamps|
  }

  /** Every timestamp the first loop keeps parses, and it keeps one for each row that parses. */
  lemma {:induction false} ParsedTimestampsSpec(rows: seq<Row>, parses: string -> bool)
    ensures forall t :: t in ParsedTimestamps(rows, parses) ==> parses(t)
    ensures ParsedTimestamps(rows, parses) == [] <==> forall i :: 0 <= i < |rows| ==> !parses(rows[i].timestamp)
  {
    if rows != [] {
      var init := rows[..|rows| - 1];
      ParsedTimestampsSpec(init, parses);
      forall i | 0 <= i < |init| ensures init[i] == rows[i] { }
    }
  }

  /** The parsed timestamps are those of the rows that parse. */
  lemma {:induction false} ParsedRowsTimestamps(rows: seq<Row>, parses: string -> bool)
    ensures |ParsedRows(rows, parses)| == |ParsedTimestamps(rows, parses)|
    ensures forall i :: 0 <= i < |ParsedRows(rows, parses)| ==>
              ParsedRows(rows, parses)[i].timestamp == ParsedTimestamps(rows, parses)[i]
  {
    if rows != [] {
      ParsedRowsTimestamps(rows[..|rows| - 1], parses);
    }
  }

  /** When every timestamp parses, all rows are kept. */
  lemma {:induction false} ParsedRowsAll(rows: seq<Row>, parses: string -> bool)
    requires forall i :: 0 <= i < |rows| ==> parses(rows[i].timestamp)
    ensures ParsedRows(rows, parses) == rows
  {
    if rows != [] {
      var init := rows[..|rows| - 1];
      forall i | 0 <= i < |init| ensures parses(init[i].timestamp) {
        assert init[i] == rows[i];
      }
      ParsedRowsAll(init, parses);
      assert init + [rows[|rows| - 1]] == rows;
    }
  }

  /** The columns have one clamped value per timestamp, each from the row at the same position. */
  lemma ColumnsSpec(timestamps: seq<string>, rows: seq<Row>, k: nat)
    requires k <= |rows| && |timestamps| == k
    ensures var s := Columns(timestamps, rows, k);
            && s.timestamps == timestamps && SameLength(s) && NonNegative(s)
            && forall i :: 0 <= i < k ==>
                 && s.prices[i] == ClampReal(rows[i].lowestPrice)
                 && s.medianPrices[i] == ClampReal(rows[i].medianPrice)
                 && s.volumes[i] == ClampInt(rows[i].volume)
                 && s.spreadAbsolute[i] == ClampReal(rows[i].spreadAbsolute)
                 && s.spreadPercentage[i] == ClampReal(rows[i].spreadPercentage)
  {
  }

  /** No series without a parseable timestamp; otherwise every column has one clamped value per
    * parsed timestamp, taken from the row at the same position of the input. */
  lemma PreprocessSpec(rows: seq<Row>, parses: string -> bool)
    ensures Preprocess(rows, parses).None? <==> forall i :: 0 <= i < |rows| ==> !parses(rows[i].timestamp)
    ensures Preprocess(rows, parses).Some? ==>
              var s := Preprocess(rows, parses).value;
              && s.timestamps == ParsedTimestamps(rows, parses) && s.timestamps != []
              && SameLength(s) && NonNegative(s)
              && forall i :: 0 <= i < |s.prices| ==>
                   && s.prices[i] == ClampReal(rows[i].lowestPrice)
                   && s.medianPrices[i] == ClampReal(rows[i].medianPrice)
                   && s.volumes[i] == ClampInt(rows[i].volume)
                   && s.spreadAbsolute[i] == ClampReal(rows[i].spreadAbsolute)
                   && s.spreadPercentage[i] == ClampReal(rows[i].spreadPercentage)
  {
    ParsedTimestampsSpec(rows, parses);
    var ts := ParsedTimestamps(rows, parses);
    if ts != [] {
      ColumnsSpec(ts, rows, |ts|);
    }
  }

  /** The columns come from the first rows, not from the rows whose timestamps parsed: with an
    * unparseable first row, the only price drawn is that row's, next to the second row's time. */
  lemma PreprocessMisaligned(bad: string, good: string, parses: string -> bool)
    requires !parses(bad) && parses(good)
    ensures var rows := [Row(bad, 5.0, 0.0, 1, 0.0, 0.0), Row(good, 7.0, 0.0, 1, 0.0, 0.0)];
            && Preprocess(rows, parses) != None
            && Preprocess(rows, parses).value.timestamps == [good]
            && Preprocess(rows, parses).value.prices == [5.0]
  {
    var rows := [Row(bad, 5.0, 0.0, 1, 0.0, 0.0), Row(good, 7.0, 0.0, 1, 0.0, 0.0)];
    assert rows[..1] == [rows[0]] && rows[..1][..0] == [];
    assert ParsedTimestamps(rows[..1], parses) == [];
  }

  /** Preprocessing with the values of the rows whose timestamps parsed. */
  function PreprocessAligned(rows: seq<Row>, parses: string -> bool): Option<Series>
  {
    var kept := ParsedRows(rows, parses);
    if kept == [] then None else Some(Columns(ParsedTimestamps(rows, parses), kept, |kept|))
  }

  /** The aligned series exists exactly when the series as written does. */
  lemma PreprocessAlignedNone(rows: seq<Row>, parses: string -> bool)
    ensures PreprocessAligned(rows, parses).None? <==> Preprocess(rows, parses).None?
  {
    ParsedRowsTimestamps(rows, parses);
  }

  /** In the aligned series each value belongs to the row its timestamp came from, a row of the
    * input whose timestamp parses. */
  lemma PreprocessAlignedRows(rows: seq<Row>, parses: string -> bool)
    ensures PreprocessAligned(rows, parses).Some? ==>
              var s, kept := PreprocessAligned(rows, parses).value, ParsedRows(rows, parses);
              && SameLength(s) && NonNegative(s)
              && forall i :: 0 <= i < |s.timestamps| ==>
                   && kept[i] in rows && parses(kept[i].timestamp)
                   && s.timestamps[i] == kept[i].timestamp
                   && s.prices[i] == ClampReal(kept[i].lowestPrice)
                   && s.medianPrices[i] == ClampReal(kept[i].medianPrice)
                   && s.volumes[i] == ClampInt(kept[i].volume)
                   && s.spreadAbsolute[i] == ClampReal(kept[i].spreadAbsolute)
                   && s.spreadPercentage[i] == ClampReal(kept[i].spreadPercentage)
  {
    var kept := ParsedRows(rows, parses);
    if kept != [] {
      ParsedRowsTimestamps(rows, parses);
      ParsedRowsKept(rows, parses);
      ColumnsSpec(ParsedTimestamps(rows, parses), kept, |kept|);
      assert forall i :: 0 <= i < |kept| ==> kept[i] in kept;
    }
  }

  /** When every timestamp parses the two series are the same. */
  lemma PreprocessAlignedAgrees(rows: seq<Row>, parses: string -> bool)
    requires forall i :: 0 <= i < |rows| ==> parses(rows[i].timestamp)
    ensures PreprocessAligned(rows, parses) == Preprocess(rows, parses)
  {
    ParsedRowsTimestamps(rows, parses);
    ParsedRowsAll(rows, parses);
  }

  /** Every kept row is a row of the input whose timestamp parses. */
  lemma {:induction false} ParsedRowsKept(rows: seq<Row>, parses: string -> bool)
    ensures forall r :: r in ParsedRows(rows, parses) ==> r in rows && parses(r.timestamp)
  {
    if rows != [] {
      var init := rows[..|rows| - 1];
      ParsedRowsKept(init, parses);
      assert forall r :: r in init ==> r in rows;
    }
  }

  /** One step of the first loop: the timestamps of a prefix one row longer. */
  lemma TimestampsStep(rows: seq<Row>, i: nat, parses: string -> bool)
    requires i < |rows|
    ensures ParsedTimestamps(rows[..i + 1], parses)
              == ParsedTimestamps(rows[..i], parses) + (if parses(rows[i].timestamp) then [rows[i].timestamp] else [])
  {
    assert rows[..i + 1][..i] == rows[..i];
  }

  /** `_preprocess_data`: the loop collects the parseable timestamps, then the columns are built. */
  method PreprocessData(rows: seq<Row>, parses: string -> bool) returns (r: Option<Series>)
    ensures r == Preprocess(rows, parses)
  {
    var timestamps: seq<string> := [];
    var i := 0;
    while i < |rows|
      invariant 0 <= i <= |rows|
      invariant timestamps == ParsedTimestamps(rows[..i], parses)
    {
      TimestampsStep(rows, i, parses);
      if parses(rows[i].timestamp) {
        timestamps := timestamps + [rows[i].timestamp];
      }
      i := i + 1;
    }
    assert rows[..i] == rows;
    if timestamps == [] {
      return None;
    }
    r := Some(Columns(timestamps, rows, |timestamps|));
  }

  // ----- the price axis -----

  /** The positive values of `xs`, in order: `xs[xs > 0]`. */
  function Positives(xs: seq<real>): (r: seq<real>)
    ensures |r| <= |xs|
  {
    if xs == [] then [] else (if xs[0] > 0.0 then [xs[0]] else []) + Positives(xs[1..])
  }

  /** The positive values are exactly the values above zero. */
  lemma {:induction false} PositivesSpec(xs: seq<real>)
    ensures forall x :: x in Positives(xs) <==> x in xs && x > 0.0
    ensures Positives(xs) == [] <==> forall i :: 0 <= i < |xs| ==> xs[i] <= 0.0
  {
    if xs != [] {
      PositivesSpec(xs[1..]);
      assert xs == [xs[0]] + xs[1..];
      if Positives(xs) == [] {
        forall i | 0 <= i < |xs| ensures xs[i] <= 0.0 {
          if i > 0 { assert xs[i] == xs[1..][i - 1]; }
        }
      }
    }
  }

  /** The least value of a non-empty list (`min`). */
  function Min(xs: seq<real>): (m: real)
    requires xs != []
    ensures m in xs && forall x :: x in xs ==> m <= x
  {
    if |xs| == 1 then xs[0]
    else
      var rest := Min(xs[1..]);
      assert forall x :: x in xs ==> x == xs[0] || x in xs[1..];
      if xs[0] <= rest then xs[0] else rest
  }

  /** The greatest value of a non-empty list (`max`). */
  function Max(xs: seq<real>): (m: real)
    requires xs != []
    ensures m in xs && forall x :: x in xs ==> x <= m
  {
    if |xs| == 1 then xs[0]
    else
      var rest := Max(xs[1..]);
      assert forall x :: x in xs ==> x == xs[0] || x in xs[1..];
      if xs[0] >= rest then xs[0] else rest
  }

  /** The prices the axis must show: every lowest price, and the positive median prices when the
    * median series is drawn. */
  function ConsideredPrices(prices: seq<real>, medianPrices: seq<real>, medianPlotted: bool): seq<real>
  {
    prices + (if medianPlotted then Positives(medianPrices) else [])
  }

  /** The margin around the prices from `lo` to `hi`: 5 % of the range, or for a flat range 10 % of
    * the price (1.0 when it is not positive), and never below `MIN_PRICE_MARGIN`. */
  function Margin(lo: real, hi: real): real
  {
    var margin := if hi - lo > 0.0 then (hi - lo) * PriceMarginPercentage
                  else if hi > 0.0 then hi * 0.1 else 1.0;
    if margin > MinPriceMargin then margin else MinPriceMargin
  }

  /** `_optimize_price_y_axis`: the new limits of the price axis, or none (the axis is left as it is)
    * with fewer than two prices. */
  function PriceAxisLimits(prices: seq<real>, medianPrices: seq<real>, medianPlotted: bool): Option<(real, real)>
  {
    if |prices| <= 1 then None
    else
      var all := ConsideredPrices(prices, medianPrices, medianPlotted);
      var lo, hi := Min(all), Max(all);
      var margin := Margin(lo, hi);
      Some((lo - margin, hi + margin))
  }

  /** The limits strictly enclose every considered price with the same margin on both sides; the
    * margin is at least `MIN_PRICE_MARGIN` and at least 5 % of the price range, and it is set by the
    * least and the greatest considered price. */
  lemma PriceAxisLimitsSpec(prices: seq<real>, medianPrices: seq<real>, medianPlotted: bool)
    ensures PriceAxisLimits(prices, medianPrices, medianPlotted).None? <==> |prices| <= 1
    ensures PriceAxisLimits(prices, medianPrices, medianPlotted).Some? ==>
              var (lo, hi) := PriceAxisLimits(prices, medianPrices, medianPlotted).value;
              var all := ConsideredPrices(prices, medianPrices, medianPlotted);
              && (forall p :: p in all ==> lo < p < hi)
              && (exists p, q :: p in all && q in all && p - lo == hi - q >= MinPriceMargin
                                 && p - lo >= (q - p) * PriceMarginPercentage
                                 && forall x :: x in all ==> p <= x <= q)
  {
    if |prices| > 1 {
      var all := ConsideredPrices(prices, medianPrices, medianPlotted);
      var p, q := Min(all), Max(all);
      assert p in all && q in all;
    }
  }

  /** The medians considered are exactly the positive ones: zero medians (no median known) never
    * pull the axis down. */
  lemma ConsideredMedians(prices: seq<real>, medianPrices: seq<real>, x: real)
    requires x !in prices
    ensures x in ConsideredPrices(prices, medianPrices, true) <==> x in medianPrices && x > 0.0
    ensures x !in ConsideredPrices(prices, medianPrices, false)
  {
    PositivesSpec(medianPrices);
  }

  /** Identical prices `v > 0` get a margin of 10 % of the price, never less than 0.1. */
  lemma FlatMargin(v: real)
    requires v > 0.0
    ensures Margin(v, v) == if v * 0.1 > MinPriceMargin then v * 0.1 else MinPriceMargin
    ensures Margin(v, v) >= v * 0.1
  {
  }

  // ----- the median series and the spread unit -----

  /** `np.any(xs > 0)`. */
  predicate AnyPositive(xs: seq<real>)
  {
    exists i :: 0 <= i < |xs| && xs[i] > 0.0
  }

  /** The median series is drawn only when some median is positive. */
  predicate MedianPlotted(medianPrices: seq<real>)
  {
    AnyPositive(medianPrices)
  }

  /** The median series is drawn exactly when it would add some price to the axis. */
  lemma MedianPlottedIff(medianPrices: seq<real>)
    ensures MedianPlotted(medianPrices) <==> Positives(medianPrices) != []
  {
    PositivesSpec(medianPrices);
  }

  function Sum(xs: seq<real>): real
  {
    if xs == [] then 0.0 else xs[0] + Sum(xs[1..])
  }

  /** The spread panel shows percentages when some percentage is positive and the mean of the
    * positive percentages is below 50; otherwise it shows absolute spreads. */
  predicate UseSpreadPercentage(spreadPercentage: seq<real>)
  {
    var positive := Positives(spreadPercentage);
    AnyPositive(spreadPercentage) && positive != [] && Sum(positive) / |positive| as real < 50.0
  }

  lemma {:induction false} SumBelow(xs: seq<real>, bound: real)
    requires forall i :: 0 <= i < |xs| ==> xs[i] < bound
    ensures xs != [] ==> Sum(xs) < |xs| as real * bound
  {
    if xs != [] {
      SumBelow(xs[1..], bound);
      if xs[1..] == [] {
        assert Sum(xs[1..]) == 0.0;
      }
    }
  }

  lemma {:induction false} SumAtLeast(xs: seq<real>, bound: real)
    requires forall i :: 0 <= i < |xs| ==> xs[i] >= bound
    ensures Sum(xs) >= |xs| as real * bound
  {
    if xs != [] {
      SumAtLeast(xs[1..], bound);
    }
  }

  lemma MeanBound(total: real, n: real, bound: real)
    requires n > 0.0
    ensures total < n * bound <==> total / n < bound
  {
    assert total / n * n == total;
    if total / n < bound {
      assert total / n * n < bound * n;
    }
  }

  /** Percentages are used when one percentage is positive and every one is below 50. */
  lemma SpreadUnitPercentage(spreadPercentage: seq<real>)
    requires AnyPositive(spreadPercentage)
    requires forall i :: 0 <= i < |spreadPercentage| ==> spreadPercentage[i] < 50.0
    ensures UseSpreadPercentage(spreadPercentage)
  {
    var positive := Positives(spreadPercentage);
    PositivesSpec(spreadPercentage);
    forall i | 0 <= i < |positive| ensures positive[i] < 50.0 {
      assert positive[i] in positive;
    }
    SumBelow(positive, 50.0);
    MeanBound(Sum(positive), |positive| as real, 50.0);
  }

  /** Absolute spreads are used when each percentage is zero or at least 50. */
  lemma SpreadUnitAbsolute(spreadPercentage: seq<real>)
    requires forall i :: 0 <= i < |spreadPercentage| ==> spreadPercentage[i] <= 0.0 || spreadPercentage[i] >= 50.0
    ensures !UseSpreadPercentage(spreadPercentage)
  {
    var positive := Positives(spreadPercentage);
    PositivesSpec(spreadPercentage);
    forall i | 0 <= i < |positive| ensures positive[i] >= 50.0 {
      assert positive[i] in positive;
    }
    SumAtLeast(positive, 50.0);
    if positive != [] {
      MeanBound(Sum(positive), |positive| as real, 50.0);
    }
  }

  // ----- the x axis -----

  /** `max(1, timestamps_count // MAX_X_AXIS_LABELS)`, for the number of tick labels. */
  function LabelInterval(tickCount: nat): (n: nat)
    ensures n >= 1
    ensures tickCount < 2 * MaxXAxisLabels * n
    ensures tickCount >= MaxXAxisLabels ==> n * MaxXAxisLabels <= tickCount
  {
    if tickCount / MaxXAxisLabels > 1 then tickCount / MaxXAxisLabels else 1
  }

  datatype DateFormat = DayMonth | DayMonthTime

  /** `'%d.%m'` for more than 7 tick labels, `'%d.%m %H:%M'` otherwise. */
  function DateFormatFor(tickCount: nat): DateFormat
  {
    if tickCount > 7 then DayMonth else DayMonthTime
  }

  /** The time of day is shown only for at most 7 labels, and labels are thinned out only when the
    * day-and-month format is in use. */
  lemma XAxisSpec(tickCount: nat)
    ensures DateFormatFor(tickCount) == DayMonthTime <==> tickCount < MaxXAxisLabels
    ensures LabelInterval(tickCount) > 1 ==> DateFormatFor(tickCount) == DayMonth
    ensures tickCount < 2 * MaxXAxisLabels ==> LabelInterval(tickCount) == 1
  {
  }
}
