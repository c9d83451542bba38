/**
 * `get_price_statistics`: summary figures and a coarse trend over the lowest prices of a skin's
 * history, and the aggregates of `get_db_statistics`.
 */
module Statistics {
  import opened Wrappers
  import opened Observation
  import opened History
  import Quote

  function Sum(s: seq<real>): real
  {
    if s == [] then 0.0 else s[0] + Sum(s[1..])
  }

  function Mean(s: seq<real>): real
    requires s != []
  {
    Sum(s) / (|s| as real)
  }

  /** `min(prices)`. */
  function Minimum(s: seq<real>): (m: real)
    requires s != []
    ensures m in s && forall i :: 0 <= i < |s| ==> m <= s[i]
  {
    if |s| == 1 then s[0]
    else
      var rest := Minimum(s[1..]);
      assert forall i :: 1 <= i < |s| ==> s[i] == s[1..][i - 1];
      if s[0] <= rest then s[0] else rest
  }

  /** `max(prices)`. */
  function Maximum(s: seq<real>): (m: real)
    requires s != []
    ensures m in s && forall i :: 0 <= i < |s| ==> s[i] <= m
  {
    if |s| == 1 then s[0]
    else
      var rest := Maximum(s[1..]);
      assert forall i :: 1 <= i < |s| ==> s[i] == s[1..][i - 1];
      if rest <= s[0] then s[0] else rest
  }

  lemma {:induction false} SumAtMost(s: seq<real>, hi: real)
    requires forall i :: 0 <= i < |s| ==> s[i] <= hi
    ensures Sum(s) <= (|s| as real) * hi
  {
    if s != [] {
      SumAtMost(s[1..], hi);
    }
  }

  lemma {:induction false} SumAtLeast(s: seq<real>, lo: real)
    requires forall i :: 0 <= i < |s| ==> lo <= s[i]
    ensures (|s| as real) * lo <= Sum(s)
  {
    if s != [] {
      SumAtLeast(s[1..], lo);
    }
  }

  /** A mean does not exceed a bound on every element. */
  lemma MeanAtMost(s: seq<real>, hi: real)
    requires s != [] && forall i :: 0 <= i < |s| ==> s[i] <= hi
    ensures Mean(s) <= hi
  {
    SumAtMost(s, hi);
  }

  /** A mean is not below a bound on every element. */
  lemma MeanAtLeast(s: seq<real>, lo: real)
    requires s != [] && forall i :: 0 <= i < |s| ==> lo <= s[i]
    ensures lo <= Mean(s)
  {
    SumAtLeast(s, lo);
  }

  datatype Trend = Stable | Rising | Falling | InsufficientData

  /** The statistics dictionary; `{}` is `None` of it. */
  datatype PriceStats = PriceStats(count: nat, min: real, max: real, average: real, range: real,
                                   latest: real, trend: Trend, trendChange: real)

  /** Mean of the second half minus mean of the first half, split at `len // 2`. */
  function TrendChange(prices: seq<real>): real
    requires |prices| >= 2
  {
    var h := |prices| / 2;
    Mean(prices[h..]) - Mean(prices[..h])
  }

  /** A change below one cent either way is stable. */
  function Classify(change: real): (t: Trend)
    ensures t == Stable <==> Quote.Abs(change) < 0.01
    ensures t == Rising <==> change >= 0.01
    ensures t == Falling <==> change <= -0.01
    ensures t != InsufficientData
  {
    if Quote.Abs(change) < 0.01 then Stable else if change > 0.0 then Rising else Falling
  }

  function StatsOfPrices(prices: seq<real>): Option<PriceStats>
  {
    if prices == [] then None
    else
      var lo, hi := Minimum(prices), Maximum(prices);
      var change := if |prices| >= 2 then TrendChange(prices) else 0.0;
      Some(PriceStats(|prices|, lo, hi, Mean(prices), hi - lo, prices[|prices| - 1],
                      if |prices| >= 2 then Classify(change) else InsufficientData, change))
  }

  /** The statistics of a price series: none for no prices; otherwise the count, the extremes (as
    * prices of the series), an average between them, a non-negative range, the last price, and the
    * half-against-half trend, or `insufficient_data` with change 0.0 below two prices. */
  lemma StatsOfPricesSpec(prices: seq<real>)
    ensures StatsOfPrices(prices).None? <==> prices == []
    ensures prices != [] ==>
      var st := StatsOfPrices(prices).value;
      && st.count == |prices|
      && st.min in prices && st.max in prices
      && (forall i :: 0 <= i < |prices| ==> st.min <= prices[i] <= st.max)
      && st.min <= st.average <= st.max
      && st.range == st.max - st.min >= 0.0
      && st.latest == prices[|prices| - 1]
      && (|prices| < 2 ==> st.trend == InsufficientData && st.trendChange == 0.0)
      && (|prices| >= 2 ==> st.trendChange == Mean(prices[|prices| / 2..]) - Mean(prices[..|prices| / 2])
                            && (st.trend == Stable <==> Quote.Abs(st.trendChange) < 0.01)
                            && (st.trend == Rising <==> st.trendChange >= 0.01)
                            && (st.trend == Falling <==> st.trendChange <= -0.01))
  {
    if prices != [] {
      MeanAtLeast(prices, Minimum(prices));
      MeanAtMost(prices, Maximum(prices));
    }
  }

  /** Prices that never fall have a non-negative trend change, so they are never `falling`. */
  lemma NonDecreasingNeverFalling(prices: seq<real>)
    requires |prices| >= 2
    requires forall i, j :: 0 <= i < j < |prices| ==> prices[i] <= prices[j]
    ensures TrendChange(prices) >= 0.0
    ensures StatsOfPrices(prices).value.trend != Falling
  {
    var h := |prices| / 2;
    var pivot := prices[h];
    MeanAtMost(prices[..h], pivot);
    MeanAtLeast(prices[h..], pivot);
  }

  /** A constant series is `stable` with change 0.0. */
  lemma ConstantIsStable(prices: seq<real>, c: real)
    requires |prices| >= 2
    requires forall i :: 0 <= i < |prices| ==> prices[i] == c
    ensures TrendChange(prices) == 0.0
    ensures StatsOfPrices(prices).value.trend == Stable
  {
    var h := |prices| / 2;
    MeanAtMost(prices[..h], c);
    MeanAtLeast(prices[..h], c);
    MeanAtMost(prices[h..], c);
    MeanAtLeast(prices[h..], c);
  }

  function LowestPrices(ps: seq<Point>): (prices: seq<real>)
    ensures |prices| == |ps| && forall i :: 0 <= i < |ps| ==> prices[i] == ps[i].lowestPrice
  {
    if ps == [] then [] else [ps[0].lowestPrice] + LowestPrices(ps[1..])
  }

  /** `get_price_statistics(skin, days)`: the statistics of the lowest prices of the unlimited
    * history. */
  function PriceStatistics(rows: seq<Row>, skin: string, days: Option<int>, cutoff: string): Option<PriceStats>
  {
    StatsOfPrices(LowestPrices(MarketHistory(rows, skin, None, days, cutoff)))
  }

  /** The statistics are empty exactly when the history is; the latest figure is the lowest price of
    * the last history point. */
  lemma PriceStatisticsOfHistory(rows: seq<Row>, skin: string, days: Option<int>, cutoff: string)
    ensures var h := MarketHistory(rows, skin, None, days, cutoff);
            var st := PriceStatistics(rows, skin, days, cutoff);
            (st.None? <==> h == []) && (st.Some? ==> st.value.count == |h| && st.value.latest == h[|h| - 1].lowestPrice)
  {
    var h := MarketHistory(rows, skin, None, days, cutoff);
    var p := LowestPrices(h);
    StatsOfPricesSpec(p);
    if h != [] {
      assert p[|p| - 1] == h[|h| - 1].lowestPrice;
    }
  }

  // ----- get_db_statistics -----

  /** The distinct skin names of the rows. */
  function Skins(rows: seq<Row>): (names: set<string>)
    ensures forall r :: r in rows ==> r.skin in names
    ensures forall s :: s in names ==> exists r :: r in rows && r.skin == s
    ensures |names| <= |rows|
  {
    if rows == [] then {}
    else
      var rest := Skins(rows[1..]);
      assert forall r :: r in rows[1..] ==> r in rows;
      assert |rest + {rows[0].skin}| <= |rest| + 1;
      rest + {rows[0].skin}
  }

  /** `MIN(timestamp)`, `NULL` over no rows. */
  function FirstTimestamp(rows: seq<Row>): (t: Option<string>)
    ensures t.None? <==> rows == []
    ensures t.Some? ==> (exists r :: r in rows && r.timestamp == t.value)
                        && forall r :: r in rows ==> TextLe(t.value, r.timestamp)
  {
    if rows == [] then None
    else
      var rest := FirstTimestamp(rows[1..]);
      assert forall r :: r in rows ==> r == rows[0] || r in rows[1..];
      if rest.Some? && TextLt(rest.value, rows[0].timestamp) then
        FirstOfRest(rows, rest.value);
        rest
      else
        FirstIsLeast(rows, rest);
        Some(rows[0].timestamp)
  }

  lemma FirstOfRest(rows: seq<Row>, t: string)
    requires rows != [] && TextLt(t, rows[0].timestamp)
    requires forall r :: r in rows[1..] ==> TextLe(t, r.timestamp)
    ensures forall r :: r in rows ==> TextLe(t, r.timestamp)
  {
    assert forall r :: r in rows ==> r == rows[0] || r in rows[1..];
  }

  lemma FirstIsLeast(rows: seq<Row>, rest: Option<string>)
    requires rows != []
    requires rest.None? ==> rows[1..] == []
    requires rest.Some? ==> !TextLt(rest.value, rows[0].timestamp)
                            && forall r :: r in rows[1..] ==> TextLe(rest.value, r.timestamp)
    ensures forall r :: r in rows ==> TextLe(rows[0].timestamp, r.timestamp)
  {
    assert forall r :: r in rows ==> r == rows[0] || r in rows[1..];
    TextLeTotalOrder(rows[0].timestamp, rows[0].timestamp, rows[0].timestamp);
    if rest.Some? {
      TextNotLt(rest.value, rows[0].timestamp);
      forall r | r in rows[1..] ensures TextLe(rows[0].timestamp, r.timestamp) {
        TextLeTrans(rows[0].timestamp, rest.value, r.timestamp);
      }
    }
  }

  /** `MAX(timestamp)`, `NULL` over no rows: the timestamp of the latest row. */
  function LastTimestamp(rows: seq<Row>): (t: Option<string>)
    ensures t.None? <==> rows == []
    ensures t.Some? ==> (exists r :: r in rows && r.timestamp == t.value)
                        && forall r :: r in rows ==> TextLe(r.timestamp, t.value)
  {
    match Latest(rows)
    case None => None
    case Some(r) => Some(r.timestamp)
  }

  /** The aggregates of `get_db_statistics` (file size and the top-five list are not modelled). */
  datatype DbStats = DbStats(totalRecords: nat, uniqueSkins: nat, firstRecord: Option<string>,
                             lastRecord: Option<string>, schemaVersion: int)

  function DbStatistics(rows: seq<Row>, schemaVersion: int): DbStats
  {
    DbStats(|rows|, |Skins(rows)|, FirstTimestamp(rows), LastTimestamp(rows), schemaVersion)
  }

  /** There are no more skins than records and at least one when there is a record; the time range
    * is absent exactly for an empty store and otherwise runs from an earliest to a latest stored
    * timestamp. */
  lemma DbStatisticsSpec(rows: seq<Row>, schemaVersion: int)
    ensures var st := DbStatistics(rows, schemaVersion);
            && st.totalRecords == |rows|
            && st.uniqueSkins <= st.totalRecords
            && (st.uniqueSkins == 0 <==> rows == [])
            && (st.firstRecord.None? <==> rows == []) && (st.lastRecord.None? <==> rows == [])
            && (rows != [] ==> TextLe(st.firstRecord.value, st.lastRecord.value))
            && st.schemaVersion == schemaVersion
  {
    if rows != [] {
      assert rows[0] in rows;
      assert rows[0].skin in Skins(rows);
      var f, l := FirstTimestamp(rows).value, LastTimestamp(rows).value;
      var r :| r in rows && r.timestamp == f;
      assert TextLe(r.timestamp, l);
    }
  }
}
