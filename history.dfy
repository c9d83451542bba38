/**
 * The read side of the observation store: `get_market_history`, `get_latest_price` and the
 * argument checks and empty-history case of `export_market_data`. A query runs over the rows of
 * the store in insertion order. `ORDER BY timestamp` is modelled as a stable sort: the model
 * assumes that rows with equal timestamps keep their insertion order. SQL does not promise this;
 * SQLite does it here because it reads the rows from the `(skin, timestamp)` index, whose ties are
 * ordered by row id. The assumption decides which tied rows a limit keeps.
 */
module History {
  import opened Wrappers
  import opened Text
  import opened Observation

  /** The `WHERE skin = ? [AND timestamp >= ?]` condition. */
  predicate Keep(r: Row, key: string, since: Option<string>) {
    r.skin == key && (since.None? || TextLe(since.value, r.timestamp))
  }

  /** The rows satisfying the condition, in store order. */
  function Select(rows: seq<Row>, key: string, since: Option<string>): (sel: seq<Row>)
    ensures forall i :: 0 <= i < |sel| ==> Keep(sel[i], key, since)
    ensures forall r :: multiset(sel)[r] == if Keep(r, key, since) then multiset(rows)[r] else 0
  {
    if rows == [] then []
    else
      assert rows == [rows[0]] + rows[1..];
      (if Keep(rows[0], key, since) then [rows[0]] else []) + Select(rows[1..], key, since)
  }

  predicate SortedByTime(s: seq<Row>) {
    forall i, j :: 0 <= i < j < |s| ==> TextLe(s[i].timestamp, s[j].timestamp)
  }

  /** Places `x` after every row whose timestamp is not later than its own. */
  function InsertByTime(x: Row, s: seq<Row>): (r: seq<Row>)
    ensures multiset(r) == multiset(s) + multiset{x}
  {
    if s == [] then [x]
    else if TextLt(x.timestamp, s[0].timestamp) then [x] + s
    else
      assert s == [s[0]] + s[1..];
      [s[0]] + InsertByTime(x, s[1..])
  }

  /** A row not later than the first of a sorted sequence can go in front. */
  lemma SortedCons(x: Row, s: seq<Row>)
    requires SortedByTime(s)
    requires forall k :: 0 <= k < |s| ==> TextLe(x.timestamp, s[k].timestamp)
    ensures SortedByTime([x] + s)
  {
    var r := [x] + s;
    forall i, j | 0 <= i < j < |r| ensures TextLe(r[i].timestamp, r[j].timestamp) {
      if i == 0 {
        assert r[j] == s[j - 1];
      } else {
        assert r[i] == s[i - 1] && r[j] == s[j - 1];
      }
    }
  }

  lemma {:induction false} InsertByTimeSorted(x: Row, s: seq<Row>)
    requires SortedByTime(s)
    ensures SortedByTime(InsertByTime(x, s))
  {
    if s == [] {
    } else if TextLt(x.timestamp, s[0].timestamp) {
      forall k | 0 <= k < |s| ensures TextLe(x.timestamp, s[k].timestamp) {
        if k > 0 { TextLeTrans(x.timestamp, s[0].timestamp, s[k].timestamp); }
      }
      SortedCons(x, s);
    } else {
      InsertByTimeSorted(x, s[1..]);
      var t := InsertByTime(x, s[1..]);
      TextNotLt(x.timestamp, s[0].timestamp);
      forall k | 0 <= k < |t| ensures TextLe(s[0].timestamp, t[k].timestamp) {
        assert t[k] in multiset(t);
        if t[k] != x {
          assert t[k] in multiset(s[1..]);
          var m :| 0 <= m < |s[1..]| && s[1..][m] == t[k];
          assert s[0] == s[0..][0] && s[m + 1] == t[k];
        }
      }
      SortedCons(s[0], t);
    }
  }

  /** `ORDER BY timestamp ASC`: an insertion sort over the rows in store order. */
  function SortByTime(s: seq<Row>): (r: seq<Row>)
    ensures multiset(r) == multiset(s)
  {
    if s == [] then []
    else
      assert s == s[..|s| - 1] + [s[|s| - 1]];
      InsertByTime(s[|s| - 1], SortByTime(s[..|s| - 1]))
  }

  /** The sort yields chronological order. */
  lemma {:induction false} SortByTimeSorted(s: seq<Row>)
    ensures SortedByTime(SortByTime(s))
  {
    if s != [] {
      SortByTimeSorted(s[..|s| - 1]);
      InsertByTimeSorted(s[|s| - 1], SortByTime(s[..|s| - 1]));
    }
  }

  /** The time filter: only given a positive number of days (the cutoff being now minus that many
    * days, rendered as ISO text). */
  function Since(days: Option<int>, cutoff: string): (since: Option<string>)
    ensures since.Some? <==> days.Some? && days.value > 0
  {
    if days.Some? && days.value > 0 then Some(cutoff) else None
  }

  /** The rows `get_market_history` returns. */
  function HistoryRows(rows: seq<Row>, skin: string, limit: Option<int>, days: Option<int>,
                       cutoff: string): seq<Row>
  {
    if Trim(skin) == [] then []
    else
      var sorted := SortByTime(Select(rows, Trim(skin), Since(days, cutoff)));
      if limit.Some? && 0 < limit.value < |sorted| then sorted[..limit.value] else sorted
  }

  /** `get_market_history(skin, limit, days)` as the list of tuples it returns. */
  function MarketHistory(rows: seq<Row>, skin: string, limit: Option<int>, days: Option<int>,
                         cutoff: string): (ps: seq<Point>)
    ensures |ps| == |HistoryRows(rows, skin, limit, days, cutoff)|
    ensures forall i :: 0 <= i < |ps| ==> ps[i] == ToPoint(HistoryRows(rows, skin, limit, days, cutoff)[i])
  {
    ToPoints(HistoryRows(rows, skin, limit, days, cutoff))
  }

  /** A blank skin name gives the empty list; a limit or a number of days that is not positive counts
    * as not given. */
  lemma HistoryArguments(rows: seq<Row>, skin: string, limit: Option<int>, days: Option<int>, cutoff: string)
    ensures Trim(skin) == [] ==> HistoryRows(rows, skin, limit, days, cutoff) == []
    ensures limit.Some? && limit.value <= 0 ==>
              HistoryRows(rows, skin, limit, days, cutoff) == HistoryRows(rows, skin, None, days, cutoff)
    ensures days.Some? && days.value <= 0 ==>
              HistoryRows(rows, skin, limit, days, cutoff) == HistoryRows(rows, skin, limit, None, cutoff)
  {
  }

  /** Without a limit the history holds exactly the rows of the (stripped) skin name that are not
    * older than the cutoff, each as often as it is stored, in chronological order. */
  lemma HistoryContents(rows: seq<Row>, skin: string, days: Option<int>, cutoff: string)
    requires Trim(skin) != []
    ensures SortedByTime(HistoryRows(rows, skin, None, days, cutoff))
    ensures forall r :: multiset(HistoryRows(rows, skin, None, days, cutoff))[r]
                        == if Keep(r, Trim(skin), Since(days, cutoff)) then multiset(rows)[r] else 0
  {
    SortByTimeSorted(Select(rows, Trim(skin), Since(days, cutoff)));
  }

  /** With a positive limit the history is the earliest `limit` of those rows: a prefix of the
    * unlimited history, and no row left out is older than a row returned. */
  lemma HistoryLimitEarliest(rows: seq<Row>, skin: string, limit: int, days: Option<int>, cutoff: string)
    requires limit > 0
    ensures var all := HistoryRows(rows, skin, None, days, cutoff);
            var some := HistoryRows(rows, skin, Some(limit), days, cutoff);
            && |some| == (if limit < |all| then limit else |all|)
            && some == all[..|some|]
            && forall i, j :: 0 <= i < |some| <= j < |all| ==> TextLe(some[i].timestamp, all[j].timestamp)
  {
    if Trim(skin) != [] {
      var sel := Select(rows, Trim(skin), Since(days, cutoff));
      SortByTimeSorted(sel);
      LimitOfSorted(SortByTime(sel), limit);
    }
  }

  /** Cutting a time-sorted list at `limit` keeps its earliest rows. */
  lemma LimitOfSorted(sorted: seq<Row>, limit: int)
    requires SortedByTime(sorted) && limit > 0
    ensures var some := if 0 < limit < |sorted| then sorted[..limit] else sorted;
            && |some| == (if limit < |sorted| then limit else |sorted|)
            && some == sorted[..|some|]
            && forall i, j :: 0 <= i < |some| <= j < |sorted| ==> TextLe(some[i].timestamp, sorted[j].timestamp)
  {
    var some := if 0 < limit < |sorted| then sorted[..limit] else sorted;
    forall i, j | 0 <= i < |some| <= j < |sorted| ensures TextLe(some[i].timestamp, sorted[j].timestamp) {
      assert some[i] == sorted[i];
    }
  }

  /** Every returned row belongs to the skin and, when days are given, is not older than the cutoff. */
  lemma HistoryRowsMatch(rows: seq<Row>, skin: string, limit: Option<int>, days: Option<int>, cutoff: string)
    ensures forall r :: r in HistoryRows(rows, skin, limit, days, cutoff) ==>
              r in rows && r.skin == Trim(skin) && (days.Some? && days.value > 0 ==> TextLe(cutoff, r.timestamp))
  {
    if Trim(skin) != [] {
      var all := HistoryRows(rows, skin, None, days, cutoff);
      HistoryContents(rows, skin, days, cutoff);
      forall r | r in HistoryRows(rows, skin, limit, days, cutoff)
        ensures r in rows && r.skin == Trim(skin) && (days.Some? && days.value > 0 ==> TextLe(cutoff, r.timestamp))
      {
        assert r in all;
        assert r in multiset(all);
      }
    }
  }

  // ----- get_latest_price -----

  /** The row `ORDER BY timestamp DESC LIMIT 1` picks: one with the greatest timestamp. Which of
    * several equal timestamps SQLite returns is up to its query plan; the model's choice, the last
    * stored of them, is an assumption. */
  function Latest(rows: seq<Row>): (r: Option<Row>)
    ensures r.None? <==> rows == []
    ensures r.Some? ==> r.value in rows && forall x :: x in rows ==> TextLe(x.timestamp, r.value.timestamp)
  {
    if rows == [] then None
    else
      var init, last := rows[..|rows| - 1], rows[|rows| - 1];
      assert rows == init + [last];
      var rest := Latest(init);
      if rest.Some? && TextLt(last.timestamp, rest.value.timestamp) then rest
      else
        LastIsLatest(init, rest, last);
        Some(last)
  }

  lemma LastIsLatest(init: seq<Row>, rest: Option<Row>, last: Row)
    requires rest.None? ==> init == []
    requires rest.Some? ==> forall x :: x in init ==> TextLe(x.timestamp, rest.value.timestamp)
    requires rest.Some? ==> !TextLt(last.timestamp, rest.value.timestamp)
    ensures forall x :: x in init + [last] ==> TextLe(x.timestamp, last.timestamp)
  {
    if rest.Some? {
      TextNotLt(last.timestamp, rest.value.timestamp);
      forall x | x in init ensures TextLe(x.timestamp, last.timestamp) {
        TextLeTrans(x.timestamp, rest.value.timestamp, last.timestamp);
      }
    }
  }

  /** `get_latest_price(skin)`: the lowest price of the latest row of the skin, or 0.0 when the
    * name is blank or the skin has no row. */
  function LatestPrice(rows: seq<Row>, skin: string): (p: real)
  {
    if Trim(skin) == [] then 0.0
    else match Latest(Select(rows, Trim(skin), None))
      case None => 0.0
      case Some(r) => r.lowestPrice
  }

  /** The latest price belongs to a stored row of the skin that no other row of the skin postdates;
    * without such rows it is 0.0. */
  lemma LatestPriceSpec(rows: seq<Row>, skin: string)
    ensures Trim(skin) == [] ==> LatestPrice(rows, skin) == 0.0
    ensures (forall r :: r in rows ==> r.skin != Trim(skin)) ==> LatestPrice(rows, skin) == 0.0
    ensures Trim(skin) != [] && (exists r :: r in rows && r.skin == Trim(skin)) ==>
              exists r :: r in rows && r.skin == Trim(skin) && LatestPrice(rows, skin) == r.lowestPrice
                          && forall x :: x in rows && x.skin == Trim(skin) ==> TextLe(x.timestamp, r.timestamp)
  {
    var key := Trim(skin);
    var sel := Select(rows, key, None);
    SelectOfSkin(rows, key);
    if key != [] && exists r :: r in rows && r.skin == key {
      var r :| r in rows && r.skin == key;
      assert r in sel;
      var l := Latest(sel).value;
      assert LatestPrice(rows, skin) == l.lowestPrice;
      assert l in rows && l.skin == key;
      assert forall x :: x in rows && x.skin == key ==> x in sel;
    }
  }

  /** Without a start time, the selected rows are the rows of the skin. */
  lemma SelectOfSkin(rows: seq<Row>, key: string)
    ensures forall x :: x in Select(rows, key, None) <==> x in rows && x.skin == key
  {
    var sel := Select(rows, key, None);
    forall x ensures x in sel <==> x in rows && x.skin == key {
      assert x in sel <==> x in multiset(sel);
      assert x in rows <==> x in multiset(rows);
    }
  }

  /** The last row of a chronologically sorted sequence is not older than any of its rows. */
  lemma SortedLastIsMax(h: seq<Row>, x: Row)
    requires SortedByTime(h) && x in h
    ensures TextLe(x.timestamp, h[|h| - 1].timestamp)
  {
    var k :| 0 <= k < |h| && h[k] == x;
    if k < |h| - 1 {
      assert TextLe(h[k].timestamp, h[|h| - 1].timestamp);
    } else {
      TextLeTotalOrder(x.timestamp, x.timestamp, x.timestamp);
    }
  }

  /** The unlimited history of a non-blank name is the sorted selection of its rows. */
  lemma HistoryOfAllRows(rows: seq<Row>, skin: string, cutoff: string)
    requires Trim(skin) != []
    ensures HistoryRows(rows, skin, None, None, cutoff) == SortByTime(Select(rows, Trim(skin), None))
    ensures HistoryRows(rows, skin, None, None, cutoff) == [] <==> forall x :: x in rows ==> x.skin != Trim(skin)
  {
    var sel := Select(rows, Trim(skin), None);
    var h := SortByTime(sel);
    assert |h| == |sel| by { assert multiset(h) == multiset(sel); }
    if exists x :: x in rows && x.skin == Trim(skin) {
      var x :| x in rows && x.skin == Trim(skin);
      assert x in multiset(sel);
    }
    if sel != [] {
      assert sel[0] in multiset(sel);
    }
  }

  /** The latest row and the last row of the unlimited history share their timestamp. */
  lemma LatestIsLastOfHistory(rows: seq<Row>, skin: string)
    requires Trim(skin) != []
    ensures var h := HistoryRows(rows, skin, None, None, "");
            var l := Latest(Select(rows, Trim(skin), None));
            (h == [] <==> l.None?) && (h != [] ==> h[|h| - 1].timestamp == l.value.timestamp)
  {
    var sel := Select(rows, Trim(skin), None);
    var h := SortByTime(sel);
    HistoryOfAllRows(rows, skin, "");
    SortByTimeSorted(sel);
    assert multiset(h) == multiset(sel);
    assert |h| == |sel|;
    if h != [] {
      var last := h[|h| - 1];
      var l := Latest(sel).value;
      assert TextLe(last.timestamp, l.timestamp) by {
        assert last in multiset(h);
        assert last in sel;
      }
      assert TextLe(l.timestamp, last.timestamp) by {
        assert l in multiset(sel);
        assert l in h;
        SortedLastIsMax(h, l);
      }
      TextLeTotalOrder(l.timestamp, last.timestamp, last.timestamp);
    }
  }

  // ----- export_market_data: arguments and the empty case -----

  /** What an export does once its arguments are accepted. */
  datatype ExportPlan = NothingToExport
                      | WriteCsv(path: string, points: seq<Point>, firstTimestamp: string, lastTimestamp: string)

  function ExportMarketData(rows: seq<Row>, skin: string, filename: string, format: string): (r: Result<ExportPlan, StoreError>)
  {
    if Trim(skin) == [] then Err(InvalidArgument("skin"))
    else if Trim(filename) == [] then Err(InvalidArgument("filename"))
    else if Lower(format) != "csv" then Err(InvalidArgument("format"))
    else
      var points := MarketHistory(rows, Trim(skin), None, None, "");
      if points == [] then Ok(NothingToExport)
      else Ok(WriteCsv(Trim(filename), points, points[0].timestamp, points[|points| - 1].timestamp))
  }

  /** The export rejects a blank skin name, then a blank file name, then any format but CSV (in any
    * letter case); it writes nothing for a skin without rows, and otherwise writes the skin's whole
    * history in chronological order to the stripped file name, its time range running from the
    * first to the last point. */
  lemma ExportSpec(rows: seq<Row>, skin: string, filename: string, format: string)
    ensures var r := ExportMarketData(rows, skin, filename, format);
            && (r.Err? <==> Trim(skin) == [] || Trim(filename) == [] || Lower(format) != "csv")
            && (Trim(skin) == [] ==> r == Err(InvalidArgument("skin")))
            && (Trim(skin) != [] && Trim(filename) == [] ==> r == Err(InvalidArgument("filename")))
            && (Trim(skin) != [] && Trim(filename) != [] && Lower(format) != "csv" ==>
                  r == Err(InvalidArgument("format")))
            && (r.Ok? ==> (r.value.NothingToExport? <==> forall x :: x in rows ==> x.skin != Trim(skin)))
            && (r.Ok? && r.value.WriteCsv? ==>
                  && r.value.path == Trim(filename)
                  && r.value.points == MarketHistory(rows, skin, None, None, "")
                  && r.value.firstTimestamp == r.value.points[0].timestamp
                  && r.value.lastTimestamp == r.value.points[|r.value.points| - 1].timestamp)
  {
    TrimIdempotent(skin);
    if Trim(skin) != [] {
      HistoryOfAllRows(rows, skin, "");
      HistoryOfAllRows(rows, Trim(skin), "");
    }
  }
}
