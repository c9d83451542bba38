/**
 * One stored observation of the `market_data` table, the tuple a history query returns, and the
 * order SQLite uses on the TEXT timestamp column: binary comparison, which on ISO-8601 strings is
 * chronological order.
 */
module Observation {

  /** A row of `market_data` (the `id` column is the row's position in the store). */
  datatype Row = Row(skin: string, timestamp: string, lowestPrice: real, medianPrice: real,
                     volume: int, spreadAbsolute: real, spreadPercentage: real)

  /** `(timestamp, lowest_price, median_price, volume, spread_absolute, spread_percentage)`. */
  datatype Point = Point(timestamp: string, lowestPrice: real, medianPrice: real,
                         volume: int, spreadAbsolute: real, spreadPercentage: real)

  function ToPoint(r: Row): (p: Point)
    ensures p.timestamp == r.timestamp && p.lowestPrice == r.lowestPrice && p.volume == r.volume
  {
    Point(r.timestamp, r.lowestPrice, r.medianPrice, r.volume, r.spreadAbsolute, r.spreadPercentage)
  }

  function ToPoints(rows: seq<Row>): (ps: seq<Point>)
    ensures |ps| == |rows|
    ensures forall i :: 0 <= i < |rows| ==> ps[i] == ToPoint(rows[i])
  {
    if rows == [] then [] else [ToPoint(rows[0])] + ToPoints(rows[1..])
  }

  /** Why a store operation raised: a rejected argument (`ValueError`) or a failed database
    * operation (`sqlite3.Error` turned into `RuntimeError`), with the name of what was at fault. */
  datatype StoreError = InvalidArgument(what: string) | OperationFailed(what: string)

  /** Binary (lexicographic) order on text: `a` sorts strictly before `b`. */
  predicate TextLt(a: string, b: string)
  {
    if a == [] then b != []
    else if b == [] then false
    else if a[0] != b[0] then a[0] < b[0]
    else TextLt(a[1..], b[1..])
  }

  predicate TextLe(a: string, b: string) { a == b || TextLt(a, b) }

  lemma {:induction false} TextLtIrreflexive(a: string)
    ensures !TextLt(a, a)
  {
    if a != [] {
      TextLtIrreflexive(a[1..]);
    }
  }

  lemma {:induction false} TextLtTransitive(a: string, b: string, c: string)
    requires TextLt(a, b) && TextLt(b, c)
    ensures TextLt(a, c)
  {
    if a != [] && b != [] && c != [] && a[0] == b[0] && b[0] == c[0] {
      TextLtTransitive(a[1..], b[1..], c[1..]);
    }
  }

  lemma {:induction false} TextLtTotal(a: string, b: string)
    ensures a == b || TextLt(a, b) || TextLt(b, a)
  {
    if a != [] && b != [] && a[0] == b[0] {
      TextLtTotal(a[1..], b[1..]);
      if a[1..] == b[1..] {
        assert a == [a[0]] + a[1..] && b == [b[0]] + b[1..];
      }
    }
  }

  lemma {:induction false} TextLtAsymmetric(a: string, b: string)
    requires TextLt(a, b)
    ensures !TextLt(b, a)
  {
    if a != [] && b != [] && a[0] == b[0] {
      TextLtAsymmetric(a[1..], b[1..]);
    }
  }

  /** `TextLe` is a total order: reflexive, antisymmetric, transitive and total. */
  lemma TextLeTotalOrder(a: string, b: string, c: string)
    ensures TextLe(a, a)
    ensures TextLe(a, b) && TextLe(b, a) ==> a == b
    ensures TextLe(a, b) && TextLe(b, c) ==> TextLe(a, c)
    ensures TextLe(a, b) || TextLe(b, a)
    ensures !TextLe(a, b) <==> TextLt(b, a)
  {
    TextLtTotal(a, b);
    if TextLt(a, b) { TextLtAsymmetric(a, b); }
    if TextLt(b, a) { TextLtAsymmetric(b, a); }
    if TextLt(a, b) && TextLt(b, c) { TextLtTransitive(a, b, c); }
    TextLtIrreflexive(a);
  }

  lemma TextLeTrans(a: string, b: string, c: string)
    requires TextLe(a, b) && TextLe(b, c)
    ensures TextLe(a, c)
  {
    TextLeTotalOrder(a, b, c);
  }

  lemma TextNotLt(a: string, b: string)
    requires !TextLt(a, b)
    ensures TextLe(b, a)
  {
    TextLtTotal(a, b);
  }
}
