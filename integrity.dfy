/**
 * `_validate_database_integrity`: three counting queries over the stored rows, reported as issues;
 * only the issue about empty critical columns is fatal.
 */
module Integrity {
  import opened Wrappers
  import opened Text
  import opened Observation

  /** Number of rows satisfying `p` (`SELECT COUNT(*) ... WHERE p`). */
  function CountRows(rows: seq<Row>, p: Row -> bool): (n: nat)
    ensures n <= |rows|
    ensures n == 0 <==> forall r :: r in rows ==> !p(r)
  {
    if rows == [] then 0
    else
      assert forall r :: r in rows ==> r == rows[0] || r in rows[1..];
      (if p(rows[0]) then 1 else 0) + CountRows(rows[1..], p)
  }

  /** A NULL or empty skin or timestamp (NULL cannot occur in the model). */
  predicate HasEmptyKey(r: Row) { r.skin == [] || r.timestamp == [] }

  /** `timestamp GLOB '[0-9][0-9][0-9][0-9]-[0-9][0-9]-[0-9][0-9]T[0-9][0-9]:[0-9][0-9]:[0-9][0-9]*'`. */
  predicate MatchesTimestampPattern(t: string) {
    && |t| >= 19
    && (forall i :: 0 <= i < 19 && i !in {4, 7, 10, 13, 16} ==> IsDigit(t[i]))
    && t[4] == '-' && t[7] == '-' && t[10] == 'T' && t[13] == ':' && t[16] == ':'
  }

  predicate BadTimestamp(r: Row) { !MatchesTimestampPattern(r.timestamp) }

  /** Row `i` shares its (skin, timestamp) with another row. */
  predicate HasTwin(rows: seq<Row>, i: int)
    requires 0 <= i < |rows|
  {
    exists j :: 0 <= j < |rows| && j != i && rows[j].skin == rows[i].skin && rows[j].timestamp == rows[i].timestamp
  }

  /** Number of rows among the first `n` that have a twin: `sum(cnt)` over the groups with `cnt > 1`. */
  function TwinCount(rows: seq<Row>, n: nat): (c: nat)
    requires n <= |rows|
    ensures c <= n
    ensures c == 0 <==> forall i :: 0 <= i < n ==> !HasTwin(rows, i)
  {
    if n == 0 then 0 else TwinCount(rows, n - 1) + if HasTwin(rows, n - 1) then 1 else 0
  }

  /** The (skin, timestamp) groups with more than one row. */
  function DuplicateGroups(rows: seq<Row>): set<(string, string)>
  {
    set i | 0 <= i < |rows| && HasTwin(rows, i) :: (rows[i].skin, rows[i].timestamp)
  }

  datatype Issue = EmptyValues(count: nat) | InvalidTimestamps(count: nat) | Duplicates(groups: nat, entries: nat)

  /** Whether the issue text names `null` or `leer`: the text of the empty-values issue does, the
    * two others do not. */
  predicate IsCritical(issue: Issue) { issue.EmptyValues? }

  /** The issues found, in the order the queries run; a count of zero is no issue. */
  function Issues(rows: seq<Row>): seq<Issue>
  {
    var empty := CountRows(rows, HasEmptyKey);
    var invalid := CountRows(rows, BadTimestamp);
    var entries := TwinCount(rows, |rows|);
    (if empty > 0 then [EmptyValues(empty)] else [])
    + (if invalid > 0 then [InvalidTimestamps(invalid)] else [])
    + (if entries > 0 then [Duplicates(|DuplicateGroups(rows)|, entries)] else [])
  }

  function CriticalIssues(issues: seq<Issue>): (c: seq<Issue>)
    ensures forall i :: 0 <= i < |c| ==> IsCritical(c[i]) && c[i] in issues
    ensures (c == []) <==> forall i :: 0 <= i < |issues| ==> !IsCritical(issues[i])
  {
    if issues == [] then []
    else (if IsCritical(issues[0]) then [issues[0]] else []) + CriticalIssues(issues[1..])
  }

  /** `Ok` with the advisory issues when the check passes, `Err` with the critical ones when it raises. */
  function ValidateIntegrity(rows: seq<Row>): Result<seq<Issue>, seq<Issue>>
  {
    var issues := Issues(rows);
    var critical := CriticalIssues(issues);
    if critical != [] then Err(critical) else Ok(issues)
  }

  /** The check raises exactly when some row has an empty skin or timestamp, and then reports the
    * number of such rows; malformed timestamps and duplicates are reported but never fatal. */
  lemma ValidateIntegritySpec(rows: seq<Row>)
    ensures ValidateIntegrity(rows).Err? <==> exists r :: r in rows && HasEmptyKey(r)
    ensures ValidateIntegrity(rows).Err? ==> ValidateIntegrity(rows).error == [EmptyValues(CountRows(rows, HasEmptyKey))]
    ensures ValidateIntegrity(rows).Ok? ==>
              var issues := ValidateIntegrity(rows).value;
              && (forall i :: 0 <= i < |issues| ==> !IsCritical(issues[i]))
              && ((exists r :: r in rows && BadTimestamp(r)) <==> InvalidTimestamps(CountRows(rows, BadTimestamp)) in issues)
              && ((exists i :: 0 <= i < |rows| && HasTwin(rows, i)) <==>
                    Duplicates(|DuplicateGroups(rows)|, TwinCount(rows, |rows|)) in issues)
  {
    CriticalOfIssues(rows);
    var issues := Issues(rows);
    if CountRows(rows, HasEmptyKey) == 0 {
      var invalid := CountRows(rows, BadTimestamp);
      var entries := TwinCount(rows, |rows|);
      assert issues == (if invalid > 0 then [InvalidTimestamps(invalid)] else [])
                       + (if entries > 0 then [Duplicates(|DuplicateGroups(rows)|, entries)] else []);
    }
  }

  /** The critical issues are the empty-values issue alone, when there is one. */
  lemma CriticalOfIssues(rows: seq<Row>)
    ensures CriticalIssues(Issues(rows)) ==
              (if CountRows(rows, HasEmptyKey) > 0 then [EmptyValues(CountRows(rows, HasEmptyKey))] else [])
  {
    var empty := CountRows(rows, HasEmptyKey);
    var head: seq<Issue> := if empty > 0 then [EmptyValues(empty)] else [];
    var invalid := CountRows(rows, BadTimestamp);
    var entries := TwinCount(rows, |rows|);
    var mid: seq<Issue> := if invalid > 0 then [InvalidTimestamps(invalid)] else [];
    var tail: seq<Issue> := if entries > 0 then [Duplicates(|DuplicateGroups(rows)|, entries)] else [];
    assert Issues(rows) == head + mid + tail;
    CriticalAppend(head + mid, tail);
    CriticalAppend(head, mid);
    CriticalSingle(head);
    CriticalSingle(mid);
    CriticalSingle(tail);
  }

  /** At most one issue: it is kept exactly when it is critical. */
  lemma CriticalSingle(a: seq<Issue>)
    requires |a| <= 1
    ensures CriticalIssues(a) == if a != [] && IsCritical(a[0]) then a else []
  {
    if a != [] {
      assert a[1..] == [];
    }
  }

  /** Selecting the critical issues distributes over concatenation. */
  lemma {:induction false} CriticalAppend(a: seq<Issue>, b: seq<Issue>)
    ensures CriticalIssues(a + b) == CriticalIssues(a) + CriticalIssues(b)
  {
    if a == [] {
      assert a + b == b;
    } else {
      assert (a + b)[1..] == a[1..] + b;
      CriticalAppend(a[1..], b);
    }
  }

  /** A row with an empty timestamp also fails the timestamp pattern. */
  lemma EmptyTimestampIsInvalid(r: Row)
    requires r.timestamp == []
    ensures BadTimestamp(r)
  {
  }

  /** Duplicates come in groups: a row with a twin makes its twin counted too, so a duplicate
    * issue always covers at least two entries and at least one group. */
  lemma DuplicatesComeInPairs(rows: seq<Row>)
    requires exists i :: 0 <= i < |rows| && HasTwin(rows, i)
    ensures TwinCount(rows, |rows|) >= 2
    ensures |DuplicateGroups(rows)| >= 1
  {
    var i :| 0 <= i < |rows| && HasTwin(rows, i);
    var j :| 0 <= j < |rows| && j != i && rows[j].skin == rows[i].skin && rows[j].timestamp == rows[i].timestamp;
    assert HasTwin(rows, j);
    TwinCountOfTwo(rows, |rows|, i, j);
    assert (rows[i].skin, rows[i].timestamp) in DuplicateGroups(rows);
  }

  lemma {:induction false} TwinCountOfTwo(rows: seq<Row>, n: nat, i: int, j: int)
    requires n <= |rows| && 0 <= i < n && 0 <= j < n && i != j
    requires HasTwin(rows, i) && HasTwin(rows, j)
    ensures TwinCount(rows, n) >= 2
  {
    if i != n - 1 && j != n - 1 {
      TwinCountOfTwo(rows, n - 1, i, j);
    } else if i == n - 1 {
      assert TwinCount(rows, n - 1) >= 1 by { assert j < n - 1 && HasTwin(rows, j); }
    } else {
      assert TwinCount(rows, n - 1) >= 1 by { assert i < n - 1 && HasTwin(rows, i); }
    }
  }

  /** Rows with pairwise distinct (skin, timestamp) keys, well-formed timestamps and non-empty skins
    * pass the check without any issue. */
  lemma CleanStorePasses(rows: seq<Row>)
    requires forall r :: r in rows ==> r.skin != [] && MatchesTimestampPattern(r.timestamp)
    requires forall i, j :: 0 <= i < j < |rows| ==> (rows[i].skin, rows[i].timestamp) != (rows[j].skin, rows[j].timestamp)
    ensures ValidateIntegrity(rows) == Ok([])
  {
    forall i, j | 0 <= i < j < |rows| ensures rows[i].skin != rows[j].skin || rows[i].timestamp != rows[j].timestamp {
      assert (rows[i].skin, rows[i].timestamp) != (rows[j].skin, rows[j].timestamp);
    }
    forall r | r in rows ensures !HasEmptyKey(r) && !BadTimestamp(r) {
      assert r.timestamp != [];
    }
  }
}
