/**
 * The main window's own rules: the watchlist operations (add, remove, load), the guards that start
 * an update worker, the start of the automatic update with its overlap warning, the file name of a
 * CSV export, and the truncation of status messages.
 *
 * Widgets, dialogs, the timer and the worker thread are not modelled: the watchlist is a sequence
 * of names, `isRunning()` of the worker is a field, a dialog answer is a parameter, and writing
 * `watchlist.json` is left to the caller.
 */
module MainWindow {
  import opened Text
  import opened Json
  import Worker

  // ----- status messages -----

  const MaxStatusMessageLength: nat := 80

  /** `message[:MAX_STATUS_MESSAGE_LENGTH] + "..."` for a message that is too long, else the message. */
  function DisplayMessage(message: string): (r: string)
    ensures |r| <= MaxStatusMessageLength + 3
    ensures |message| <= MaxStatusMessageLength ==> r == message
    ensures |message| > MaxStatusMessageLength ==>
              && |r| == MaxStatusMessageLength + 3
              && r[..MaxStatusMessageLength] == message[..MaxStatusMessageLength] && r[MaxStatusMessageLength..] == "..."
  {
    if |message| > MaxStatusMessageLength then message[..MaxStatusMessageLength] + "..." else message
  }

  /** Shortening a displayed message again changes nothing. */
  lemma DisplayMessageIdempotent(message: string)
    ensures DisplayMessage(DisplayMessage(message)) == DisplayMessage(message)
  {
    var r := DisplayMessage(message);
    if |message| > MaxStatusMessageLength {
      assert r == r[..MaxStatusMessageLength] + "...";
    }
  }

  // ----- export file name -----

  /** The characters an export file name keeps: `c.isalnum() or c in (' ', '-', '_')`. */
  predicate SafeChar(c: char) { IsAlnum(c) || c == ' ' || c == '-' || c == '_' }

  /** `"".join(c for c in skin_name if SafeChar(c)).strip()`. */
  function SafeFilename(name: string): string
  {
    Trim(Filter(name, SafeChar))
  }

  /** A safe file name holds only safe characters and neither starts nor ends with a space. */
  lemma SafeFilenameChars(name: string)
    ensures var r := SafeFilename(name);
            && (forall i :: 0 <= i < |r| ==> SafeChar(r[i]))
            && (r == [] || (r[0] != ' ' && r[|r| - 1] != ' '))
  {
    var f := Filter(name, SafeChar);
    var r := Trim(f);
    TrimEnds(f);
    TrimWithin(f);
    forall i | 0 <= i < |r|
      ensures SafeChar(r[i])
    {
      assert r[i] in multiset(f);
      var j :| 0 <= j < |f| && f[j] == r[i];
    }
  }

  /** Every letter and digit of the name survives, as often as it occurs. */
  lemma SafeFilenameKeepsAlnum(name: string, c: char)
    requires IsAlnum(c)
    ensures multiset(SafeFilename(name))[c] == multiset(name)[c]
  {
    FilterOccurrences(name, SafeChar, c);
    TrimKeepsNonSpace(Filter(name, SafeChar), c);
  }

  /** Sanitising a safe file name changes nothing. */
  lemma SafeFilenameIdempotent(name: string)
    ensures SafeFilename(SafeFilename(name)) == SafeFilename(name)
  {
    var r := SafeFilename(name);
    SafeFilenameChars(name);
    FilterKeepsAll(r, SafeChar);
    TrimIdempotent(Filter(name, SafeChar));
  }

  // ----- overlap warning -----

  /** `MIN_REQUEST_DELAY`, in seconds. */
  const MinRequestDelay: real := 2.0

  /** `estimated_duration > interval_minutes * 60 * 0.8`, with `estimated_duration` the number of
    * skins times the request delay. */
  predicate NeedsOverlapWarning(count: nat, intervalMinutes: nat)
  {
    count as real * MinRequestDelay > intervalMinutes as real * 60.0 * 0.8
  }

  /** The warning appears exactly when there are more than 24 skins per minute of interval. */
  lemma OverlapWarningIff(count: nat, intervalMinutes: nat)
    ensures NeedsOverlapWarning(count, intervalMinutes) <==> count > 24 * intervalMinutes
  {
  }

  /** The interval the warning recommends, as written: `int(estimated_duration / 60) + 2`. */
  function RecommendedAsWritten(count: nat): (m: nat)
    ensures m == count / 30 + 2
  {
    var minutes := (count as real * MinRequestDelay / 60.0).Floor;
    assert minutes == count / 30 by {
      var q := count / 30;
      assert q as real * 30.0 <= count as real < (q + 1) as real * 30.0;
    }
    minutes as nat + 2
  }

  /** With 145 skins the recommended 6 minutes draw the same warning again. */
  lemma RecommendationStillWarns()
    ensures RecommendedAsWritten(145) == 6 && NeedsOverlapWarning(145, RecommendedAsWritten(145))
  {
  }

  /** For more than 240 skins the recommendation always draws the warning again. */
  lemma RecommendationWarnsForLargeLists(count: nat)
    requires count > 240
    ensures NeedsOverlapWarning(count, RecommendedAsWritten(count))
  {
    OverlapWarningIff(count, RecommendedAsWritten(count));
  }

  /** A recommendation that keeps the written rule where it avoids the warning and otherwise is the
    * shortest interval without the warning. */
  function Recommended(count: nat): (m: nat)
    ensures !NeedsOverlapWarning(count, m)
    ensures m >= RecommendedAsWritten(count)
    ensures !NeedsOverlapWarning(count, RecommendedAsWritten(count)) ==> m == RecommendedAsWritten(count)
    ensures m > RecommendedAsWritten(count) ==> NeedsOverlapWarning(count, m - 1)
  {
    var least := (count + 23) / 24;
    OverlapWarningIff(count, least);
    OverlapWarningIff(count, RecommendedAsWritten(count));
    if least > RecommendedAsWritten(count) then
      OverlapWarningIff(count, least - 1);
      least
    else
      RecommendedAsWritten(count)
  }

  // ----- the watchlist -----

  /** How `add_skin` ends: the entry is added, the input is empty after stripping, or an entry equal
    * to it up to case exists. */
  datatype AddResult = Added | EmptyInput | DuplicateEntry

  /** Some entry of `list` equals `name` up to case (`item.lower() == skin_name.lower()`). */
  predicate HasCaseDuplicate(list: seq<string>, name: string)
  {
    exists i :: 0 <= i < |list| && Lower(list[i]) == Lower(name)
  }

  /** The outcome of `add_skin` for the text of the input field. */
  function AddOutcome(list: seq<string>, input: string): AddResult
  {
    var name := Trim(input);
    if name == [] then EmptyInput
    else if HasCaseDuplicate(list, name) then DuplicateEntry
    else Added
  }

  /** No two entries are equal up to case. */
  predicate CaseDistinct(list: seq<string>)
  {
    forall i, j :: 0 <= i < j < |list| ==> Lower(list[i]) != Lower(list[j])
  }

  /** Adding keeps the entries distinct up to case, and the new entry is stripped and not empty. */
  lemma AddKeepsCaseDistinct(list: seq<string>, input: string)
    requires CaseDistinct(list) && AddOutcome(list, input) == Added
    ensures CaseDistinct(list + [Trim(input)])
    ensures Trim(input) != [] && Trim(Trim(input)) == Trim(input)
  {
    TrimIdempotent(input);
    var l := list + [Trim(input)];
    forall i, j | 0 <= i < j < |l| ensures Lower(l[i]) != Lower(l[j]) {
      if j == |list| {
        assert l[i] == list[i];
      } else {
        assert l[i] == list[i] && l[j] == list[j];
      }
    }
  }

  /** `skin_list` without the entry at `i`. */
  function Without(list: seq<string>, i: nat): (r: seq<string>)
    requires i < |list|
    ensures |r| == |list| - 1
    ensures forall k :: 0 <= k < i ==> r[k] == list[k]
    ensures forall k :: i <= k < |r| ==> r[k] == list[k + 1]
  {
    list[..i] + list[i + 1..]
  }

  /** Removing keeps the entries distinct up to case, and removes one occurrence of the entry. */
  lemma RemoveKeepsCaseDistinct(list: seq<string>, i: nat)
    requires i < |list|
    ensures CaseDistinct(list) ==> CaseDistinct(Without(list, i))
    ensures multiset(Without(list, i)) + multiset{list[i]} == multiset(list)
  {
    assert list == list[..i] + [list[i]] + list[i + 1..];
    var r := Without(list, i);
    if CaseDistinct(list) {
      forall a, b | 0 <= a < b < |r| ensures Lower(r[a]) != Lower(r[b]) {
        var a' := if a < i then a else a + 1;
        var b' := if b < i then b else b + 1;
        assert r[a] == list[a'] && r[b] == list[b'] && a' < b';
      }
    }
  }

  /** The entries `load_watchlist` takes from a JSON list: each string that is not empty after
    * stripping, stripped, in order. */
  function LoadedEntries(items: seq<Value>): seq<string>
  {
    if items == [] then [] else Entry(items[0]) + LoadedEntries(items[1..])
  }

  /** What one element of the list contributes: `skin.strip()` for a string that is not blank. */
  function Entry(v: Value): seq<string>
  {
    if v.Str? && Trim(v.s) != [] then [Trim(v.s)] else []
  }

  /** The entries `load_watchlist` takes from the file: none unless it decodes to a list. */
  function LoadedFrom(file: FileRead): seq<string>
  {
    if file.Parsed? && file.doc.Array? then LoadedEntries(file.doc.items) else []
  }

  lemma {:induction false} LoadedEntriesAppend(a: seq<Value>, b: seq<Value>)
    ensures LoadedEntries(a + b) == LoadedEntries(a) + LoadedEntries(b)
  {
    if a == [] {
      assert a + b == b;
    } else {
      assert (a + b)[0] == a[0] && (a + b)[1..] == a[1..] + b;
      LoadedEntriesAppend(a[1..], b);
    }
  }

  /** An entry is stripped and not empty. */
  lemma EntryStripped(v: Value)
    ensures |Entry(v)| <= 1
    ensures forall x :: x in Entry(v) ==> x != [] && Trim(x) == x
  {
    if v.Str? {
      TrimIdempotent(v.s);
    }
  }

  /** There are at most as many entries as list elements, and each is stripped and not empty. */
  lemma {:induction false} LoadedEntriesStripped(items: seq<Value>)
    ensures |LoadedEntries(items)| <= |items|
    ensures forall x :: x in LoadedEntries(items) ==> x != [] && Trim(x) == x
  {
    if items != [] {
      LoadedEntriesStripped(items[1..]);
      EntryStripped(items[0]);
      assert forall x :: x in LoadedEntries(items) ==> x in Entry(items[0]) || x in LoadedEntries(items[1..]);
    }
  }

  /** `x` is what `load_watchlist` keeps of the element `v`: `v` is a string whose stripped form is
    * `x`, and `x` is not empty. */
  predicate Loads(v: Value, x: string)
  {
    v.Str? && x != [] && Trim(v.s) == x
  }

  lemma EntryLoads(v: Value, x: string)
    ensures x in Entry(v) <==> Loads(v, x)
  {
  }

  /** A name is loaded exactly when it is the stripped form of a string of the list that is not
    * blank. */
  lemma {:induction false} LoadedEntriesMember(items: seq<Value>, x: string)
    ensures x in LoadedEntries(items) <==> exists j :: 0 <= j < |items| && Loads(items[j], x)
  {
    if items != [] {
      LoadedEntriesMember(items[1..], x);
      EntryLoads(items[0], x);
      if exists j :: 0 <= j < |items| - 1 && Loads(items[1..][j], x) {
        var j :| 0 <= j < |items| - 1 && Loads(items[1..][j], x);
        assert items[j + 1] == items[1..][j];
      }
      if exists j :: 0 <= j < |items| && Loads(items[j], x) {
        var j :| 0 <= j < |items| && Loads(items[j], x);
        if j > 0 {
          assert items[1..][j - 1] == items[j];
        }
      }
    }
  }

  /** One step of the loop of `load_watchlist`: the entries of a prefix one element longer. */
  lemma EntriesStep(skins: seq<Value>, i: nat)
    requires i < |skins|
    ensures LoadedEntries(skins[..i + 1]) == LoadedEntries(skins[..i]) + Entry(skins[i])
  {
    assert skins[..i + 1] == skins[..i] + [skins[i]];
    LoadedEntriesAppend(skins[..i], [skins[i]]);
    assert [skins[i]][1..] == [];
  }

  /** Loading does not drop duplicates: a stripped name listed twice is loaded twice. */
  lemma LoadKeepsDuplicates(name: string)
    requires name != [] && Trim(name) == name
    ensures LoadedEntries([Str(name), Str(name)]) == [name, name]
  {
    var items := [Str(name), Str(name)];
    assert Entry(Str(name)) == [name];
    assert items[1..] == [Str(name)];
    assert items[1..][1..] == [];
    assert LoadedEntries(items[1..]) == [name] + LoadedEntries([]);
  }

  /** The part of `MainWindow` these rules touch: the watchlist, the auto-update flag and timer
    * interval, and the current update worker with whether its thread is running. */
  class Window {
    var skinList: seq<string>
    var isAutoUpdating: bool
    var timerIntervalMs: nat
    var updateWorker: Worker.PriceUpdateWorker?
    var workerRunning: bool

    constructor ()
      ensures skinList == [] && !isAutoUpdating && updateWorker == null && !workerRunning
    {
      skinList, isAutoUpdating, timerIntervalMs, updateWorker, workerRunning := [], false, 0, null, false;
    }

    /** `_start_update_worker`: nothing while a worker is running; otherwise a new worker over a copy
      * of the current watchlist, started. */
    method StartUpdateWorker(auto: bool) returns (started: bool)
      modifies this
      ensures started <==> !(old(updateWorker) != null && old(workerRunning))
      ensures !started ==> unchanged(this)
      ensures started ==> && fresh(updateWorker) && workerRunning
                          && updateWorker.skinList == skinList && updateWorker.isAutoUpdate == auto
                          && !updateWorker.shouldStop && updateWorker.events == []
      ensures skinList == old(skinList) && isAutoUpdating == old(isAutoUpdating) && timerIntervalMs == old(timerIntervalMs)
    {
      if updateWorker != null && workerRunning {
        return false;
      }
      var currentSkins := skinList;
      updateWorker := new Worker.PriceUpdateWorker(currentSkins, auto);
      workerRunning := true;
      started := true;
    }

    /** `start_auto_update_cycle` (the timer callback): only while auto-updating and with a
      * non-empty watchlist. */
    method StartAutoUpdateCycle() returns (started: bool)
      modifies this
      ensures started <==> isAutoUpdating && |skinList| > 0 && !(old(updateWorker) != null && old(workerRunning))
      ensures !started ==> unchanged(this)
      ensures started ==> fresh(updateWorker) && updateWorker.skinList == skinList && updateWorker.isAutoUpdate
      ensures skinList == old(skinList) && isAutoUpdating == old(isAutoUpdating) && timerIntervalMs == old(timerIntervalMs)
    {
      if !isAutoUpdating || |skinList| == 0 {
        return false;
      }
      started := StartUpdateWorker(true);
    }

    /** `start_manual_update`: only with a non-empty watchlist. */
    method StartManualUpdate() returns (started: bool)
      modifies this
      ensures started <==> |skinList| > 0 && !(old(updateWorker) != null && old(workerRunning))
      ensures !started ==> unchanged(this)
      ensures started ==> fresh(updateWorker) && updateWorker.skinList == skinList && !updateWorker.isAutoUpdate
      ensures skinList == old(skinList) && isAutoUpdating == old(isAutoUpdating) && timerIntervalMs == old(timerIntervalMs)
    {
      if |skinList| == 0 {
        return false;
      }
      started := StartUpdateWorker(false);
    }

    /** `start_auto_update` with the spin box value and the answer to the overlap warning: nothing for
      * an empty watchlist or a declined warning; otherwise the timer runs with the interval in
      * milliseconds, auto-updating is on, and the first cycle starts at once. */
    method StartAutoUpdate(intervalMinutes: nat, confirmed: bool) returns (activated: bool)
      modifies this
      ensures activated <==> |old(skinList)| > 0 && (NeedsOverlapWarning(|old(skinList)|, intervalMinutes) ==> confirmed)
      ensures !activated ==> unchanged(this)
      ensures activated ==> isAutoUpdating && timerIntervalMs == intervalMinutes * 60 * 1000
      ensures activated && !(old(updateWorker) != null && old(workerRunning)) ==>
                fresh(updateWorker) && updateWorker.skinList == skinList && updateWorker.isAutoUpdate
      ensures skinList == old(skinList)
    {
      if |skinList| == 0 {
        return false;
      }
      if NeedsOverlapWarning(|skinList|, intervalMinutes) && !confirmed {
        return false;
      }
      timerIntervalMs := intervalMinutes * 60 * 1000;
      isAutoUpdating := true;
      activated := true;
      var _ := StartAutoUpdateCycle();
    }

    /** `add_skin` with the text of the input field: the trimmed name is appended unless it is empty
      * or some entry equals it up to case. */
    method AddSkin(input: string) returns (r: AddResult)
      modifies this
      ensures r == AddOutcome(old(skinList), input)
      ensures skinList == if r == Added then old(skinList) + [Trim(input)] else old(skinList)
      ensures isAutoUpdating == old(isAutoUpdating) && timerIntervalMs == old(timerIntervalMs)
      ensures updateWorker == old(updateWorker) && workerRunning == old(workerRunning)
    {
      var skinName := Trim(input);
      if skinName == [] {
        return EmptyInput;
      }
      var key := Lower(skinName);
      var i := 0;
      while i < |skinList|
        invariant 0 <= i <= |skinList|
        invariant forall k :: 0 <= k < i ==> Lower(skinList[k]) != key
      {
        if Lower(skinList[i]) == key {
          return DuplicateEntry;
        }
        i := i + 1;
      }
      skinList := skinList + [skinName];
      r := Added;
    }

    /** `remove_skin` with `currentRow()`, which is -1 without a selection: only a selected entry
      * is removed. */
    method RemoveSkin(selected: int)
      requires -1 <= selected < |skinList|
      modifies this
      ensures skinList == if selected >= 0 then Without(old(skinList), selected) else old(skinList)
      ensures isAutoUpdating == old(isAutoUpdating) && timerIntervalMs == old(timerIntervalMs)
      ensures updateWorker == old(updateWorker) && workerRunning == old(workerRunning)
    {
      if selected >= 0 {
        skinList := skinList[..selected] + skinList[selected + 1..];
      }
    }

    /** `load_watchlist`: the stripped non-blank strings of a JSON list are appended in order; a
      * missing or unreadable file, or a document that is not a list, adds nothing. */
    method LoadWatchlist(file: FileRead)
      modifies this
      ensures skinList == old(skinList) + LoadedFrom(file)
      ensures isAutoUpdating == old(isAutoUpdating) && timerIntervalMs == old(timerIntervalMs)
      ensures updateWorker == old(updateWorker) && workerRunning == old(workerRunning)
    {
      if file.Parsed? && file.doc.Array? {
        AddEntries(file.doc.items);
      }
    }

    /** The body of the loop of `load_watchlist`: a string is stripped and kept unless empty. */
    method AddEntry(skin: Value)
      modifies this
      ensures skinList == old(skinList) + Entry(skin)
      ensures isAutoUpdating == old(isAutoUpdating) && timerIntervalMs == old(timerIntervalMs)
      ensures updateWorker == old(updateWorker) && workerRunning == old(workerRunning)
    {
      if skin.Str? {
        var stripped := Trim(skin.s);
        if stripped != [] {
          skinList := skinList + [stripped];
        }
      }
    }

    /** The loop of `load_watchlist` over the elements of a JSON list. */
    method AddEntries(skins: seq<Value>)
      modifies this
      ensures skinList == old(skinList) + LoadedEntries(skins)
      ensures isAutoUpdating == old(isAutoUpdating) && timerIntervalMs == old(timerIntervalMs)
      ensures updateWorker == old(updateWorker) && workerRunning == old(workerRunning)
    {
      var i := 0;
      while i < |skins|
        invariant 0 <= i <= |skins|
        invariant skinList == old(skinList) + LoadedEntries(skins[..i])
        invariant isAutoUpdating == old(isAutoUpdating) && timerIntervalMs == old(timerIntervalMs)
        invariant updateWorker == old(updateWorker) && workerRunning == old(workerRunning)
      {
        EntriesStep(skins, i);
        AddEntry(skins[i]);
        i := i + 1;
      }
      assert skins[..i] == skins;
    }
  }
}
