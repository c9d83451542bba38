/**
 * The price-alert test and the polling cycle of the update worker: for each skin of a snapshot of
 * the watchlist, a progress message, one fetch, the new quote and a possible alarm, and a pause
 * between requests, until the list is done or a stop is requested.
 *
 * The fetch is an oracle: the outcome for each position of the snapshot is an input. The stop
 * request of another thread is an input too: `stopAt` is the number of reads of the stop flag after
 * which `stop()` has been called. Signals become the events the worker records.
 */
module Worker {
  import opened Wrappers
  import opened Json
  import opened Quote

  // ----- check_alert -----

  /** An exception `check_alert` does not catch: comparing the price with a limit that is neither a
    * number nor a boolean (`TypeError`), calling `.get` on a document that is not an object
    * (`AttributeError`), or reading a file that is not UTF-8 (`UnicodeDecodeError`). */
  datatype AlertError = TypeError | AttributeError | UnicodeDecodeError

  /** Python's `current_price <= limit` for a JSON limit; a boolean compares as 0 or 1. */
  function AtMost(price: real, limit: Value): Result<bool, AlertError>
  {
    match limit
    case Number(n) => Ok(price <= n)
    case Bool(b) => Ok(price <= if b then 1.0 else 0.0)
    case _ => Err(TypeError)
  }

  /** `check_alert(skin, current_price)` against the content of `alerts.json`. */
  function CheckAlert(alerts: FileRead, skin: string, price: real): Result<bool, AlertError>
  {
    match alerts
    case Missing => Ok(false)
    case Unreadable => Ok(false)
    case Undecodable => Err(UnicodeDecodeError)
    case Parsed(doc) =>
      if !doc.Object? then Err(AttributeError)
      else if skin !in doc.fields || doc.fields[skin] == Null then Ok(false)
      else AtMost(price, doc.fields[skin])
  }

  /** The alarm fires exactly for a numeric limit the price does not exceed; a missing or unreadable
    * file, or no limit for the skin, never fires and never raises; a file that is not UTF-8 raises;
    * a cheaper price fires whenever a dearer one does. */
  lemma CheckAlertSpec(alerts: FileRead, skin: string, price: real)
    ensures alerts.Missing? || alerts.Unreadable? ==> CheckAlert(alerts, skin, price) == Ok(false)
    ensures alerts.Parsed? && alerts.doc.Object? && (skin !in alerts.doc.fields || alerts.doc.fields[skin] == Null) ==>
              CheckAlert(alerts, skin, price) == Ok(false)
    ensures alerts.Parsed? && alerts.doc.Object? && skin in alerts.doc.fields && alerts.doc.fields[skin].Number? ==>
              CheckAlert(alerts, skin, price) == Ok(price <= alerts.doc.fields[skin].n)
    ensures CheckAlert(alerts, skin, price) == Ok(true) ==>
              alerts.Parsed? && alerts.doc.Object? && skin in alerts.doc.fields && alerts.doc.fields[skin] != Null
    ensures alerts.Undecodable? ==> CheckAlert(alerts, skin, price) == Err(UnicodeDecodeError)
    ensures CheckAlert(alerts, skin, price).Err? <==>
              alerts.Undecodable? || (alerts.Parsed? && (!alerts.doc.Object? ||
                (skin in alerts.doc.fields && !(alerts.doc.fields[skin].Null? || alerts.doc.fields[skin].Number? || alerts.doc.fields[skin].Bool?))))
    ensures forall lower :: lower <= price && CheckAlert(alerts, skin, price) == Ok(true) ==> CheckAlert(alerts, skin, lower) == Ok(true)
  {
    if alerts.Parsed? && alerts.doc.Object? && skin in alerts.doc.fields {
      var limit := alerts.doc.fields[skin];
      assert limit.Null? || limit.Number? || limit.Bool? || limit.Str? || limit.Array? || limit.Object?;
    }
  }

  // ----- the polling cycle -----

  /** What the fetch of one skin gave: a quote, `None`, or an exception. */
  datatype FetchOutcome = Fetched(data: MarketData) | NoData | Raised

  /** The signals of the worker; `Sleep` is the pause of `MIN_REQUEST_DELAY` between two requests. */
  datatype Event =
    | Progress(message: string, current: nat, total: nat)
    | DataUpdated(skin: string, data: MarketData)
    | AlertTriggered(skin: string, price: real, data: MarketData)
    | Sleep
    | Completed(successful: nat, total: nat)

  datatype Kind = ProgressKind | DataKind | AlertKind | SleepKind | CompletedKind

  function KindOf(e: Event): Kind
  {
    match e
    case Progress(_, _, _) => ProgressKind
    case DataUpdated(_, _) => DataKind
    case AlertTriggered(_, _, _) => AlertKind
    case Sleep => SleepKind
    case Completed(_, _) => CompletedKind
  }

  /** How many events of kind `k` a trace holds. */
  function CountOf(es: seq<Event>, k: Kind): (n: nat)
    ensures n <= |es|
  {
    if es == [] then 0 else (if KindOf(es[0]) == k then 1 else 0) + CountOf(es[1..], k)
  }

  lemma {:induction false} CountOfAppend(a: seq<Event>, b: seq<Event>, k: Kind)
    ensures CountOf(a + b, k) == CountOf(a, k) + CountOf(b, k)
  {
    if a == [] {
      assert a + b == b;
    } else {
      assert (a + b)[0] == a[0] && (a + b)[1..] == a[1..] + b;
      CountOfAppend(a[1..], b, k);
    }
  }

  /** The first `n` characters of `s` (`s[:n]`). */
  function Prefix(s: string, n: nat): (r: string)
    ensures |r| <= n && |r| <= |s| && r == s[..|r|]
    ensures |s| <= n ==> r == s
  {
    if |s| <= n then s else s[..n]
  }

  /** `f"{update_type}: {skin[:30]}..."`. */
  function ProgressMessage(auto: bool, skin: string): string
  {
    (if auto then "Auto-Update" else "Manueller Update") + ": " + Prefix(skin, 30) + "..."
  }

  /** One run of the worker: the snapshot and its update type, the stop flag when the run starts,
    * the fetch outcome for each position, the alert file, and when `stop()` lands. */
  datatype Setup = Setup(skins: seq<string>, auto: bool, stopped: bool, outcomes: seq<FetchOutcome>,
                         alerts: FileRead, stopAt: Option<nat>)

  predicate WellFormed(st: Setup) { |st.outcomes| == |st.skins| }

  /** Read number `polls` of `should_stop` (counted from 0) sees a stop. */
  predicate StopSeen(st: Setup, polls: nat) {
    st.stopped || (st.stopAt.Some? && st.stopAt.value <= polls)
  }

  /** Item `i` gave a quote `has_valid_data` accepts. */
  predicate Usable(st: Setup, i: nat)
    requires WellFormed(st) && i < |st.skins|
  {
    st.outcomes[i].Fetched? && st.outcomes[i].data.HasValidData()
  }

  /** Item `i` reaches the pause test: neither its fetch nor its alert test raised. */
  predicate Completes(st: Setup, i: nat)
    requires WellFormed(st) && i < |st.skins|
  {
    !st.outcomes[i].Raised?
    && !(Usable(st, i) && CheckAlert(st.alerts, st.skins[i], st.outcomes[i].data.lowestPrice).Err?)
  }

  /** The events of item `i` after its progress message: the new quote, then the alarm when it fires. */
  function ItemEvents(st: Setup, i: nat): seq<Event>
    requires WellFormed(st) && i < |st.skins|
  {
    if !Usable(st, i) then []
    else
      var skin, data := st.skins[i], st.outcomes[i].data;
      [DataUpdated(skin, data)]
      + (if CheckAlert(st.alerts, skin, data.lowestPrice) == Ok(true) then [AlertTriggered(skin, data.lowestPrice, data)] else [])
  }

  /** What one item contributes up to the pause test: its events, whether it reaches the pause test,
    * and whether it gave a valid quote. */
  datatype Item = Item(events: seq<Event>, completes: bool, usable: bool)

  function ItemOf(st: Setup, i: nat): Item
    requires WellFormed(st) && i < |st.skins|
  {
    Item([Progress(ProgressMessage(st.auto, st.skins[i]), i + 1, |st.skins|)] + ItemEvents(st, i), Completes(st, i), Usable(st, i))
  }

  function Items(st: Setup): (r: seq<Item>)
    requires WellFormed(st)
    ensures |r| == |st.skins| && forall i :: 0 <= i < |r| ==> r[i] == ItemOf(st, i)
  {
    seq(|st.skins|, i requires 0 <= i < |st.skins| => ItemOf(st, i))
  }

  /** The pause test `i < total_skins - 1 and not self.should_stop`, reached only by a completed item;
    * the flag is read only when the item is not the last. */
  predicate Sleeps(st: Setup, items: seq<Item>, i: nat, polls: nat)
    requires i < |items|
  {
    items[i].completes && i < |items| - 1 && !StopSeen(st, polls + 1)
  }

  /** The number of flag polls once item `i` is done. */
  function NextPolls(items: seq<Item>, i: nat, polls: nat): nat
    requires i < |items|
  {
    if items[i].completes && i < |items| - 1 then polls + 2 else polls + 1
  }

  /** The events of item `i`, with the pause after it when `sleep` holds. */
  function Block(items: seq<Item>, i: nat, sleep: bool): seq<Event>
    requires i < |items|
  {
    items[i].events + if sleep then [Sleep] else []
  }

  /** The events of the cycle over `items` from item `i` on, with `polls` flag polls and `success`
    * valid quotes so far. */
  function Cycle(st: Setup, items: seq<Item>, i: nat, polls: nat, success: nat): seq<Event>
    requires i <= |items|
    decreases |items| - i
  {
    if i == |items| || StopSeen(st, polls) then [Completed(success, |items|)]
    else
      Block(items, i, Sleeps(st, items, i, polls))
      + Cycle(st, items, i + 1, NextPolls(items, i, polls), success + if items[i].usable then 1 else 0)
  }

  /** The events of a run of the worker. */
  function Trace(st: Setup): seq<Event>
    requires WellFormed(st)
  {
    Cycle(st, Items(st), 0, 0, 0)
  }

  // ----- one item -----

  /** An item's events: one progress message, first; no pause and no completion; a quote exactly for
    * a valid quote. */
  predicate Shaped(it: Item)
  {
    && it.events != [] && it.events[0].Progress?
    && CountOf(it.events, ProgressKind) == 1 && CountOf(it.events, CompletedKind) == 0 && CountOf(it.events, SleepKind) == 0
    && CountOf(it.events, DataKind) == if it.usable then 1 else 0
  }

  predicate AllShaped(items: seq<Item>)
  {
    forall k :: 0 <= k < |items| ==> Shaped(items[k])
  }

  /** The progress message of item `i` reports it 1-based, out of the length of the snapshot, and
    * every item is shaped. */
  lemma ItemShape(st: Setup, i: nat)
    requires WellFormed(st) && i < |st.skins|
    ensures Shaped(ItemOf(st, i)) && Currents(ItemOf(st, i).events) == [i + 1]
  {
    var p := [Progress(ProgressMessage(st.auto, st.skins[i]), i + 1, |st.skins|)];
    var e := ItemEvents(st, i);
    ItemEventsShape(st, i);
    CountOfAppend(p, e, ProgressKind);
    CountOfAppend(p, e, DataKind);
    CountOfAppend(p, e, SleepKind);
    CountOfAppend(p, e, CompletedKind);
    CurrentsAppend(p, e);
  }

  /** The events after the progress message: none for an item without a valid quote, else the quote
    * and possibly the alarm. */
  lemma ItemEventsShape(st: Setup, i: nat)
    requires WellFormed(st) && i < |st.skins|
    ensures var e := ItemEvents(st, i);
            && CountOf(e, ProgressKind) == 0 && CountOf(e, SleepKind) == 0 && CountOf(e, CompletedKind) == 0
            && CountOf(e, DataKind) == (if Usable(st, i) then 1 else 0) && Currents(e) == []
  {
    var e := ItemEvents(st, i);
    if Usable(st, i) {
      var skin, data := st.skins[i], st.outcomes[i].data;
      var d := DataUpdated(skin, data);
      var rest := e[1..];
      assert e == [d] + rest;
      assert rest == [] || rest == [AlertTriggered(skin, data.lowestPrice, data)];
      NonProgressCounts([d], rest);
    }
  }

  /** A quote followed by nothing or an alarm. */
  lemma NonProgressCounts(d: seq<Event>, rest: seq<Event>)
    requires |d| == 1 && d[0].DataUpdated?
    requires rest == [] || (|rest| == 1 && rest[0].AlertTriggered?)
    ensures var e := d + rest;
            && CountOf(e, ProgressKind) == 0 && CountOf(e, SleepKind) == 0 && CountOf(e, CompletedKind) == 0
            && CountOf(e, DataKind) == 1 && Currents(e) == []
  {
    var e := d + rest;
    assert e[0] == d[0] && e[1..] == rest;
    if rest != [] {
      assert rest[1..] == [];
      assert CountOf(rest, DataKind) == 0 && CountOf(rest, ProgressKind) == 0;
      assert CountOf(rest, SleepKind) == 0 && CountOf(rest, CompletedKind) == 0 && Currents(rest) == [];
    }
  }

  lemma ItemsShaped(st: Setup)
    requires WellFormed(st)
    ensures AllShaped(Items(st))
  {
    forall k | 0 <= k < |st.skins| ensures Shaped(Items(st)[k]) {
      ItemShape(st, k);
    }
  }

  /** Within item `i`: the progress message is for that item, with its message; the quote is that of
    * a valid fetch; the alarm is for it and fires only when `check_alert` holds; the alarm comes right
    * after the quote. */
  lemma ItemContents(st: Setup, i: nat)
    requires WellFormed(st) && i < |st.skins|
    ensures var es := ItemOf(st, i).events;
            && (forall e :: e in es && e.Progress? ==> e == Progress(ProgressMessage(st.auto, st.skins[i]), i + 1, |st.skins|))
            && (forall e :: e in es && e.DataUpdated? ==> Usable(st, i) && e == DataUpdated(st.skins[i], st.outcomes[i].data))
            && (forall e :: e in es && e.AlertTriggered? ==>
                  && Usable(st, i)
                  && e == AlertTriggered(st.skins[i], st.outcomes[i].data.lowestPrice, st.outcomes[i].data)
                  && CheckAlert(st.alerts, st.skins[i], st.outcomes[i].data.lowestPrice) == Ok(true))
            && (forall e :: e in es ==> !e.Sleep? && !e.Completed?)
            && AlertsFollowQuotes(es)
  {
  }

  /** With an alert file that is not UTF-8, an item with a valid quote raises in `check_alert`: it
    * emits its progress message and the quote, no alarm, and does not reach the pause test. */
  lemma UndecodableAlertsSkipPause(st: Setup, i: nat)
    requires WellFormed(st) && i < |st.skins| && st.alerts.Undecodable? && Usable(st, i)
    ensures !Completes(st, i)
    ensures ItemOf(st, i).events ==
              [Progress(ProgressMessage(st.auto, st.skins[i]), i + 1, |st.skins|), DataUpdated(st.skins[i], st.outcomes[i].data)]
  {
  }

  // ----- the cycle -----

  /** Away from the end, the cycle is the events of item `i` followed by the rest of the cycle. */
  lemma CycleStep(st: Setup, items: seq<Item>, i: nat, polls: nat, success: nat)
    requires i < |items| && !StopSeen(st, polls)
    ensures Cycle(st, items, i, polls, success)
            == Block(items, i, Sleeps(st, items, i, polls))
               + Cycle(st, items, i + 1, NextPolls(items, i, polls), success + if items[i].usable then 1 else 0)
  {
  }

  /** Appending the events of item `i` moves the rest of the cycle on by one item. */
  lemma CycleAdvance(st: Setup, items: seq<Item>, i: nat, polls: nat, success: nat, before: seq<Event>, after: seq<Event>)
    requires i < |items| && !StopSeen(st, polls)
    requires after == before + Block(items, i, Sleeps(st, items, i, polls))
    ensures after + Cycle(st, items, i + 1, NextPolls(items, i, polls), success + if items[i].usable then 1 else 0)
            == before + Cycle(st, items, i, polls, success)
  {
    CycleStep(st, items, i, polls, success);
  }

  /** The counts of a block: those of its item, plus the pause. */
  lemma BlockCounts(items: seq<Item>, i: nat, sleep: bool, k: Kind)
    requires i < |items|
    ensures CountOf(Block(items, i, sleep), k) == CountOf(items[i].events, k) + if sleep && k == SleepKind then 1 else 0
  {
    CountOfAppend(items[i].events, if sleep then [Sleep] else [], k);
  }

  /** The counts of a cycle from item `i` on: those of the block of `i`, plus those of the rest. */
  lemma CycleCounts(st: Setup, items: seq<Item>, i: nat, polls: nat, success: nat, k: Kind)
    requires i < |items| && !StopSeen(st, polls)
    ensures CountOf(Cycle(st, items, i, polls, success), k)
            == CountOf(items[i].events, k) + (if Sleeps(st, items, i, polls) && k == SleepKind then 1 else 0)
               + CountOf(Cycle(st, items, i + 1, NextPolls(items, i, polls), success + if items[i].usable then 1 else 0), k)
  {
    CycleStep(st, items, i, polls, success);
    BlockCounts(items, i, Sleeps(st, items, i, polls), k);
    CountOfAppend(Block(items, i, Sleeps(st, items, i, polls)),
                  Cycle(st, items, i + 1, NextPolls(items, i, polls), success + if items[i].usable then 1 else 0), k);
  }

  /** The cycle ends with a completion event for the whole list whose count is the number of valid
    * quotes before item `i` plus the number of quote events emitted. */
  lemma {:induction false} CycleLast(st: Setup, items: seq<Item>, i: nat, polls: nat, success: nat)
    requires i <= |items| && AllShaped(items)
    ensures var t := Cycle(st, items, i, polls, success);
            t != [] && t[|t| - 1] == Completed(success + CountOf(t, DataKind), |items|)
    decreases |items| - i
  {
    if i < |items| && !StopSeen(st, polls) {
      var next := success + if items[i].usable then 1 else 0;
      var rest := Cycle(st, items, i + 1, NextPolls(items, i, polls), next);
      var block := Block(items, i, Sleeps(st, items, i, polls));
      CycleLast(st, items, i + 1, NextPolls(items, i, polls), next);
      CycleStep(st, items, i, polls, success);
      BlockCounts(items, i, Sleeps(st, items, i, polls), DataKind);
      assert Shaped(items[i]);
      LastOfAppend(block, rest, success, next, |items|);
      assert Cycle(st, items, i, polls, success) == block + rest;
    } else {
      assert Cycle(st, items, i, polls, success) == [Completed(success, |items|)];
      assert CountOf([Completed(success, |items|)], DataKind) == 0;
    }
  }

  /** A block before a tail that ends with the completion keeps that completion last, its count
    * raised by the quotes of the block. */
  lemma LastOfAppend(block: seq<Event>, rest: seq<Event>, success: nat, next: nat, total: nat)
    requires rest != [] && rest[|rest| - 1] == Completed(next + CountOf(rest, DataKind), total)
    requires next == success + CountOf(block, DataKind)
    ensures var t := block + rest;
            t != [] && t[|t| - 1] == Completed(success + CountOf(t, DataKind), total)
  {
    CountOfAppend(block, rest, DataKind);
    var t := block + rest;
    assert t[|t| - 1] == rest[|rest| - 1];
  }

  /** There is exactly one completion event. */
  lemma {:induction false} CycleCompletesOnce(st: Setup, items: seq<Item>, i: nat, polls: nat, success: nat)
    requires i <= |items| && AllShaped(items)
    ensures CountOf(Cycle(st, items, i, polls, success), CompletedKind) == 1
    decreases |items| - i
  {
    if i < |items| && !StopSeen(st, polls) {
      CycleCompletesOnce(st, items, i + 1, NextPolls(items, i, polls), success + if items[i].usable then 1 else 0);
      CycleCounts(st, items, i, polls, success, CompletedKind);
      assert Shaped(items[i]);
    }
  }

  /** The number of items from `i` on that gave a valid quote. */
  function UsableFrom(items: seq<Item>, i: nat): (r: nat)
    requires i <= |items|
    ensures r <= |items| - i
    decreases |items| - i
  {
    if i == |items| then 0 else (if items[i].usable then 1 else 0) + UsableFrom(items, i + 1)
  }

  /** The number of items from `i` on, except the last, that reach the pause test. */
  function PausingFrom(items: seq<Item>, i: nat): nat
    requires i <= |items|
    decreases |items| - i
  {
    if i + 1 >= |items| then 0 else (if items[i].completes then 1 else 0) + PausingFrom(items, i + 1)
  }

  /** From item `i` on there are at most as many progress messages as items left, at most as many
    * quotes as valid quotes left, and at most as many pauses as items left that reach the pause test. */
  lemma {:induction false} CycleBounds(st: Setup, items: seq<Item>, i: nat, polls: nat, success: nat)
    requires i <= |items| && AllShaped(items)
    ensures var t := Cycle(st, items, i, polls, success);
            && CountOf(t, ProgressKind) <= |items| - i
            && CountOf(t, DataKind) <= UsableFrom(items, i)
            && CountOf(t, SleepKind) <= PausingFrom(items, i)
    decreases |items| - i
  {
    if i < |items| && !StopSeen(st, polls) {
      CycleBounds(st, items, i + 1, NextPolls(items, i, polls), success + if items[i].usable then 1 else 0);
      CycleCounts(st, items, i, polls, success, ProgressKind);
      CycleCounts(st, items, i, polls, success, DataKind);
      CycleCounts(st, items, i, polls, success, SleepKind);
      assert Shaped(items[i]);
    }
  }

  /** Without a stop every item gets its progress message, every valid quote is emitted, and there is
    * a pause after exactly the items that are not the last and did not raise. */
  lemma {:induction false} CycleWithoutStop(st: Setup, items: seq<Item>, i: nat, polls: nat, success: nat)
    requires i <= |items| && AllShaped(items) && !st.stopped && st.stopAt.None?
    ensures var t := Cycle(st, items, i, polls, success);
            && CountOf(t, ProgressKind) == |items| - i
            && CountOf(t, DataKind) == UsableFrom(items, i)
            && CountOf(t, SleepKind) == PausingFrom(items, i)
    decreases |items| - i
  {
    if i < |items| {
      CycleWithoutStop(st, items, i + 1, NextPolls(items, i, polls), success + if items[i].usable then 1 else 0);
      CycleCounts(st, items, i, polls, success, ProgressKind);
      CycleCounts(st, items, i, polls, success, DataKind);
      CycleCounts(st, items, i, polls, success, SleepKind);
      assert Shaped(items[i]);
    }
  }

  /** A stop set before the run leaves only the completion; once `stop()` lands no further item
    * starts, since every item reads the flag first. */
  lemma {:induction false} CycleWithStop(st: Setup, items: seq<Item>, i: nat, polls: nat, success: nat)
    requires i <= |items| && AllShaped(items)
    ensures st.stopped ==> Cycle(st, items, i, polls, success) == [Completed(success, |items|)]
    ensures st.stopAt.Some? ==>
              CountOf(Cycle(st, items, i, polls, success), ProgressKind) <= if polls < st.stopAt.value then st.stopAt.value - polls else 0
    decreases |items| - i
  {
    if i < |items| && !StopSeen(st, polls) {
      CycleWithStop(st, items, i + 1, NextPolls(items, i, polls), success + if items[i].usable then 1 else 0);
      CycleCounts(st, items, i, polls, success, ProgressKind);
      assert Shaped(items[i]);
    }
  }

  /** The `current` fields of the progress events, in order. */
  function Currents(es: seq<Event>): seq<nat>
  {
    if es == [] then [] else (if es[0].Progress? then [es[0].current] else []) + Currents(es[1..])
  }

  lemma {:induction false} CurrentsAppend(a: seq<Event>, b: seq<Event>)
    ensures Currents(a + b) == Currents(a) + Currents(b)
  {
    if a == [] {
      assert a + b == b;
    } else {
      assert (a + b)[0] == a[0] && (a + b)[1..] == a[1..] + b;
      CurrentsAppend(a[1..], b);
    }
  }

  /** `lo, lo + 1, ..., hi - 1`. */
  function Range(lo: nat, hi: nat): (r: seq<nat>)
    decreases hi - lo
    ensures |r| == if lo <= hi then hi - lo else 0
    ensures forall k :: 0 <= k < |r| ==> r[k] == lo + k
  {
    if lo >= hi then [] else [lo] + Range(lo + 1, hi)
  }

  /** Item `k` reports itself as `k + 1`. */
  predicate Numbered(items: seq<Item>)
  {
    forall k :: 0 <= k < |items| ==> Currents(items[k].events) == [k + 1]
  }

  /** The progress events of the cycle report the items `i + 1, i + 2, ...` in turn, with no gap and
    * no repetition. */
  lemma {:induction false} CycleCurrents(st: Setup, items: seq<Item>, i: nat, polls: nat, success: nat)
    requires i <= |items| && AllShaped(items) && Numbered(items)
    ensures var t := Cycle(st, items, i, polls, success);
            Currents(t) == Range(i + 1, i + 1 + CountOf(t, ProgressKind))
    decreases |items| - i
  {
    if i < |items| && !StopSeen(st, polls) {
      var next := success + if items[i].usable then 1 else 0;
      var z: seq<Event> := if Sleeps(st, items, i, polls) then [Sleep] else [];
      var rest := Cycle(st, items, i + 1, NextPolls(items, i, polls), next);
      CycleCurrents(st, items, i + 1, NextPolls(items, i, polls), next);
      CycleCounts(st, items, i, polls, success, ProgressKind);
      CycleStep(st, items, i, polls, success);
      CurrentsAppend(items[i].events + z, rest);
      CurrentsAppend(items[i].events, z);
      assert Shaped(items[i]);
    } else {
      assert Currents(Cycle(st, items, i, polls, success)) == [];
    }
  }

  /** Every event of the cycle is a pause, the completion, or an event of an item from `i` on. */
  lemma {:induction false} CycleOrigin(st: Setup, items: seq<Item>, i: nat, polls: nat, success: nat)
    requires i <= |items|
    ensures forall e :: e in Cycle(st, items, i, polls, success) ==>
              e == Sleep || e.Completed? || exists k :: i <= k < |items| && e in items[k].events
    decreases |items| - i
  {
    if i < |items| && !StopSeen(st, polls) {
      var rest := Cycle(st, items, i + 1, NextPolls(items, i, polls), success + if items[i].usable then 1 else 0);
      var block := Block(items, i, Sleeps(st, items, i, polls));
      CycleOrigin(st, items, i + 1, NextPolls(items, i, polls), success + if items[i].usable then 1 else 0);
      CycleStep(st, items, i, polls, success);
      forall e | e in block + rest
        ensures e == Sleep || e.Completed? || exists k :: i <= k < |items| && e in items[k].events
      {
        if e in block {
          if e in items[i].events {
            assert i <= i < |items| && e in items[i].events;
          }
        } else {
          assert e in rest;
          if !(e == Sleep || e.Completed?) {
            var k :| i + 1 <= k < |items| && e in items[k].events;
            assert i <= k < |items| && e in items[k].events;
          }
        }
      }
    }
  }

  /** Each alarm in `t` is preceded by the quote event of the same skin and data. */
  predicate AlertsFollowQuotes(t: seq<Event>)
  {
    forall j :: 0 <= j < |t| && t[j].AlertTriggered? ==> j >= 1 && t[j - 1] == DataUpdated(t[j].skin, t[j].data)
  }

  lemma AdjacentAppend(a: seq<Event>, b: seq<Event>)
    requires AlertsFollowQuotes(a) && AlertsFollowQuotes(b)
    ensures AlertsFollowQuotes(a + b)
  {
    var t := a + b;
    forall j | 0 <= j < |t| && t[j].AlertTriggered? ensures j >= 1 && t[j - 1] == DataUpdated(t[j].skin, t[j].data) {
      if j < |a| {
        assert t[j] == a[j] && t[j - 1] == a[j - 1];
      } else {
        assert t[j] == b[j - |a|] && t[j - 1] == b[j - |a| - 1];
      }
    }
  }

  /** An alarm in the cycle comes right after the quote it is about, when it does so in the items. */
  lemma {:induction false} CycleAlertsFollowQuotes(st: Setup, items: seq<Item>, i: nat, polls: nat, success: nat)
    requires i <= |items| && forall k :: 0 <= k < |items| ==> AlertsFollowQuotes(items[k].events)
    ensures AlertsFollowQuotes(Cycle(st, items, i, polls, success))
    decreases |items| - i
  {
    if i < |items| && !StopSeen(st, polls) {
      var z: seq<Event> := if Sleeps(st, items, i, polls) then [Sleep] else [];
      var next := success + if items[i].usable then 1 else 0;
      CycleAlertsFollowQuotes(st, items, i + 1, NextPolls(items, i, polls), next);
      CycleStep(st, items, i, polls, success);
      AdjacentAppend(items[i].events, z);
      AdjacentAppend(items[i].events + z, Cycle(st, items, i + 1, NextPolls(items, i, polls), next));
    }
  }

  // ----- a run -----

  /** The positions from `i` on whose fetch gave a valid quote. */
  function ValidFrom(st: Setup, i: nat): set<nat>
    requires WellFormed(st)
  {
    set k | i <= k < |st.skins| && Usable(st, k)
  }

  /** The positions from `i` on of the items that gave a valid quote. */
  function UsableSet(items: seq<Item>, i: nat): set<nat>
  {
    set k | i <= k < |items| && items[k].usable
  }

  lemma {:induction false} UsableFromSet(items: seq<Item>, i: nat)
    requires i <= |items|
    ensures UsableFrom(items, i) == |UsableSet(items, i)|
    decreases |items| - i
  {
    if i < |items| {
      UsableFromSet(items, i + 1);
      var rest := UsableSet(items, i + 1);
      if items[i].usable {
        assert i !in rest;
        assert UsableSet(items, i) == rest + {i};
      } else {
        assert UsableSet(items, i) == rest;
      }
    } else {
      assert UsableSet(items, i) == {};
    }
  }

  lemma UsableFromItems(st: Setup, i: nat)
    requires WellFormed(st) && i <= |st.skins|
    ensures UsableFrom(Items(st), i) == |ValidFrom(st, i)|
  {
    var items := Items(st);
    UsableFromSet(items, i);
    forall k | i <= k < |items|
      ensures items[k].usable == Usable(st, k)
    {
      assert items[k] == ItemOf(st, k);
    }
    assert ValidFrom(st, i) == UsableSet(items, i);
  }

  /** The items of a snapshot carry their own number. */
  lemma ItemsNumbered(st: Setup)
    requires WellFormed(st)
    ensures AllShaped(Items(st)) && Numbered(Items(st))
  {
    forall k | 0 <= k < |st.skins| ensures Shaped(Items(st)[k]) && Currents(Items(st)[k].events) == [k + 1] {
      ItemShape(st, k);
    }
  }

  /** A run ends with its one completion event, whose count is the number of quote events, at most
    * the number of valid quotes of the snapshot. */
  lemma RunCompletion(st: Setup)
    requires WellFormed(st)
    ensures var t := Trace(st);
            && t != [] && t[|t| - 1] == Completed(CountOf(t, DataKind), |st.skins|)
            && CountOf(t, CompletedKind) == 1
            && CountOf(t, DataKind) <= |ValidFrom(st, 0)|
  {
    ItemsShaped(st);
    CycleLast(st, Items(st), 0, 0, 0);
    CycleCompletesOnce(st, Items(st), 0, 0, 0);
    CycleBounds(st, Items(st), 0, 0, 0);
    UsableFromItems(st, 0);
  }

  /** The progress messages of a run count `1, 2, ...`, at most one per item, and a stop before
    * the run leaves the completion only. */
  lemma RunProgress(st: Setup)
    requires WellFormed(st)
    ensures var t := Trace(st);
            && Currents(t) == Range(1, 1 + CountOf(t, ProgressKind)) && CountOf(t, ProgressKind) <= |st.skins|
            && (st.stopped ==> t == [Completed(0, |st.skins|)])
  {
    ItemsNumbered(st);
    CycleCurrents(st, Items(st), 0, 0, 0);
    CycleBounds(st, Items(st), 0, 0, 0);
    CycleWithStop(st, Items(st), 0, 0, 0);
  }

  /** Without a stop every item is processed, every valid quote is reported, and there is a pause after
    * every item but the last whose fetch and alert test did not raise. */
  lemma RunWithoutStop(st: Setup)
    requires WellFormed(st) && !st.stopped && st.stopAt.None?
    ensures var t := Trace(st);
            && CountOf(t, DataKind) == |ValidFrom(st, 0)|
            && CountOf(t, ProgressKind) == |st.skins|
            && CountOf(t, SleepKind) == PausingFrom(Items(st), 0)
  {
    ItemsShaped(st);
    CycleWithoutStop(st, Items(st), 0, 0, 0);
    UsableFromItems(st, 0);
  }

  /** Every event of a run other than a pause or the completion belongs to one item of the snapshot. */
  lemma RunOrigin(st: Setup, e: Event)
    requires WellFormed(st) && e in Trace(st) && !e.Sleep? && !e.Completed?
    ensures exists k :: 0 <= k < |st.skins| && e in ItemOf(st, k).events
  {
    CycleOrigin(st, Items(st), 0, 0, 0);
  }

  /** Every progress message of a run is for an item, 1-based, out of the length of the snapshot,
    * with the item's message. */
  lemma RunProgressEvents(st: Setup)
    requires WellFormed(st)
    ensures forall e :: e in Trace(st) && e.Progress? ==>
              1 <= e.current <= |st.skins| && e.total == |st.skins|
              && e.message == ProgressMessage(st.auto, st.skins[e.current - 1])
  {
    forall e | e in Trace(st) && e.Progress?
      ensures 1 <= e.current <= |st.skins| && e.total == |st.skins| && e.message == ProgressMessage(st.auto, st.skins[e.current - 1])
    {
      RunOrigin(st, e);
      var k :| 0 <= k < |st.skins| && e in ItemOf(st, k).events;
      ItemContents(st, k);
    }
  }

  /** Every quote of a run is the valid quote of an item; every alarm is for an item with a valid
    * quote whose limit `check_alert` accepts. */
  lemma RunQuotes(st: Setup)
    requires WellFormed(st)
    ensures forall e :: e in Trace(st) && e.DataUpdated? ==>
              exists k :: 0 <= k < |st.skins| && Usable(st, k) && e == DataUpdated(st.skins[k], st.outcomes[k].data)
    ensures forall e :: e in Trace(st) && e.AlertTriggered? ==>
              exists k :: 0 <= k < |st.skins| && Usable(st, k)
                && e == AlertTriggered(st.skins[k], st.outcomes[k].data.lowestPrice, st.outcomes[k].data)
                && CheckAlert(st.alerts, st.skins[k], st.outcomes[k].data.lowestPrice) == Ok(true)
  {
    forall e | e in Trace(st) && e.DataUpdated?
      ensures exists k :: 0 <= k < |st.skins| && Usable(st, k) && e == DataUpdated(st.skins[k], st.outcomes[k].data)
    {
      RunOrigin(st, e);
      var k :| 0 <= k < |st.skins| && e in ItemOf(st, k).events;
      ItemContents(st, k);
    }
    forall e | e in Trace(st) && e.AlertTriggered?
      ensures exists k :: 0 <= k < |st.skins| && Usable(st, k)
                && e == AlertTriggered(st.skins[k], st.outcomes[k].data.lowestPrice, st.outcomes[k].data)
                && CheckAlert(st.alerts, st.skins[k], st.outcomes[k].data.lowestPrice) == Ok(true)
    {
      RunOrigin(st, e);
      var k :| 0 <= k < |st.skins| && e in ItemOf(st, k).events;
      ItemContents(st, k);
    }
  }

  /** Every alarm of a run comes right after the quote it is about. */
  lemma RunAlertsFollowQuotes(st: Setup)
    requires WellFormed(st)
    ensures AlertsFollowQuotes(Trace(st))
  {
    forall k | 0 <= k < |st.skins| ensures AlertsFollowQuotes(Items(st)[k].events) {
      ItemContents(st, k);
    }
    CycleAlertsFollowQuotes(st, Items(st), 0, 0, 0);
  }

  /** `PriceUpdateWorker`: the snapshot of the watchlist, the update type, the stop flag, and the
    * signals emitted so far. */
  class PriceUpdateWorker {
    var skinList: seq<string>
    var isAutoUpdate: bool
    var shouldStop: bool
    var events: seq<Event>

    /** `__init__`: a copy of the list (a sequence is a value, so later changes to the watchlist do
      * not reach it), no stop requested. */
    constructor (skins: seq<string>, auto: bool)
      ensures skinList == skins && isAutoUpdate == auto && !shouldStop && events == []
    {
      skinList, isAutoUpdate, shouldStop, events := skins, auto, false, [];
    }

    /** `stop()`: cooperative cancellation. */
    method Stop()
      modifies this
      ensures shouldStop && skinList == old(skinList) && isAutoUpdate == old(isAutoUpdate) && events == old(events)
    {
      shouldStop := true;
    }

    /** The body of the loop of `run()` for item `i` up to the pause test: the progress message, the
      * fetch, and for a valid quote the quote event and the alert test. */
    method ProcessItem(ghost st: Setup, i: nat, outcome: FetchOutcome, alerts: FileRead) returns (completed: bool, usable: bool)
      requires WellFormed(st) && i < |st.skins| && st.skins == skinList && st.auto == isAutoUpdate
      requires outcome == st.outcomes[i] && alerts == st.alerts
      modifies this
      ensures skinList == old(skinList) && isAutoUpdate == old(isAutoUpdate) && shouldStop == old(shouldStop)
      ensures events == old(events) + ItemOf(st, i).events
      ensures completed == ItemOf(st, i).completes && usable == ItemOf(st, i).usable
    {
      var skin := skinList[i];
      events := events + [Progress(ProgressMessage(isAutoUpdate, skin), i + 1, |skinList|)];
      completed, usable := true, false;
      if outcome.Raised? {
        completed := false;
      } else if outcome.Fetched? && outcome.data.HasValidData() {
        usable := true;
        events := events + [DataUpdated(skin, outcome.data)];
        var alert := CheckAlert(alerts, skin, outcome.data.lowestPrice);
        if alert.Err? {
          completed := false;
        } else if alert.value {
          events := events + [AlertTriggered(skin, outcome.data.lowestPrice, outcome.data)];
        }
      }
    }

    /** One item of `run()`: its events and the pause test, with the number of flag polls after it. */
    method CycleItem(ghost st: Setup, i: nat, polls: nat, outcome: FetchOutcome, alerts: FileRead, stopAt: Option<nat>)
      returns (polls': nat, usable: bool)
      requires WellFormed(st) && i < |st.skins| && st.skins == skinList && st.auto == isAutoUpdate && st.stopped == shouldStop
      requires outcome == st.outcomes[i] && alerts == st.alerts && stopAt == st.stopAt
      modifies this
      ensures skinList == old(skinList) && isAutoUpdate == old(isAutoUpdate) && shouldStop == old(shouldStop)
      ensures events == old(events) + Block(Items(st), i, Sleeps(st, Items(st), i, polls))
      ensures polls' == NextPolls(Items(st), i, polls) && usable == Items(st)[i].usable
    {
      var completed;
      completed, usable := ProcessItem(st, i, outcome, alerts);
      if completed && i < |skinList| - 1 {
        if !(shouldStop || (stopAt.Some? && stopAt.value <= polls + 1)) {
          events := events + [Sleep];
        }
        polls' := polls + 2;
      } else {
        polls' := polls + 1;
      }
    }

    /** `run()` with the fetch outcome of each position, the alert file, and the flag read after which
      * a concurrent `stop()` has landed. */
    method Run(outcomes: seq<FetchOutcome>, alerts: FileRead, stopAt: Option<nat>)
      requires |outcomes| == |skinList|
      modifies this
      ensures skinList == old(skinList) && isAutoUpdate == old(isAutoUpdate)
      ensures events == old(events) + Trace(Setup(old(skinList), old(isAutoUpdate), old(shouldStop), outcomes, alerts, stopAt))
      ensures shouldStop == (old(shouldStop) || stopAt.Some?)
    {
      ghost var st := Setup(skinList, isAutoUpdate, shouldStop, outcomes, alerts, stopAt);
      ghost var items := Items(st);
      var successfulUpdates := 0;
      var total := |skinList|;
      var polls := 0;
      var i := 0;
      while i < total
        invariant 0 <= i <= total && total == |skinList| == |items| && st.skins == skinList && st.stopped == shouldStop
        invariant events + Cycle(st, items, i, polls, successfulUpdates) == old(events) + Trace(st)
        invariant skinList == old(skinList) && isAutoUpdate == old(isAutoUpdate) && shouldStop == old(shouldStop)
      {
        if shouldStop || (stopAt.Some? && stopAt.value <= polls) {
          break;
        }
        ghost var before, p0, s0 := events, polls, successfulUpdates;
        var usable;
        polls, usable := CycleItem(st, i, polls, outcomes[i], alerts, stopAt);
        if usable {
          successfulUpdates := successfulUpdates + 1;
        }
        CycleAdvance(st, items, i, p0, s0, before, events);
        i := i + 1;
      }
      events := events + [Completed(successfulUpdates, total)];
      shouldStop := shouldStop || stopAt.Some?;
    }
  }
}
