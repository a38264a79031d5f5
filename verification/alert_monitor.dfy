/**
  The simpler alert window (`gui/alert_monitor.py`): an append-only
  history of alerts, the same list again as the table's rows, and a
  per-stock-name alert counter used for the "most active" ranking.
 */
module AlertMonitor {
  import opened Wrappers
  import opened OrderedDict
  import Ranking
  import opened AlertInput

  /** One `alert_data` dict. */
  datatype AlertRecord = AlertRecord(time: string, code: string, stockName: string, name: string, description: string)

  /** The dict `update_alerts` builds; `None` when an attribute is missing and Python raises `AttributeError`. */
  function RecordOf(alert: IncomingAlert, now: string): (r: Option<AlertRecord>)
    ensures r.Some? <==> alert.code.Some? && alert.stockName.Some? && alert.name.Some? && alert.descr.Some?
    ensures r.Some? ==> r.value.stockName == alert.stockName.value && r.value.code == alert.code.value
  {
    if alert.code.Some? && alert.stockName.Some? && alert.name.Some? && alert.descr.Some? then
      Some(AlertRecord(now, alert.code.value, alert.stockName.value, alert.name.value, alert.descr.value))
    else None
  }

  /** The records of alerts that all have their attributes. */
  function Records(alerts: seq<IncomingAlert>, now: string): (rs: seq<AlertRecord>)
    requires forall i :: 0 <= i < |alerts| ==> RecordOf(alerts[i], now).Some?
    ensures |rs| == |alerts|
    ensures forall i :: 0 <= i < |alerts| ==> rs[i] == RecordOf(alerts[i], now).value
  {
    if alerts == [] then []
    else Records(alerts[..|alerts| - 1], now) + [RecordOf(alerts[|alerts| - 1], now).value]
  }

  /** Processing one more alert appends its record. */
  lemma RecordsSnoc(alerts: seq<IncomingAlert>, now: string, i: nat)
    requires i < |alerts|
    requires forall j :: 0 <= j <= i ==> RecordOf(alerts[j], now).Some?
    ensures Records(alerts[..i + 1], now) == Records(alerts[..i], now) + [RecordOf(alerts[i], now).value]
  {
    assert alerts[..i + 1][..i] == alerts[..i];
  }

  /** How many alerts the loop gets through: up to the first one missing an attribute. */
  function ProcessedCount(alerts: seq<IncomingAlert>, now: string): (k: nat)
    ensures k <= |alerts|
    ensures forall i :: 0 <= i < k ==> RecordOf(alerts[i], now).Some?
    ensures k < |alerts| ==> RecordOf(alerts[k], now).None?
  {
    if alerts == [] || RecordOf(alerts[0], now).None? then 0
    else 1 + ProcessedCount(alerts[1..], now)
  }

  /** The number of records for `name`. */
  function NameCount(history: seq<AlertRecord>, name: string): nat {
    if history == [] then 0
    else NameCount(history[..|history| - 1], name) + (if history[|history| - 1].stockName == name then 1 else 0)
  }

  lemma {:induction false} NameCountAppend(a: seq<AlertRecord>, b: seq<AlertRecord>, name: string)
    ensures NameCount(a + b, name) == NameCount(a, name) + NameCount(b, name)
    decreases |b|
  {
    if b == [] {
      assert a + b == a;
    } else {
      assert (a + b)[..|a + b| - 1] == a + b[..|b| - 1];
      NameCountAppend(a, b[..|b| - 1], name);
    }
  }

  lemma {:induction false} NameCountPositive(history: seq<AlertRecord>, name: string)
    ensures NameCount(history, name) > 0 <==> exists r :: r in history && r.stockName == name
  {
    if history != [] {
      var init := history[..|history| - 1];
      assert history == init + [history[|history| - 1]];
      NameCountPositive(init, name);
    }
  }

  /** The counter agrees with the history: each name's count is its number of alerts, and only alerted names have an entry. */
  ghost predicate StatsMatchHistory(stats: Dict<string, nat>, history: seq<AlertRecord>) {
    && WellFormed(stats)
    && (forall n :: Get(stats, n, 0) == NameCount(history, n))
    && (forall n :: HasKey(stats, n) <==> NameCount(history, n) > 0)
  }

  /** `alert_stats[name] += 1` on a `defaultdict(int)`. */
  function Count(stats: Dict<string, nat>, name: string): (r: Dict<string, nat>)
    requires WellFormed(stats)
    ensures WellFormed(r)
  {
    Put(stats, name, Get(stats, name, 0) + 1)
  }

  /** Counting a new record keeps the counter in agreement with the extended history. */
  lemma CountKeepsStatsMatch(stats: Dict<string, nat>, history: seq<AlertRecord>, rec: AlertRecord)
    requires StatsMatchHistory(stats, history)
    ensures StatsMatchHistory(Count(stats, rec.stockName), history + [rec])
  {
    assert (history + [rec])[..|history|] == history;
    forall n ensures Get(Count(stats, rec.stockName), n, 0) == NameCount(history + [rec], n)
                  && (HasKey(Count(stats, rec.stockName), n) <==> NameCount(history + [rec], n) > 0)
    {
      PutGet(stats, rec.stockName, Get(stats, rec.stockName, 0) + 1, n, 0);
    }
  }

  /** The statistics panel: the unique-stock count is the number of entries of the counter. */
  function UniqueStocks(history: seq<AlertRecord>): set<string> {
    set r | r in history :: r.stockName
  }

  /** `len(set(names in history))` equals the number of stocks the counter holds. */
  lemma UniqueStocksCount(history: seq<AlertRecord>, stats: Dict<string, nat>)
    requires StatsMatchHistory(stats, history)
    ensures UniqueStocks(history) == KeySet(stats)
    ensures |UniqueStocks(history)| == |stats|
  {
    KeySetSize(stats);
    forall n ensures n in UniqueStocks(history) <==> n in KeySet(stats) {
      NameCountPositive(history, n);
    }
  }

  function CountKey(entry: (string, nat)): int {
    entry.1
  }

  /** `sorted(alert_stats.items(), key=count, reverse=True)[:top_n]`. */
  function TopStocks(stats: Dict<string, nat>, topN: nat): (r: seq<(string, nat)>)
    ensures |r| == if topN < |stats| then topN else |stats|
    ensures multiset(r) <= multiset(stats)
    ensures Ranking.NonIncreasing(r, CountKey)
    ensures forall i, e :: 0 <= i < |r| && e in multiset(stats) - multiset(r) ==> CountKey(e) <= CountKey(r[i])
  {
    Ranking.TopN(stats, CountKey, topN)
  }

  /** Stocks with equal counts are ranked in the order they first alerted. */
  lemma TopStocksKeepsTieOrder(stats: Dict<string, nat>, topN: nat, count: int)
    ensures Ranking.WithKey(TopStocks(stats, topN), CountKey, count) <= Ranking.WithKey(stats, CountKey, count)
  {
    Ranking.TopNKeepsTieOrder(stats, CountKey, topN, count);
  }

  /** Counters that match a history and its extension differ by the counts of the added records. */
  lemma CountsGrow(stats0: Dict<string, nat>, history0: seq<AlertRecord>, stats: Dict<string, nat>, added: seq<AlertRecord>)
    requires StatsMatchHistory(stats0, history0) && StatsMatchHistory(stats, history0 + added)
    ensures forall n :: Get(stats, n, 0) == Get(stats0, n, 0) + NameCount(added, n)
  {
    forall n ensures Get(stats, n, 0) == Get(stats0, n, 0) + NameCount(added, n) {
      NameCountAppend(history0, added, n);
    }
  }

  class AlertMonitorWindow {
    var alertsHistory: seq<AlertRecord>
    var currentAlerts: seq<AlertRecord>
    var alertStats: Dict<string, nat>

    /** The table list is always the history, and the counter agrees with it. */
    ghost predicate Valid()
      reads this
    {
      currentAlerts == alertsHistory && StatsMatchHistory(alertStats, alertsHistory)
    }

    constructor ()
      ensures Valid()
      ensures alertsHistory == [] && currentAlerts == [] && alertStats == []
    {
      alertsHistory, currentAlerts, alertStats := [], [], [];
    }

    /**
      `update_alerts`: each alert is appended to the history and the table
      list and counted under its stock name.  An alert missing an attribute
      raises, so the alerts before it stay processed and the rest are not.
     */
    method UpdateAlerts(alerts: seq<IncomingAlert>, now: string) returns (processed: nat)
      requires Valid()
      modifies this
      ensures Valid()
      ensures processed == ProcessedCount(alerts, now)
      ensures alertsHistory == old(alertsHistory) + Records(alerts[..processed], now)
      ensures currentAlerts == old(currentAlerts) + Records(alerts[..processed], now)
      ensures forall n :: Get(alertStats, n, 0) == Get(old(alertStats), n, 0) + NameCount(Records(alerts[..processed], now), n)
    {
      ghost var history0, stats0 := alertsHistory, alertStats;
      var i := 0;
      while i < |alerts|
        invariant 0 <= i <= |alerts|
        invariant forall j :: 0 <= j < i ==> RecordOf(alerts[j], now).Some?
        invariant alertsHistory == history0 + Records(alerts[..i], now)
        invariant currentAlerts == alertsHistory
        invariant StatsMatchHistory(alertStats, alertsHistory)
      {
        var rec := RecordOf(alerts[i], now);
        if rec.None? {
          break;
        }
        CountKeepsStatsMatch(alertStats, alertsHistory, rec.value);
        RecordsSnoc(alerts, now, i);
        assert history0 + Records(alerts[..i + 1], now) == alertsHistory + [rec.value];
        alertsHistory := alertsHistory + [rec.value];
        currentAlerts := currentAlerts + [rec.value];
        alertStats := Count(alertStats, rec.value.stockName);
        i := i + 1;
      }
      processed := i;
      ProcessedCountIs(alerts, now, i);
      CountsGrow(stats0, history0, alertStats, Records(alerts[..processed], now));
    }

    /** `on_alert_selected`: the record and its history count, shown only for a row inside the table. */
    function SelectedAlert(row: int): (r: Option<(AlertRecord, nat)>)
      reads this
      ensures r.Some? <==> 0 <= row < |currentAlerts|
      ensures r.Some? ==> r.value.0 == currentAlerts[row] && r.value.1 == Get(alertStats, r.value.0.stockName, 0)
    {
      if 0 <= row < |currentAlerts| then
        var rec := currentAlerts[row];
        Some((rec, Get(alertStats, rec.stockName, 0)))
      else None
    }

    /**
      `update_statistics`: the total and the number of distinct stocks,
      which is also the number of stocks the counter holds.
     */
    function Statistics(): (r: (nat, nat))
      requires Valid()
      reads this
      ensures r.0 == |alertsHistory|
      ensures r.1 == |UniqueStocks(alertsHistory)| == |alertStats|
    {
      UniqueStocksCount(alertsHistory, alertStats);
      (|alertsHistory|, |UniqueStocks(alertsHistory)|)
    }

    /** `get_top_stocks(top_n)` (Python's default `top_n` is 5). */
    function GetTopStocks(topN: nat): (r: seq<(string, nat)>)
      reads this
      ensures |r| == if topN < |alertStats| then topN else |alertStats|
      ensures multiset(r) <= multiset(alertStats)
      ensures Ranking.NonIncreasing(r, CountKey)
    {
      TopStocks(alertStats, topN)
    }

    /** `clear_history`: when the user confirms, history, table list and counter are emptied. */
    method ClearHistory(confirmed: bool)
      requires Valid()
      modifies this
      ensures Valid()
      ensures confirmed ==> alertsHistory == [] && currentAlerts == [] && alertStats == []
      ensures !confirmed ==> alertsHistory == old(alertsHistory) && currentAlerts == old(currentAlerts) && alertStats == old(alertStats)
    {
      if confirmed {
        alertsHistory, currentAlerts, alertStats := [], [], [];
      }
    }
  }

  lemma {:induction false} ProcessedCountIs(alerts: seq<IncomingAlert>, now: string, k: nat)
    requires k <= |alerts|
    requires forall j :: 0 <= j < k ==> RecordOf(alerts[j], now).Some?
    requires k < |alerts| ==> RecordOf(alerts[k], now).None?
    ensures ProcessedCount(alerts, now) == k
    decreases k
  {
    if k > 0 {
      ProcessedCountIs(alerts[1..], now, k - 1);
    }
  }

  /** A selected row's history count includes the selected alert itself. */
  lemma SelectedAlertIsCounted(history: seq<AlertRecord>, stats: Dict<string, nat>, row: int)
    requires StatsMatchHistory(stats, history)
    requires 0 <= row < |history|
    ensures Get(stats, history[row].stockName, 0) >= 1
  {
    NameCountPositive(history, history[row].stockName);
  }
}
