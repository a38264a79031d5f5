/**
  The main alert window (`alert_monitor_gui.py`): each incoming alert is
  classified as a buy or sell alert from its description, its numbers are
  read out of the description, it replaces any earlier record for the same
  stock code in the buy or sell list, and a per-direction, per-stock-name
  counter is bumped.
 */
module AlertMonitorGui {
  import opened Wrappers
  import opened OrderedDict
  import Ranking
  import opened DescriptionParser
  import opened AlertInput
  import TurnoverAlert

  // ---------------------------------------------------------------------
  // Records

  datatype AlertKind = Buy | Sell | Unknown

  /** `total_amount` and `total_ratio`, which `_update_alert` adds to a record. */
  datatype Totals = Totals(amount: real, ratio: real)

  /** One `alert_data` dict. `totals` is `None` until `_update_alert` has run. */
  datatype AlertRecord = AlertRecord(
    time: string,
    code: string,
    stockName: string,
    name: string,
    description: string,
    kind: AlertKind,
    continuousCount: nat,
    qualifiedCount: nat,
    currentAmount: real,
    currentRatio: real,
    marketRatio: real,
    totals: Option<Totals>)

  /** One `buy_stats`/`sell_stats` entry; a missing entry reads as `NoStats` (the `defaultdict` factory). */
  datatype StockStats = StockStats(count: nat, totalAmount: real, totalRatio: real)

  const NoStats := StockStats(0, 0.0, 0.0)

  const BuyMarker := "买单"
  const SellMarker := "卖单"
  const DefaultName := "异动"

  /** Python's `part in text` for strings. */
  predicate Contains(text: string, part: string) {
    exists p: nat :: p <= |text| && StartsWithAt(text, p, part)
  }

  /** `'buy' if "买单" in d else 'sell' if "卖单" in d else 'unknown'`. */
  function Classify(description: string): (kind: AlertKind)
    ensures kind == Buy <==> Contains(description, BuyMarker)
    ensures kind == Sell <==> !Contains(description, BuyMarker) && Contains(description, SellMarker)
  {
    if Contains(description, BuyMarker) then Buy
    else if Contains(description, SellMarker) then Sell
    else Unknown
  }

  /** Every description the turnover alert writes is classified as a buy alert. */
  lemma TurnoverAlertsAreBuys(detail: string)
    ensures Classify(TurnoverAlert.DescrPrefix + detail) == Buy
  {
    var text := TurnoverAlert.DescrPrefix + detail;
    assert text[5..7] == BuyMarker;
    assert StartsWithAt(text, 5, BuyMarker);
  }

  /** The outcome of reading one alert in `update_alerts`. */
  datatype Intake =
    | Skipped                    // empty list, or no `code`/`stock_name` attribute: return early
    | ConversionFailed           // `float(...)` raised `ValueError`: nothing is stored
    | Parsed(record: AlertRecord)

  /** Builds `alert_data` from the first alert of the list, with the five numeric fields. */
  function ReadAlert(alert: IncomingAlert, now: string): (r: Intake)
    ensures r == Skipped <==> alert.code.None? || alert.stockName.None?
    ensures r.Parsed? ==>
      var d := if alert.descr.Some? then alert.descr.value else "";
      && r.record.code == alert.code.value && r.record.stockName == alert.stockName.value
      && r.record.time == now && r.record.description == d
      && r.record.name == (if alert.name.Some? then alert.name.value else DefaultName)
      && r.record.kind == Classify(d) && r.record.totals.None?
      && r.record.continuousCount == CountField(d, ContinuousCountPattern)
      && r.record.qualifiedCount == CountField(d, QualifiedCountPattern)
      && AmountField(d, AmountPattern) == Some(r.record.currentAmount)
      && RatioField(d, TotalRatioPattern) == Some(r.record.currentRatio)
      && RatioField(d, MarketRatioPattern) == Some(r.record.marketRatio)
    ensures r == ConversionFailed <==>
      var d := if alert.descr.Some? then alert.descr.value else "";
      && alert.code.Some? && alert.stockName.Some?
      && (AmountField(d, AmountPattern).None? || RatioField(d, TotalRatioPattern).None?
          || RatioField(d, MarketRatioPattern).None?)
  {
    if alert.code.None? || alert.stockName.None? then Skipped
    else
      var d := if alert.descr.Some? then alert.descr.value else "";
      var amount := AmountField(d, AmountPattern);
      var ratio := RatioField(d, TotalRatioPattern);
      var market := RatioField(d, MarketRatioPattern);
      if amount.None? || ratio.None? || market.None? then ConversionFailed
      else
        Parsed(AlertRecord(
          now, alert.code.value, alert.stockName.value,
          if alert.name.Some? then alert.name.value else DefaultName,
          d, Classify(d),
          CountField(d, ContinuousCountPattern), CountField(d, QualifiedCountPattern),
          amount.value, ratio.value, market.value, None))
  }

  // ---------------------------------------------------------------------
  // The buy and sell lists

  /** The record as `_update_alert` leaves it: `total_*` set to the current values. */
  function Completed(rec: AlertRecord): (done: AlertRecord)
    ensures Settled(done)
  {
    rec.(totals := Some(Totals(rec.currentAmount, rec.currentRatio)))
  }

  predicate Settled(rec: AlertRecord) {
    rec.totals == Some(Totals(rec.currentAmount, rec.currentRatio))
  }

  /** The records whose code is not `code`, in order (the first loop of `_update_alert`). */
  function WithoutCode(rs: seq<AlertRecord>, code: string): (r: seq<AlertRecord>)
    ensures |r| <= |rs|
  {
    if rs == [] then []
    else
      var init, last := rs[..|rs| - 1], rs[|rs| - 1];
      WithoutCode(init, code) + (if last.code != code then [last] else [])
  }

  /** `[a for a in rs if a['type'] == kind]`. */
  function OfKind(rs: seq<AlertRecord>, kind: AlertKind): (r: seq<AlertRecord>)
    ensures |r| <= |rs|
  {
    if rs == [] then []
    else
      var init, last := rs[..|rs| - 1], rs[|rs| - 1];
      OfKind(init, kind) + (if last.kind == kind then [last] else [])
  }

  lemma {:induction false} WithoutCodeMembers(rs: seq<AlertRecord>, code: string)
    ensures forall x :: x in WithoutCode(rs, code) <==> x in rs && x.code != code
  {
    if rs != [] {
      var init := rs[..|rs| - 1];
      assert rs == init + [rs[|rs| - 1]];
      WithoutCodeMembers(init, code);
    }
  }

  lemma {:induction false} OfKindMembers(rs: seq<AlertRecord>, kind: AlertKind)
    ensures forall x :: x in OfKind(rs, kind) <==> x in rs && x.kind == kind
  {
    if rs != [] {
      var init := rs[..|rs| - 1];
      assert rs == init + [rs[|rs| - 1]];
      OfKindMembers(init, kind);
    }
  }

  /** How many records carry `code`. */
  function CodeCount(rs: seq<AlertRecord>, code: string): nat {
    if rs == [] then 0
    else CodeCount(rs[..|rs| - 1], code) + (if rs[|rs| - 1].code == code then 1 else 0)
  }

  predicate AllOfKind(rs: seq<AlertRecord>, kind: AlertKind) {
    forall x :: x in rs ==> x.kind == kind
  }

  /** `all_alerts` after `_update_alert`: the other codes' records, then the new record. */
  function Merged(current: seq<AlertRecord>, rec: AlertRecord): (r: seq<AlertRecord>)
    ensures 1 <= |r| <= |current| + 1
    ensures r[|r| - 1] == Completed(rec)
  {
    WithoutCode(current, rec.code) + [Completed(rec)]
  }

  lemma {:induction false} CodeCountWithout(rs: seq<AlertRecord>, code: string, d: string)
    ensures CodeCount(WithoutCode(rs, code), d) == if d == code then 0 else CodeCount(rs, d)
  {
    if rs != [] {
      var init, last := rs[..|rs| - 1], rs[|rs| - 1];
      CodeCountWithout(init, code, d);
      var w := WithoutCode(init, code);
      assert CodeCount(rs, d) == CodeCount(init, d) + (if last.code == d then 1 else 0);
      if last.code != code {
        var w' := w + [last];
        assert WithoutCode(rs, code) == w';
        assert w'[..|w'| - 1] == w && w'[|w'| - 1] == last;
      } else {
        assert WithoutCode(rs, code) == w + [];
        assert w + [] == w;
      }
    }
  }

  lemma {:induction false} CodeCountAppend(a: seq<AlertRecord>, b: seq<AlertRecord>, code: string)
    ensures CodeCount(a + b, code) == CodeCount(a, code) + CodeCount(b, code)
    decreases |b|
  {
    if b == [] {
      assert a + b == a;
    } else {
      assert (a + b)[..|a + b| - 1] == a + b[..|b| - 1];
      CodeCountAppend(a, b[..|b| - 1], code);
    }
  }

  lemma {:induction false} OfKindAppend(a: seq<AlertRecord>, b: seq<AlertRecord>, kind: AlertKind)
    ensures OfKind(a + b, kind) == OfKind(a, kind) + OfKind(b, kind)
    decreases |b|
  {
    if b == [] {
      assert a + b == a;
    } else {
      assert (a + b)[..|a + b| - 1] == a + b[..|b| - 1];
      OfKindAppend(a, b[..|b| - 1], kind);
    }
  }

  lemma {:induction false} WithoutCodeAppend(a: seq<AlertRecord>, b: seq<AlertRecord>, code: string)
    ensures WithoutCode(a + b, code) == WithoutCode(a, code) + WithoutCode(b, code)
    decreases |b|
  {
    if b == [] {
      assert a + b == a;
    } else {
      assert (a + b)[..|a + b| - 1] == a + b[..|b| - 1];
      WithoutCodeAppend(a, b[..|b| - 1], code);
    }
  }

  /** Filtering a list on the kind all its records have keeps it whole; on another kind, empties it. */
  lemma {:induction false} OfKindUniform(rs: seq<AlertRecord>, kind: AlertKind, other: AlertKind)
    requires AllOfKind(rs, kind)
    ensures OfKind(rs, kind) == rs
    ensures other != kind ==> OfKind(rs, other) == []
  {
    if rs != [] {
      var init := rs[..|rs| - 1];
      assert rs == init + [rs[|rs| - 1]];
      assert forall x :: x in init ==> x in rs;
      OfKindUniform(init, kind, other);
    }
  }

  lemma {:induction false} WithoutCodeAbsent(rs: seq<AlertRecord>, code: string)
    requires forall x :: x in rs ==> x.code != code
    ensures WithoutCode(rs, code) == rs
  {
    if rs != [] {
      var init := rs[..|rs| - 1];
      assert rs == init + [rs[|rs| - 1]];
      assert forall x :: x in init ==> x in rs;
      WithoutCodeAbsent(init, code);
    }
  }

  lemma WithoutCodeKeepsKind(rs: seq<AlertRecord>, code: string, kind: AlertKind)
    requires AllOfKind(rs, kind)
    ensures AllOfKind(WithoutCode(rs, code), kind)
  {
    WithoutCodeMembers(rs, code);
  }

  /** Filtering the kept buy and sell records on one side's kind gives that side's kept records. */
  lemma KeptOfKind(buy: seq<AlertRecord>, sell: seq<AlertRecord>, c: string, kind: AlertKind)
    requires AllOfKind(buy, Buy) && AllOfKind(sell, Sell)
    requires kind != Unknown
    ensures OfKind(WithoutCode(buy, c), kind) + OfKind(WithoutCode(sell, c), kind)
            == if kind == Buy then WithoutCode(buy, c) else WithoutCode(sell, c)
  {
    var wb, ws := WithoutCode(buy, c), WithoutCode(sell, c);
    WithoutCodeKeepsKind(buy, c, Buy);
    WithoutCodeKeepsKind(sell, c, Sell);
    OfKindUniform(wb, Buy, kind);
    OfKindUniform(ws, Sell, kind);
    if kind == Buy {
      assert wb + [] == wb;
    } else {
      assert [] + ws == ws;
    }
  }

  /**
    Splitting the merged list by kind: the buy list becomes the old buy
    list without the incoming code, followed by the new record when it is
    a buy alert (and likewise for sell).  So the incoming code ends up in
    exactly one list, or in none for an `unknown` alert, and every other
    record keeps its contents and its place.
   */
  lemma MergedSplit(buy: seq<AlertRecord>, sell: seq<AlertRecord>, rec: AlertRecord, kind: AlertKind)
    requires AllOfKind(buy, Buy) && AllOfKind(sell, Sell)
    requires kind != Unknown
    ensures OfKind(Merged(buy + sell, rec), kind)
            == WithoutCode(if kind == Buy then buy else sell, rec.code)
               + (if rec.kind == kind then [Completed(rec)] else [])
  {
    var c := rec.code;
    var wb, ws := WithoutCode(buy, c), WithoutCode(sell, c);
    var done := Completed(rec);
    var tail := if done.kind == kind then [done] else [];
    assert OfKind([done], kind) == tail by {
      assert [done][..0] == [];
    }
    var kept := if kind == Buy then wb else ws;
    KeptOfKind(buy, sell, c, kind);
    calc {
      OfKind(Merged(buy + sell, rec), kind);
      { WithoutCodeAppend(buy, sell, c); }
      OfKind((wb + ws) + [done], kind);
      { OfKindAppend(wb + ws, [done], kind); }
      OfKind(wb + ws, kind) + OfKind([done], kind);
      { OfKindAppend(wb, ws, kind); }
      kept + tail;
    }
  }

  /**
    After the merge the incoming code is in exactly one list, or in none
    for an `unknown` alert; every other code occurs as often as before.
   */
  lemma MergedCodeCounts(buy: seq<AlertRecord>, sell: seq<AlertRecord>, rec: AlertRecord, d: string)
    requires AllOfKind(buy, Buy) && AllOfKind(sell, Sell)
    ensures var all := Merged(buy + sell, rec);
            CodeCount(OfKind(all, Buy) + OfKind(all, Sell), d)
            == if d == rec.code then (if rec.kind == Unknown then 0 else 1) else CodeCount(buy + sell, d)
  {
    var c := rec.code;
    var done := Completed(rec);
    var wb, ws := WithoutCode(buy, c), WithoutCode(sell, c);
    var nb: seq<AlertRecord> := if rec.kind == Buy then [done] else [];
    var ns: seq<AlertRecord> := if rec.kind == Sell then [done] else [];
    var all := Merged(buy + sell, rec);
    assert OfKind(all, Buy) + OfKind(all, Sell) == (wb + nb) + (ws + ns) by {
      MergedSplit(buy, sell, rec, Buy);
      MergedSplit(buy, sell, rec, Sell);
    }
    assert CodeCount(nb, d) + CodeCount(ns, d) == (if d == c && rec.kind != Unknown then 1 else 0) by {
      assert [done][..0] == [];
    }
    assert CodeCount(wb, d) + CodeCount(ws, d) == (if d == c then 0 else CodeCount(buy + sell, d)) by {
      CodeCountWithout(buy, c, d);
      CodeCountWithout(sell, c, d);
      CodeCountAppend(buy, sell, d);
    }
    assert CodeCount((wb + nb) + (ws + ns), d)
           == CodeCount(wb, d) + CodeCount(nb, d) + (CodeCount(ws, d) + CodeCount(ns, d)) by {
      CodeCountAppend(wb + nb, ws + ns, d);
      CodeCountAppend(wb, nb, d);
      CodeCountAppend(ws, ns, d);
    }
  }

  /** Records for every other code keep their contents and relative order in both lists. */
  lemma MergedKeepsOthers(buy: seq<AlertRecord>, sell: seq<AlertRecord>, rec: AlertRecord, kind: AlertKind)
    requires AllOfKind(buy, Buy) && AllOfKind(sell, Sell)
    requires kind != Unknown
    ensures WithoutCode(OfKind(Merged(buy + sell, rec), kind), rec.code)
            == WithoutCode(if kind == Buy then buy else sell, rec.code)
  {
    var c := rec.code;
    var kept := WithoutCode(if kind == Buy then buy else sell, c);
    var tail := if rec.kind == kind then [Completed(rec)] else [];
    MergedSplit(buy, sell, rec, kind);
    WithoutCodeAppend(kept, tail, c);
    WithoutCodeMembers(if kind == Buy then buy else sell, c);
    WithoutCodeAbsent(kept, c);
    assert WithoutCode(tail, c) == [] by {
      if tail != [] { assert tail[..0] == []; }
    }
  }

  /** The records of other codes, in order (the first loop of `_update_alert`). */
  method DropCode(current: seq<AlertRecord>, code: string) returns (kept: seq<AlertRecord>)
    ensures kept == WithoutCode(current, code)
    ensures forall x :: x in kept <==> x in current && x.code != code
  {
    kept := [];
    var i := 0;
    while i < |current|
      invariant 0 <= i <= |current|
      invariant kept == WithoutCode(current[..i], code)
    {
      ghost var prefix := current[..i + 1];
      assert prefix[..|prefix| - 1] == current[..i] && prefix[|prefix| - 1] == current[i];
      if current[i].code != code {
        kept := kept + [current[i]];
      }
      i := i + 1;
    }
    assert current[..i] == current;
    WithoutCodeMembers(current, code);
  }

  /** The first record carrying `code` (the second loop of `_update_alert`). */
  method FindCode(alerts: seq<AlertRecord>, code: string) returns (index: Option<nat>)
    ensures index.Some? ==> index.value < |alerts| && alerts[index.value].code == code
    ensures index.Some? ==> forall j :: 0 <= j < index.value ==> alerts[j].code != code
    ensures index.None? ==> forall x :: x in alerts ==> x.code != code
  {
    index := None;
    var i := 0;
    while i < |alerts|
      invariant 0 <= i <= |alerts|
      invariant forall j :: 0 <= j < i ==> alerts[j].code != code
    {
      if alerts[i].code == code {
        return Some(i);
      }
      i := i + 1;
    }
  }

  // ---------------------------------------------------------------------
  // Per-stock statistics

  predicate OnBuySide(rec: AlertRecord) {
    rec.kind == Buy
  }

  /** The number of alerts for `name` that went to `buy_stats` (`buySide`) or to `sell_stats`. */
  function SideCount(history: seq<AlertRecord>, name: string, buySide: bool): nat {
    if history == [] then 0
    else
      var last := history[|history| - 1];
      SideCount(history[..|history| - 1], name, buySide)
      + (if last.stockName == name && OnBuySide(last) == buySide then 1 else 0)
  }

  /** The latest alert for `name` on that side. */
  function LastOnSide(history: seq<AlertRecord>, name: string, buySide: bool): (r: Option<AlertRecord>)
    ensures r.Some? ==> r.value in history && r.value.stockName == name && OnBuySide(r.value) == buySide
  {
    if history == [] then None
    else
      var last := history[|history| - 1];
      if last.stockName == name && OnBuySide(last) == buySide then Some(last)
      else
        var r := LastOnSide(history[..|history| - 1], name, buySide);
        assert r.Some? ==> r.value in history;
        r
  }

  /** `alert_data.get('total_amount', alert_data['current_amount'])` and likewise for the ratio. */
  function TotalsOf(rec: AlertRecord): Totals {
    if rec.totals.Some? then rec.totals.value else Totals(rec.currentAmount, rec.currentRatio)
  }

  /** `stats[name]['count'] += 1` and the totals overwritten, on a `defaultdict`. */
  function Bump(stats: Dict<string, StockStats>, rec: AlertRecord): (r: Dict<string, StockStats>)
    requires WellFormed(stats)
    ensures WellFormed(r)
    ensures HasKey(r, rec.stockName)
    ensures Get(r, rec.stockName, NoStats).count == Get(stats, rec.stockName, NoStats).count + 1
  {
    PutGet(stats, rec.stockName, BumpedEntry(stats, rec), rec.stockName, NoStats);
    Put(stats, rec.stockName, BumpedEntry(stats, rec))
  }

  /** The entry `Bump` stores: one more alert, and the alert's own totals. */
  function BumpedEntry(stats: Dict<string, StockStats>, rec: AlertRecord): StockStats {
    StockStats(Get(stats, rec.stockName, NoStats).count + 1, TotalsOf(rec).amount, TotalsOf(rec).ratio)
  }

  /** One side's statistics after an alert: bumped when the alert is on that side, untouched otherwise. */
  function Tally(stats: Dict<string, StockStats>, rec: AlertRecord, buySide: bool): (r: Dict<string, StockStats>)
    requires WellFormed(stats)
    ensures WellFormed(r)
    ensures OnBuySide(rec) != buySide ==> r == stats
    ensures OnBuySide(rec) == buySide ==>
      HasKey(r, rec.stockName) && Get(r, rec.stockName, NoStats).count == Get(stats, rec.stockName, NoStats).count + 1
  {
    if OnBuySide(rec) == buySide then Bump(stats, rec) else stats
  }

  /**
    Bumping raises the alert's stock count by exactly one and replaces
    (does not add to) its totals; every other stock's entry is unchanged.
   */
  lemma BumpEntry(stats: Dict<string, StockStats>, rec: AlertRecord, name: string)
    requires WellFormed(stats)
    ensures HasKey(Bump(stats, rec), name) <==> HasKey(stats, name) || name == rec.stockName
    ensures Get(Bump(stats, rec), name, NoStats)
            == if name == rec.stockName
               then StockStats(Get(stats, name, NoStats).count + 1, TotalsOf(rec).amount, TotalsOf(rec).ratio)
               else Get(stats, name, NoStats)
  {
    PutGet(stats, rec.stockName, BumpedEntry(stats, rec), name, NoStats);
  }

  /**
    A statistics dict agrees with the history: each stock's count is the
    number of its alerts on that side, only stocks with such alerts have an
    entry, and an entry's totals are those of the stock's latest alert.
   */
  ghost predicate StatsMatchHistory(stats: Dict<string, StockStats>, history: seq<AlertRecord>, buySide: bool) {
    && WellFormed(stats)
    && (forall n :: Get(stats, n, NoStats).count == SideCount(history, n, buySide))
    && (forall n :: HasKey(stats, n) <==> SideCount(history, n, buySide) > 0)
    && (forall n :: HasKey(stats, n) ==>
          var last := LastOnSide(history, n, buySide);
          last.Some? && Get(stats, n, NoStats).totalAmount == TotalsOf(last.value).amount
          && Get(stats, n, NoStats).totalRatio == TotalsOf(last.value).ratio)
  }

  lemma SideOfSnoc(history: seq<AlertRecord>, rec: AlertRecord, name: string, buySide: bool)
    ensures var matches := rec.stockName == name && OnBuySide(rec) == buySide;
            && SideCount(history + [rec], name, buySide) == SideCount(history, name, buySide) + (if matches then 1 else 0)
            && LastOnSide(history + [rec], name, buySide) == if matches then Some(rec) else LastOnSide(history, name, buySide)
  {
    assert (history + [rec])[..|history|] == history;
  }

  /** Bumping the statistics of the alert's own side keeps them in agreement with the extended history. */
  lemma BumpKeepsStatsMatch(stats: Dict<string, StockStats>, history: seq<AlertRecord>, rec: AlertRecord)
    requires StatsMatchHistory(stats, history, OnBuySide(rec))
    ensures StatsMatchHistory(Bump(stats, rec), history + [rec], OnBuySide(rec))
  {
    var side := OnBuySide(rec);
    forall n ensures Get(Bump(stats, rec), n, NoStats).count == SideCount(history + [rec], n, side)
                  && (HasKey(Bump(stats, rec), n) <==> SideCount(history + [rec], n, side) > 0)
    {
      BumpEntry(stats, rec, n);
      SideOfSnoc(history, rec, n, side);
    }
    forall n | HasKey(Bump(stats, rec), n)
      ensures var last := LastOnSide(history + [rec], n, side);
              last.Some? && Get(Bump(stats, rec), n, NoStats).totalAmount == TotalsOf(last.value).amount
              && Get(Bump(stats, rec), n, NoStats).totalRatio == TotalsOf(last.value).ratio
    {
      BumpEntry(stats, rec, n);
      SideOfSnoc(history, rec, n, side);
    }
  }

  /** The other side's statistics stay in agreement when the history grows by an alert that is not theirs. */
  lemma OtherSideKeepsStatsMatch(stats: Dict<string, StockStats>, history: seq<AlertRecord>, rec: AlertRecord, buySide: bool)
    requires OnBuySide(rec) != buySide
    requires StatsMatchHistory(stats, history, buySide)
    ensures StatsMatchHistory(stats, history + [rec], buySide)
  {
    forall n ensures SideCount(history + [rec], n, buySide) == SideCount(history, n, buySide)
                  && LastOnSide(history + [rec], n, buySide) == LastOnSide(history, n, buySide)
    {
      SideOfSnoc(history, rec, n, buySide);
    }
  }

  // ---------------------------------------------------------------------
  // Ranking and the statistics panel

  /** What `get_top_buy_stocks`/`get_top_sell_stocks` report before formatting. */
  datatype TopList = NoData | Ranked(entries: seq<(string, StockStats)>)

  function StatsCount(entry: (string, StockStats)): int {
    entry.1.count
  }

  /**
    The placeholder for empty statistics, otherwise the first `topN`
    entries of `sorted(stats.items(), key=count, reverse=True)`.
   */
  function RankStats(stats: Dict<string, StockStats>, topN: nat): (r: TopList)
    ensures r.NoData? <==> |stats| == 0
    ensures r.Ranked? ==>
      && |r.entries| == (if topN < |stats| then topN else |stats|)
      && multiset(r.entries) <= multiset(stats)
      && Ranking.NonIncreasing(r.entries, StatsCount)
      && forall i, e :: 0 <= i < |r.entries| && e in multiset(stats) - multiset(r.entries)
                        ==> e.1.count <= r.entries[i].1.count
  {
    if |stats| == 0 then NoData else Ranked(Ranking.TopN(stats, StatsCount, topN))
  }

  /** Stocks with equal counts are ranked in the order they were first counted. */
  lemma RankStatsKeepsTieOrder(stats: Dict<string, StockStats>, topN: nat, count: int)
    ensures RankStats(stats, topN).Ranked? ==>
            Ranking.WithKey(RankStats(stats, topN).entries, StatsCount, count) <= Ranking.WithKey(stats, StatsCount, count)
  {
    Ranking.TopNKeepsTieOrder(stats, StatsCount, topN, count);
  }

  /** `set(a['stock_name'] for a in history if a.get('type') == kind)`. */
  function NamesOfKind(history: seq<AlertRecord>, kind: AlertKind): set<string> {
    set r | r in history && r.kind == kind :: r.stockName
  }

  lemma {:induction false} SideCountPositive(history: seq<AlertRecord>, name: string, buySide: bool)
    ensures SideCount(history, name, buySide) > 0
            <==> exists r :: r in history && r.stockName == name && OnBuySide(r) == buySide
  {
    if history != [] {
      var init := history[..|history| - 1];
      assert history == init + [history[|history| - 1]];
      SideCountPositive(init, name, buySide);
    }
  }

  /**
    The unique-stock counts of `update_statistics`: the buy count covers
    exactly the stocks in `buy_stats`; the sell count covers only `sell`
    alerts, so its stocks are among those of `sell_stats`, which also
    counts `unknown` alerts.
   */
  lemma UniqueNamesAgreeWithStats(history: seq<AlertRecord>, buyStats: Dict<string, StockStats>,
                                  sellStats: Dict<string, StockStats>, name: string)
    requires StatsMatchHistory(buyStats, history, true) && StatsMatchHistory(sellStats, history, false)
    ensures name in NamesOfKind(history, Buy) <==> HasKey(buyStats, name)
    ensures name in NamesOfKind(history, Sell) ==> HasKey(sellStats, name)
  {
    SideCountPositive(history, name, true);
    SideCountPositive(history, name, false);
    if name in NamesOfKind(history, Sell) {
      var r :| r in history && r.kind == Sell && r.stockName == name;
      assert !OnBuySide(r);
    }
  }

  // ---------------------------------------------------------------------
  // The window's invariant

  /**
    The buy list holds buy records and the sell list sell records, at most
    one record per stock code across both, and every listed record has
    totals equal to its current values.
   */
  ghost predicate ListsValid(buy: seq<AlertRecord>, sell: seq<AlertRecord>) {
    && AllOfKind(buy, Buy) && AllOfKind(sell, Sell)
    && (forall code :: CodeCount(buy + sell, code) <= 1)
    && (forall r :: r in buy + sell ==> Settled(r))
  }

  /** Every historical record is completed, and both statistics dicts agree with the history. */
  ghost predicate HistoryValid(history: seq<AlertRecord>, buyStats: Dict<string, StockStats>, sellStats: Dict<string, StockStats>) {
    && (forall r :: r in history ==> Settled(r))
    && StatsMatchHistory(buyStats, history, true)
    && StatsMatchHistory(sellStats, history, false)
  }

  /** Merging an alert keeps the lists valid. */
  lemma MergeKeepsListsValid(buy: seq<AlertRecord>, sell: seq<AlertRecord>, rec: AlertRecord)
    requires ListsValid(buy, sell)
    ensures var all := Merged(buy + sell, rec);
            ListsValid(OfKind(all, Buy), OfKind(all, Sell))
  {
    var all := Merged(buy + sell, rec);
    var buy', sell' := OfKind(all, Buy), OfKind(all, Sell);
    forall code ensures CodeCount(buy' + sell', code) <= 1 {
      MergedCodeCounts(buy, sell, rec, code);
    }
    WithoutCodeMembers(buy + sell, rec.code);
    OfKindMembers(all, Buy);
    OfKindMembers(all, Sell);
    forall r | r in buy' + sell' ensures Settled(r) {
      assert r in all;
    }
  }

  /** One handled alert keeps the window's invariant, with the lists and statistics the merge gives. */
  lemma HandleKeepsValid(buy: seq<AlertRecord>, sell: seq<AlertRecord>, history: seq<AlertRecord>,
                         buyStats: Dict<string, StockStats>, sellStats: Dict<string, StockStats>, rec: AlertRecord)
    requires ListsValid(buy, sell) && HistoryValid(history, buyStats, sellStats)
    ensures var done, all := Completed(rec), Merged(buy + sell, rec);
            && OfKind(all, Buy) == WithoutCode(buy, rec.code) + (if rec.kind == Buy then [done] else [])
            && OfKind(all, Sell) == WithoutCode(sell, rec.code) + (if rec.kind == Sell then [done] else [])
            && ListsValid(OfKind(all, Buy), OfKind(all, Sell))
            && HistoryValid(history + [done],
                            Tally(buyStats, done, true), Tally(sellStats, done, false))
  {
    MergedSplit(buy, sell, rec, Buy);
    MergedSplit(buy, sell, rec, Sell);
    MergeKeepsListsValid(buy, sell, rec);
    RecordKeepsHistoryValid(history, buyStats, sellStats, Completed(rec));
  }

  /** Recording a completed alert and bumping its side keeps the history and statistics valid. */
  lemma RecordKeepsHistoryValid(history: seq<AlertRecord>, buyStats: Dict<string, StockStats>,
                                sellStats: Dict<string, StockStats>, done: AlertRecord)
    requires HistoryValid(history, buyStats, sellStats) && Settled(done)
    ensures HistoryValid(history + [done],
                         Tally(buyStats, done, true), Tally(sellStats, done, false))
  {
    if OnBuySide(done) {
      BumpKeepsStatsMatch(buyStats, history, done);
      OtherSideKeepsStatsMatch(sellStats, history, done, false);
    } else {
      OtherSideKeepsStatsMatch(buyStats, history, done, true);
      BumpKeepsStatsMatch(sellStats, history, done);
    }
  }

  // ---------------------------------------------------------------------
  // The window's state

  class AlertMonitorWindow {
    var alertsHistory: seq<AlertRecord>
    var buyAlerts: seq<AlertRecord>
    var sellAlerts: seq<AlertRecord>
    var buyStats: Dict<string, StockStats>
    var sellStats: Dict<string, StockStats>

    ghost predicate Valid()
      reads this
    {
      ListsValid(buyAlerts, sellAlerts) && HistoryValid(alertsHistory, buyStats, sellStats)
    }

    constructor ()
      ensures Valid()
      ensures alertsHistory == [] && buyAlerts == [] && sellAlerts == [] && buyStats == [] && sellStats == []
    {
      alertsHistory, buyAlerts, sellAlerts := [], [], [];
      buyStats, sellStats := [], [];
    }

    /**
      `_update_alert`: drop any record with the incoming code, append the
      record with its totals, split the result by kind and bump the stats
      of the alert's side (non-buy alerts go to `sell_stats`).
     */
    method UpdateAlert(rec: AlertRecord) returns (done: AlertRecord)
      requires WellFormed(buyStats) && WellFormed(sellStats)
      modifies this
      ensures done == Completed(rec)
      ensures buyAlerts == OfKind(Merged(old(buyAlerts) + old(sellAlerts), rec), Buy)
      ensures sellAlerts == OfKind(Merged(old(buyAlerts) + old(sellAlerts), rec), Sell)
      ensures buyStats == Tally(old(buyStats), done, true)
      ensures sellStats == Tally(old(sellStats), done, false)
      ensures alertsHistory == old(alertsHistory)
    {
      var current := buyAlerts + sellAlerts;
      var allAlerts := DropCode(current, rec.code);
      var existing := FindCode(allAlerts, rec.code);
      if existing.Some? {
        // `DropCode` has just removed every record with this code.
        assert false;
      }
      done := Completed(rec);
      allAlerts := allAlerts + [done];
      assert allAlerts == Merged(current, rec);
      buyAlerts := OfKind(allAlerts, Buy);
      sellAlerts := OfKind(allAlerts, Sell);
      if done.kind == Buy {
        buyStats := Bump(buyStats, done);
      } else {
        sellStats := Bump(sellStats, done);
      }
    }

    /**
      `update_alerts` once an alert has been read: the record goes into the
      history and is merged into the lists.  (Python appends the dict to the
      history before `_update_alert` completes it in place, so the history
      holds the completed record.)
     */
    method Handle(rec: AlertRecord)
      requires Valid()
      modifies this
      ensures Valid()
      ensures alertsHistory == old(alertsHistory) + [Completed(rec)]
      ensures buyAlerts == WithoutCode(old(buyAlerts), rec.code) + (if rec.kind == Buy then [Completed(rec)] else [])
      ensures sellAlerts == WithoutCode(old(sellAlerts), rec.code) + (if rec.kind == Sell then [Completed(rec)] else [])
      ensures buyStats == Tally(old(buyStats), Completed(rec), true)
      ensures sellStats == Tally(old(sellStats), Completed(rec), false)
    {
      HandleKeepsValid(buyAlerts, sellAlerts, alertsHistory, buyStats, sellStats, rec);
      var done := UpdateAlert(rec);
      alertsHistory := alertsHistory + [done];
    }

    /**
      `update_alerts`: only the first alert of the list is handled.  It is
      skipped without `code`/`stock_name`; a failed number conversion
      leaves everything unchanged; otherwise it is handled as above.
     */
    method UpdateAlerts(alerts: seq<IncomingAlert>, now: string) returns (outcome: Intake)
      requires Valid()
      modifies this
      ensures Valid()
      ensures outcome == if alerts == [] then Skipped else ReadAlert(alerts[0], now)
      ensures !outcome.Parsed? ==>
        && alertsHistory == old(alertsHistory) && buyAlerts == old(buyAlerts) && sellAlerts == old(sellAlerts)
        && buyStats == old(buyStats) && sellStats == old(sellStats)
      ensures outcome.Parsed? ==>
        var rec := outcome.record;
        && alertsHistory == old(alertsHistory) + [Completed(rec)]
        && buyAlerts == WithoutCode(old(buyAlerts), rec.code) + (if rec.kind == Buy then [Completed(rec)] else [])
        && sellAlerts == WithoutCode(old(sellAlerts), rec.code) + (if rec.kind == Sell then [Completed(rec)] else [])
        && buyStats == Tally(old(buyStats), Completed(rec), true)
        && sellStats == Tally(old(sellStats), Completed(rec), false)
    {
      if alerts == [] {
        return Skipped;
      }
      outcome := ReadAlert(alerts[0], now);
      if outcome.Parsed? {
        Handle(outcome.record);
      }
    }

    /** `clear_history`: when the user confirms, every collection is emptied. */
    method ClearHistory(confirmed: bool)
      requires Valid()
      modifies this
      ensures Valid()
      ensures confirmed ==> alertsHistory == [] && buyAlerts == [] && sellAlerts == [] && buyStats == [] && sellStats == []
      ensures !confirmed ==>
        && alertsHistory == old(alertsHistory) && buyAlerts == old(buyAlerts) && sellAlerts == old(sellAlerts)
        && buyStats == old(buyStats) && sellStats == old(sellStats)
    {
      if confirmed {
        alertsHistory, buyAlerts, sellAlerts := [], [], [];
        buyStats, sellStats := [], [];
      }
    }

    /** `get_top_buy_stocks(top_n)` (Python's default `top_n` is 5). */
    function TopBuyStocks(topN: nat): (r: TopList)
      reads this
      ensures r.NoData? <==> |buyStats| == 0
      ensures r.Ranked? ==>
        && |r.entries| == (if topN < |buyStats| then topN else |buyStats|)
        && multiset(r.entries) <= multiset(buyStats)
        && Ranking.NonIncreasing(r.entries, StatsCount)
    {
      RankStats(buyStats, topN)
    }

    /** `get_top_sell_stocks(top_n)`. */
    function TopSellStocks(topN: nat): (r: TopList)
      reads this
      ensures r.NoData? <==> |sellStats| == 0
      ensures r.Ranked? ==>
        && |r.entries| == (if topN < |sellStats| then topN else |sellStats|)
        && multiset(r.entries) <= multiset(sellStats)
        && Ranking.NonIncreasing(r.entries, StatsCount)
    {
      RankStats(sellStats, topN)
    }
  }

  // ---------------------------------------------------------------------
  // The worker's polling step

  /** The signals `AlertWorker.run_once` emits to the window. */
  datatype WorkerSignal =
    | StatusUpdated(message: string)
    | FoundAlerts(count: nat)
    | AlertUpdated(alerts: seq<IncomingAlert>)
    | BatchComplete
    | ErrorOccurred

  const CheckingMessage := "正在检测告警..."
  const NoAlertsMessage := "无新告警"

  /**
    The alerts of every runner's list, in order; `None` and empty lists
    contribute nothing, and every alert of a non-`None` list is kept.
   */
  function Flatten(lists: seq<Option<seq<IncomingAlert>>>): (r: seq<IncomingAlert>)
    ensures forall a :: a in r ==> exists i :: 0 <= i < |lists| && lists[i].Some? && a in lists[i].value
    ensures forall i, a :: 0 <= i < |lists| && lists[i].Some? && a in lists[i].value ==> a in r
  {
    if lists == [] then []
    else
      var init, last := lists[..|lists| - 1], lists[|lists| - 1];
      assert forall i :: 0 <= i < |init| ==> init[i] == lists[i];
      Flatten(init) + (if last.Some? then last.value else [])
  }

  /** The flattening loop of `run_once`. */
  method FlattenAlerts(allAlerts: seq<Option<seq<IncomingAlert>>>) returns (alerts: seq<IncomingAlert>)
    ensures alerts == Flatten(allAlerts)
  {
    alerts := [];
    var i := 0;
    while i < |allAlerts|
      invariant 0 <= i <= |allAlerts|
      invariant alerts == Flatten(allAlerts[..i])
    {
      assert allAlerts[..i + 1][..i] == allAlerts[..i];
      var alertList := allAlerts[i];
      if alertList.Some? && alertList.value != [] {
        alerts := alerts + alertList.value;
      }
      i := i + 1;
    }
    assert allAlerts[..i] == allAlerts;
  }

  /** One single-alert signal per alert, in order. */
  function OneByOne(alerts: seq<IncomingAlert>): (signals: seq<WorkerSignal>)
    ensures |signals| == |alerts|
    ensures forall i :: 0 <= i < |alerts| ==> signals[i] == AlertUpdated([alerts[i]])
  {
    if alerts == [] then [] else OneByOne(alerts[..|alerts| - 1]) + [AlertUpdated([alerts[|alerts| - 1]])]
  }

  /**
    The signals of one polling step.  `result` is what
    `AlertsRunner.run_alerts()` returns, `None` when it raises.  A stopped
    or uninitialised worker is silent; otherwise the status comes first, a
    failure ends with the error, and a batch of alerts is announced with
    its size and then sent one signal per alert.
   */
  function WorkerSignals(isRunning: bool, initialized: bool, result: Option<seq<Option<seq<IncomingAlert>>>>)
    : (r: seq<WorkerSignal>)
    ensures !isRunning || !initialized ==> r == []
    ensures isRunning && initialized ==> |r| >= 2 && r[0] == StatusUpdated(CheckingMessage)
    ensures isRunning && initialized && result.None? ==> r[|r| - 1] == ErrorOccurred
    ensures isRunning && initialized && result.Some? ==>
      var n := |Flatten(result.value)|;
      && |r| == (if n == 0 then 2 else n + 3)
      && (n > 0 ==> r[1] == FoundAlerts(n))
  {
    if !isRunning || !initialized then []
    else if result.None? then [StatusUpdated(CheckingMessage), ErrorOccurred]
    else
      var alerts := Flatten(result.value);
      if alerts != [] then [StatusUpdated(CheckingMessage), FoundAlerts(|alerts|)] + OneByOne(alerts) + [BatchComplete]
      else [StatusUpdated(CheckingMessage), StatusUpdated(NoAlertsMessage)]
  }

  /** `AlertWorker.run_once`, given the worker's `is_running` and `initialized` flags. */
  method RunOnce(isRunning: bool, initialized: bool, result: Option<seq<Option<seq<IncomingAlert>>>>)
    returns (signals: seq<WorkerSignal>)
    ensures signals == WorkerSignals(isRunning, initialized, result)
  {
    if !isRunning || !initialized {
      return [];
    }
    signals := [StatusUpdated(CheckingMessage)];
    if result.None? {
      return signals + [ErrorOccurred];
    }
    var alerts := FlattenAlerts(result.value);
    if alerts != [] {
      signals := signals + [FoundAlerts(|alerts|)];
      var i := 0;
      while i < |alerts|
        invariant 0 <= i <= |alerts|
        invariant signals == [StatusUpdated(CheckingMessage), FoundAlerts(|alerts|)] + OneByOne(alerts[..i])
      {
        assert alerts[..i + 1][..i] == alerts[..i];
        signals := signals + [AlertUpdated([alerts[i]])];
        i := i + 1;
      }
      assert alerts[..i] == alerts;
      signals := signals + [BatchComplete];
    } else {
      signals := signals + [StatusUpdated(NoAlertsMessage)];
    }
  }

  /** The alerts carried by the single-alert signals, in order. */
  function Delivered(signals: seq<WorkerSignal>): seq<IncomingAlert> {
    if signals == [] then []
    else
      var last := signals[|signals| - 1];
      Delivered(signals[..|signals| - 1]) + (if last.AlertUpdated? then last.alerts else [])
  }

  lemma {:induction false} DeliveredAppend(a: seq<WorkerSignal>, b: seq<WorkerSignal>)
    ensures Delivered(a + b) == Delivered(a) + Delivered(b)
    decreases |b|
  {
    if b == [] {
      assert a + b == a;
    } else {
      assert (a + b)[..|a + b| - 1] == a + b[..|b| - 1];
      DeliveredAppend(a, b[..|b| - 1]);
    }
  }

  lemma {:induction false} DeliveredOneByOne(alerts: seq<IncomingAlert>)
    ensures Delivered(OneByOne(alerts)) == alerts
  {
    if alerts != [] {
      var init := alerts[..|alerts| - 1];
      DeliveredOneByOne(init);
      DeliveredAppend(OneByOne(init), [AlertUpdated([alerts[|alerts| - 1]])]);
      assert [AlertUpdated([alerts[|alerts| - 1]])][..0] == [];
      assert alerts == init + [alerts[|alerts| - 1]];
    }
  }

  /** Signals that carry no alert deliver nothing. */
  lemma {:induction false} DeliveredNone(signals: seq<WorkerSignal>)
    requires forall i :: 0 <= i < |signals| ==> !signals[i].AlertUpdated?
    ensures Delivered(signals) == []
  {
    if signals != [] {
      DeliveredNone(signals[..|signals| - 1]);
    }
  }

  /** A signal that carries no alert delivers nothing. */
  lemma DeliveredOther(signal: WorkerSignal)
    requires !signal.AlertUpdated?
    ensures Delivered([signal]) == []
  {
    assert [signal][..0] == [];
  }

  /** The signals announcing a batch deliver exactly its alerts. */
  lemma DeliveredBatch(alerts: seq<IncomingAlert>)
    ensures Delivered([StatusUpdated(CheckingMessage), FoundAlerts(|alerts|)] + OneByOne(alerts) + [BatchComplete])
            == alerts
  {
    var status, found := StatusUpdated(CheckingMessage), FoundAlerts(|alerts|);
    var body := OneByOne(alerts);
    assert Delivered([status, found]) == [] by {
      DeliveredOther(status);
      DeliveredOther(found);
      DeliveredAppend([status], [found]);
      assert [status] + [found] == [status, found];
    }
    assert Delivered([status, found] + body) == alerts by {
      DeliveredAppend([status, found], body);
      DeliveredOneByOne(alerts);
      assert [] + alerts == alerts;
    }
    DeliveredOther(BatchComplete);
    DeliveredAppend([status, found] + body, [BatchComplete]);
    assert alerts + [] == alerts;
  }

  /** A successful polling step hands the window every alert of every runner, one per signal and in order. */
  lemma WorkerDeliversEveryAlert(isRunning: bool, initialized: bool, result: Option<seq<Option<seq<IncomingAlert>>>>)
    ensures Delivered(WorkerSignals(isRunning, initialized, result))
            == if isRunning && initialized && result.Some? then Flatten(result.value) else []
  {
    var signals := WorkerSignals(isRunning, initialized, result);
    if isRunning && initialized && result.Some? && Flatten(result.value) != [] {
      var alerts := Flatten(result.value);
      DeliveredBatch(alerts);
    } else {
      DeliveredNone(signals);
    }
  }

  /** `batch_complete` is sent exactly when some alert was found, and always as the last signal. */
  lemma WorkerCompletesBatch(isRunning: bool, initialized: bool, result: Option<seq<Option<seq<IncomingAlert>>>>)
    ensures var signals := WorkerSignals(isRunning, initialized, result);
            && (BatchComplete in signals <==> isRunning && initialized && result.Some? && Flatten(result.value) != [])
            && (BatchComplete in signals ==> signals[|signals| - 1] == BatchComplete)
  {
    if isRunning && initialized && result.Some? {
      var alerts := Flatten(result.value);
      if alerts != [] {
        var front := [StatusUpdated(CheckingMessage), FoundAlerts(|alerts|)];
        var body := OneByOne(alerts);
        assert forall k :: 0 <= k < |front + body| ==> (front + body)[k] != BatchComplete;
      }
    }
  }
}
