/**
  The turnover alert of alerts/turnover_alert.py: the continuous-buy
  detector, the circulating-market-value table built by `pre_run`, and the
  per-stock alert assembly of `run`.  The data feed is a parameter.
 */
module TurnoverAlert {
  import opened Wrappers

  /** One row of the transaction frame; a missing column is `None`. */
  datatype TradeRow = TradeRow(buyOrSell: Option<int>, volume: Option<real>, time: string)

  /** `row.get('buyorsell', 0) == 0`: a missing direction counts as a buy. */
  predicate IsBuy(row: TradeRow) {
    match row.buyOrSell
    case None => true
    case Some(d) => d == 0
  }

  /** `row.get('volume', 0)` */
  function Turnover(row: TradeRow): real {
    match row.volume
    case None => 0.0
    case Some(v) => v
  }

  /** Rows `lo .. lo + m - 1` exist and are all buys. */
  ghost predicate BuyBlockAt(rows: seq<TradeRow>, lo: int, m: nat) {
    0 <= lo && lo + m <= |rows| && forall k :: lo <= k < lo + m ==> IsBuy(rows[k])
  }

  /** Turnover of rows `lo .. hi - 1`. */
  function Sum(rows: seq<TradeRow>, lo: nat, hi: nat): real
    requires lo <= hi <= |rows|
    decreases hi - lo
  {
    if lo == hi then 0.0 else Sum(rows, lo, hi - 1) + Turnover(rows[hi - 1])
  }

  /** No buy block inside the first `n` rows is longer than `m`. */
  ghost predicate NoLongerBlock(rows: seq<TradeRow>, n: nat, m: nat) {
    forall lo: int, m': nat :: BuyBlockAt(rows, lo, m') && lo + m' <= n ==> m' <= m
  }

  /**
    Block `s .. s + m - 1` lies inside the first `n` rows, is all buys, has
    turnover `amount`, no block of length `m` there has more turnover, and
    every earlier block of length `m` has strictly less.
   */
  ghost predicate BestBlock(rows: seq<TradeRow>, n: nat, m: nat, s: nat, amount: real) {
    && BuyBlockAt(rows, s, m) && s + m <= n && amount == Sum(rows, s, s + m)
    && (forall lo :: BuyBlockAt(rows, lo, m) && lo + m <= n ==> Sum(rows, lo, lo + m) <= amount)
    && (forall lo :: BuyBlockAt(rows, lo, m) && lo < s ==> Sum(rows, lo, lo + m) < amount)
  }

  /** What the detector reports about the rows: the longest buy run and its turnover. */
  datatype RunSummary = RunSummary(count: nat, amount: real, startIdx: Option<nat>, endIdx: Option<nat>)

  /**
    `r.count` is the length of the longest contiguous buy run; among the runs
    of that length `r.amount` is the largest turnover, the earliest run
    winning ties; `startIdx`/`endIdx` are that run's first and last rows.
    With no buy at all everything stays at its initial value.
   */
  ghost predicate IsLongestBuyRun(rows: seq<TradeRow>, r: RunSummary) {
    && NoLongerBlock(rows, |rows|, r.count)
    && (r.count == 0 ==> r.amount == 0.0 && r.startIdx == None && r.endIdx == None)
    && (r.count > 0 ==>
          && r.startIdx.Some?
          && r.endIdx == Some(r.startIdx.value + r.count - 1)
          && BestBlock(rows, |rows|, r.count, r.startIdx.value, r.amount))
  }

  /** The loop variables of `_detect_continuous_buy_orders`. */
  datatype ScanState = ScanState(
    count: nat, amount: real, start: Option<nat>,
    maxCount: nat, maxAmount: real, maxStart: Option<nat>, maxEnd: Option<nat>)

  const InitialScan := ScanState(0, 0.0, None, 0, 0.0, None, None)

  /**
    One iteration of the loop, for the row at position `idx`: a buy extends
    the current run (starting it here when there was none), anything else
    resets it; the recorded maximum never shrinks, and at an unchanged
    length its turnover never drops.
   */
  function Step(st: ScanState, row: TradeRow, idx: nat): (r: ScanState)
    ensures IsBuy(row) ==>
      && r.count == st.count + 1 && r.amount == st.amount + Turnover(row)
      && r.start == (if st.count == 0 then Some(idx) else st.start)
    ensures !IsBuy(row) ==> r.count == 0 && r.amount == 0.0 && r.start == None
    ensures r.maxCount >= st.maxCount
    ensures r.maxCount == st.maxCount ==> r.maxAmount >= st.maxAmount
    ensures st.count <= st.maxCount ==> r.count <= r.maxCount
  {
    if IsBuy(row) then
      var start := if st.count == 0 then Some(idx) else st.start;
      var count := st.count + 1;
      var amount := st.amount + Turnover(row);
      if count > st.maxCount then
        ScanState(count, amount, start, count, amount, start, Some(idx))
      else if count == st.maxCount && amount > st.maxAmount then
        ScanState(count, amount, start, st.maxCount, amount, start, Some(idx))
      else
        ScanState(count, amount, start, st.maxCount, st.maxAmount, st.maxStart, st.maxEnd)
    else
      ScanState(0, 0.0, None, st.maxCount, st.maxAmount, st.maxStart, st.maxEnd)
  }

  /** The loop variables after the first `n` rows. */
  function ScanPrefix(rows: seq<TradeRow>, n: nat): ScanState
    requires n <= |rows|
  {
    if n == 0 then InitialScan else Step(ScanPrefix(rows, n - 1), rows[n - 1], n - 1)
  }

  function Summary(st: ScanState): RunSummary {
    RunSummary(st.maxCount, st.maxAmount, st.maxStart, st.maxEnd)
  }

  /** The detector's result over all rows: the longest buy run, its largest turnover, the earliest such run. */
  function Scan(rows: seq<TradeRow>): (r: RunSummary)
    ensures IsLongestBuyRun(rows, r)
  {
    ScanPrefixInvariant(rows, |rows|);
    Summary(ScanPrefix(rows, |rows|))
  }

  /** The current run ends at row `n - 1`, is maximal to the left, and `amount`/`start` describe it. */
  ghost predicate CurrentRun(rows: seq<TradeRow>, n: nat, st: ScanState) {
    && st.count <= n <= |rows|
    && BuyBlockAt(rows, n - st.count, st.count)
    && (st.count < n ==> !IsBuy(rows[n - st.count - 1]))
    && st.amount == Sum(rows, n - st.count, n)
    && st.start == (if st.count == 0 then None else Some(n - st.count))
  }

  /** The recorded maximum describes the best run among the first `n` rows. */
  ghost predicate BestSoFar(rows: seq<TradeRow>, n: nat, st: ScanState) {
    && n <= |rows|
    && NoLongerBlock(rows, n, st.maxCount)
    && (st.maxCount == 0 ==> st.maxAmount == 0.0 && st.maxStart == None && st.maxEnd == None)
    && (st.maxCount > 0 ==>
          && st.maxStart.Some?
          && st.maxEnd == Some(st.maxStart.value + st.maxCount - 1)
          && BestBlock(rows, n, st.maxCount, st.maxStart.value, st.maxAmount))
  }

  lemma StepNonBuy(rows: seq<TradeRow>, n: nat, st: ScanState)
    requires n < |rows| && !IsBuy(rows[n])
    requires CurrentRun(rows, n, st) && BestSoFar(rows, n, st)
    ensures CurrentRun(rows, n + 1, Step(st, rows[n], n)) && BestSoFar(rows, n + 1, Step(st, rows[n], n))
  {
  }

  /** Every buy block that ends at row `n` lies inside the run that row `n` extends. */
  lemma EndingBlocksFitRun(rows: seq<TradeRow>, n: nat, st: ScanState)
    requires n < |rows| && IsBuy(rows[n]) && CurrentRun(rows, n, st)
    ensures CurrentRun(rows, n + 1, Step(st, rows[n], n))
    ensures forall lo: int, m': nat :: BuyBlockAt(rows, lo, m') && lo + m' == n + 1 ==> m' <= st.count + 1
  {
    forall lo: int, m': nat | BuyBlockAt(rows, lo, m') && lo + m' == n + 1 ensures m' <= st.count + 1 {
      if st.count < n { assert !IsBuy(rows[n - st.count - 1]); }
    }
  }

  /** The run reaches a new maximum length: it becomes the recorded run. */
  lemma StepBuyLonger(rows: seq<TradeRow>, n: nat, st: ScanState)
    requires n < |rows| && IsBuy(rows[n])
    requires CurrentRun(rows, n, st) && BestSoFar(rows, n, st)
    requires st.count + 1 > st.maxCount
    ensures BestSoFar(rows, n + 1, Step(st, rows[n], n))
  {
    EndingBlocksFitRun(rows, n, st);
  }

  /** The run ties the maximum length with strictly more turnover: it replaces the recorded run. */
  lemma StepBuyRicher(rows: seq<TradeRow>, n: nat, st: ScanState)
    requires n < |rows| && IsBuy(rows[n])
    requires CurrentRun(rows, n, st) && BestSoFar(rows, n, st)
    requires st.count + 1 == st.maxCount && st.amount + Turnover(rows[n]) > st.maxAmount
    ensures BestSoFar(rows, n + 1, Step(st, rows[n], n))
  {
    EndingBlocksFitRun(rows, n, st);
  }

  /** Otherwise the recorded run stays, also against a run of equal length and turnover. */
  lemma StepBuyKeep(rows: seq<TradeRow>, n: nat, st: ScanState)
    requires n < |rows| && IsBuy(rows[n])
    requires CurrentRun(rows, n, st) && BestSoFar(rows, n, st)
    requires st.count + 1 < st.maxCount || (st.count + 1 == st.maxCount && st.amount + Turnover(rows[n]) <= st.maxAmount)
    ensures BestSoFar(rows, n + 1, Step(st, rows[n], n))
  {
    EndingBlocksFitRun(rows, n, st);
  }

  /** One iteration keeps both loop invariants. */
  lemma StepPreserves(rows: seq<TradeRow>, n: nat, st: ScanState)
    requires n < |rows|
    requires CurrentRun(rows, n, st) && BestSoFar(rows, n, st)
    ensures CurrentRun(rows, n + 1, Step(st, rows[n], n)) && BestSoFar(rows, n + 1, Step(st, rows[n], n))
  {
    if !IsBuy(rows[n]) {
      StepNonBuy(rows, n, st);
    } else {
      EndingBlocksFitRun(rows, n, st);
      if st.count + 1 > st.maxCount {
        StepBuyLonger(rows, n, st);
      } else if st.count + 1 == st.maxCount && st.amount + Turnover(rows[n]) > st.maxAmount {
        StepBuyRicher(rows, n, st);
      } else {
        StepBuyKeep(rows, n, st);
      }
    }
  }

  lemma {:induction false} ScanPrefixInvariant(rows: seq<TradeRow>, n: nat)
    requires n <= |rows|
    ensures CurrentRun(rows, n, ScanPrefix(rows, n)) && BestSoFar(rows, n, ScanPrefix(rows, n))
  {
    if n > 0 {
      ScanPrefixInvariant(rows, n - 1);
      StepPreserves(rows, n - 1, ScanPrefix(rows, n - 1));
    }
  }

  /** Two summaries that both describe the longest buy run are the same: the description is complete. */
  lemma LongestBuyRunUnique(rows: seq<TradeRow>, a: RunSummary, b: RunSummary)
    requires IsLongestBuyRun(rows, a) && IsLongestBuyRun(rows, b)
    ensures a == b
  {
    if a.count > 0 && b.count > 0 {
      assert a.count == b.count;
      var sa, sb := a.startIdx.value, b.startIdx.value;
      assert Sum(rows, sa, sa + a.count) <= b.amount;
      assert Sum(rows, sb, sb + b.count) <= a.amount;
    }
  }

  /**
    When every row is a buy (in particular when the frame has no `buyorsell`
    column at all) the whole frame is one run: its length and total turnover
    are reported, starting at the first row.
   */
  lemma AllBuyRowsFormOneRun(rows: seq<TradeRow>, r: RunSummary)
    requires forall i :: 0 <= i < |rows| ==> IsBuy(rows[i])
    requires IsLongestBuyRun(rows, r)
    ensures r.count == |rows| && r.amount == Sum(rows, 0, |rows|)
    ensures |rows| > 0 ==> r.startIdx == Some(0) && r.endIdx == Some(|rows| - 1)
  {
    assert BuyBlockAt(rows, 0, |rows|);
  }

  /** The threshold numerator and denominator of `cmv / 5000 * 6`. */
  const ThresholdNumerator: real := 6.0
  const ThresholdDenominator: real := 5000.0

  /**
    The alert threshold, 0.12% of the circulating market value as the code
    computes it; for a positive market value this is below the 1/500 that the
    docstring and the demo describe.
   */
  function Threshold(cmv: real): (t: real)
    ensures t == cmv * 12.0 / 10000.0
    ensures cmv > 0.0 ==> 0.0 < t < cmv / 500.0
  {
    cmv / ThresholdDenominator * ThresholdNumerator
  }

  /** The result dictionary of `_detect_continuous_buy_orders` (the description is rendered by `run`). */
  datatype DetectionInfo = DetectionInfo(
    continuousCount: nat, continuousAmount: real, threshold: real, percentage: real,
    startIdx: Option<nat>, endIdx: Option<nat>, startTime: Option<string>, endTime: Option<string>)

  /** No alert, an alert, or an exception (a division by a zero market value). */
  datatype Detection = NotDetected | Detected(info: DetectionInfo) | Raised

  /** `transaction_df.loc[idx, 'time'] if idx in transaction_df.index else None` */
  function TimeAt(rows: seq<TradeRow>, idx: Option<nat>): (t: Option<string>)
    ensures t.Some? <==> idx.Some? && idx.value < |rows|
    ensures t.Some? ==> t.value == rows[idx.value].time
  {
    if idx.Some? && idx.value < |rows| then Some(rows[idx.value].time) else None
  }

  /**
    The detector's decision.  Nothing is reported for an empty frame or a stock
    without market value; otherwise the longest buy run is reported exactly
    when its turnover is strictly above the threshold, together with its share
    of the market value in percent.
   */
  function Detect(rows: seq<TradeRow>, cmvMap: map<string, real>, stock: string): (r: Detection)
    ensures |rows| == 0 || stock !in cmvMap ==> r == NotDetected
    ensures r.Raised? ==> stock in cmvMap && cmvMap[stock] == 0.0
    ensures r.Detected? ==>
      && stock in cmvMap
      && IsLongestBuyRun(rows, RunSummary(r.info.continuousCount, r.info.continuousAmount, r.info.startIdx, r.info.endIdx))
      && r.info.threshold == Threshold(cmvMap[stock])
      && r.info.continuousAmount > r.info.threshold
      && cmvMap[stock] != 0.0
      && r.info.percentage == r.info.continuousAmount / cmvMap[stock] * 100.0
      && r.info.startTime == TimeAt(rows, r.info.startIdx) && r.info.endTime == TimeAt(rows, r.info.endIdx)
    ensures r.NotDetected? && |rows| > 0 && stock in cmvMap ==>
      forall s :: IsLongestBuyRun(rows, s) ==> s.amount <= Threshold(cmvMap[stock])
    ensures !r.NotDetected? ==>
      forall s :: IsLongestBuyRun(rows, s) ==> s.amount > Threshold(cmvMap[stock])
  {
    if |rows| == 0 || stock !in cmvMap then NotDetected
    else
      var cmv := cmvMap[stock];
      var threshold := Threshold(cmv);
      var run := Scan(rows);
      forall s | IsLongestBuyRun(rows, s) ensures s == run {
        LongestBuyRunUnique(rows, s, run);
      }
      if run.amount > threshold then
        if cmv == 0.0 then Raised
        else
          Detected(DetectionInfo(run.count, run.amount, threshold, run.amount / cmv * 100.0,
                                 run.startIdx, run.endIdx, TimeAt(rows, run.startIdx), TimeAt(rows, run.endIdx)))
      else NotDetected
  }

  /** `Exchange.SZSE if stock.startswith(('000', '002', '300')) else Exchange.SSE` */
  datatype Exchange = SZSE | SSE

  function ExchangeFor(code: string): (e: Exchange)
    ensures e == SZSE <==> |code| >= 3 && code[..3] in {"000", "002", "300"}
  {
    if |code| >= 3 && (code[..3] == "000" || code[..3] == "002" || code[..3] == "300") then SZSE else SSE
  }

  /** `AlertData` of alerts/alerts_runner.py. */
  datatype AlertData = AlertData(name: string, code: string, descr: string)

  const AlertName := "TurnoverAlert"
  const DescrPrefix := "检测到连续买单："

  /**
    The feed's transaction frame for a stock, or `None` when it returns
    `None`, an empty frame or raises.
   */
  type TransactionFeed = (string, Exchange) -> Option<seq<TradeRow>>

  /** The alert `run` builds for one stock, if any. */
  function AlertFor(stock: string, cmvMap: map<string, real>, feed: TransactionFeed,
                    describe: DetectionInfo -> string): Option<AlertData>
  {
    match feed(stock, ExchangeFor(stock))
    case None => None
    case Some(rows) =>
      match Detect(rows, cmvMap, stock)
      case Detected(info) => Some(AlertData(AlertName, stock, DescrPrefix + describe(info)))
      case _ => None
  }

  /**
    No alert when the feed fails, gives an empty frame or the stock has no
    market value; otherwise the detection decides, and an alert carries the
    stock's code, the alert's name and a description that starts with the
    fixed prefix.
   */
  lemma AlertForFields(stock: string, cmvMap: map<string, real>, feed: TransactionFeed,
                       describe: DetectionInfo -> string)
    ensures var rows := feed(stock, ExchangeFor(stock));
            rows.None? || rows == Some([]) || stock !in cmvMap ==> AlertFor(stock, cmvMap, feed, describe).None?
    ensures var a := AlertFor(stock, cmvMap, feed, describe);
            a.Some? ==>
              && feed(stock, ExchangeFor(stock)).Some?
              && Detect(feed(stock, ExchangeFor(stock)).value, cmvMap, stock).Detected?
              && a.value.code == stock && a.value.name == AlertName
              && DescrPrefix <= a.value.descr
  {
  }

  function Codes(alerts: seq<AlertData>): (r: seq<string>)
    ensures |r| == |alerts| && forall i :: 0 <= i < |alerts| ==> r[i] == alerts[i].code
  {
    if alerts == [] then [] else Codes(alerts[..|alerts| - 1]) + [alerts[|alerts| - 1].code]
  }

  /** `a` is `b` with some elements left out. */
  ghost predicate IsSubsequence(a: seq<string>, b: seq<string>)
    decreases |b|
  {
    || a == []
    || (&& b != []
        && ((a[|a| - 1] == b[|b| - 1] && IsSubsequence(a[..|a| - 1], b[..|b| - 1]))
            || IsSubsequence(a, b[..|b| - 1])))
  }

  predicate Distinct(s: seq<string>) {
    forall i, j :: 0 <= i < j < |s| ==> s[i] != s[j]
  }

  lemma {:induction false} SubsequenceOfDistinct(a: seq<string>, b: seq<string>)
    requires IsSubsequence(a, b) && Distinct(b)
    ensures Distinct(a) && forall x :: x in a ==> x in b
  {
    if a != [] && b != [] {
      var a', b' := a[..|a| - 1], b[..|b| - 1];
      if a[|a| - 1] == b[|b| - 1] && IsSubsequence(a', b') {
        SubsequenceOfDistinct(a', b');
        forall i | 0 <= i < |a'| ensures a'[i] != a[|a| - 1] {
          assert a'[i] in b';
          var j :| 0 <= j < |b'| && b'[j] == a'[i];
          assert b[j] != b[|b| - 1];
        }
        assert a == a' + [a[|a| - 1]];
      } else {
        SubsequenceOfDistinct(a, b');
      }
    }
  }

  /**
    The alerts of `run`: at most one per monitored stock, each named
    "TurnoverAlert" with the detection's description after the fixed prefix;
    a stock gets one exactly when its own detection reports, so a stock whose
    feed fails, is empty, has no market value, or raises contributes nothing
    and does not affect the others.
   */
  function AlertsFor(stocks: seq<string>, cmvMap: map<string, real>, feed: TransactionFeed,
                     describe: DetectionInfo -> string): (r: seq<AlertData>)
    ensures |r| <= |stocks|
    ensures forall i :: 0 <= i < |r| ==> AlertFor(r[i].code, cmvMap, feed, describe) == Some(r[i])
    ensures forall st :: st in stocks && AlertFor(st, cmvMap, feed, describe).Some? ==> st in Codes(r)
  {
    if stocks == [] then []
    else
      var prefix := stocks[..|stocks| - 1];
      var last := stocks[|stocks| - 1];
      var rest := AlertsFor(prefix, cmvMap, feed, describe);
      var alert := AlertFor(last, cmvMap, feed, describe);
      var r := if alert.Some? then rest + [alert.value] else rest;
      assert forall st :: st in stocks ==> st in prefix || st == last;
      assert Codes(r)[..|rest|] == Codes(rest);
      assert forall st :: st in Codes(rest) ==> st in Codes(r);
      r
  }

  /** Monitoring one more stock appends that stock's alert, if any. */
  lemma AlertsForExtend(stocks: seq<string>, i: nat, cmvMap: map<string, real>, feed: TransactionFeed,
                        describe: DetectionInfo -> string)
    requires i < |stocks|
    ensures var a := AlertFor(stocks[i], cmvMap, feed, describe);
            AlertsFor(stocks[..i + 1], cmvMap, feed, describe)
            == AlertsFor(stocks[..i], cmvMap, feed, describe) + (if a.Some? then [a.value] else [])
  {
    assert stocks[..i + 1][..i] == stocks[..i];
  }

  /** The alerts come in monitoring order. */
  lemma {:induction false} AlertsInMonitoringOrder(stocks: seq<string>, cmvMap: map<string, real>,
                                                   feed: TransactionFeed, describe: DetectionInfo -> string)
    ensures IsSubsequence(Codes(AlertsFor(stocks, cmvMap, feed, describe)), stocks)
  {
    if stocks != [] {
      var prefix := stocks[..|stocks| - 1];
      AlertsInMonitoringOrder(prefix, cmvMap, feed, describe);
      var rest := AlertsFor(prefix, cmvMap, feed, describe);
      var r := AlertsFor(stocks, cmvMap, feed, describe);
      if r != rest {
        assert Codes(r)[..|Codes(r)| - 1] == Codes(rest);
      }
    }
  }

  /** Each stock appears in at most one alert when the monitored list has no duplicates. */
  lemma AtMostOneAlertPerStock(stocks: seq<string>, cmvMap: map<string, real>, feed: TransactionFeed,
                               describe: DetectionInfo -> string)
    requires Distinct(stocks)
    ensures Distinct(Codes(AlertsFor(stocks, cmvMap, feed, describe)))
  {
    AlertsInMonitoringOrder(stocks, cmvMap, feed, describe);
    SubsequenceOfDistinct(Codes(AlertsFor(stocks, cmvMap, feed, describe)), stocks);
  }

  /** `get_block_stocks` for one block, or `None` when it raises. */
  type BlockFeed = string -> Option<seq<string>>

  /**
    The stocks `pre_run` collects from the blocks, in block order: exactly
    the stocks of the blocks whose lookup succeeds.
   */
  function Gathered(blocks: seq<string>, blockStocks: BlockFeed): (r: seq<string>)
    ensures forall s :: s in r ==>
      exists i :: 0 <= i < |blocks| && blockStocks(blocks[i]).Some? && s in blockStocks(blocks[i]).value
    ensures forall i, s :: 0 <= i < |blocks| && blockStocks(blocks[i]).Some? && s in blockStocks(blocks[i]).value ==> s in r
  {
    if blocks == [] then []
    else
      var init := blocks[..|blocks| - 1];
      var more := blockStocks(blocks[|blocks| - 1]);
      assert forall i :: 0 <= i < |init| ==> init[i] == blocks[i];
      Gathered(init, blockStocks) + (if more.Some? then more.value else [])
  }

  /**
    A stock's circulating market value: the first daily bar's open price times
    the circulating share count, kept only when both are positive.  Either
    input is `None` when the feed returns nothing or raises.
   */
  function MarketValue(stock: string, openPrice: (string, Exchange) -> Option<real>,
                       shares: string -> Option<real>): (v: Option<real>)
    ensures v.Some? ==> v.value > 0.0
  {
    var price := openPrice(stock, ExchangeFor(stock));
    var count := shares(stock);
    if price.Some? && count.Some? && price.value > 0.0 && count.value > 0.0
    then Some(price.value * count.value) else None
  }

  /** The entries the market-value loop writes, one stock after the other. */
  function MarketValues(stocks: seq<string>, openPrice: (string, Exchange) -> Option<real>,
                        shares: string -> Option<real>): map<string, real>
  {
    if stocks == [] then map[]
    else
      var m := MarketValues(stocks[..|stocks| - 1], openPrice, shares);
      var last := stocks[|stocks| - 1];
      var v := MarketValue(last, openPrice, shares);
      if v.Some? then m[last := v.value] else m
  }

  /** Exactly the stocks with a positive open price and share count get an entry: their product. */
  lemma {:induction false} MarketValuesExact(stocks: seq<string>, openPrice: (string, Exchange) -> Option<real>,
                                             shares: string -> Option<real>, s: string)
    ensures var price, count := openPrice(s, ExchangeFor(s)), shares(s);
            s in MarketValues(stocks, openPrice, shares)
            <==> s in stocks && price.Some? && count.Some? && price.value > 0.0 && count.value > 0.0
    ensures s in MarketValues(stocks, openPrice, shares) ==>
      MarketValues(stocks, openPrice, shares)[s] == openPrice(s, ExchangeFor(s)).value * shares(s).value
  {
    if stocks != [] {
      var prefix := stocks[..|stocks| - 1];
      MarketValuesExact(prefix, openPrice, shares, s);
      assert stocks == prefix + [stocks[|stocks| - 1]];
    }
  }

  /**
    `list(set(stocks))`: the same stocks, each once.  A Python set has no
    defined order; this one keeps the last occurrence of each stock.
   */
  function Deduplicate(stocks: seq<string>): (unique: seq<string>)
    ensures Distinct(unique)
    ensures forall s :: s in unique <==> s in stocks
  {
    if stocks == [] then []
    else
      var rest := Deduplicate(stocks[1..]);
      assert forall s :: s in stocks <==> s == stocks[0] || s in stocks[1..];
      if stocks[0] in rest then rest else [stocks[0]] + rest
  }

  /** The alert object: the monitored stocks and their circulating market values. */
  class TurnoverAlert {
    var monitorStocks: seq<string>
    var stocksCmvMap: map<string, real>

    constructor ()
      ensures monitorStocks == [] && stocksCmvMap == map[]
    {
      monitorStocks := [];
      stocksCmvMap := map[];
    }

    /**
      `pre_run`: without a `monitor_blks` entry nothing changes.  Otherwise
      the monitored list gets the stocks of every block, without duplicates,
      and every monitored stock with a positive open price and share count
      gets its market value; entries written earlier stay.
     */
    method PreRun(monitorBlks: Option<seq<string>>, blockStocks: BlockFeed,
                  openPrice: (string, Exchange) -> Option<real>, shares: string -> Option<real>)
      modifies this
      ensures monitorBlks.None? ==> monitorStocks == old(monitorStocks) && stocksCmvMap == old(stocksCmvMap)
      ensures monitorBlks.Some? ==>
        && Distinct(monitorStocks)
        && (forall s :: s in monitorStocks <==> s in old(monitorStocks) + Gathered(monitorBlks.value, blockStocks))
        && stocksCmvMap == old(stocksCmvMap) + MarketValues(monitorStocks, openPrice, shares)
    {
      if monitorBlks.None? {
        return;
      }
      var blocks := monitorBlks.value;
      var i := 0;
      while i < |blocks|
        invariant 0 <= i <= |blocks|
        invariant monitorStocks == old(monitorStocks) + Gathered(blocks[..i], blockStocks)
        invariant stocksCmvMap == old(stocksCmvMap)
      {
        var stocks := blockStocks(blocks[i]);
        if stocks.Some? && stocks.value != [] {
          monitorStocks := monitorStocks + stocks.value;
        }
        assert blocks[..i + 1][..i] == blocks[..i];
        i := i + 1;
      }
      assert blocks[..i] == blocks;

      monitorStocks := Deduplicate(monitorStocks);
      StoreMarketValues(openPrice, shares);
    }

    /** The market-value loop of `pre_run`, over the monitored stocks in order. */
    method StoreMarketValues(openPrice: (string, Exchange) -> Option<real>, shares: string -> Option<real>)
      modifies this`stocksCmvMap
      ensures stocksCmvMap == old(stocksCmvMap) + MarketValues(monitorStocks, openPrice, shares)
    {
      var k := 0;
      while k < |monitorStocks|
        invariant 0 <= k <= |monitorStocks|
        invariant stocksCmvMap == old(stocksCmvMap) + MarketValues(monitorStocks[..k], openPrice, shares)
      {
        var stock := monitorStocks[k];
        var price := openPrice(stock, ExchangeFor(stock));
        var count := shares(stock);
        ghost var done := MarketValues(monitorStocks[..k], openPrice, shares);
        assert monitorStocks[..k + 1][..k] == monitorStocks[..k] && monitorStocks[..k + 1][k] == stock;
        if price.Some? && count.Some? && !(price.value <= 0.0 || count.value <= 0.0) {
          var v := price.value * count.value;
          assert MarketValues(monitorStocks[..k + 1], openPrice, shares) == done[stock := v];
          assert (old(stocksCmvMap) + done)[stock := v] == old(stocksCmvMap) + done[stock := v];
          stocksCmvMap := stocksCmvMap[stock := v];
        } else {
          assert MarketValues(monitorStocks[..k + 1], openPrice, shares) == done;
        }
        k := k + 1;
      }
      assert monitorStocks[..k] == monitorStocks;
    }

    /**
      `_detect_continuous_buy_orders`: one pass over the rows keeping the
      current run and the best run so far.
     */
    method DetectContinuousBuyOrders(rows: seq<TradeRow>, stock: string) returns (r: Detection)
      ensures r == Detect(rows, stocksCmvMap, stock)
    {
      if |rows| == 0 || stock !in stocksCmvMap {
        return NotDetected;
      }
      var cmv := stocksCmvMap[stock];
      var threshold := cmv / ThresholdDenominator * ThresholdNumerator;
      var continuousBuyCount: nat := 0;
      var maxContinuousCount: nat := 0;
      var continuousBuyAmount := 0.0;
      var maxContinuousAmount := 0.0;
      var maxContinuousStartIdx: Option<nat> := None;
      var maxContinuousEndIdx: Option<nat> := None;
      var currentContinuousStartIdx: Option<nat> := None;
      var idx := 0;
      while idx < |rows|
        invariant 0 <= idx <= |rows|
        invariant ScanPrefix(rows, idx) == ScanState(
          continuousBuyCount, continuousBuyAmount, currentContinuousStartIdx,
          maxContinuousCount, maxContinuousAmount, maxContinuousStartIdx, maxContinuousEndIdx)
      {
        var row := rows[idx];
        if IsBuy(row) {
          if continuousBuyCount == 0 {
            currentContinuousStartIdx := Some(idx);
          }
          continuousBuyCount := continuousBuyCount + 1;
          continuousBuyAmount := continuousBuyAmount + Turnover(row);
          if continuousBuyCount > maxContinuousCount {
            maxContinuousCount := continuousBuyCount;
            maxContinuousAmount := continuousBuyAmount;
            maxContinuousStartIdx := currentContinuousStartIdx;
            maxContinuousEndIdx := Some(idx);
          } else if continuousBuyCount == maxContinuousCount {
            if continuousBuyAmount > maxContinuousAmount {
              maxContinuousAmount := continuousBuyAmount;
              maxContinuousStartIdx := currentContinuousStartIdx;
              maxContinuousEndIdx := Some(idx);
            }
          }
        } else {
          continuousBuyCount := 0;
          continuousBuyAmount := 0.0;
          currentContinuousStartIdx := None;
        }
        idx := idx + 1;
      }
      if maxContinuousAmount > threshold {
        var startTime := TimeAt(rows, maxContinuousStartIdx);
        var endTime := TimeAt(rows, maxContinuousEndIdx);
        if cmv == 0.0 {
          return Raised;
        }
        var percentage := maxContinuousAmount / cmv * 100.0;
        return Detected(DetectionInfo(maxContinuousCount, maxContinuousAmount, threshold, percentage,
                                      maxContinuousStartIdx, maxContinuousEndIdx, startTime, endTime));
      }
      return NotDetected;
    }

    /** `run`: one alert per stock whose detection reports, in monitoring order. */
    method Run(feed: TransactionFeed, describe: DetectionInfo -> string) returns (alerts: seq<AlertData>)
      ensures alerts == AlertsFor(monitorStocks, stocksCmvMap, feed, describe)
    {
      alerts := [];
      var i := 0;
      while i < |monitorStocks|
        invariant 0 <= i <= |monitorStocks|
        invariant alerts == AlertsFor(monitorStocks[..i], stocksCmvMap, feed, describe)
      {
        var stock := monitorStocks[i];
        AlertsForExtend(monitorStocks, i, stocksCmvMap, feed, describe);
        var transaction := feed(stock, ExchangeFor(stock));
        if transaction.Some? && transaction.value != [] {
          var info := DetectContinuousBuyOrders(transaction.value, stock);
          if info.Detected? {
            alerts := alerts + [AlertData(AlertName, stock, DescrPrefix + describe(info.info))];
          }
        }
        i := i + 1;
      }
      assert monitorStocks[..i] == monitorStocks;
    }
  }
}
