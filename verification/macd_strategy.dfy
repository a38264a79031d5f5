/**
  The MACD crossover strategy (`strategies/macd_strategy.py`): every bar
  cancels the open orders; once the bar buffer is initialised, the latest
  DIF/DEA values are pushed onto a ten-entry history, and a golden or death
  cross between the previous and the current bar turns into orders that
  depend on the current position.
 */
module MacdStrategy {

  /** The history keeps the last ten values. */
  const HistoryLimit: nat := 10

  /** The calls `on_bar` makes on the trading engine, in order. */
  datatype Action =
    | CancelAll
    | Buy(price: real, volume: nat)
    | Sell(price: real, volume: nat)
    | Short(price: real, volume: nat)
    | Cover(price: real, volume: nat)
    | PutEvent

  /** `append` then, past the limit, `pop(0)`: the newest value last, the oldest dropped first. */
  function Push(history: seq<real>, x: real): (r: seq<real>)
    ensures |history| <= HistoryLimit ==> |r| <= HistoryLimit
    ensures |r| >= 1 && r[|r| - 1] == x
  {
    var grown := history + [x];
    if |grown| > HistoryLimit then grown[1..] else grown
  }

  /** The history after pushing every value of `xs` in turn. */
  function PushAll(history: seq<real>, xs: seq<real>): seq<real>
    decreases |xs|
  {
    if xs == [] then history else PushAll(Push(history, xs[0]), xs[1..])
  }

  /** The last `n` values of `s` (all of them when there are fewer). */
  function LastN(s: seq<real>, n: nat): (r: seq<real>)
    ensures |r| == if |s| <= n then |s| else n
  {
    if |s| <= n then s else s[|s| - n..]
  }

  /** A single push keeps the last ten values of the extended history. */
  lemma PushIsLastTen(history: seq<real>, x: real)
    requires |history| <= HistoryLimit
    ensures Push(history, x) == LastN(history + [x], HistoryLimit)
  {
  }

  /** Trimming early loses nothing that a later trim would keep. */
  lemma LastNAppend(s: seq<real>, t: seq<real>, n: nat)
    ensures LastN(LastN(s, n) + t, n) == LastN(s + t, n)
  {
    if |s| > n {
      var s' := s[|s| - n..];
      var l, r := LastN(s' + t, n), LastN(s + t, n);
      assert |s' + t| >= n && |s + t| > n;
      forall i | 0 <= i < n ensures l[i] == r[i] {
        assert l[i] == (s' + t)[|t| + i];
        assert r[i] == (s + t)[|s| + |t| - n + i];
      }
    }
  }

  /**
    Starting from a history within the limit, after any number of bars the
    history is exactly the last ten values of everything pushed (all of
    them while there are fewer).
   */
  lemma {:induction false} PushAllKeepsLastTen(history: seq<real>, xs: seq<real>)
    requires |history| <= HistoryLimit
    ensures PushAll(history, xs) == LastN(history + xs, HistoryLimit)
    decreases |xs|
  {
    if xs == [] {
      assert history + xs == history;
    } else {
      var next := Push(history, xs[0]);
      calc {
        PushAll(history, xs);
        PushAll(next, xs[1..]);
        { PushAllKeepsLastTen(next, xs[1..]); }
        LastN(next + xs[1..], HistoryLimit);
        { PushIsLastTen(history, xs[0]); }
        LastN(LastN(history + [xs[0]], HistoryLimit) + xs[1..], HistoryLimit);
        { LastNAppend(history + [xs[0]], xs[1..], HistoryLimit); }
        LastN((history + [xs[0]]) + xs[1..], HistoryLimit);
        { assert (history + [xs[0]]) + xs[1..] == history + xs; }
        LastN(history + xs, HistoryLimit);
      }
    }
  }

  datatype Cross = Golden | Death | NoCross

  /**
    The cross between the previous and the latest bar: golden when DIF is
    now above DEA and was not before, death when it is now below and was
    not before.  Fewer than two entries give no cross.
   */
  function CrossOf(difHistory: seq<real>, deaHistory: seq<real>): (c: Cross)
    requires |difHistory| == |deaHistory|
    ensures |difHistory| < 2 ==> c == NoCross
    ensures c == Golden ==>
      difHistory[|difHistory| - 1] > deaHistory[|deaHistory| - 1] && difHistory[|difHistory| - 2] <= deaHistory[|deaHistory| - 2]
    ensures c == Death ==>
      difHistory[|difHistory| - 1] < deaHistory[|deaHistory| - 1] && difHistory[|difHistory| - 2] >= deaHistory[|deaHistory| - 2]
    ensures |difHistory| >= 2 && c == NoCross ==>
      var n := |difHistory|;
      !(difHistory[n - 1] > deaHistory[n - 1] && difHistory[n - 2] <= deaHistory[n - 2])
      && !(difHistory[n - 1] < deaHistory[n - 1] && difHistory[n - 2] >= deaHistory[n - 2])
  {
    var n := |difHistory|;
    if n < 2 then NoCross
    else if difHistory[n - 1] > deaHistory[n - 1] && difHistory[n - 2] <= deaHistory[n - 2] then Golden
    else if difHistory[n - 1] < deaHistory[n - 1] && difHistory[n - 2] >= deaHistory[n - 2] then Death
    else NoCross
  }

  /**
    The orders a cross gives at the current position: nothing without a
    cross or when already positioned in the cross's direction; otherwise an
    opposite position is closed first and the order opening the new
    direction comes last, all at the bar's close and the fixed size.
   */
  function Orders(cross: Cross, pos: int, price: real, size: nat): (r: seq<Action>)
    ensures r == [] <==> cross == NoCross || (cross == Golden && pos > 0) || (cross == Death && pos < 0)
    ensures |r| <= 2
    ensures |r| == 2 <==> (cross == Golden && pos < 0) || (cross == Death && pos > 0)
    ensures r != [] ==> r[|r| - 1] == (if cross == Golden then Buy(price, size) else Short(price, size))
    ensures |r| == 2 ==> r[0] == (if cross == Golden then Cover(price, size) else Sell(price, size))
  {
    match cross
    case Golden =>
      if pos == 0 then [Buy(price, size)]
      else if pos < 0 then [Cover(price, size), Buy(price, size)]
      else []
    case Death =>
      if pos == 0 then [Short(price, size)]
      else if pos > 0 then [Sell(price, size), Short(price, size)]
      else []
    case NoCross => []
  }

  /** The position once every order has been filled in full. */
  function Filled(pos: int, actions: seq<Action>): int {
    if actions == [] then pos
    else
      var a := actions[|actions| - 1];
      var before := Filled(pos, actions[..|actions| - 1]);
      match a
      case Buy(_, v) => before + v
      case Cover(_, v) => before + v
      case Sell(_, v) => before - v
      case Short(_, v) => before - v
      case _ => before
    }

  /**
    With full fills the strategy is always flat, long `size` or short
    `size`: a golden cross ends long, a death cross ends short, and no
    cross leaves the position alone.
   */
  lemma OrdersKeepPositionInRange(cross: Cross, pos: int, price: real, size: nat)
    requires pos == 0 || pos == size || pos == -(size as int)
    ensures var after := Filled(pos, Orders(cross, pos, price, size));
            && (after == 0 || after == size || after == -(size as int))
            && (cross == Golden ==> after == size)
            && (cross == Death ==> after == -(size as int))
            && (cross == NoCross ==> after == pos)
  {
    var orders := Orders(cross, pos, price, size);
    if |orders| == 2 {
      assert orders[..1][..0] == [];
      assert Filled(pos, orders[..1]) == Filled(pos, []) + (if orders[0].Cover? then size as int else -(size as int));
    } else if |orders| == 1 {
      assert orders[..0] == [];
    }
  }

  /**
    The class attributes `dif_history` and `dea_history`.  Being class
    attributes, one pair of lists is shared by every strategy instance.
   */
  class MacdHistory {
    var difHistory: seq<real>
    var deaHistory: seq<real>

    ghost predicate Valid()
      reads this
    {
      |difHistory| == |deaHistory| <= HistoryLimit
    }

    constructor ()
      ensures Valid() && difHistory == [] && deaHistory == []
    {
      difHistory, deaHistory := [], [];
    }

    /** Appends the latest values to both lists and drops the oldest past ten entries. */
    method Record(dif: real, dea: real)
      requires Valid()
      modifies this
      ensures Valid()
      ensures difHistory == Push(old(difHistory), dif)
      ensures deaHistory == Push(old(deaHistory), dea)
    {
      difHistory := difHistory + [dif];
      deaHistory := deaHistory + [dea];
      if |difHistory| > HistoryLimit {
        difHistory := difHistory[1..];
        deaHistory := deaHistory[1..];
      }
    }
  }

  class MacdStrategy {
    var dif: real
    var dea: real
    var macd: real
    /** The engine's net position; it changes when orders fill, not in `on_bar`. */
    var pos: int
    /** The `fixed_size` parameter. */
    var fixedSize: nat
    const history: MacdHistory

    constructor (shared: MacdHistory, size: nat)
      ensures history == shared && fixedSize == size
      ensures dif == 0.0 && dea == 0.0 && macd == 0.0 && pos == 0
    {
      dif, dea, macd, pos := 0.0, 0.0, 0.0, 0;
      fixedSize := size;
      history := shared;
    }

    /**
      `on_bar`.  `inited` is the bar buffer's `inited` flag after adding
      the bar, and `indicator` the latest (DIF, DEA, MACD) values the MACD
      indicator gives for the buffer.
     */
    method OnBar(closePrice: real, inited: bool, indicator: (real, real, real)) returns (actions: seq<Action>)
      requires history.Valid()
      modifies this, history
      ensures history.Valid()
      ensures pos == old(pos) && fixedSize == old(fixedSize)
      ensures !inited ==>
        && actions == [CancelAll]
        && dif == old(dif) && dea == old(dea) && macd == old(macd)
        && history.difHistory == old(history.difHistory) && history.deaHistory == old(history.deaHistory)
      ensures inited ==>
        && (dif, dea, macd) == indicator
        && history.difHistory == Push(old(history.difHistory), indicator.0)
        && history.deaHistory == Push(old(history.deaHistory), indicator.1)
        && actions == [CancelAll]
                      + Orders(CrossOf(history.difHistory, history.deaHistory), pos, closePrice, fixedSize)
                      + [PutEvent]
    {
      actions := [CancelAll];
      if !inited {
        return;
      }
      dif, dea, macd := indicator.0, indicator.1, indicator.2;
      history.Record(dif, dea);
      var difs, deas := history.difHistory, history.deaHistory;
      var n := |difs|;
      var orders: seq<Action> := [];
      if n >= 2 {
        if dif > dea && difs[n - 2] <= deas[n - 2] {
          if pos == 0 {
            orders := [Buy(closePrice, fixedSize)];
          } else if pos < 0 {
            orders := [Cover(closePrice, fixedSize), Buy(closePrice, fixedSize)];
          }
        } else if dif < dea && difs[n - 2] >= deas[n - 2] {
          if pos == 0 {
            orders := [Short(closePrice, fixedSize)];
          } else if pos > 0 {
            orders := [Sell(closePrice, fixedSize), Short(closePrice, fixedSize)];
          }
        }
      }
      assert orders == Orders(CrossOf(difs, deas), pos, closePrice, fixedSize);
      actions := actions + orders + [PutEvent];
    }
  }
}
