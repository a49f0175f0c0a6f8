/** The EMA-deviation strategy: one step, its runs, and what a symbol sees of them. Prices are exact
    reals; a zero average keeps the branches that IEEE infinities and NaN would take. */
module Strategy {
  import Arithmetic
  import opened Basics

  /** The eight symbol bytes, as one word. */
  newtype Symbol = x: int | 0 <= x < 0x1_0000_0000_0000_0000

  datatype Side = Buy | Sell

  datatype Tick = Tick(symbol: Symbol, bidPx: int, askPx: int)

  /** A tick with the clock reading taken while it was processed. */
  datatype TimedTick = TimedTick(tick: Tick, now: nat)

  /** An order without its id. */
  datatype Quote = Quote(submitNs: nat, symbol: Symbol, px: int, qty: nat, side: Side)

  datatype Order = Order(id: nat, quote: Quote)

  datatype Params = Params(alpha: real, thresholdBps: real, cooldownNs: nat, qty: nat)

  datatype SymbolState = SymbolState(emaPx: real, lastOrderNs: nat, initialised: bool)

  datatype Book = Book(symbols: map<Symbol, SymbolState>, nextId: nat)

  datatype Deviation = Finite(bps: real) | PlusInfinity | MinusInfinity | NotANumber

  const BLANK := SymbolState(0.0, 0, false)

  function Mid(tick: Tick): real {
    (tick.bidPx as real + tick.askPx as real) * 0.5 / 1000000.0
  }

  /** The moving average after one more price. */
  function Blend(alpha: real, mid: real, ema: real): real {
    alpha * mid + (1.0 - alpha) * ema
  }

  function DeviationBps(mid: real, ema: real): Deviation {
    if ema != 0.0 then Finite((mid - ema) / ema * 10000.0)
    else if mid > 0.0 then PlusInfinity
    else if mid < 0.0 then MinusInfinity
    else NotANumber
  }

  predicate Quiet(dev: Deviation, threshold: real) {
    dev.Finite? && -threshold < dev.bps < threshold
  }

  function SideFor(dev: Deviation): Side {
    if dev.PlusInfinity? || (dev.Finite? && dev.bps > 0.0) then Sell else Buy
  }

  /** One symbol's share of a strategy step. */
  function SymbolStep(p: Params, st: SymbolState, t: TimedTick): (SymbolState, Option<Quote>) {
    var mid := Mid(t.tick);
    if !st.initialised then (st.(emaPx := mid, initialised := true), None)
    else
      var next := st.(emaPx := Blend(p.alpha, mid, st.emaPx));
      var dev := DeviationBps(mid, next.emaPx);
      if Quiet(dev, p.thresholdBps) || WrappingSub(t.now, next.lastOrderNs) < p.cooldownNs then (next, None)
      else
        var side := SideFor(dev);
        var px := if side == Buy then t.tick.askPx else t.tick.bidPx;
        (next.(lastOrderNs := t.now), Some(Quote(t.now, t.tick.symbol, px, p.qty, side)))
  }

  function StateOf(book: Book, symbol: Symbol): SymbolState {
    if symbol in book.symbols then book.symbols[symbol] else BLANK
  }

  function BookStep(p: Params, book: Book, t: TimedTick): (Book, Option<Order>) {
    var (st, quote) := SymbolStep(p, StateOf(book, t.tick.symbol), t);
    var symbols := book.symbols[t.tick.symbol := st];
    match quote
    case None => (Book(symbols, book.nextId), None)
    case Some(q) => (Book(symbols, book.nextId + 1), Some(Order(book.nextId + 1, q)))
  }

  /** The strategy's state as the engine threads hold it, updated in place. */
  class Engine {
    var symbols: map<Symbol, SymbolState>
    var nextOrderId: nat

    constructor (firstId: nat)
      ensures View() == Book(map[], firstId)
    {
      symbols, nextOrderId := map[], firstId;
    }

    ghost function View(): Book
      reads this
    {
      Book(symbols, nextOrderId)
    }

    method Step(p: Params, tick: Tick, now: nat) returns (order: Option<Order>)
      modifies this
      ensures (View(), order) == BookStep(p, old(View()), TimedTick(tick, now))
    {
      var mid := Mid(tick);
      if tick.symbol !in symbols {
        symbols := symbols[tick.symbol := BLANK];
      }
      var entry := symbols[tick.symbol];
      if !entry.initialised {
        symbols := symbols[tick.symbol := entry.(emaPx := mid, initialised := true)];
        assert symbols == old(symbols)[tick.symbol := symbols[tick.symbol]];
        return None;
      }
      entry := entry.(emaPx := Blend(p.alpha, mid, entry.emaPx));
      symbols := symbols[tick.symbol := entry];
      assert symbols == old(symbols)[tick.symbol := entry];
      var dev := DeviationBps(mid, entry.emaPx);
      if Quiet(dev, p.thresholdBps) {
        return None;
      }
      if WrappingSub(now, entry.lastOrderNs) < p.cooldownNs {
        return None;
      }
      var side := SideFor(dev);
      var px := if side == Buy then tick.askPx else tick.bidPx;
      nextOrderId := nextOrderId + 1;
      symbols := symbols[tick.symbol := entry.(lastOrderNs := now)];
      assert symbols == old(symbols)[tick.symbol := symbols[tick.symbol]];
      order := Some(Order(nextOrderId, Quote(now, tick.symbol, px, p.qty, side)));
    }
  }

  // ----- runs -----

  function Flatten<T>(o: Option<T>): seq<T> {
    if o.Some? then [o.value] else []
  }

  function BookRun(p: Params, book: Book, ticks: seq<TimedTick>): (Book, seq<Order>) {
    if ticks == [] then (book, [])
    else
      var (mid, orders) := BookRun(p, book, ticks[..|ticks| - 1]);
      var (last, order) := BookStep(p, mid, ticks[|ticks| - 1]);
      (last, orders + Flatten(order))
  }

  function SymbolRun(p: Params, st: SymbolState, ticks: seq<TimedTick>): (SymbolState, seq<Quote>) {
    if ticks == [] then (st, [])
    else
      var (mid, quotes) := SymbolRun(p, st, ticks[..|ticks| - 1]);
      var (last, quote) := SymbolStep(p, mid, ticks[|ticks| - 1]);
      (last, quotes + Flatten(quote))
  }

  /** The ticks of one symbol. */
  function Only(symbol: Symbol, ticks: seq<TimedTick>): (r: seq<TimedTick>)
    ensures forall i :: 0 <= i < |r| ==> r[i].tick.symbol == symbol
  {
    if ticks == [] then []
    else
      var t := ticks[|ticks| - 1];
      Only(symbol, ticks[..|ticks| - 1]) + (if t.tick.symbol == symbol then [t] else [])
  }

  function QuotesFor(symbol: Symbol, orders: seq<Order>): (r: seq<Quote>)
    ensures forall i :: 0 <= i < |r| ==> r[i].symbol == symbol
  {
    if orders == [] then []
    else
      var q := orders[|orders| - 1].quote;
      QuotesFor(symbol, orders[..|orders| - 1]) + (if q.symbol == symbol then [q] else [])
  }

  lemma QuotesForAppend(symbol: Symbol, orders: seq<Order>, order: Option<Order>)
    ensures QuotesFor(symbol, orders + Flatten(order)) ==
            QuotesFor(symbol, orders) +
            (if order.Some? && order.value.quote.symbol == symbol then [order.value.quote] else [])
  {
    match order
    case None => assert orders + Flatten(order) == orders;
    case Some(o) => assert (orders + [o])[..|orders|] == orders;
  }

  lemma BookStepIsLocal(p: Params, book: Book, t: TimedTick, symbol: Symbol)
    ensures
      var (book', order) := BookStep(p, book, t);
      var (st, quote) := SymbolStep(p, StateOf(book, t.tick.symbol), t);
      && StateOf(book', symbol) == (if t.tick.symbol == symbol then st else StateOf(book, symbol))
      && order.Some? == quote.Some?
      && (order.Some? ==> order.value.quote == quote.value && quote.value.symbol == t.tick.symbol)
  {
  }

  lemma OnlyAppend(symbol: Symbol, ticks: seq<TimedTick>, t: TimedTick)
    ensures Only(symbol, ticks + [t]) == Only(symbol, ticks) + (if t.tick.symbol == symbol then [t] else [])
  {
    assert (ticks + [t])[..|ticks|] == ticks;
  }

  lemma SymbolRunAppend(p: Params, st: SymbolState, ticks: seq<TimedTick>, t: TimedTick)
    ensures
      var (mid, quotes) := SymbolRun(p, st, ticks);
      var (last, quote) := SymbolStep(p, mid, t);
      SymbolRun(p, st, ticks + [t]) == (last, quotes + Flatten(quote))
  {
    assert (ticks + [t])[..|ticks|] == ticks;
  }

  lemma BookRunAppend(p: Params, book: Book, ticks: seq<TimedTick>, t: TimedTick)
    ensures
      var (mid, orders) := BookRun(p, book, ticks);
      var (last, order) := BookStep(p, mid, t);
      BookRun(p, book, ticks + [t]) == (last, orders + Flatten(order))
  {
    assert (ticks + [t])[..|ticks|] == ticks;
  }

  ghost predicate SeesOnlyItsOwn(p: Params, firstId: nat, ticks: seq<TimedTick>, symbol: Symbol) {
    var (book, orders) := BookRun(p, Book(map[], firstId), ticks);
    var (st, quotes) := SymbolRun(p, BLANK, Only(symbol, ticks));
    StateOf(book, symbol) == st && QuotesFor(symbol, orders) == quotes
  }

  lemma SeesOnlyItsOwnStep(p: Params, firstId: nat, ticks: seq<TimedTick>, t: TimedTick, symbol: Symbol)
    requires SeesOnlyItsOwn(p, firstId, ticks, symbol)
    ensures SeesOnlyItsOwn(p, firstId, ticks + [t], symbol)
  {
    var book0 := Book(map[], firstId);
    var (book, orders) := BookRun(p, book0, ticks);
    var (book', order) := BookStep(p, book, t);
    var own, own' := Only(symbol, ticks), Only(symbol, ticks + [t]);
    assert BookRun(p, book0, ticks + [t]) == (book', orders + Flatten(order)) by {
      BookRunAppend(p, book0, ticks, t);
    }
    BookStepIsLocal(p, book, t, symbol);
    QuotesForAppend(symbol, orders, order);
    OnlyAppend(symbol, ticks, t);
    if t.tick.symbol == symbol {
      assert own' == own + [t];
      SymbolRunAppend(p, BLANK, own, t);
    } else {
      assert own' == own;
    }
  }

  /** Symbols do not disturb each other: a run's state and orders for one symbol are those of the
      symbol's own ticks alone, whatever else was interleaved and whatever ids were handed out. */
  lemma {:induction false} SymbolsAreIndependent(p: Params, firstId: nat, ticks: seq<TimedTick>, symbol: Symbol)
    ensures SeesOnlyItsOwn(p, firstId, ticks, symbol)
  {
    if ticks != [] {
      var init, t := ticks[..|ticks| - 1], ticks[|ticks| - 1];
      SymbolsAreIndependent(p, firstId, init, symbol);
      SeesOnlyItsOwnStep(p, firstId, init, t, symbol);
      assert init + [t] == ticks;
    }
  }

  /** Ids count up by one from the first. */
  lemma {:induction false} IdsCountUp(p: Params, firstId: nat, ticks: seq<TimedTick>)
    ensures
      var (book, orders) := BookRun(p, Book(map[], firstId), ticks);
      && book.nextId == firstId + |orders|
      && (forall i :: 0 <= i < |orders| ==> orders[i].id == firstId + 1 + i)
      && |orders| <= |ticks|
  {
    if ticks != [] {
      IdsCountUp(p, firstId, ticks[..|ticks| - 1]);
    }
  }

  // ----- the cooldown -----

  ghost predicate ClockOrdered(ticks: seq<TimedTick>) {
    && (forall i, j :: 0 <= i <= j < |ticks| ==> ticks[i].now <= ticks[j].now)
    && (forall i :: 0 <= i < |ticks| ==> ticks[i].now < U64)
  }

  ghost predicate Spaced(quotes: seq<Quote>, cooldown: nat) {
    forall i, j :: 0 <= i <= j < |quotes| ==> quotes[i].submitNs + (j - i) * cooldown <= quotes[j].submitNs
  }

  lemma SpacedAppend(quotes: seq<Quote>, q: Quote, cooldown: nat)
    requires Spaced(quotes, cooldown)
    requires quotes != [] ==> quotes[|quotes| - 1].submitNs + cooldown <= q.submitNs
    ensures Spaced(quotes + [q], cooldown)
  {
    var n := |quotes|;
    var all := quotes + [q];
    forall i, j | 0 <= i <= j < |all|
      ensures all[i].submitNs + (j - i) * cooldown <= all[j].submitNs
    {
      if i < n && j == n {
        assert quotes[i].submitNs + (n - 1 - i) * cooldown <= quotes[n - 1].submitNs;
        assert (n - i) * cooldown == (n - 1 - i) * cooldown + cooldown;
      }
    }
  }

  lemma {:induction false} SymbolRunSpaced(p: Params, ticks: seq<TimedTick>)
    requires ClockOrdered(ticks)
    ensures
      var (st, quotes) := SymbolRun(p, BLANK, ticks);
      && Spaced(quotes, p.cooldownNs)
      && (if quotes == [] then st.lastOrderNs == 0 else st.lastOrderNs == quotes[|quotes| - 1].submitNs)
      && (if ticks == [] then st.lastOrderNs == 0 else st.lastOrderNs <= ticks[|ticks| - 1].now)
  {
    if ticks != [] {
      var init, t := ticks[..|ticks| - 1], ticks[|ticks| - 1];
      SymbolRunSpaced(p, init);
      var (st, quotes) := SymbolRun(p, BLANK, init);
      var (st', quote) := SymbolStep(p, st, t);
      assert st.lastOrderNs <= t.now;
      if quote.Some? && quotes != [] {
        assert WrappingSub(t.now, st.lastOrderNs) == t.now - st.lastOrderNs;
      }
      if quote.Some? {
        SpacedAppend(quotes, quote.value, p.cooldownNs);
      }
    }
  }

  /** In any closed window of `length` nanoseconds a symbol has at most 1 + length / cooldown orders. */
  lemma WindowBound(quotes: seq<Quote>, cooldown: nat, first: nat, count: nat, start: nat, length: nat)
    requires Spaced(quotes, cooldown) && cooldown > 0
    requires first + count <= |quotes|
    requires forall i :: first <= i < first + count ==> start <= quotes[i].submitNs <= start + length
    ensures count <= 1 + length / cooldown
  {
    if count > 1 {
      var last := first + count - 1;
      assert quotes[first].submitNs + (last - first) * cooldown <= quotes[last].submitNs;
      Arithmetic.QuotientReaches(length, cooldown, count - 1);
    }
  }
}
