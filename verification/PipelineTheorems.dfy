/** Conservation, equivalence with the inline engine, order ids and the cooldown, over every run. */
module PipelineTheorems {
  import opened Basics
  import opened BoundedQueue
  import opened Strategy
  import opened Pipeline
  import opened PipelineSafety

  // ----- the rings as bounded queues -----

  ghost function TickEvent(cfg: Config, s: System, step: Step): Event<Tick>
    requires Enabled(cfg, s, step)
  {
    match step
    case FeedTick(t, refused) => if refused then RefusedFull else Enqueued(t)
    case PollTick => Dequeued(Apply(cfg, s, step).dispatcher.tick)
    case PollEmpty => RefusedEmpty
    case _ => Silent
  }

  ghost function OrderEvent(cfg: Config, s: System, step: Step): Event<Order>
    requires Enabled(cfg, s, step)
  {
    match step
    case DrainOne(refused) => if refused then RefusedFull else Enqueued(s.orderChannel[0])
    case FeedSeesOrder => Dequeued(Last(Apply(cfg, s, step).seen))
    case _ => Silent
  }

  ghost function TickTrace(cfg: Config, s0: System, steps: seq<Step>, s: System): seq<Event<Tick>>
    requires Run(cfg, s0, steps, s)
    decreases |steps|
  {
    if steps == [] then []
    else [TickEvent(cfg, s0, steps[0])] + TickTrace(cfg, Apply(cfg, s0, steps[0]), steps[1..], s)
  }

  ghost function OrderTrace(cfg: Config, s0: System, steps: seq<Step>, s: System): seq<Event<Order>>
    requires Run(cfg, s0, steps, s)
    decreases |steps|
  {
    if steps == [] then []
    else [OrderEvent(cfg, s0, steps[0])] + OrderTrace(cfg, Apply(cfg, s0, steps[0]), steps[1..], s)
  }

  lemma RingStepIsAccepted(cfg: Config, s: System, step: Step)
    requires Phases(cfg, s) && Enabled(cfg, s, step)
    ensures AcceptsStale(cfg.ringCap, s.ticksRing, TickEvent(cfg, s, step), Apply(cfg, s, step).ticksRing)
    ensures AcceptsStale(cfg.ringCap, s.ordersRing, OrderEvent(cfg, s, step), Apply(cfg, s, step).ordersRing)
  {
    if step.FeedSeesOrder? {
      assert Last(Apply(cfg, s, step).seen) == s.ordersRing[0];
    }
  }

  lemma {:induction false} RunIsAccepted(cfg: Config, s0: System, steps: seq<Step>, s: System)
    requires Inv(cfg, s0) && Run(cfg, s0, steps, s)
    ensures AcceptsAll(false, cfg.ringCap, s0.ticksRing, TickTrace(cfg, s0, steps, s), s.ticksRing)
    ensures AcceptsAll(false, cfg.ringCap, s0.ordersRing, OrderTrace(cfg, s0, steps, s), s.ordersRing)
    decreases |steps|
  {
    if steps != [] {
      var s1, rest := Apply(cfg, s0, steps[0]), steps[1..];
      StepKeeps(cfg, s0, steps[0]);
      RunIsAccepted(cfg, s1, rest, s);
      RingStepIsAccepted(cfg, s0, steps[0]);
      AcceptOne(false, cfg.ringCap, s0.ticksRing, TickEvent(cfg, s0, steps[0]), s1.ticksRing,
                TickTrace(cfg, s1, rest, s), s.ticksRing);
      AcceptOne(false, cfg.ringCap, s0.ordersRing, OrderEvent(cfg, s0, steps[0]), s1.ordersRing,
                OrderTrace(cfg, s1, rest, s), s.ordersRing);
    }
  }

  lemma SeenStep(cfg: Config, s: System, step: Step)
    requires Enabled(cfg, s, step)
    ensures Apply(cfg, s, step).seen == s.seen + Leaving(OrderEvent(cfg, s, step))
  {
  }

  lemma OutputsPrepend<T>(e: Event<T>, rest: seq<Event<T>>)
    ensures Outputs([e] + rest) == Leaving(e) + Outputs(rest)
  {
    assert ([e] + rest)[1..] == rest;
  }

  lemma {:induction false} SeenIsTaken(cfg: Config, s0: System, steps: seq<Step>, s: System)
    requires Run(cfg, s0, steps, s)
    ensures s.seen == s0.seen + Outputs(OrderTrace(cfg, s0, steps, s))
    decreases |steps|
  {
    if steps != [] {
      var s1, rest := Apply(cfg, s0, steps[0]), steps[1..];
      SeenIsTaken(cfg, s1, rest, s);
      SeenStep(cfg, s0, steps[0]);
      OutputsPrepend(OrderEvent(cfg, s0, steps[0]), OrderTrace(cfg, s1, rest, s));
    }
  }

  /** What the engine and the feedhandler do to the two rings in any run is what a ring was shown to
      offer whatever its loads return: ticks are polled and orders seen in the order they were published,
      none lost. */
  lemma RingsAreQueues(cfg: Config, steps: seq<Step>, s: System)
    requires Sound(cfg) && Run(cfg, Init(cfg), steps, s)
    ensures
      var ticks, orders := TickTrace(cfg, Init(cfg), steps, s), OrderTrace(cfg, Init(cfg), steps, s);
      && AcceptsAll(false, cfg.ringCap, [], ticks, s.ticksRing) && Inputs(ticks) == Outputs(ticks) + s.ticksRing
      && AcceptsAll(false, cfg.ringCap, [], orders, s.ordersRing) && Inputs(orders) == s.seen + s.ordersRing
  {
    var s0 := Init(cfg);
    InitHolds(cfg);
    RunIsAccepted(cfg, s0, steps, s);
    SeenIsTaken(cfg, s0, steps, s);
    var ticks, orders := TickTrace(cfg, s0, steps, s), OrderTrace(cfg, s0, steps, s);
    FirstInFirstOut(false, cfg.ringCap, [], ticks, s.ticksRing);
    FirstInFirstOut(false, cfg.ringCap, [], orders, s.ordersRing);
    assert [] + Inputs(ticks) == Inputs(ticks) && [] + Inputs(orders) == Inputs(orders);
    assert [] + Outputs(orders) == Outputs(orders);
  }

  // ----- conservation -----

  /** No tick and no order is lost or counted twice, from the datagrams that were published to the
      orders the feedhandler has seen. */
  lemma Conservation(cfg: Config, s: System)
    requires Sound(cfg) && Reachable(cfg, s)
    ensures s.published == |s.ticksRing| + (if s.dispatcher.Routing? then 1 else 0)
                           + Total(Queued, s.workers) + Total(Processed, s.workers)
                           + s.ticksDropped + s.ticksRefused
    ensures s.ticksRefused <= 1
    ensures Total(Generated, s.workers) ==
            Total(InHand, s.workers) + |s.orderChannel| + s.ordersDropped + |s.ordersRing| + |s.seen|
  {
    ReachableIsSound(cfg, s);
  }

  ghost predicate Drained(s: System) {
    forall w :: 0 <= w < |s.workers| ==> s.workers[w].queue == []
  }

  /** When the run is over every order generated was sent or counted as dropped; and when nobody
      raised the stop flag every tick that was not dropped was processed. */
  lemma EndOfRun(cfg: Config, s: System)
    requires Sound(cfg) && Reachable(cfg, s) && s.dispatcher.Done?
    ensures Total(Generated, s.workers) == s.ordersSent + s.ordersDropped
    ensures !s.stop ==> Total(Processed, s.workers) == s.ticksSeen - s.ticksDropped
    ensures !s.stop ==> Drained(s)
  {
    ReachableIsSound(cfg, s);
    forall w | 0 <= w < cfg.n
      ensures s.workers[w].pc.Exited?
    {
      assert Joined(s, w);
    }
    TotalZero(InHand, s.workers);
    if !s.stop {
      TotalZero(Queued, s.workers);
    }
  }

  // ----- the inline engine -----

  /** The orders of a run split by whether the orders ring had room for them when they were made. */
  ghost function Placed(p: Params, ticks: seq<TimedTick>, room: seq<bool>, taken: bool): seq<Order>
    requires |room| == |ticks|
  {
    if ticks == [] then []
    else
      var n := |ticks| - 1;
      var order := BookStep(p, BookRun(p, Book(map[], 1), ticks[..n]).0, ticks[n]).1;
      Placed(p, ticks[..n], room[..n], taken) + (if room[n] == taken then Flatten(order) else [])
  }

  lemma PlacedAppend(p: Params, ticks: seq<TimedTick>, room: seq<bool>, n: nat, taken: bool)
    requires |room| == |ticks| && n < |ticks|
    ensures
      var order := BookStep(p, BookRun(p, Book(map[], 1), ticks[..n]).0, ticks[n]).1;
      Placed(p, ticks[..n + 1], room[..n + 1], taken) ==
      Placed(p, ticks[..n], room[..n], taken) + (if room[n] == taken then Flatten(order) else [])
  {
    assert ticks[..n + 1][..n] == ticks[..n] && room[..n + 1][..n] == room[..n];
  }

  /** Every order of the run was either taken by the ring or dropped, and not both. */
  lemma {:induction false} PlacedSplits(p: Params, ticks: seq<TimedTick>, room: seq<bool>)
    requires |room| == |ticks|
    ensures multiset(Placed(p, ticks, room, true)) + multiset(Placed(p, ticks, room, false)) ==
            multiset(BookRun(p, Book(map[], 1), ticks).1)
  {
    if ticks != [] {
      var n := |ticks| - 1;
      PlacedSplits(p, ticks[..n], room[..n]);
    }
  }

  lemma PlacedCounts(p: Params, ticks: seq<TimedTick>, room: seq<bool>)
    requires |room| == |ticks|
    ensures |Placed(p, ticks, room, true)| + |Placed(p, ticks, room, false)| == |BookRun(p, Book(map[], 1), ticks).1|
    ensures (forall i :: 0 <= i < |room| ==> room[i]) ==> Placed(p, ticks, room, false) == []
  {
    PlacedSplits(p, ticks, room);
    var all := BookRun(p, Book(map[], 1), ticks).1;
    assert |multiset(all)| == |all|;
    if forall i :: 0 <= i < |room| ==> room[i] {
      NoneDropped(p, ticks, room);
    }
  }

  lemma {:induction false} NoneDropped(p: Params, ticks: seq<TimedTick>, room: seq<bool>)
    requires |room| == |ticks| && forall i :: 0 <= i < |room| ==> room[i]
    ensures Placed(p, ticks, room, false) == []
  {
    if ticks != [] {
      NoneDropped(p, ticks[..|ticks| - 1], room[..|ticks| - 1]);
    }
  }

  /** The single-threaded engine over the ticks it polls; `room[i]` says whether the orders ring would
      take an order at that moment. `published` is what it puts there. */
  method RunInline(p: Params, polled: seq<TimedTick>, room: seq<bool>)
    returns (engine: Engine, published: seq<Order>, ticksSeen: nat, ordersSent: nat, ordersDropped: nat)
    requires |room| == |polled|
    ensures engine.View() == BookRun(p, Book(map[], 1), polled).0
    ensures published == Placed(p, polled, room, true)
    ensures ticksSeen == |polled|
    ensures ordersSent == |published|
    ensures ordersDropped == |Placed(p, polled, room, false)|
    ensures ordersSent + ordersDropped == |BookRun(p, Book(map[], 1), polled).1|
    ensures (forall i :: 0 <= i < |room| ==> room[i]) ==> ordersDropped == 0
  {
    engine := new Engine(1);
    published, ticksSeen, ordersSent, ordersDropped := [], 0, 0, 0;
    while ticksSeen < |polled|
      invariant ticksSeen <= |polled|
      invariant fresh(engine)
      invariant engine.View() == BookRun(p, Book(map[], 1), polled[..ticksSeen]).0
      invariant published == Placed(p, polled[..ticksSeen], room[..ticksSeen], true)
      invariant ordersSent == |published|
      invariant ordersDropped == |Placed(p, polled[..ticksSeen], room[..ticksSeen], false)|
    {
      var t := polled[ticksSeen];
      BookRunAppend(p, Book(map[], 1), polled[..ticksSeen], t);
      assert polled[..ticksSeen + 1] == polled[..ticksSeen] + [t];
      PlacedAppend(p, polled, room, ticksSeen, true);
      PlacedAppend(p, polled, room, ticksSeen, false);
      var order := engine.Step(p, t.tick, t.now);
      if order.Some? {
        if room[ticksSeen] {
          ordersSent := ordersSent + 1;
          published := published + [order.value];
        } else {
          ordersDropped := ordersDropped + 1;
        }
      }
      ticksSeen := ticksSeen + 1;
    }
    assert polled[..ticksSeen] == polled && room[..ticksSeen] == room;
    PlacedCounts(p, polled, room);
  }

  // ----- equivalence with the inline engine -----

  ghost predicate Shares(cfg: Config, accepted: seq<Tick>, logs: seq<seq<TimedTick>>) {
    && |logs| == cfg.n
    && forall w :: 0 <= w < cfg.n ==> Untimed(logs[w]) == Share(cfg, accepted, w)
  }

  lemma LastOfShare(cfg: Config, accepted: seq<Tick>, logs: seq<seq<TimedTick>>)
    requires Sound(cfg) && Shares(cfg, accepted, logs) && accepted != []
    ensures
      var init, t := accepted[..|accepted| - 1], accepted[|accepted| - 1];
      var w := cfg.route(t.symbol);
      && logs[w] != []
      && logs[w][|logs[w]| - 1].tick == t
      && Shares(cfg, init, logs[w := logs[w][..|logs[w]| - 1]])
  {
    var init, t := accepted[..|accepted| - 1], accepted[|accepted| - 1];
    var w := cfg.route(t.symbol);
    var log := logs[w];
    assert Untimed(log) == Share(cfg, init, w) + [t];
    assert Untimed(log)[|log| - 1] == t;
    assert Untimed(log[..|log| - 1]) == Untimed(log)[..|log| - 1];
    assert Untimed(log)[..|log| - 1] == Share(cfg, init, w);
    forall v | 0 <= v < cfg.n && v != w
      ensures Untimed(logs[v]) == Share(cfg, init, v)
    {
      assert Share(cfg, accepted, v) == Share(cfg, init, v);
    }
  }

  /** The accepted ticks in acceptance order, each with the clock reading its worker took. */
  ghost function Merge(cfg: Config, accepted: seq<Tick>, logs: seq<seq<TimedTick>>): seq<TimedTick>
    requires Sound(cfg) && Shares(cfg, accepted, logs)
    decreases |accepted|
  {
    if accepted == [] then []
    else
      var w := cfg.route(accepted[|accepted| - 1].symbol);
      LastOfShare(cfg, accepted, logs);
      Merge(cfg, accepted[..|accepted| - 1], logs[w := logs[w][..|logs[w]| - 1]]) + [logs[w][|logs[w]| - 1]]
  }

  lemma MergeUnfold(cfg: Config, accepted: seq<Tick>, logs: seq<seq<TimedTick>>)
      returns (w: nat, last: TimedTick, logs': seq<seq<TimedTick>>)
    requires Sound(cfg) && Shares(cfg, accepted, logs) && accepted != []
    ensures w == cfg.route(accepted[|accepted| - 1].symbol) && last.tick == accepted[|accepted| - 1]
    ensures Shares(cfg, accepted[..|accepted| - 1], logs')
    ensures logs[w] == logs'[w] + [last]
    ensures forall v :: 0 <= v < cfg.n && v != w ==> logs'[v] == logs[v]
    ensures Merge(cfg, accepted, logs) == Merge(cfg, accepted[..|accepted| - 1], logs') + [last]
  {
    LastOfShare(cfg, accepted, logs);
    w := cfg.route(accepted[|accepted| - 1].symbol);
    last := logs[w][|logs[w]| - 1];
    logs' := logs[w := logs[w][..|logs[w]| - 1]];
  }

  lemma {:induction false} MergeIsAccepted(cfg: Config, accepted: seq<Tick>, logs: seq<seq<TimedTick>>)
    requires Sound(cfg) && Shares(cfg, accepted, logs)
    ensures Untimed(Merge(cfg, accepted, logs)) == accepted
    decreases |accepted|
  {
    if accepted != [] {
      var w, last, logs' := MergeUnfold(cfg, accepted, logs);
      var init := accepted[..|accepted| - 1];
      MergeIsAccepted(cfg, init, logs');
      UntimedAppend(Merge(cfg, init, logs'), last);
      assert accepted == init + [last.tick];
    }
  }

  lemma {:induction false} MergeKeepsSymbol(cfg: Config, accepted: seq<Tick>, logs: seq<seq<TimedTick>>, symbol: Symbol)
    requires Sound(cfg) && Shares(cfg, accepted, logs)
    ensures Only(symbol, Merge(cfg, accepted, logs)) == Only(symbol, logs[cfg.route(symbol)])
    decreases |accepted|
  {
    if accepted == [] {
      assert Untimed(logs[cfg.route(symbol)]) == [];
    } else {
      var w, last, logs' := MergeUnfold(cfg, accepted, logs);
      var init := accepted[..|accepted| - 1];
      MergeKeepsSymbol(cfg, init, logs', symbol);
      OnlyAppend(symbol, Merge(cfg, init, logs'), last);
      OnlyAppend(symbol, logs'[w], last);
    }
  }

  function Logs(s: System): (r: seq<seq<TimedTick>>)
    ensures |r| == |s.workers|
    ensures forall w :: 0 <= w < |r| ==> r[w] == s.workers[w].processed
  {
    seq(|s.workers|, w requires 0 <= w < |s.workers| => s.workers[w].processed)
  }

  /** At any moment a symbol's state and orders are exactly those of the ticks of that symbol its worker
      has taken, which are the first of the accepted ones and in their order. */
  lemma ShardSeesPrefix(cfg: Config, s: System, symbol: Symbol)
    requires Sound(cfg) && Reachable(cfg, s)
    ensures |s.workers| == cfg.n
    ensures
      var x := s.workers[cfg.route(symbol)];
      && Untimed(x.processed) <= Share(cfg, s.accepted, cfg.route(symbol))
      && StateOf(x.book, symbol) == SymbolRun(cfg.params, BLANK, Only(symbol, x.processed)).0
      && QuotesFor(symbol, x.generated) == SymbolRun(cfg.params, BLANK, Only(symbol, x.processed)).1
  {
    ReachableIsSound(cfg, s);
    var w := cfg.route(symbol);
    assert WorkerInv(cfg, s.accepted, s.workers[w], w);
    SymbolsAreIndependent(cfg.params, FirstId(w), s.workers[w].processed, symbol);
  }

  /** Sharding changes nothing: whenever the queues are empty, running the inline engine once over the
      accepted ticks, in acceptance order and with the same clock readings, gives every symbol the same
      state and the same orders, whatever the number of workers and however they were interleaved. */
  lemma ShardedMatchesInline(cfg: Config, s: System, symbol: Symbol)
    requires Sound(cfg) && Reachable(cfg, s) && Drained(s)
    ensures Shares(cfg, s.accepted, Logs(s))
    ensures
      var ticks := Merge(cfg, s.accepted, Logs(s));
      var (book, orders) := BookRun(cfg.params, Book(map[], 1), ticks);
      var x := s.workers[cfg.route(symbol)];
      && Untimed(ticks) == s.accepted
      && StateOf(x.book, symbol) == StateOf(book, symbol)
      && QuotesFor(symbol, x.generated) == QuotesFor(symbol, orders)
  {
    ReachableIsSound(cfg, s);
    forall w | 0 <= w < cfg.n
      ensures Untimed(Logs(s)[w]) == Share(cfg, s.accepted, w)
    {
      assert WorkerInv(cfg, s.accepted, s.workers[w], w);
      assert Untimed(s.workers[w].processed) + [] == Untimed(s.workers[w].processed);
    }
    MergeIsAccepted(cfg, s.accepted, Logs(s));
    MergeKeepsSymbol(cfg, s.accepted, Logs(s), symbol);
    SymbolsAreIndependent(cfg.params, 1, Merge(cfg, s.accepted, Logs(s)), symbol);
    ShardSeesPrefix(cfg, s, symbol);
  }

  lemma {:induction false} QuotesForStrangers(symbol: Symbol, orders: seq<Order>)
    requires forall i :: 0 <= i < |orders| ==> orders[i].quote.symbol != symbol
    ensures QuotesFor(symbol, orders) == []
  {
    if orders != [] {
      QuotesForStrangers(symbol, orders[..|orders| - 1]);
    }
  }

  /** And no other worker ever sends an order for the symbol. */
  lemma OneWorkerPerSymbol(cfg: Config, s: System, symbol: Symbol, w: nat)
    requires Sound(cfg) && Reachable(cfg, s)
    requires w < cfg.n && w != cfg.route(symbol)
    ensures |s.workers| == cfg.n
    ensures QuotesFor(symbol, s.workers[w].generated) == []
  {
    ReachableIsSound(cfg, s);
    assert WorkerInv(cfg, s.accepted, s.workers[w], w);
    QuotesForStrangers(symbol, s.workers[w].generated);
  }

  // ----- the cooldown -----

  /** Across the whole engine a symbol's orders keep the cooldown apart, so a closed window of `length`
      nanoseconds holds at most 1 + length / cooldown of them. */
  lemma EngineCooldown(cfg: Config, s: System, symbol: Symbol, first: nat, count: nat, start: nat, length: nat)
    requires Sound(cfg) && Reachable(cfg, s) && cfg.params.cooldownNs > 0
    requires |s.workers| == cfg.n
    requires ClockOrdered(Only(symbol, s.workers[cfg.route(symbol)].processed))
    ensures
      var quotes := QuotesFor(symbol, s.workers[cfg.route(symbol)].generated);
      && Spaced(quotes, cfg.params.cooldownNs)
      && (first + count <= |quotes|
          && (forall i :: first <= i < first + count ==> start <= quotes[i].submitNs <= start + length)
          ==> count <= 1 + length / cfg.params.cooldownNs)
  {
    var x := s.workers[cfg.route(symbol)];
    ShardSeesPrefix(cfg, s, symbol);
    SymbolRunSpaced(cfg.params, Only(symbol, x.processed));
    var quotes := QuotesFor(symbol, x.generated);
    if first + count <= |quotes|
       && forall i :: first <= i < first + count ==> start <= quotes[i].submitNs <= start + length {
      WindowBound(quotes, cfg.params.cooldownNs, first, count, start, length);
    }
  }

  // ----- order ids -----

  /** Two workers' id ranges meet exactly when the lower one has run past its 2^32 ids per worker into
      a range the upper one has started to use. */
  lemma RangesMeet(v: nat, w: nat, ordersV: nat, ordersW: nat)
    requires v < w
    ensures (exists id: nat {:trigger InRange(v, ordersV, id)} :: InRange(v, ordersV, id) && InRange(w, ordersW, id))
            <==> ordersV > (w - v) * 0x1_0000_0000 && ordersW > 0
  {
    if ordersV > (w - v) * 0x1_0000_0000 && ordersW > 0 {
      assert InRange(v, ordersV, FirstId(w) + 1) && InRange(w, ordersW, FirstId(w) + 1);
    }
  }

  ghost predicate InRange(w: nat, orders: nat, id: nat) {
    FirstId(w) < id <= FirstId(w) + orders
  }

  /** As long as no worker generates more than 2^32 orders, no two orders of a run share an id. */
  lemma IdsAreDistinct(cfg: Config, s: System, v: nat, i: nat, w: nat, j: nat)
    requires Sound(cfg) && Reachable(cfg, s)
    requires |s.workers| == cfg.n && v < cfg.n && w < cfg.n && (v != w || i != j)
    requires forall u :: 0 <= u < cfg.n ==> s.workers[u].orders <= 0x1_0000_0000
    requires i < |s.workers[v].generated| && j < |s.workers[w].generated|
    ensures s.workers[v].generated[i].id != s.workers[w].generated[j].id
  {
    ReachableIsSound(cfg, s);
    assert WorkerInv(cfg, s.accepted, s.workers[v], v);
    assert WorkerInv(cfg, s.accepted, s.workers[w], w);
    IdsCountUp(cfg.params, FirstId(v), s.workers[v].processed);
    IdsCountUp(cfg.params, FirstId(w), s.workers[w].processed);
    if v < w {
      RangesMeet(v, w, s.workers[v].orders, s.workers[w].orders);
      assert !InRange(v, s.workers[v].orders, s.workers[w].generated[j].id) by {
        assert InRange(w, s.workers[w].orders, s.workers[w].generated[j].id);
      }
    } else if w < v {
      RangesMeet(w, v, s.workers[w].orders, s.workers[v].orders);
      assert !InRange(w, s.workers[w].orders, s.workers[v].generated[i].id) by {
        assert InRange(v, s.workers[v].orders, s.workers[v].generated[i].id);
      }
    }
  }

  /** Each worker's ids come out of the orders ring in increasing order, drops or not, and with at most
      2^32 orders a worker all ids that reach the ring are distinct. */
  lemma StreamIsOrdered(cfg: Config, s: System, i: nat, j: nat)
    requires Sound(cfg) && Reachable(cfg, s)
    requires i < j < |Stream(s)|
    ensures SourceOf(cfg, Stream(s)[i]) == SourceOf(cfg, Stream(s)[j]) ==> Stream(s)[i].id < Stream(s)[j].id
    ensures (forall u :: 0 <= u < |s.workers| ==> s.workers[u].orders <= 0x1_0000_0000) ==>
              Stream(s)[i].id != Stream(s)[j].id
  {
    ReachableIsSound(cfg, s);
    var a, b := Stream(s)[i], Stream(s)[j];
    var v, w := SourceOf(cfg, a), SourceOf(cfg, b);
    assert FromWorker(cfg, s.workers, a) && FromWorker(cfg, s.workers, b);
    assert WorkerInv(cfg, s.accepted, s.workers[v], v) && WorkerInv(cfg, s.accepted, s.workers[w], w);
    if v < w {
      assert FirstId(v) + 0x1_0000_0000 <= FirstId(w);
    } else if w < v {
      assert FirstId(w) + 0x1_0000_0000 <= FirstId(v);
    }
  }
}
