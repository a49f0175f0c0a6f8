/** The sharded engine between the two rings: dispatcher, bounded channels, workers, shutdown, and the
    feedhandler's two ends. Every thread moves one step at a time, in any order. */
module Pipeline {
  import opened Strategy

  /** `route` is the symbol hash modulo `n`; the channels and rings are bounded FIFO queues. */
  datatype Config = Config(n: nat, route: Symbol -> nat, params: Params, tickCap: nat, orderCap: nat, ringCap: nat)

  const ID_SPACE: nat := 0x1_0000_0000

  datatype WorkerPc = Receiving | Sending(order: Order) | Exited

  /** `queue` is the worker's tick channel; `processed` and `generated` record history. */
  datatype Worker = Worker(
    queue: seq<Tick>,
    pc: WorkerPc,
    book: Book,
    ticks: nat,
    orders: nat,
    processed: seq<TimedTick>,
    generated: seq<Order>
  )

  datatype DispatcherPc =
    | Polling
    | Consuming
    | Routing(tick: Tick)
    | Draining
    | Closing
    | Joining(next: nat)
    | FinalDraining
    | Done

  /** `accepted` records the ticks handed to workers; `seen` the orders that reached the feedhandler. */
  datatype System = System(
    stop: bool,
    ticksRing: seq<Tick>,
    published: nat,
    publishDrops: nat,
    badPackets: nat,
    dispatcher: DispatcherPc,
    workers: seq<Worker>,
    orderChannel: seq<Order>,
    ordersRing: seq<Order>,
    seen: seq<Order>,
    ticksSeen: nat,
    ticksDropped: nat,
    ticksRefused: nat,
    ordersSent: nat,
    ordersDropped: nat,
    accepted: seq<Tick>
  )

  datatype Step =
    // environment and feedhandler
    | RaiseStop
    | FeedTick(tick: Tick, refused: bool)
    | FeedBad
    | FeedSeesOrder
    // dispatcher
    | CheckStop
    | LeaveOnDeadline
    | PollTick
    | PollEmpty
    | RouteTick
    | DrainOne(refused: bool)
    | DrainEmpty
    | CloseChannels
    | JoinNext
    | JoinDone
    // workers
    | WorkerStops(w: nat)
    | WorkerTakes(w: nat, now: nat)
    | WorkerTimesOut(w: nat)
    | WorkerDisconnected(w: nat)
    | WorkerSends(w: nat)

  ghost predicate Sound(cfg: Config) {
    && cfg.n > 0 && cfg.tickCap > 0 && cfg.orderCap > 0 && cfg.ringCap > 0
    && forall s: Symbol :: cfg.route(s) < cfg.n
  }

  function FirstId(w: nat): nat {
    w * ID_SPACE
  }

  function NewWorker(w: nat): Worker {
    Worker([], Receiving, Book(map[], FirstId(w)), 0, 0, [], [])
  }

  function Init(cfg: Config): System {
    System(false, [], 0, 0, 0, Polling, seq(cfg.n, w requires 0 <= w < cfg.n => NewWorker(w)),
           [], [], [], 0, 0, 0, 0, 0, [])
  }

  /** The senders of the tick channels are alive until the dispatcher leaves its loop. */
  predicate ChannelsOpen(s: System) {
    !s.dispatcher.Joining? && !s.dispatcher.FinalDraining? && !s.dispatcher.Done?
  }

  ghost predicate Enabled(cfg: Config, s: System, step: Step) {
    match step
    case RaiseStop => true
    case FeedTick(_, refused) => refused || |s.ticksRing| < cfg.ringCap
    case FeedBad => true
    case FeedSeesOrder => s.ordersRing != []
    case CheckStop => s.dispatcher.Polling?
    case LeaveOnDeadline => s.dispatcher.Consuming?
    case PollTick => s.dispatcher.Consuming? && s.ticksRing != []
    case PollEmpty => s.dispatcher.Consuming?
    case RouteTick => s.dispatcher.Routing? && cfg.route(s.dispatcher.tick.symbol) < |s.workers|
    case DrainOne(refused) => (s.dispatcher.Draining? || s.dispatcher.FinalDraining?) && s.orderChannel != []
                              && (refused || |s.ordersRing| < cfg.ringCap)
    case DrainEmpty => (s.dispatcher.Draining? || s.dispatcher.FinalDraining?) && s.orderChannel == []
    case CloseChannels => s.dispatcher.Closing?
    case JoinNext => s.dispatcher.Joining? && s.dispatcher.next < |s.workers|
                     && s.workers[s.dispatcher.next].pc.Exited?
    case JoinDone => s.dispatcher.Joining? && s.dispatcher.next == |s.workers|
    case WorkerStops(w) => w < |s.workers| && s.workers[w].pc.Receiving? && s.stop
    case WorkerTakes(w, _) => w < |s.workers| && s.workers[w].pc.Receiving? && s.workers[w].queue != []
    case WorkerTimesOut(w) => w < |s.workers| && s.workers[w].pc.Receiving? && s.workers[w].queue == []
                              && ChannelsOpen(s)
    case WorkerDisconnected(w) => w < |s.workers| && s.workers[w].pc.Receiving? && s.workers[w].queue == []
                                  && !ChannelsOpen(s)
    case WorkerSends(w) => w < |s.workers| && s.workers[w].pc.Sending? && |s.orderChannel| < cfg.orderCap
  }

  function Take(p: Params, x: Worker, now: nat): Worker
    requires x.queue != []
  {
    var t := TimedTick(x.queue[0], now);
    var (book, order) := BookStep(p, x.book, t);
    Worker(x.queue[1..],
           if order.Some? then Sending(order.value) else Receiving,
           book, x.ticks + 1, x.orders + |Flatten(order)|,
           x.processed + [t], x.generated + Flatten(order))
  }

  function PublishOrder(s: System, refused: bool): System
    requires s.orderChannel != []
  {
    var rest := s.(orderChannel := s.orderChannel[1..]);
    if refused then rest.(ordersDropped := s.ordersDropped + 1)
    else rest.(ordersRing := s.ordersRing + [s.orderChannel[0]], ordersSent := s.ordersSent + 1)
  }

  function RouteOne(cfg: Config, s: System): System
    requires s.dispatcher.Routing? && cfg.route(s.dispatcher.tick.symbol) < |s.workers|
  {
    var t := s.dispatcher.tick;
    var w := cfg.route(t.symbol);
    var x := s.workers[w];
    if x.pc.Exited? then s.(dispatcher := Closing, ticksRefused := s.ticksRefused + 1)
    else if |x.queue| < cfg.tickCap then
      s.(dispatcher := Draining, workers := s.workers[w := x.(queue := x.queue + [t])], accepted := s.accepted + [t])
    else s.(dispatcher := Draining, ticksDropped := s.ticksDropped + 1)
  }

  ghost function Apply(cfg: Config, s: System, step: Step): System
    requires Enabled(cfg, s, step)
  {
    match step
    case RaiseStop => s.(stop := true)
    case FeedTick(t, refused) =>
      if refused then s.(publishDrops := s.publishDrops + 1)
      else s.(ticksRing := s.ticksRing + [t], published := s.published + 1)
    case FeedBad => s.(badPackets := s.badPackets + 1)
    case FeedSeesOrder => s.(ordersRing := s.ordersRing[1..], seen := s.seen + [s.ordersRing[0]])
    case CheckStop => s.(dispatcher := if s.stop then Closing else Consuming)
    case LeaveOnDeadline => s.(dispatcher := Closing)
    case PollTick =>
      s.(dispatcher := Routing(s.ticksRing[0]), ticksRing := s.ticksRing[1..], ticksSeen := s.ticksSeen + 1)
    case PollEmpty => s.(dispatcher := Draining)
    case RouteTick => RouteOne(cfg, s)
    case DrainOne(refused) => PublishOrder(s, refused)
    case DrainEmpty => s.(dispatcher := if s.dispatcher.Draining? then Polling else Done)
    case CloseChannels => s.(dispatcher := Joining(0))
    case JoinNext => s.(dispatcher := Joining(s.dispatcher.next + 1))
    case JoinDone => s.(dispatcher := FinalDraining)
    case WorkerStops(w) => s.(workers := s.workers[w := s.workers[w].(pc := Exited)])
    case WorkerTakes(w, now) => s.(workers := s.workers[w := Take(cfg.params, s.workers[w], now)])
    case WorkerTimesOut(_) => s
    case WorkerDisconnected(w) => s.(workers := s.workers[w := s.workers[w].(pc := Exited)])
    case WorkerSends(w) =>
      s.(orderChannel := s.orderChannel + [s.workers[w].pc.order],
         workers := s.workers[w := s.workers[w].(pc := Receiving)])
  }

  ghost predicate Run(cfg: Config, s0: System, steps: seq<Step>, s: System)
    decreases |steps|
  {
    if steps == [] then s == s0
    else Enabled(cfg, s0, steps[0]) && Run(cfg, Apply(cfg, s0, steps[0]), steps[1..], s)
  }

  ghost predicate Reachable(cfg: Config, s: System) {
    exists steps: seq<Step> :: Run(cfg, Init(cfg), steps, s)
  }

  // ----- sums over workers -----

  ghost function Total(f: Worker -> nat, ws: seq<Worker>): nat {
    if ws == [] then 0 else Total(f, ws[..|ws| - 1]) + f(ws[|ws| - 1])
  }

  lemma {:induction false} TotalUpdate(f: Worker -> nat, ws: seq<Worker>, w: nat, x: Worker)
    requires w < |ws|
    ensures Total(f, ws[w := x]) + f(ws[w]) == Total(f, ws) + f(x)
  {
    var n := |ws| - 1;
    if w == n {
      assert ws[w := x][..n] == ws[..n];
    } else {
      TotalUpdate(f, ws[..n], w, x);
      assert ws[w := x][..n] == ws[..n][w := x];
    }
  }

  lemma {:induction false} TotalAtLeast(f: Worker -> nat, ws: seq<Worker>, w: nat)
    requires w < |ws|
    ensures f(ws[w]) <= Total(f, ws)
  {
    if w < |ws| - 1 {
      TotalAtLeast(f, ws[..|ws| - 1], w);
    }
  }

  lemma {:induction false} TotalZero(f: Worker -> nat, ws: seq<Worker>)
    requires forall w :: 0 <= w < |ws| ==> f(ws[w]) == 0
    ensures Total(f, ws) == 0
  {
    if ws != [] {
      TotalZero(f, ws[..|ws| - 1]);
    }
  }

  function Queued(x: Worker): nat { |x.queue| }
  function Processed(x: Worker): nat { x.ticks }
  function Generated(x: Worker): nat { x.orders }
  function InHand(x: Worker): nat { if x.pc.Sending? then 1 else 0 }

  // ----- the invariant -----

  predicate Joined(s: System, w: nat) {
    s.dispatcher.FinalDraining? || s.dispatcher.Done? || (s.dispatcher.Joining? && w < s.dispatcher.next)
  }

  ghost predicate Phases(cfg: Config, s: System) {
    && |s.workers| == cfg.n
    && (forall w :: 0 <= w < cfg.n ==> |s.workers[w].queue| <= cfg.tickCap)
    && |s.orderChannel| <= cfg.orderCap
    && |s.ticksRing| <= cfg.ringCap && |s.ordersRing| <= cfg.ringCap
    && (s.dispatcher.Joining? ==> s.dispatcher.next <= cfg.n)
    && (forall w :: 0 <= w < cfg.n && Joined(s, w) ==> s.workers[w].pc.Exited?)
    && (!s.stop ==> forall w :: 0 <= w < cfg.n && s.workers[w].pc.Exited? ==> s.workers[w].queue == [] && !ChannelsOpen(s))
    && (s.dispatcher.Done? ==> s.orderChannel == [])
    && s.ticksRefused <= 1
    && (s.ticksRefused == 1 ==> s.stop && (s.dispatcher.Closing? || !ChannelsOpen(s)))
  }

  /** Conservation from the datagrams to the orders the feedhandler counts. */
  ghost predicate Balanced(cfg: Config, s: System) {
    && s.published == s.ticksSeen + |s.ticksRing|
    && s.ticksSeen == |s.accepted| + s.ticksDropped + s.ticksRefused + (if s.dispatcher.Routing? then 1 else 0)
    && |s.accepted| == Total(Processed, s.workers) + Total(Queued, s.workers)
    && Total(Generated, s.workers) ==
         s.ordersSent + s.ordersDropped + |s.orderChannel| + Total(InHand, s.workers)
    && s.ordersSent == |s.ordersRing| + |s.seen|
  }

  function Untimed(ticks: seq<TimedTick>): (r: seq<Tick>)
    ensures |r| == |ticks|
  {
    seq(|ticks|, i requires 0 <= i < |ticks| => ticks[i].tick)
  }

  /** The accepted ticks that belong to worker `w`. */
  ghost function Share(cfg: Config, ticks: seq<Tick>, w: nat): seq<Tick> {
    if ticks == [] then []
    else
      var t := ticks[|ticks| - 1];
      Share(cfg, ticks[..|ticks| - 1], w) + (if cfg.route(t.symbol) == w then [t] else [])
  }

  /** Each worker has taken and still holds exactly its share, in order, and is where the strategy
      puts it after the ticks taken. */
  ghost predicate WorkerInv(cfg: Config, accepted: seq<Tick>, x: Worker, w: nat) {
    && Untimed(x.processed) + x.queue == Share(cfg, accepted, w)
    && BookRun(cfg.params, Book(map[], FirstId(w)), x.processed) == (x.book, x.generated)
    && x.ticks == |x.processed|
    && x.orders == |x.generated|
    && x.book.nextId == FirstId(w) + x.orders
    && (forall i :: 0 <= i < |x.generated| ==> cfg.route(x.generated[i].quote.symbol) == w)
    && (x.pc.Sending? ==> x.orders > 0 && x.pc.order == x.generated[x.orders - 1])
  }

  ghost predicate Sharded(cfg: Config, s: System) {
    && |s.workers| == cfg.n
    && forall w :: 0 <= w < cfg.n ==> WorkerInv(cfg, s.accepted, s.workers[w], w)
  }

  function SourceOf(cfg: Config, o: Order): nat {
    cfg.route(o.quote.symbol)
  }

  /** All orders that left a worker and were not dropped, oldest first. */
  function Stream(s: System): seq<Order> {
    s.seen + s.ordersRing + s.orderChannel
  }

  ghost predicate IncreasingBySource(cfg: Config, orders: seq<Order>) {
    forall i, j :: 0 <= i < j < |orders| && SourceOf(cfg, orders[i]) == SourceOf(cfg, orders[j]) ==>
      orders[i].id < orders[j].id
  }

  /** The id is in the worker's space and was handed out before whatever the worker still holds. */
  ghost predicate FromWorker(cfg: Config, workers: seq<Worker>, o: Order) {
    var w := SourceOf(cfg, o);
    && w < |workers|
    && FirstId(w) < o.id <= workers[w].book.nextId - InHand(workers[w])
  }

  /** One worker's orders travel in increasing id order, inside the worker's own id space. */
  ghost predicate Ordered(cfg: Config, s: System) {
    && IncreasingBySource(cfg, Stream(s))
    && forall o :: o in Stream(s) ==> FromWorker(cfg, s.workers, o)
  }

  ghost predicate Inv(cfg: Config, s: System) {
    && Sound(cfg)
    && Phases(cfg, s)
    && Balanced(cfg, s)
    && Sharded(cfg, s)
    && Ordered(cfg, s)
  }
}
