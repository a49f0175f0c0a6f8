/** Every step of the engine keeps the invariant. */
module PipelineSafety {
  import opened Strategy
  import opened Pipeline

  lemma InitBalanced(cfg: Config)
    ensures Balanced(cfg, Init(cfg))
  {
    TotalZero(Queued, Init(cfg).workers);
    TotalZero(Processed, Init(cfg).workers);
    TotalZero(Generated, Init(cfg).workers);
    TotalZero(InHand, Init(cfg).workers);
  }

  lemma InitHolds(cfg: Config)
    requires Sound(cfg)
    ensures Inv(cfg, Init(cfg))
  {
    InitBalanced(cfg);
    forall w | 0 <= w < cfg.n
      ensures WorkerInv(cfg, [], NewWorker(w), w)
    {
      assert Untimed([]) + [] == [];
    }
  }

  predicate OfWorker(step: Step) {
    step.WorkerStops? || step.WorkerTakes? || step.WorkerTimesOut? || step.WorkerDisconnected? || step.WorkerSends?
  }

  lemma PhasesKeptByWorkers(cfg: Config, s: System, step: Step)
    requires Phases(cfg, s) && Enabled(cfg, s, step) && OfWorker(step)
    ensures Phases(cfg, Apply(cfg, s, step))
  {
  }

  lemma PhasesKeptByRoute(cfg: Config, s: System)
    requires Phases(cfg, s) && Enabled(cfg, s, RouteTick)
    ensures Phases(cfg, RouteOne(cfg, s))
  {
  }

  lemma PhasesKeptByOthers(cfg: Config, s: System, step: Step)
    requires Phases(cfg, s) && Enabled(cfg, s, step) && !OfWorker(step) && !step.RouteTick?
    ensures Phases(cfg, Apply(cfg, s, step))
  {
    assert Apply(cfg, s, step).workers == s.workers;
  }

  lemma PhasesKept(cfg: Config, s: System, step: Step)
    requires Sound(cfg) && Phases(cfg, s) && Enabled(cfg, s, step)
    ensures Phases(cfg, Apply(cfg, s, step))
  {
    if OfWorker(step) {
      PhasesKeptByWorkers(cfg, s, step);
    } else if step.RouteTick? {
      PhasesKeptByRoute(cfg, s);
    } else {
      PhasesKeptByOthers(cfg, s, step);
    }
  }

  lemma TotalsUpdate(ws: seq<Worker>, w: nat, x: Worker)
    requires w < |ws|
    ensures Total(Queued, ws[w := x]) + Queued(ws[w]) == Total(Queued, ws) + Queued(x)
    ensures Total(Processed, ws[w := x]) + Processed(ws[w]) == Total(Processed, ws) + Processed(x)
    ensures Total(Generated, ws[w := x]) + Generated(ws[w]) == Total(Generated, ws) + Generated(x)
    ensures Total(InHand, ws[w := x]) + InHand(ws[w]) == Total(InHand, ws) + InHand(x)
  {
    TotalUpdate(Queued, ws, w, x);
    TotalUpdate(Processed, ws, w, x);
    TotalUpdate(Generated, ws, w, x);
    TotalUpdate(InHand, ws, w, x);
  }

  lemma BalancedKeptByTake(cfg: Config, s: System, w: nat, now: nat)
    requires Balanced(cfg, s) && Enabled(cfg, s, WorkerTakes(w, now))
    ensures Balanced(cfg, Apply(cfg, s, WorkerTakes(w, now)))
  {
    TotalsUpdate(s.workers, w, Take(cfg.params, s.workers[w], now));
  }

  lemma BalancedKeptByWorkers(cfg: Config, s: System, step: Step)
    requires Balanced(cfg, s) && Enabled(cfg, s, step) && OfWorker(step) && !step.WorkerTakes?
    ensures Balanced(cfg, Apply(cfg, s, step))
  {
    if !step.WorkerTimesOut? {
      TotalsUpdate(s.workers, step.w, Apply(cfg, s, step).workers[step.w]);
    }
  }

  lemma EnqueueTotals(ws: seq<Worker>, w: nat, t: Tick)
    requires w < |ws|
    ensures
      var ws' := ws[w := ws[w].(queue := ws[w].queue + [t])];
      && Total(Queued, ws') == Total(Queued, ws) + 1
      && Total(Processed, ws') == Total(Processed, ws)
      && Total(Generated, ws') == Total(Generated, ws)
      && Total(InHand, ws') == Total(InHand, ws)
  {
    TotalsUpdate(ws, w, ws[w].(queue := ws[w].queue + [t]));
  }

  lemma BalancedKeptByAccept(cfg: Config, s: System, w: nat, t: Tick, s': System)
    requires Balanced(cfg, s) && s.dispatcher.Routing? && w < |s.workers|
    requires s' == s.(dispatcher := Draining, accepted := s.accepted + [t],
                      workers := s.workers[w := s.workers[w].(queue := s.workers[w].queue + [t])])
    ensures Balanced(cfg, s')
  {
    EnqueueTotals(s.workers, w, t);
  }

  lemma BalancedKeptByRoute(cfg: Config, s: System)
    requires Balanced(cfg, s) && Enabled(cfg, s, RouteTick)
    ensures Balanced(cfg, RouteOne(cfg, s))
  {
    var s' := RouteOne(cfg, s);
    if s'.accepted != s.accepted {
      BalancedKeptByAccept(cfg, s, cfg.route(s.dispatcher.tick.symbol), s.dispatcher.tick, s');
    }
  }

  lemma BalancedKeptByOthers(cfg: Config, s: System, step: Step)
    requires Balanced(cfg, s) && Enabled(cfg, s, step) && !OfWorker(step) && !step.RouteTick?
    ensures Balanced(cfg, Apply(cfg, s, step))
  {
    assert Apply(cfg, s, step).workers == s.workers;
  }

  lemma BalancedKept(cfg: Config, s: System, step: Step)
    requires Balanced(cfg, s) && Enabled(cfg, s, step)
    ensures Balanced(cfg, Apply(cfg, s, step))
  {
    if step.RouteTick? {
      BalancedKeptByRoute(cfg, s);
    } else if step.WorkerTakes? {
      BalancedKeptByTake(cfg, s, step.w, step.now);
    } else if OfWorker(step) {
      BalancedKeptByWorkers(cfg, s, step);
    } else {
      BalancedKeptByOthers(cfg, s, step);
    }
  }

  lemma UntimedAppend(ticks: seq<TimedTick>, t: TimedTick)
    ensures Untimed(ticks + [t]) == Untimed(ticks) + [t.tick]
  {
  }

  lemma ShareAppend(cfg: Config, ticks: seq<Tick>, t: Tick, w: nat)
    ensures Share(cfg, ticks + [t], w) == Share(cfg, ticks, w) + (if cfg.route(t.symbol) == w then [t] else [])
  {
    assert (ticks + [t])[..|ticks|] == ticks;
  }

  lemma {:induction false} ShareRoutes(cfg: Config, ticks: seq<Tick>, w: nat)
    ensures forall i :: 0 <= i < |Share(cfg, ticks, w)| ==> cfg.route(Share(cfg, ticks, w)[i].symbol) == w
  {
    if ticks != [] {
      ShareRoutes(cfg, ticks[..|ticks| - 1], w);
    }
  }

  /** One tick taken by a worker is one step of the strategy on the next tick of its share. */
  lemma TakeKeepsWorker(cfg: Config, accepted: seq<Tick>, x: Worker, w: nat, now: nat)
    requires WorkerInv(cfg, accepted, x, w) && x.queue != []
    ensures WorkerInv(cfg, accepted, Take(cfg.params, x, now), w)
  {
    var t := TimedTick(x.queue[0], now);
    ShareRoutes(cfg, accepted, w);
    assert Share(cfg, accepted, w)[|x.processed|] == t.tick;
    UntimedAppend(x.processed, t);
    assert Untimed(x.processed) + x.queue == (Untimed(x.processed) + [t.tick]) + x.queue[1..];
    BookRunAppend(cfg.params, Book(map[], FirstId(w)), x.processed, t);
    BookStepIsLocal(cfg.params, x.book, t, t.tick.symbol);
  }

  lemma AcceptKeepsWorker(cfg: Config, accepted: seq<Tick>, x: Worker, w: nat, t: Tick)
    requires WorkerInv(cfg, accepted, x, w)
    ensures WorkerInv(cfg, accepted + [t], if cfg.route(t.symbol) == w then x.(queue := x.queue + [t]) else x, w)
  {
    ShareAppend(cfg, accepted, t, w);
    assert Untimed(x.processed) + (x.queue + [t]) == (Untimed(x.processed) + x.queue) + [t];
  }

  lemma StatusKeepsWorker(cfg: Config, accepted: seq<Tick>, x: Worker, w: nat, pc: WorkerPc)
    requires WorkerInv(cfg, accepted, x, w) && !pc.Sending?
    ensures WorkerInv(cfg, accepted, x.(pc := pc), w)
  {
  }

  /** All that one step can do to one worker. */
  lemma WorkerMoves(cfg: Config, s: System, step: Step, w: nat)
    requires w < |s.workers| && Enabled(cfg, s, step)
    ensures |Apply(cfg, s, step).workers| == |s.workers|
    ensures
      var s' := Apply(cfg, s, step);
      var x, x' := s.workers[w], s'.workers[w];
      if step.RouteTick? && s'.accepted != s.accepted then
        var t := s.dispatcher.tick;
        && s'.accepted == s.accepted + [t]
        && x' == (if cfg.route(t.symbol) == w then x.(queue := x.queue + [t]) else x)
      else
        && s'.accepted == s.accepted
        && (if step.WorkerTakes? && step.w == w then x.queue != [] && x' == Take(cfg.params, x, step.now)
            else x' == x || x' == x.(pc := Exited) || x' == x.(pc := Receiving))
  {
  }

  lemma StepKeepsWorker(cfg: Config, s: System, step: Step, w: nat, s': System)
    requires w < |s.workers| && WorkerInv(cfg, s.accepted, s.workers[w], w)
    requires Enabled(cfg, s, step) && s' == Apply(cfg, s, step)
    ensures |s'.workers| == |s.workers| && WorkerInv(cfg, s'.accepted, s'.workers[w], w)
  {
    var x := s.workers[w];
    WorkerMoves(cfg, s, step, w);
    if s'.accepted != s.accepted {
      AcceptKeepsWorker(cfg, s.accepted, x, w, s.dispatcher.tick);
    } else if step.WorkerTakes? && step.w == w {
      TakeKeepsWorker(cfg, s.accepted, x, w, step.now);
    } else {
      StatusKeepsWorker(cfg, s.accepted, x, w, Exited);
      StatusKeepsWorker(cfg, s.accepted, x, w, Receiving);
    }
  }

  lemma ShardedKept(cfg: Config, s: System, step: Step)
    requires Sharded(cfg, s) && Enabled(cfg, s, step) && cfg.n > 0
    ensures Sharded(cfg, Apply(cfg, s, step))
  {
    StepKeepsWorker(cfg, s, step, 0, Apply(cfg, s, step));
    forall w | 0 <= w < cfg.n
      ensures WorkerInv(cfg, Apply(cfg, s, step).accepted, Apply(cfg, s, step).workers[w], w)
    {
      StepKeepsWorker(cfg, s, step, w, Apply(cfg, s, step));
    }
  }

  lemma IncreasingWithout(cfg: Config, a: seq<Order>, o: Order, b: seq<Order>)
    requires IncreasingBySource(cfg, a + [o] + b)
    ensures IncreasingBySource(cfg, a + b)
  {
    var all, kept := a + [o] + b, a + b;
    forall i, j | 0 <= i < j < |kept| && SourceOf(cfg, kept[i]) == SourceOf(cfg, kept[j])
      ensures kept[i].id < kept[j].id
    {
      var i', j' := if i < |a| then i else i + 1, if j < |a| then j else j + 1;
      assert all[i'] == kept[i] && all[j'] == kept[j];
    }
  }

  lemma IncreasingWith(cfg: Config, a: seq<Order>, o: Order)
    requires IncreasingBySource(cfg, a)
    requires forall x :: x in a && SourceOf(cfg, x) == SourceOf(cfg, o) ==> x.id < o.id
    ensures IncreasingBySource(cfg, a + [o])
  {
  }

  /** The order a worker holds is from its own symbols and carries its newest id. */
  lemma NewestInHand(cfg: Config, accepted: seq<Tick>, x: Worker, w: nat)
    requires WorkerInv(cfg, accepted, x, w) && x.pc.Sending?
    ensures SourceOf(cfg, x.pc.order) == w && FirstId(w) < x.pc.order.id == x.book.nextId
  {
    IdsCountUp(cfg.params, FirstId(w), x.processed);
  }

  lemma SendKeepsOrder(cfg: Config, s: System, w: nat)
    requires w < |s.workers| && WorkerInv(cfg, s.accepted, s.workers[w], w)
    requires Ordered(cfg, s) && Enabled(cfg, s, WorkerSends(w))
    ensures Ordered(cfg, Apply(cfg, s, WorkerSends(w)))
  {
    var s' := Apply(cfg, s, WorkerSends(w));
    var x := s.workers[w];
    NewestInHand(cfg, s.accepted, x, w);
    assert Stream(s') == Stream(s) + [x.pc.order];
    IncreasingWith(cfg, Stream(s), x.pc.order);
    forall o | o in Stream(s')
      ensures FromWorker(cfg, s'.workers, o)
    {
      assert o != x.pc.order ==> FromWorker(cfg, s.workers, o);
    }
  }

  lemma DrainKeepsOrder(cfg: Config, s: System, refused: bool)
    requires Ordered(cfg, s) && Enabled(cfg, s, DrainOne(refused))
    ensures Ordered(cfg, Apply(cfg, s, DrainOne(refused)))
  {
    var s' := Apply(cfg, s, DrainOne(refused));
    var first := s.orderChannel[0];
    assert Stream(s) == s.seen + s.ordersRing + [first] + s.orderChannel[1..];
    if refused {
      IncreasingWithout(cfg, s.seen + s.ordersRing, first, s.orderChannel[1..]);
      assert Stream(s') == s.seen + s.ordersRing + s.orderChannel[1..];
    } else {
      assert Stream(s') == Stream(s);
    }
  }

  lemma OrderedFrame(cfg: Config, s: System, s': System)
    requires Ordered(cfg, s) && Stream(s') == Stream(s) && |s'.workers| == |s.workers|
    requires forall w :: 0 <= w < |s.workers| ==>
               s.workers[w].book.nextId - InHand(s.workers[w]) <= s'.workers[w].book.nextId - InHand(s'.workers[w])
    ensures Ordered(cfg, s')
  {
    forall o | o in Stream(s')
      ensures FromWorker(cfg, s'.workers, o)
    {
      assert FromWorker(cfg, s.workers, o);
    }
  }

  lemma OrderedKept(cfg: Config, s: System, step: Step)
    requires Sharded(cfg, s) && Ordered(cfg, s) && Enabled(cfg, s, step)
    ensures Ordered(cfg, Apply(cfg, s, step))
  {
    match step
    case WorkerSends(w) =>
      assert WorkerInv(cfg, s.accepted, s.workers[w], w);
      SendKeepsOrder(cfg, s, w);
    case DrainOne(refused) => DrainKeepsOrder(cfg, s, refused);
    case _ =>
      StreamKept(cfg, s, step);
      OrderedFrame(cfg, s, Apply(cfg, s, step));
  }

  lemma StreamKept(cfg: Config, s: System, step: Step)
    requires Enabled(cfg, s, step) && !step.WorkerSends? && !step.DrainOne?
    ensures
      var s' := Apply(cfg, s, step);
      && Stream(s') == Stream(s)
      && |s'.workers| == |s.workers|
      && forall w :: 0 <= w < |s.workers| ==>
           s.workers[w].book.nextId - InHand(s.workers[w]) <= s'.workers[w].book.nextId - InHand(s'.workers[w])
  {
  }

  lemma StepKeeps(cfg: Config, s: System, step: Step)
    requires Inv(cfg, s) && Enabled(cfg, s, step)
    ensures Inv(cfg, Apply(cfg, s, step))
  {
    PhasesKept(cfg, s, step);
    BalancedKept(cfg, s, step);
    ShardedKept(cfg, s, step);
    OrderedKept(cfg, s, step);
  }

  lemma {:induction false} RunKeeps(cfg: Config, s0: System, steps: seq<Step>, s: System)
    requires Inv(cfg, s0) && Run(cfg, s0, steps, s)
    ensures Inv(cfg, s)
    decreases |steps|
  {
    if steps != [] {
      StepKeeps(cfg, s0, steps[0]);
      RunKeeps(cfg, Apply(cfg, s0, steps[0]), steps[1..], s);
    }
  }

  lemma ReachableIsSound(cfg: Config, s: System)
    requires Sound(cfg) && Reachable(cfg, s)
    ensures Inv(cfg, s)
  {
    var steps: seq<Step> :| Run(cfg, Init(cfg), steps, s);
    InitHolds(cfg);
    RunKeeps(cfg, Init(cfg), steps, s);
  }
}
