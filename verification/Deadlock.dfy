/** The bound on the backlog is needed: an engine whose tick channels hold as many ticks as the order
    channel holds orders can reach a shutdown that never ends. */
module Deadlock {
  import opened Basics
  import opened Strategy
  import opened Pipeline

  const FIRST := Tick(0, 1000000, 1000000)
  const QUOTE := Tick(0, 0, 0)

  /** A price that falls to nothing stands 10000 basis points below a positive average. Every engine whose
      threshold is no higher can be made to order on each tick, whatever its cooldown. */
  ghost predicate Jammable(cfg: Config) {
    && Sound(cfg)
    && 0.0 <= cfg.params.alpha < 1.0
    && cfg.params.thresholdBps <= 10000.0
    && cfg.params.cooldownNs < U64
    && cfg.orderCap <= cfg.tickCap
  }

  ghost predicate Knows(x: Worker) {
    && QUOTE.symbol in x.book.symbols
    && x.book.symbols[QUOTE.symbol].initialised
    && x.book.symbols[QUOTE.symbol].emaPx > 0.0
  }

  /** The first clock reading at which the cooldown is over. */
  ghost function Ready(cfg: Config, x: Worker): nat {
    StateOf(x.book, QUOTE.symbol).lastOrderNs + cfg.params.cooldownNs
  }

  /** The engine is at its loop head; worker `w` holds an order and `queued` ticks. */
  ghost predicate Loaded(cfg: Config, s: System, w: nat, queued: nat) {
    && w == cfg.route(QUOTE.symbol) < |s.workers|
    && s.dispatcher.Polling? && !s.stop
    && s.ticksRing == [] && s.orderChannel == []
    && s.workers[w].pc.Sending? && Knows(s.workers[w])
    && |s.workers[w].queue| == queued
    && forall i :: 0 <= i < queued ==> s.workers[w].queue[i] == QUOTE
  }

  lemma {:induction false} RunsChain(cfg: Config, s0: System, a: seq<Step>, s1: System, b: seq<Step>, s2: System)
    requires Run(cfg, s0, a, s1) && Run(cfg, s1, b, s2)
    ensures Run(cfg, s0, a + b, s2)
    decreases |a|
  {
    if a == [] {
      assert a + b == b;
    } else {
      RunsChain(cfg, Apply(cfg, s0, a[0]), a[1..], s1, b, s2);
      assert (a + b)[1..] == a[1..] + b;
    }
  }

  lemma OneMore(cfg: Config, s0: System, steps: seq<Step>, s: System, step: Step) returns (steps': seq<Step>, s': System)
    requires Run(cfg, s0, steps, s) && Enabled(cfg, s, step)
    ensures s' == Apply(cfg, s, step) && Run(cfg, s0, steps', s')
  {
    s' := Apply(cfg, s, step);
    steps' := steps + [step];
    assert [step][1..] == [];
    RunsChain(cfg, s0, steps, s, [step], s');
  }

  /** From the loop head, one tick travels from the datagram to its worker's queue. */
  lemma Deliver(cfg: Config, s0: System, steps: seq<Step>, s: System, t: Tick)
      returns (steps': seq<Step>, s': System)
    requires Sound(cfg) && Run(cfg, s0, steps, s) && t.symbol == QUOTE.symbol
    requires s.dispatcher.Polling? && !s.stop && s.ticksRing == [] && s.orderChannel == []
    requires
      var w := cfg.route(QUOTE.symbol);
      w < |s.workers| && !s.workers[w].pc.Exited? && |s.workers[w].queue| < cfg.tickCap
    ensures Run(cfg, s0, steps', s')
    ensures
      var w := cfg.route(QUOTE.symbol);
      && s'.dispatcher.Polling? && !s'.stop && s'.ticksRing == [] && s'.orderChannel == []
      && s'.workers == s.workers[w := s.workers[w].(queue := s.workers[w].queue + [t])]
  {
    steps', s' := OneMore(cfg, s0, steps, s, FeedTick(t, false));
    steps', s' := OneMore(cfg, s0, steps', s', CheckStop);
    steps', s' := OneMore(cfg, s0, steps', s', PollTick);
    steps', s' := OneMore(cfg, s0, steps', s', RouteTick);
    steps', s' := OneMore(cfg, s0, steps', s', DrainEmpty);
  }

  lemma FirstTake(cfg: Config, x: Worker)
    requires x.queue == [FIRST] && x.book.symbols == map[]
    ensures Knows(Take(cfg.params, x, 0))
    ensures Take(cfg.params, x, 0).pc.Receiving? && Take(cfg.params, x, 0).queue == []
  {
    assert Mid(FIRST) == 1.0;
  }

  /** What is left of the average after a price of nothing is positive, and the deviation is -10000. */
  lemma FallsFar(p: Params, ema: real)
    requires 0.0 <= p.alpha < 1.0 && p.thresholdBps <= 10000.0 && ema > 0.0
    ensures
      var next := Blend(p.alpha, 0.0, ema);
      next > 0.0 && !Quiet(DeviationBps(0.0, next), p.thresholdBps)
  {
    var next := Blend(p.alpha, 0.0, ema);
    assert next == (1.0 - p.alpha) * ema;
    assert (0.0 - next) / next == -1.0;
  }

  lemma EagerTake(cfg: Config, x: Worker)
    requires Jammable(cfg) && Knows(x) && x.queue != [] && x.queue[0] == QUOTE
    ensures Knows(Take(cfg.params, x, Ready(cfg, x)))
    ensures Take(cfg.params, x, Ready(cfg, x)).pc.Sending?
    ensures Take(cfg.params, x, Ready(cfg, x)).queue == x.queue[1..]
  {
    var st := x.book.symbols[QUOTE.symbol];
    assert Mid(QUOTE) == 0.0;
    FallsFar(cfg.params, st.emaPx);
    assert WrappingSub(Ready(cfg, x), st.lastOrderNs) == cfg.params.cooldownNs;
  }

  lemma LoadFirst(cfg: Config) returns (steps: seq<Step>, s: System)
    requires Jammable(cfg)
    ensures Run(cfg, Init(cfg), steps, s)
    ensures Loaded(cfg, s, cfg.route(QUOTE.symbol), 0)
  {
    var w := cfg.route(QUOTE.symbol);
    steps, s := [], Init(cfg);
    steps, s := Deliver(cfg, Init(cfg), steps, s, FIRST);
    FirstTake(cfg, s.workers[w]);
    steps, s := OneMore(cfg, Init(cfg), steps, s, WorkerTakes(w, 0));
    steps, s := Deliver(cfg, Init(cfg), steps, s, QUOTE);
    EagerTake(cfg, s.workers[w]);
    steps, s := OneMore(cfg, Init(cfg), steps, s, WorkerTakes(w, Ready(cfg, s.workers[w])));
  }

  lemma FillQueue(cfg: Config) returns (steps: seq<Step>, s: System)
    requires Jammable(cfg)
    ensures Run(cfg, Init(cfg), steps, s)
    ensures Loaded(cfg, s, cfg.route(QUOTE.symbol), cfg.orderCap)
  {
    steps, s := LoadFirst(cfg);
    for k := 0 to cfg.orderCap
      invariant Run(cfg, Init(cfg), steps, s)
      invariant Loaded(cfg, s, cfg.route(QUOTE.symbol), k)
    {
      steps, s := Deliver(cfg, Init(cfg), steps, s, QUOTE);
    }
  }

  /** Shutdown has begun, `sent` orders are in the order channel and the worker holds another. */
  ghost predicate Jamming(cfg: Config, s: System, w: nat, sent: nat) {
    && !s.stop
    && sent <= cfg.orderCap
    && w < |s.workers|
    && s.dispatcher == Joining(0)
    && |s.orderChannel| == sent
    && s.workers[w].pc.Sending? && Knows(s.workers[w])
    && |s.workers[w].queue| == cfg.orderCap - sent
    && forall i :: 0 <= i < cfg.orderCap - sent ==> s.workers[w].queue[i] == QUOTE
  }

  lemma SendAndTake(cfg: Config, s0: System, steps: seq<Step>, s: System, w: nat, sent: nat)
      returns (steps': seq<Step>, s': System)
    requires Jammable(cfg) && Run(cfg, s0, steps, s) && Jamming(cfg, s, w, sent) && sent < cfg.orderCap
    ensures Run(cfg, s0, steps', s') && Jamming(cfg, s', w, sent + 1)
  {
    steps', s' := OneMore(cfg, s0, steps, s, WorkerSends(w));
    EagerTake(cfg, s'.workers[w]);
    steps', s' := OneMore(cfg, s0, steps', s', WorkerTakes(w, Ready(cfg, s'.workers[w])));
  }

  lemma EnterShutdown(cfg: Config) returns (steps: seq<Step>, s: System)
    requires Jammable(cfg)
    ensures Run(cfg, Init(cfg), steps, s)
    ensures Jamming(cfg, s, cfg.route(QUOTE.symbol), 0)
  {
    steps, s := FillQueue(cfg);
    steps, s := OneMore(cfg, Init(cfg), steps, s, CheckStop);
    steps, s := OneMore(cfg, Init(cfg), steps, s, LeaveOnDeadline);
    steps, s := OneMore(cfg, Init(cfg), steps, s, CloseChannels);
  }

  lemma Jam(cfg: Config) returns (steps: seq<Step>, s: System)
    requires Jammable(cfg)
    ensures Run(cfg, Init(cfg), steps, s)
    ensures Jamming(cfg, s, cfg.route(QUOTE.symbol), cfg.orderCap)
  {
    var w := cfg.route(QUOTE.symbol);
    steps, s := EnterShutdown(cfg);
    for sent := 0 to cfg.orderCap
      invariant Run(cfg, Init(cfg), steps, s)
      invariant Jamming(cfg, s, w, sent)
    {
      steps, s := SendAndTake(cfg, Init(cfg), steps, s, w, sent);
    }
  }

  /** A worker that will never get rid of its order, and a join that will never get past it. */
  ghost predicate NeverEnds(cfg: Config, s: System, w: nat) {
    && s.dispatcher.Joining? && s.dispatcher.next <= w < |s.workers|
    && s.workers[w].pc.Sending?
    && |s.orderChannel| == cfg.orderCap
  }

  lemma {:induction false} NeverEndsForever(cfg: Config, s0: System, steps: seq<Step>, s: System, w: nat)
    requires NeverEnds(cfg, s0, w) && Run(cfg, s0, steps, s)
    ensures NeverEnds(cfg, s, w) && !s.dispatcher.Done?
    decreases |steps|
  {
    if steps != [] {
      assert NeverEnds(cfg, Apply(cfg, s0, steps[0]), w);
      NeverEndsForever(cfg, Apply(cfg, s0, steps[0]), steps[1..], s, w);
    }
  }

  /** Without the bound a run exists that hangs in shutdown for good, in any engine whose order channel
      is no larger than its tick channels and whose threshold is at most 10000 basis points. In the source
      both channels hold 8192 and the threshold is 5 unless chosen otherwise. Raising stop later does
      not help. */
  lemma DeadlockIsReachable(cfg: Config) returns (s: System)
    requires Jammable(cfg)
    ensures Reachable(cfg, s)
    ensures !s.stop
    ensures forall steps: seq<Step>, s': System :: Run(cfg, s, steps, s') ==> !s'.dispatcher.Done?
  {
    var steps;
    steps, s := Jam(cfg);
    forall later: seq<Step>, s': System | Run(cfg, s, later, s')
      ensures !s'.dispatcher.Done?
    {
      NeverEndsForever(cfg, s, later, s', cfg.route(QUOTE.symbol));
    }
  }
}
