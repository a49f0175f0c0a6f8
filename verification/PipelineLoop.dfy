/** The dispatcher's loop: each turn drains the order channel, a raised stop ends it, and the counters the
    programs report count what they say. */
module PipelineLoop {
  import opened Pipeline

  predicate OfDispatcher(step: Step) {
    || step.CheckStop? || step.LeaveOnDeadline? || step.PollTick? || step.PollEmpty? || step.RouteTick?
    || step.DrainOne? || step.DrainEmpty? || step.CloseChannels? || step.JoinNext? || step.JoinDone?
  }

  predicate InTurn(s: System) {
    s.dispatcher.Consuming? || s.dispatcher.Routing? || s.dispatcher.Draining?
  }

  predicate Left(s: System) {
    s.dispatcher.Closing? || !ChannelsOpen(s)
  }

  /** The state that a run passes after its first `i` steps. */
  ghost function StateAfter(cfg: Config, s0: System, steps: seq<Step>, s: System, i: nat): System
    requires Run(cfg, s0, steps, s) && i <= |steps|
    decreases |steps|
  {
    if i == 0 then s0 else StateAfter(cfg, Apply(cfg, s0, steps[0]), steps[1..], s, i - 1)
  }

  ghost predicate PassesEmpty(cfg: Config, s0: System, steps: seq<Step>, s: System)
    requires Run(cfg, s0, steps, s)
  {
    exists i: nat :: i <= |steps| && StateAfter(cfg, s0, steps, s, i).orderChannel == []
  }

  lemma PassesLater(cfg: Config, s0: System, steps: seq<Step>, s: System)
    requires Run(cfg, s0, steps, s) && steps != []
    requires PassesEmpty(cfg, Apply(cfg, s0, steps[0]), steps[1..], s)
    ensures PassesEmpty(cfg, s0, steps, s)
  {
    var i: nat :| i <= |steps[1..]| && StateAfter(cfg, Apply(cfg, s0, steps[0]), steps[1..], s, i).orderChannel == [];
    assert StateAfter(cfg, s0, steps, s, i + 1).orderChannel == [];
  }

  lemma TurnMoves(cfg: Config, s: System, step: Step)
    requires Enabled(cfg, s, step)
    ensures !OfDispatcher(step) ==> Apply(cfg, s, step).dispatcher == s.dispatcher
    ensures Left(s) ==> Left(Apply(cfg, s, step))
    ensures s.dispatcher.Polling? && OfDispatcher(step) ==> InTurn(Apply(cfg, s, step)) || Left(Apply(cfg, s, step))
    ensures InTurn(s) ==>
              if step.DrainEmpty? then s.orderChannel == []
              else InTurn(Apply(cfg, s, step)) || Left(Apply(cfg, s, step))
  {
  }

  lemma {:induction false} LeftForGood(cfg: Config, s0: System, steps: seq<Step>, s: System)
    requires Left(s0) && Run(cfg, s0, steps, s)
    ensures Left(s)
    decreases |steps|
  {
    if steps != [] {
      TurnMoves(cfg, s0, steps[0]);
      LeftForGood(cfg, Apply(cfg, s0, steps[0]), steps[1..], s);
    }
  }

  lemma {:induction false} TurnEndsEmpty(cfg: Config, s0: System, steps: seq<Step>, s: System)
    requires InTurn(s0) && Run(cfg, s0, steps, s) && s.dispatcher.Polling?
    ensures PassesEmpty(cfg, s0, steps, s)
    decreases |steps|
  {
    var s1 := Apply(cfg, s0, steps[0]);
    TurnMoves(cfg, s0, steps[0]);
    if steps[0].DrainEmpty? {
      assert StateAfter(cfg, s0, steps, s, 0).orderChannel == [];
    } else if Left(s1) {
      LeftForGood(cfg, s1, steps[1..], s);
      assert false;
    } else {
      TurnEndsEmpty(cfg, s1, steps[1..], s);
      PassesLater(cfg, s0, steps, s);
    }
  }

  /** Between two visits of the dispatcher to its loop head, with a tick or without one, the order channel
      is found empty. */
  lemma {:induction false} TurnDrains(cfg: Config, s0: System, steps: seq<Step>, s: System)
    requires Run(cfg, s0, steps, s) && s0.dispatcher.Polling? && s.dispatcher.Polling?
    requires exists i :: 0 <= i < |steps| && OfDispatcher(steps[i])
    ensures PassesEmpty(cfg, s0, steps, s)
    decreases |steps|
  {
    var s1 := Apply(cfg, s0, steps[0]);
    TurnMoves(cfg, s0, steps[0]);
    if !OfDispatcher(steps[0]) {
      var i :| 0 <= i < |steps| && OfDispatcher(steps[i]);
      assert steps[1..][i - 1] == steps[i];
      TurnDrains(cfg, s1, steps[1..], s);
    } else if Left(s1) {
      LeftForGood(cfg, s1, steps[1..], s);
      assert false;
    } else {
      TurnEndsEmpty(cfg, s1, steps[1..], s);
    }
    PassesLater(cfg, s0, steps, s);
  }

  function Settled(s: System): nat {
    s.ordersSent + s.ordersDropped
  }

  lemma SettledGrows(cfg: Config, s: System, step: Step)
    requires Enabled(cfg, s, step)
    ensures Settled(Apply(cfg, s, step)) >= Settled(s)
    ensures Settled(Apply(cfg, s, step)) + |Apply(cfg, s, step).orderChannel| >= Settled(s) + |s.orderChannel|
  {
  }

  lemma {:induction false} SettledAlong(cfg: Config, s0: System, steps: seq<Step>, s: System, i: nat)
    requires Run(cfg, s0, steps, s) && i <= |steps|
    ensures
      var mid := StateAfter(cfg, s0, steps, s, i);
      && Settled(mid) + |mid.orderChannel| >= Settled(s0) + |s0.orderChannel|
      && Settled(s) >= Settled(mid) >= Settled(s0)
    decreases |steps|
  {
    if steps != [] {
      SettledGrows(cfg, s0, steps[0]);
      SettledAlong(cfg, Apply(cfg, s0, steps[0]), steps[1..], s, if i == 0 then 0 else i - 1);
    }
  }

  /** So every order that waits in the channel at one visit has been published or counted as dropped by
      the next. */
  lemma OrdersSettledEachTurn(cfg: Config, s0: System, steps: seq<Step>, s: System)
    requires Run(cfg, s0, steps, s) && s0.dispatcher.Polling? && s.dispatcher.Polling?
    requires exists i :: 0 <= i < |steps| && OfDispatcher(steps[i])
    ensures Settled(s) >= Settled(s0) + |s0.orderChannel|
  {
    TurnDrains(cfg, s0, steps, s);
    var i: nat :| i <= |steps| && StateAfter(cfg, s0, steps, s, i).orderChannel == [];
    SettledAlong(cfg, s0, steps, s, i);
  }

  /** What becomes of a polled tick: it is the last in its worker's channel unless that is full, when it is
      counted as dropped, or the worker is gone, when the loop ends. No other worker is touched. */
  lemma RoutedExactly(cfg: Config, s: System)
    requires Phases(cfg, s) && Enabled(cfg, s, RouteTick)
    ensures
      var s', t := Apply(cfg, s, RouteTick), s.dispatcher.tick;
      var w := cfg.route(t.symbol);
      var x, x' := s.workers[w], s'.workers[w];
      && (s'.dispatcher.Closing? <==> x.pc.Exited?)
      && (s'.ticksDropped == s.ticksDropped + 1 <==> !x.pc.Exited? && |x.queue| == cfg.tickCap)
      && (!x.pc.Exited? && |x.queue| < cfg.tickCap <==> x'.queue == x.queue + [t])
      && (!x.pc.Exited? && |x.queue| < cfg.tickCap <==> s'.accepted == s.accepted + [t])
      && forall v :: 0 <= v < |s.workers| && v != w ==> s'.workers[v] == s.workers[v]
  {
  }

  // ----- counting steps -----

  ghost function Count(f: Step -> bool, steps: seq<Step>): nat {
    if steps == [] then 0 else (if f(steps[0]) then 1 else 0) + Count(f, steps[1..])
  }

  predicate Polls(step: Step) { step.PollTick? }
  predicate PublishesTick(step: Step) { step.FeedTick? && !step.refused }
  predicate DropsAtFeed(step: Step) { step.FeedTick? && step.refused }
  predicate IsBad(step: Step) { step.FeedBad? }
  predicate SeesOrder(step: Step) { step.FeedSeesOrder? }
  predicate SendsOrder(step: Step) { step.DrainOne? && !step.refused }
  predicate DropsOrder(step: Step) { step.DrainOne? && step.refused }

  /** Once stop is raised the dispatcher polls at most one more tick, and none unless it has already
      looked at the flag in this turn. */
  lemma {:induction false} StopEndsPolling(cfg: Config, s0: System, steps: seq<Step>, s: System)
    requires Run(cfg, s0, steps, s) && s0.stop
    ensures s.stop && Count(Polls, steps) <= (if s0.dispatcher.Consuming? then 1 else 0)
    decreases |steps|
  {
    if steps != [] {
      StopEndsPolling(cfg, Apply(cfg, s0, steps[0]), steps[1..], s);
    }
  }

  ghost predicate Counted(s0: System, steps: seq<Step>, s: System) {
    && s.published == s0.published + Count(PublishesTick, steps)
    && s.publishDrops == s0.publishDrops + Count(DropsAtFeed, steps)
    && s.badPackets == s0.badPackets + Count(IsBad, steps)
    && |s.seen| == |s0.seen| + Count(SeesOrder, steps)
    && s.ticksSeen == s0.ticksSeen + Count(Polls, steps)
    && s.ordersSent == s0.ordersSent + Count(SendsOrder, steps)
    && s.ordersDropped == s0.ordersDropped + Count(DropsOrder, steps)
  }

  lemma StepIsCounted(cfg: Config, s: System, step: Step)
    requires Enabled(cfg, s, step)
    ensures Counted(s, [step], Apply(cfg, s, step))
  {
    assert [step][1..] == [];
  }

  lemma CountFirst(f: Step -> bool, steps: seq<Step>)
    requires steps != []
    ensures Count(f, steps) == Count(f, [steps[0]]) + Count(f, steps[1..])
  {
    assert [steps[0]][1..] == [];
  }

  lemma CountedFirst(s0: System, s1: System, steps: seq<Step>, s: System)
    requires steps != [] && Counted(s0, [steps[0]], s1) && Counted(s1, steps[1..], s)
    ensures Counted(s0, steps, s)
  {
    CountFirst(PublishesTick, steps);
    CountFirst(DropsAtFeed, steps);
    CountFirst(IsBad, steps);
    CountFirst(SeesOrder, steps);
    CountFirst(Polls, steps);
    CountFirst(SendsOrder, steps);
    CountFirst(DropsOrder, steps);
  }

  /** Each counter a program reports is the number of times the thing happened. */
  lemma {:induction false} CountersCount(cfg: Config, s0: System, steps: seq<Step>, s: System)
    requires Run(cfg, s0, steps, s)
    ensures Counted(s0, steps, s)
    decreases |steps|
  {
    if steps != [] {
      StepIsCounted(cfg, s0, steps[0]);
      CountersCount(cfg, Apply(cfg, s0, steps[0]), steps[1..], s);
      CountedFirst(s0, Apply(cfg, s0, steps[0]), steps, s);
    }
  }
}
