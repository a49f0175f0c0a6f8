/** Shutdown: the dispatcher joins the workers while they may still be blocked sending orders that
    only the dispatcher would drain. */
module Shutdown {
  import opened Strategy
  import opened Pipeline
  import opened PipelineSafety

  ghost predicate ShuttingDown(s: System) {
    s.dispatcher.Closing? || !ChannelsOpen(s)
  }

  /** A step by which a thread of the engine moves; a timed-out receive is not progress. */
  predicate Moves(step: Step) {
    !step.RaiseStop? && !step.FeedTick? && !step.FeedBad? && !step.FeedSeesOrder? && !step.WorkerTimesOut?
  }

  // ----- every shutdown takes boundedly many steps -----

  function Work(x: Worker): nat {
    if x.pc.Exited? then 0 else 2 * |x.queue| + InHand(x) + 1
  }

  ghost function Measure(cfg: Config, s: System): nat {
    match s.dispatcher
    case Joining(k) => Total(Work, s.workers) + (if k <= cfg.n then cfg.n - k else 0) + cfg.orderCap + 2
    case FinalDraining => |s.orderChannel| + 1
    case Done => 0
    case _ => Total(Work, s.workers) + cfg.n + cfg.orderCap + 3
  }

  lemma WorkerLosesWork(cfg: Config, s: System, step: Step)
    requires Enabled(cfg, s, step) && OfWorker(step) && Moves(step)
    ensures Total(Work, Apply(cfg, s, step).workers) < Total(Work, s.workers)
  {
    TotalUpdate(Work, s.workers, step.w, Apply(cfg, s, step).workers[step.w]);
  }

  lemma MeasureDrops(cfg: Config, s: System, step: Step)
    requires Phases(cfg, s) && ShuttingDown(s) && Enabled(cfg, s, step)
    ensures ShuttingDown(Apply(cfg, s, step))
    ensures if Moves(step) then Measure(cfg, Apply(cfg, s, step)) < Measure(cfg, s)
            else Measure(cfg, Apply(cfg, s, step)) == Measure(cfg, s)
  {
    if OfWorker(step) && Moves(step) {
      WorkerLosesWork(cfg, s, step);
      assert !s.workers[step.w].pc.Exited?;
      assert !Joined(s, step.w);
    }
  }

  ghost function MovesIn(steps: seq<Step>): nat {
    if steps == [] then 0 else (if Moves(steps[0]) then 1 else 0) + MovesIn(steps[1..])
  }

  /** No interleaving lets the engine's threads take more than `Measure` steps after the loop is left. */
  lemma {:induction false} ShutdownIsBounded(cfg: Config, s0: System, steps: seq<Step>, s: System)
    requires Sound(cfg) && Phases(cfg, s0) && ShuttingDown(s0) && Run(cfg, s0, steps, s)
    ensures Phases(cfg, s) && ShuttingDown(s)
    ensures MovesIn(steps) + Measure(cfg, s) <= Measure(cfg, s0)
    decreases |steps|
  {
    if steps != [] {
      PhasesKept(cfg, s0, steps[0]);
      MeasureDrops(cfg, s0, steps[0]);
      ShutdownIsBounded(cfg, Apply(cfg, s0, steps[0]), steps[1..], s);
    }
  }

  // ----- when it can get stuck -----

  ghost predicate Stuck(cfg: Config, s: System) {
    forall step: Step :: Enabled(cfg, s, step) ==> !Moves(step)
  }

  /** The dispatcher waits for a worker that is blocked on the full order channel, and so is every
      other worker still alive. */
  ghost predicate Blocked(cfg: Config, s: System) {
    && s.dispatcher.Joining?
    && s.dispatcher.next < |s.workers|
    && s.workers[s.dispatcher.next].pc.Sending?
    && |s.orderChannel| >= cfg.orderCap
    && forall w :: 0 <= w < |s.workers| && !s.workers[w].pc.Exited? ==> s.workers[w].pc.Sending?
  }

  /** `clock(w, i)` is what worker `w` reads while it processes its tick number `i`. */
  type Clock = (nat, nat) -> nat

  ghost predicate Follows(clock: Clock, s: System, step: Step) {
    step.WorkerTakes? && step.w < |s.workers| ==> step.now == clock(step.w, s.workers[step.w].ticks)
  }

  /** A thread that can move without stopping early, and reads the clock as told. */
  lemma NextMove(cfg: Config, clock: Clock, s: System) returns (step: Step)
    requires Phases(cfg, s) && ShuttingDown(s) && !s.dispatcher.Done? && !Blocked(cfg, s)
    ensures Enabled(cfg, s, step) && Moves(step) && Follows(clock, s, step) && !step.WorkerStops?
  {
    match s.dispatcher
    case Closing => step := CloseChannels;
    case FinalDraining => step := if s.orderChannel != [] then DrainOne(true) else DrainEmpty;
    case Joining(k) =>
      if k == cfg.n {
        step := JoinDone;
      } else if s.workers[k].pc.Exited? {
        step := JoinNext;
      } else if s.workers[k].pc.Sending? && |s.orderChannel| < cfg.orderCap {
        step := WorkerSends(k);
      } else {
        var w := k;
        if s.workers[k].pc.Sending? {
          w :| 0 <= w < |s.workers| && !s.workers[w].pc.Exited? && !s.workers[w].pc.Sending?;
        }
        step := if s.workers[w].queue != [] then WorkerTakes(w, clock(w, s.workers[w].ticks)) else WorkerDisconnected(w);
      }
  }

  /** Shutdown comes to rest only by finishing, or with every live worker blocked on a full order
      channel while the dispatcher joins one of them. */
  lemma StuckExactly(cfg: Config, s: System)
    requires Phases(cfg, s) && ShuttingDown(s)
    ensures Stuck(cfg, s) <==> s.dispatcher.Done? || Blocked(cfg, s)
  {
    if !s.dispatcher.Done? && !Blocked(cfg, s) {
      var step := NextMove(cfg, (w, i) => 0, s);
    }
    if s.dispatcher.Done? {
      forall step: Step | Enabled(cfg, s, step)
        ensures !Moves(step)
      {
        if OfWorker(step) {
          assert Joined(s, step.w);
        }
      }
    }
  }

  // ----- a backlog that fits cannot block -----

  function Owing(x: Worker): nat {
    if x.pc.Exited? then 0 else |x.queue| + InHand(x)
  }

  /** Queued ticks, ticks in hand, and orders queued or blocked. */
  ghost function Backlog(s: System): nat {
    Total(Owing, s.workers) + |s.orderChannel|
  }

  lemma BacklogShrinks(cfg: Config, s: System, step: Step)
    requires Phases(cfg, s) && ShuttingDown(s) && Enabled(cfg, s, step)
    ensures Backlog(Apply(cfg, s, step)) <= Backlog(s)
  {
    if OfWorker(step) && Moves(step) {
      TotalUpdate(Owing, s.workers, step.w, Apply(cfg, s, step).workers[step.w]);
    }
  }

  lemma BacklogLeavesRoom(cfg: Config, s: System)
    requires Backlog(s) <= cfg.orderCap
    ensures !Blocked(cfg, s)
  {
    if s.dispatcher.Joining? && s.dispatcher.next < |s.workers| {
      TotalAtLeast(Owing, s.workers, s.dispatcher.next);
    }
  }

  /** If at loop exit queued ticks, ticks in hand and queued or blocked orders together fit the order
      channel, shutdown never blocks: wherever it has got to, in any interleaving and even if stop is
      raised on the way, it is done or a thread can move. */
  lemma {:induction false} SmallBacklogFinishes(cfg: Config, s0: System, steps: seq<Step>, s: System)
    requires Sound(cfg) && Phases(cfg, s0) && ShuttingDown(s0) && Run(cfg, s0, steps, s)
    requires Backlog(s0) <= cfg.orderCap
    ensures Backlog(s) <= cfg.orderCap
    ensures s.dispatcher.Done? <==> Stuck(cfg, s)
    decreases |steps|
  {
    if steps == [] {
      BacklogLeavesRoom(cfg, s);
      StuckExactly(cfg, s);
    } else {
      PhasesKept(cfg, s0, steps[0]);
      MeasureDrops(cfg, s0, steps[0]);
      BacklogShrinks(cfg, s0, steps[0]);
      SmallBacklogFinishes(cfg, Apply(cfg, s0, steps[0]), steps[1..], s);
    }
  }

  // ----- the orders that are due -----

  /** The orders that worker `w` will make of the ticks still in its queue. */
  ghost function Coming(p: Params, clock: Clock, w: nat, x: Worker): nat
    decreases |x.queue|
  {
    if x.queue == [] then 0
    else
      var x' := Take(p, x, clock(w, x.ticks));
      InHand(x') + Coming(p, clock, w, x')
  }

  ghost function Due(p: Params, clock: Clock, w: nat, x: Worker): nat {
    if x.pc.Exited? then 0 else InHand(x) + Coming(p, clock, w, x)
  }

  ghost function AllDue(p: Params, clock: Clock, ws: seq<Worker>): nat {
    if ws == [] then 0 else AllDue(p, clock, ws[..|ws| - 1]) + Due(p, clock, |ws| - 1, ws[|ws| - 1])
  }

  /** All the orders that will have to pass through the order channel while nobody drains it. */
  ghost function Demand(cfg: Config, clock: Clock, s: System): nat {
    AllDue(cfg.params, clock, s.workers) + |s.orderChannel|
  }

  lemma {:induction false} AllDueUpdate(p: Params, clock: Clock, ws: seq<Worker>, w: nat, x: Worker)
    requires w < |ws|
    ensures AllDue(p, clock, ws[w := x]) + Due(p, clock, w, ws[w]) == AllDue(p, clock, ws) + Due(p, clock, w, x)
  {
    var n := |ws| - 1;
    if w == n {
      assert ws[w := x][..n] == ws[..n];
    } else {
      AllDueUpdate(p, clock, ws[..n], w, x);
      assert ws[w := x][..n] == ws[..n][w := x];
    }
  }

  lemma {:induction false} AllDueAtLeast(p: Params, clock: Clock, ws: seq<Worker>, w: nat)
    requires w < |ws|
    ensures Due(p, clock, w, ws[w]) <= AllDue(p, clock, ws)
  {
    if w < |ws| - 1 {
      AllDueAtLeast(p, clock, ws[..|ws| - 1], w);
    }
  }

  lemma {:induction false} AllDueZero(p: Params, clock: Clock, ws: seq<Worker>)
    requires forall w :: 0 <= w < |ws| ==> ws[w].pc.Exited?
    ensures AllDue(p, clock, ws) == 0
  {
    if ws != [] {
      AllDueZero(p, clock, ws[..|ws| - 1]);
    }
  }

  lemma {:induction false} ComingIgnoresPc(p: Params, clock: Clock, w: nat, x: Worker, pc: WorkerPc)
    ensures Coming(p, clock, w, x.(pc := pc)) == Coming(p, clock, w, x)
  {
    if x.queue != [] {
      assert Take(p, x.(pc := pc), clock(w, x.ticks)) == Take(p, x, clock(w, x.ticks));
    }
  }

  lemma WorkerKeepsDemand(cfg: Config, clock: Clock, s: System, step: Step)
    requires Enabled(cfg, s, step) && OfWorker(step) && Follows(clock, s, step) && !step.WorkerStops?
    ensures Demand(cfg, clock, Apply(cfg, s, step)) == Demand(cfg, clock, s)
  {
    if !step.WorkerTimesOut? {
      var x := s.workers[step.w];
      AllDueUpdate(cfg.params, clock, s.workers, step.w, Apply(cfg, s, step).workers[step.w]);
      ComingIgnoresPc(cfg.params, clock, step.w, x, Receiving);
    }
  }

  lemma NothingDueOnceJoined(cfg: Config, clock: Clock, s: System)
    requires Phases(cfg, s) && Enabled(cfg, s, JoinDone)
    ensures Demand(cfg, clock, s) == |s.orderChannel| <= cfg.orderCap
  {
    forall w | 0 <= w < |s.workers|
      ensures s.workers[w].pc.Exited?
    {
      assert Joined(s, w);
    }
    AllDueZero(cfg.params, clock, s.workers);
  }

  lemma DemandFalls(cfg: Config, clock: Clock, s: System, step: Step)
    requires ShuttingDown(s) && Enabled(cfg, s, step) && Follows(clock, s, step)
    ensures Demand(cfg, clock, Apply(cfg, s, step)) <= Demand(cfg, clock, s)
  {
    if step.WorkerStops? {
      AllDueUpdate(cfg.params, clock, s.workers, step.w, Apply(cfg, s, step).workers[step.w]);
    } else if OfWorker(step) {
      WorkerKeepsDemand(cfg, clock, s, step);
    } else {
      assert Apply(cfg, s, step).workers == s.workers;
    }
  }

  // ----- whether shutdown can block, and whether it can finish, with stop raised or not -----

  /** The clock shows every worker what its log says it read. */
  ghost predicate Logged(clock: Clock, s: System) {
    forall w: nat, i: nat :: w < |s.workers| && i < |s.workers[w].processed| ==>
      clock(w, i) == s.workers[w].processed[i].now
  }

  lemma LogGrows(cfg: Config, s: System, step: Step, w: nat)
    requires Enabled(cfg, s, step) && w < |s.workers|
    ensures
      var s' := Apply(cfg, s, step);
      && |s'.workers| == |s.workers|
      && s'.workers[w].processed ==
         s.workers[w].processed +
         (if step.WorkerTakes? && step.w == w then [TimedTick(s.workers[w].queue[0], step.now)] else [])
  {
  }

  lemma LoggedBefore(cfg: Config, clock: Clock, s: System, step: Step)
    requires Sharded(cfg, s) && Enabled(cfg, s, step) && Logged(clock, Apply(cfg, s, step))
    ensures Logged(clock, s) && Follows(clock, s, step)
  {
    var s' := Apply(cfg, s, step);
    forall w: nat, i: nat | w < |s.workers| && i < |s.workers[w].processed|
      ensures clock(w, i) == s.workers[w].processed[i].now
    {
      LogGrows(cfg, s, step, w);
      assert s'.workers[w].processed[i] == s.workers[w].processed[i];
    }
    if step.WorkerTakes? {
      LogGrows(cfg, s, step, step.w);
      assert WorkerInv(cfg, s.accepted, s.workers[step.w], step.w);
      assert s'.workers[step.w].processed[s.workers[step.w].ticks].now == step.now;
    }
  }

  lemma {:induction false} DemandFallsAlong(cfg: Config, clock: Clock, s0: System, steps: seq<Step>, s: System)
    requires Inv(cfg, s0) && ShuttingDown(s0) && Run(cfg, s0, steps, s) && Logged(clock, s)
    ensures Logged(clock, s0)
    ensures Demand(cfg, clock, s) <= Demand(cfg, clock, s0)
    decreases |steps|
  {
    if steps != [] {
      StepKeeps(cfg, s0, steps[0]);
      MeasureDrops(cfg, s0, steps[0]);
      DemandFallsAlong(cfg, clock, Apply(cfg, s0, steps[0]), steps[1..], s);
      LoggedBefore(cfg, clock, s0, steps[0]);
      DemandFalls(cfg, clock, s0, steps[0]);
    }
  }

  lemma BlockedWithinDemand(cfg: Config, clock: Clock, s: System)
    requires Blocked(cfg, s)
    ensures Demand(cfg, clock, s) > cfg.orderCap
  {
    AllDueAtLeast(cfg.params, clock, s.workers, s.dispatcher.next);
  }

  lemma Prepend(cfg: Config, s0: System, step: Step, rest: seq<Step>, s: System)
    requires Enabled(cfg, s0, step) && Run(cfg, Apply(cfg, s0, step), rest, s)
    ensures Run(cfg, s0, [step] + rest, s)
  {
    assert ([step] + rest)[1..] == rest;
  }

  predicate BeforeFinalDrain(s: System) {
    s.dispatcher.Closing? || s.dispatcher.Joining?
  }

  /** Orders due beyond what the channel holds lead to a blocked shutdown. */
  lemma {:induction false} LeadToBlocked(cfg: Config, clock: Clock, s0: System) returns (steps: seq<Step>, s: System)
    requires Sound(cfg) && Phases(cfg, s0) && BeforeFinalDrain(s0) && Demand(cfg, clock, s0) > cfg.orderCap
    ensures Run(cfg, s0, steps, s) && Blocked(cfg, s)
    decreases Measure(cfg, s0)
  {
    if Blocked(cfg, s0) {
      steps, s := [], s0;
    } else {
      var step := NextMove(cfg, clock, s0);
      var s1 := Apply(cfg, s0, step);
      PhasesKept(cfg, s0, step);
      MeasureDrops(cfg, s0, step);
      if OfWorker(step) {
        WorkerKeepsDemand(cfg, clock, s0, step);
      } else if step.JoinDone? {
        NothingDueOnceJoined(cfg, clock, s0);
        assert false;
      } else {
        assert s1.workers == s0.workers && s1.orderChannel == s0.orderChannel;
      }
      var rest;
      rest, s := LeadToBlocked(cfg, clock, s1);
      Prepend(cfg, s0, step, rest, s);
      steps := [step] + rest;
    }
  }

  ghost predicate CanBlock(cfg: Config, s0: System) {
    exists steps: seq<Step>, s: System :: Run(cfg, s0, steps, s) && Blocked(cfg, s)
  }

  ghost predicate CanFinish(cfg: Config, s0: System) {
    exists steps: seq<Step>, s: System :: Run(cfg, s0, steps, s) && s.dispatcher.Done?
  }

  function ReadFrom(s: System): Clock {
    (w: nat, i: nat) =>
      if w < |s.workers| && i < |s.workers[w].processed| then s.workers[w].processed[i].now else 0
  }

  /** However the loop was left, and whether stop was raised before, is raised later or never, some run
      of the shutdown blocks exactly when for some clock readings the orders still due do not fit the
      order channel. */
  lemma ShutdownMayBlock(cfg: Config, s0: System)
    requires Sound(cfg) && Reachable(cfg, s0) && s0.dispatcher.Closing?
    ensures CanBlock(cfg, s0) <==> exists clock: Clock :: Demand(cfg, clock, s0) > cfg.orderCap
  {
    ReachableIsSound(cfg, s0);
    if CanBlock(cfg, s0) {
      var steps: seq<Step>, s: System :| Run(cfg, s0, steps, s) && Blocked(cfg, s);
      DemandFallsAlong(cfg, ReadFrom(s), s0, steps, s);
      BlockedWithinDemand(cfg, ReadFrom(s), s);
    }
    if clock: Clock :| Demand(cfg, clock, s0) > cfg.orderCap {
      var steps, s := LeadToBlocked(cfg, clock, s0);
    }
  }

  lemma RestIs(cfg: Config, s0: System, steps: seq<Step>, s: System)
    requires Sound(cfg) && Phases(cfg, s0) && ShuttingDown(s0) && Run(cfg, s0, steps, s)
    ensures Stuck(cfg, s) <==> s.dispatcher.Done? || Blocked(cfg, s)
  {
    ShutdownIsBounded(cfg, s0, steps, s);
    StuckExactly(cfg, s);
  }

  /** Every run that has come to rest, which they all do, is done. */
  ghost predicate MustFinish(cfg: Config, s0: System) {
    forall steps: seq<Step>, s: System :: Run(cfg, s0, steps, s) && Stuck(cfg, s) ==> s.dispatcher.Done?
  }

  lemma RestsDoneOrBlocked(cfg: Config, s0: System)
    requires Sound(cfg) && Phases(cfg, s0) && ShuttingDown(s0)
    ensures MustFinish(cfg, s0) <==> !CanBlock(cfg, s0)
  {
    if CanBlock(cfg, s0) {
      var steps: seq<Step>, s: System :| Run(cfg, s0, steps, s) && Blocked(cfg, s);
      RestIs(cfg, s0, steps, s);
      assert MustFinish(cfg, s0) ==> s.dispatcher.Done?;
    } else {
      forall steps: seq<Step>, s: System | Run(cfg, s0, steps, s) && Stuck(cfg, s)
        ensures s.dispatcher.Done?
      {
        RestIs(cfg, s0, steps, s);
      }
    }
  }

  /** So a shutdown is sure to finish, in every interleaving, exactly when the orders due fit whatever
      the clock shows. */
  lemma ShutdownMustFinish(cfg: Config, s0: System)
    requires Sound(cfg) && Reachable(cfg, s0) && s0.dispatcher.Closing?
    ensures MustFinish(cfg, s0) <==> forall clock: Clock :: Demand(cfg, clock, s0) <= cfg.orderCap
  {
    ReachableIsSound(cfg, s0);
    RestsDoneOrBlocked(cfg, s0);
    ShutdownMayBlock(cfg, s0);
  }

  /** The orders that must pass through the channel even if every worker stops at once. */
  ghost function Held(s: System): nat {
    |s.orderChannel| + Total(InHand, s.workers)
  }

  lemma HeldGrows(cfg: Config, s: System, step: Step)
    requires Phases(cfg, s) && BeforeFinalDrain(s) && Enabled(cfg, s, step)
    ensures Held(Apply(cfg, s, step)) >= Held(s)
    ensures !step.WorkerTakes? ==> Held(Apply(cfg, s, step)) == Held(s)
  {
    if OfWorker(step) && Moves(step) {
      TotalUpdate(InHand, s.workers, step.w, Apply(cfg, s, step).workers[step.w]);
    }
  }

  lemma HeldOnceJoined(cfg: Config, s: System)
    requires Phases(cfg, s) && Enabled(cfg, s, JoinDone)
    ensures Held(s) <= cfg.orderCap
  {
    forall w | 0 <= w < |s.workers|
      ensures s.workers[w].pc.Exited?
    {
      assert Joined(s, w);
    }
    TotalZero(InHand, s.workers);
  }

  lemma {:induction false} FinishedFits(cfg: Config, s0: System, steps: seq<Step>, s: System)
    requires Sound(cfg) && Phases(cfg, s0) && BeforeFinalDrain(s0)
    requires Run(cfg, s0, steps, s) && s.dispatcher.Done?
    ensures Held(s0) <= cfg.orderCap
    decreases |steps|
  {
    if steps[0].JoinDone? {
      HeldOnceJoined(cfg, s0);
    } else {
      PhasesKept(cfg, s0, steps[0]);
      HeldGrows(cfg, s0, steps[0]);
      FinishedFits(cfg, Apply(cfg, s0, steps[0]), steps[1..], s);
    }
  }

  /** With stop raised: let the joined worker send what it holds and stop. */
  lemma NextStop(cfg: Config, s: System) returns (step: Step)
    requires Phases(cfg, s) && ShuttingDown(s) && s.stop && !s.dispatcher.Done?
    requires BeforeFinalDrain(s) ==> Held(s) <= cfg.orderCap
    ensures Enabled(cfg, s, step) && Moves(step) && !step.WorkerTakes?
  {
    match s.dispatcher
    case Closing => step := CloseChannels;
    case FinalDraining => step := if s.orderChannel != [] then DrainOne(true) else DrainEmpty;
    case Joining(k) =>
      if k == cfg.n {
        step := JoinDone;
      } else if s.workers[k].pc.Exited? {
        step := JoinNext;
      } else if s.workers[k].pc.Sending? {
        TotalAtLeast(InHand, s.workers, k);
        step := WorkerSends(k);
      } else {
        step := WorkerStops(k);
      }
  }

  lemma {:induction false} LeadToDone(cfg: Config, s0: System) returns (steps: seq<Step>, s: System)
    requires Sound(cfg) && Phases(cfg, s0) && ShuttingDown(s0) && s0.stop
    requires BeforeFinalDrain(s0) ==> Held(s0) <= cfg.orderCap
    ensures Run(cfg, s0, steps, s) && s.dispatcher.Done?
    decreases Measure(cfg, s0)
  {
    if s0.dispatcher.Done? {
      steps, s := [], s0;
    } else {
      var step := NextStop(cfg, s0);
      PhasesKept(cfg, s0, step);
      MeasureDrops(cfg, s0, step);
      if BeforeFinalDrain(s0) {
        HeldGrows(cfg, s0, step);
      }
      var rest;
      rest, s := LeadToDone(cfg, Apply(cfg, s0, step));
      Prepend(cfg, s0, step, rest, s);
      steps := [step] + rest;
    }
  }

  /** And some run finishes exactly when the orders already made fit the order channel: then raising stop
      helps, and otherwise nothing does. */
  lemma ShutdownMayFinish(cfg: Config, s0: System)
    requires Sound(cfg) && Reachable(cfg, s0) && s0.dispatcher.Closing?
    ensures CanFinish(cfg, s0) <==> |s0.orderChannel| + Total(InHand, s0.workers) <= cfg.orderCap
  {
    ReachableIsSound(cfg, s0);
    if CanFinish(cfg, s0) {
      var steps: seq<Step>, s: System :| Run(cfg, s0, steps, s) && s.dispatcher.Done?;
      FinishedFits(cfg, s0, steps, s);
    }
    if Held(s0) <= cfg.orderCap {
      var s1 := Apply(cfg, s0, RaiseStop);
      var rest, s := LeadToDone(cfg, s1);
      Prepend(cfg, s0, RaiseStop, rest, s);
    }
  }

  // ----- with stop not raised the outcome does not depend on the interleaving -----

  /** Before the join is over nothing leaves the order channel; once it is, all of it was let in. */
  ghost predicate Within(cfg: Config, clock: Clock, s: System, demand: nat) {
    && !s.stop
    && (if s.dispatcher.FinalDraining? || s.dispatcher.Done? then demand <= cfg.orderCap
        else Demand(cfg, clock, s) == demand)
  }

  lemma WithinKept(cfg: Config, clock: Clock, s: System, step: Step, demand: nat)
    requires Sound(cfg) && Phases(cfg, s) && ShuttingDown(s) && Within(cfg, clock, s, demand)
    requires Enabled(cfg, s, step) && Follows(clock, s, step) && !step.RaiseStop?
    ensures Within(cfg, clock, Apply(cfg, s, step), demand)
  {
    if OfWorker(step) {
      WorkerKeepsDemand(cfg, clock, s, step);
    } else if step.JoinDone? {
      NothingDueOnceJoined(cfg, clock, s);
    }
  }

  ghost predicate FollowedRun(cfg: Config, clock: Clock, s0: System, steps: seq<Step>, s: System)
    decreases |steps|
  {
    if steps == [] then s == s0
    else
      && Enabled(cfg, s0, steps[0])
      && Follows(clock, s0, steps[0]) && !steps[0].RaiseStop?
      && FollowedRun(cfg, clock, Apply(cfg, s0, steps[0]), steps[1..], s)
  }

  lemma {:induction false} WithinAlong(cfg: Config, clock: Clock, s0: System, steps: seq<Step>, s: System, demand: nat)
    requires Sound(cfg) && Phases(cfg, s0) && ShuttingDown(s0) && Within(cfg, clock, s0, demand)
    requires FollowedRun(cfg, clock, s0, steps, s)
    ensures Phases(cfg, s) && ShuttingDown(s) && Within(cfg, clock, s, demand)
    decreases |steps|
  {
    if steps != [] {
      PhasesKept(cfg, s0, steps[0]);
      MeasureDrops(cfg, s0, steps[0]);
      WithinKept(cfg, clock, s0, steps[0], demand);
      WithinAlong(cfg, clock, Apply(cfg, s0, steps[0]), steps[1..], s, demand);
    }
  }

  /** With stop never raised, a shutdown that has come to rest has finished exactly when the orders
      still due at loop exit fit the order channel; otherwise it is deadlocked. */
  lemma ShutdownExact(cfg: Config, clock: Clock, s0: System, steps: seq<Step>, s: System)
    requires Sound(cfg) && Reachable(cfg, s0) && s0.dispatcher.Closing? && !s0.stop
    requires FollowedRun(cfg, clock, s0, steps, s) && Stuck(cfg, s)
    ensures s.dispatcher.Done? <==> Demand(cfg, clock, s0) <= cfg.orderCap
    ensures Blocked(cfg, s) <==> Demand(cfg, clock, s0) > cfg.orderCap
  {
    ReachableIsSound(cfg, s0);
    WithinAlong(cfg, clock, s0, steps, s, Demand(cfg, clock, s0));
    StuckExactly(cfg, s);
    if Blocked(cfg, s) {
      BlockedWithinDemand(cfg, clock, s);
    }
  }

  lemma {:induction false} ComingWithinQueue(p: Params, clock: Clock, w: nat, x: Worker)
    ensures Coming(p, clock, w, x) <= |x.queue|
    decreases |x.queue|
  {
    if x.queue != [] {
      ComingWithinQueue(p, clock, w, Take(p, x, clock(w, x.ticks)));
    }
  }

  lemma {:induction false} DueWithinOwing(p: Params, clock: Clock, ws: seq<Worker>)
    ensures AllDue(p, clock, ws) <= Total(Owing, ws)
  {
    if ws != [] {
      DueWithinOwing(p, clock, ws[..|ws| - 1]);
      ComingWithinQueue(p, clock, |ws| - 1, ws[|ws| - 1]);
    }
  }

  /** Each tick makes at most one order, so the backlog bounds what is due. */
  lemma DemandWithinBacklog(cfg: Config, clock: Clock, s: System)
    ensures Demand(cfg, clock, s) <= Backlog(s)
  {
    DueWithinOwing(cfg.params, clock, s.workers);
  }
}
