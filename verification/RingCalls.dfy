/** The ring's steps as the callers see them: what a call was given, and what it answers. */
module RingCalls {
  import opened Basics
  import opened BoundedQueue
  import opened RingProtocol
  import opened RingSafety
  import opened RingTheorems

  // ----- a publish sends the bytes it was called with -----

  /** No call hands over more than a payload. */
  ghost predicate ArgumentsFit(steps: seq<Step>) {
    forall i :: 0 <= i < |steps| && steps[i].CallPublish? ==> |steps[i].bytes| <= PAYLOAD
  }

  /** What the `seq` stores among `steps` publish, if `current` is the argument of the call now open: at
      each of them the bytes of the last call before it. */
  ghost function Arguments(current: seq<byte>, steps: seq<Step>): seq<seq<byte>>
    requires |current| <= PAYLOAD && ArgumentsFit(steps)
    decreases |steps|
  {
    if steps == [] then []
    else
      match steps[0]
      case CallPublish(bytes) => Arguments(bytes, steps[1..])
      case StoreSeq => [Padded(current)] + Arguments(current, steps[1..])
      case _ => Arguments(current, steps[1..])
  }

  ghost predicate Carries(r: Ring, current: seq<byte>) {
    match r.producer.pc
    case PLoadTail(bytes) => bytes == current
    case PCopy(bytes, _) => bytes == current
    case _ => true
  }

  lemma CarriesOn(r: Ring, step: Step, current: seq<byte>)
    requires Shape(r) && Carries(r, current) && Enabled(r, step)
    ensures Carries(Apply(r, step), if step.CallPublish? then step.bytes else current)
    ensures Apply(r, step).published == r.published + (if step.StoreSeq? then [Padded(r.producer.pc.bytes)] else [])
    ensures step.StoreSeq? ==> r.producer.pc.bytes == current
    ensures step.CallPublish? ==> |step.bytes| <= PAYLOAD
  {
  }

  lemma {:induction false} RunPublishesArguments(current: seq<byte>, r0: Ring, steps: seq<Step>, r: Ring)
    requires |current| <= PAYLOAD && Carries(r0, current) && Run(r0, steps, r)
    ensures ArgumentsFit(steps)
    ensures r.published == r0.published + Arguments(current, steps)
    decreases |steps|
  {
    if steps != [] {
      var next := if steps[0].CallPublish? then steps[0].bytes else current;
      CarriesOn(r0, steps[0], current);
      RunPublishesArguments(next, Apply(r0, steps[0]), steps[1..], r);
      assert forall i :: 0 < i < |steps| ==> steps[i] == steps[1..][i - 1];
      assert Apply(r0, steps[0]).published + Arguments(next, steps[1..]) == r0.published + Arguments(current, steps);
    }
  }

  lemma InputStep(r: Ring, step: Step)
    requires Shape(r) && Enabled(r, step)
    ensures Apply(r, step).published == r.published + Entering(EventOf(r, step))
  {
  }

  lemma InputsFirst(e: Event<seq<byte>>, rest: seq<Event<seq<byte>>>, before: seq<seq<byte>>)
    ensures (before + Entering(e)) + Inputs(rest) == before + Inputs([e] + rest)
  {
    assert ([e] + rest)[1..] == rest;
  }

  lemma {:induction false} InputsArePublished(r0: Ring, steps: seq<Step>, r: Ring)
    requires Run(r0, steps, r)
    ensures r.published == r0.published + Inputs(Trace(r0, steps, r))
    decreases |steps|
  {
    if steps != [] {
      var r1, rest := Apply(r0, steps[0]), steps[1..];
      InputStep(r0, steps[0]);
      InputsArePublished(r1, rest, r);
      InputsFirst(EventOf(r0, steps[0]), Trace(r1, rest, r), r0.published);
    }
  }

  lemma FreshPublishes(r0: Ring, steps: seq<Step>, r: Ring)
    requires r0.published == [] && Carries(r0, []) && Run(r0, steps, r)
    ensures ArgumentsFit(steps)
    ensures r.published == Arguments([], steps) == Inputs(Trace(r0, steps, r))
  {
    RunPublishesArguments([], r0, steps, r);
    InputsArePublished(r0, steps, r);
    assert [] + Arguments([], steps) == Arguments([], steps);
    assert [] + Inputs(Trace(r0, steps, r)) == Inputs(Trace(r0, steps, r));
  }

  lemma InitIsFresh(cap: nat, junk: seq<seq<byte>>)
    requires cap > 0
    requires |junk| == cap && forall i :: 0 <= i < cap ==> |junk[i]| == PAYLOAD
    ensures Init(cap, junk).published == [] && Carries(Init(cap, junk), [])
  {
  }

  /** In every run from a fresh ring the messages published, which are the items that entered the queue, are
      the arguments of the publishing calls, padded with zeros. */
  lemma PublishesItsArgument(cap: nat, junk: seq<seq<byte>>, steps: seq<Step>, r: Ring)
    requires cap > 0
    requires |junk| == cap && forall i :: 0 <= i < cap ==> |junk[i]| == PAYLOAD
    requires Run(Init(cap, junk), steps, r)
    ensures ArgumentsFit(steps)
    ensures r.published == Arguments([], steps) == Inputs(Trace(Init(cap, junk), steps, r))
  {
    InitIsFresh(cap, junk);
    FreshPublishes(Init(cap, junk), steps, r);
  }

  /** Hence what consumers take are those arguments too, in order. */
  lemma ConsumesTheArguments(cap: nat, junk: seq<seq<byte>>, steps: seq<Step>, r: Ring)
    requires 0 < cap < 0x1_0000_0000_0000_0000
    requires |junk| == cap && forall i :: 0 <= i < cap ==> |junk[i]| == PAYLOAD
    requires Run(Init(cap, junk), steps, r)
    ensures ArgumentsFit(steps)
    ensures Outputs(Trace(Init(cap, junk), steps, r)) <= Arguments([], steps)
  {
    PublishesItsArgument(cap, junk, steps, r);
    Linearizable(cap, junk, steps, r);
  }

  // ----- a call answers what happened -----

  predicate Publishing(r: Ring) {
    r.producer.pc.PLoadTail? || r.producer.pc.PCopy?
  }

  predicate Consuming(r: Ring) {
    !r.consumer.pc.CIdle?
  }

  /** A publish that has not stored `seq` returns at its `tail` load or not at all, and then the event is the
      refusal; a consume returns at its `seq` load with the refusal, or at its `tail` store with the message. */
  lemma CallsAnswerTheirEvents(r: Ring, step: Step)
    requires Shape(r) && Enabled(r, step)
    ensures step.LoadTail? ==> (Apply(r, step).producer.pc.PIdle? <==> EventOf(r, step) == RefusedFull)
    ensures step.LoadSeq? ==> (Apply(r, step).consumer.pc.CIdle? <==> EventOf(r, step) == RefusedEmpty)
    ensures Publishing(r) && !Publishing(Apply(r, step)) ==>
              step.ReplaceProducer? || EventOf(r, step) == RefusedFull || EventOf(r, step).Enqueued?
    ensures EventOf(r, step) == RefusedFull || EventOf(r, step).Enqueued? ==>
              Publishing(r) && !Publishing(Apply(r, step))
    ensures Consuming(r) && !Consuming(Apply(r, step)) ==>
              step.ReplaceConsumer? || EventOf(r, step) == RefusedEmpty || EventOf(r, step).Dequeued?
    ensures EventOf(r, step) == RefusedEmpty || EventOf(r, step).Dequeued? ==>
              Consuming(r) && !Consuming(Apply(r, step))
  {
  }

  /** What each load decides, the stale ones included: any entry of the history may be read, a publish is
      refused exactly when the ring was a lap ahead of the tail it read, and a consume exactly when it
      read an old number or nothing is unread. */
  lemma LoadsDecide(cap: nat, r: Ring, k: nat)
    requires Reachable(cap, r)
    ensures r.producer.pc.PLoadTail? && k < |r.tails| ==>
              && Enabled(r, LoadTail(k))
              && (EventOf(r, LoadTail(k)) == RefusedFull <==> |r.published| - k >= cap)
    ensures |r.tails| == |r.released| + 1
    ensures r.consumer.pc.CLoadSeq? && k < |r.slots[Source(r)].seqs| ==>
              && Enabled(r, LoadSeq(k))
              && (EventOf(r, LoadSeq(k)) == RefusedEmpty <==> k < |r.slots[Source(r)].seqs| - 1 || Queue(r) == [])
  {
    ReachableIsSound(cap, r);
    if r.producer.pc.PLoadTail? && k < |r.tails| {
      NotFull(r, k);
    }
    if r.consumer.pc.CLoadSeq? && k < |r.slots[Source(r)].seqs| {
      var m, seqs := |r.released|, r.slots[Source(r)].seqs;
      assert Source(r) == SlotOf(cap, m);
      assert m < |r.published| ==> Last(r.slots[SlotOf(cap, m)].seqs).value == LapMark(m);
      if k < |seqs| - 1 {
        SlotShowsAtMost(cap, r, k);
      }
    }
  }

  lemma SlotShowsAtMost(cap: nat, r: Ring, k: nat)
    requires Reachable(cap, r) && r.consumer.pc.CLoadSeq? && k < |r.slots[Source(r)].seqs| - 1
    ensures r.slots[Source(r)].seqs[k].value != r.consumer.next + 1
  {
    ReachableIsSound(cap, r);
    var m, seqs := |r.released|, r.slots[Source(r)].seqs;
    if m < |r.published| {
      assert Last(r.slots[SlotOf(cap, m)].seqs).value == LapMark(m);
    }
  }

  ghost function CountPublishes(steps: seq<Step>): nat {
    if steps == [] then 0 else (if steps[0].CallPublish? then 1 else 0) + CountPublishes(steps[1..])
  }

  ghost function CountConsumes(steps: seq<Step>): nat {
    if steps == [] then 0 else (if steps[0].CallConsume? then 1 else 0) + CountConsumes(steps[1..])
  }

  ghost function CountReplaced(steps: seq<Step>): nat {
    if steps == [] then 0
    else (if steps[0].ReplaceProducer? || steps[0].ReplaceConsumer? then 1 else 0) + CountReplaced(steps[1..])
  }

  /** Publishes answered, either way. */
  ghost function PublishAnswers(trace: seq<Event<seq<byte>>>): nat {
    if trace == [] then 0
    else (if trace[0] == RefusedFull || trace[0].Enqueued? then 1 else 0) + PublishAnswers(trace[1..])
  }

  ghost function ConsumeAnswers(trace: seq<Event<seq<byte>>>): nat {
    if trace == [] then 0
    else (if trace[0] == RefusedEmpty || trace[0].Dequeued? then 1 else 0) + ConsumeAnswers(trace[1..])
  }

  function Open(b: bool): nat { if b then 1 else 0 }

  lemma CallOpens(r: Ring, step: Step)
    requires Shape(r) && Enabled(r, step)
    ensures !Publishing(r) && Publishing(Apply(r, step)) <==> step.CallPublish?
    ensures !Consuming(r) && Consuming(Apply(r, step)) <==> step.CallConsume?
  {
  }

  /** Every call gets one answer, unless its process was replaced first or it is still open. */
  lemma {:induction false} EveryCallIsAnswered(r0: Ring, steps: seq<Step>, r: Ring)
    requires Run(r0, steps, r)
    ensures
      var trace := Trace(r0, steps, r);
      var publishes := CountPublishes(steps) + Open(Publishing(r0));
      var consumes := CountConsumes(steps) + Open(Consuming(r0));
      && PublishAnswers(trace) + Open(Publishing(r)) <= publishes
      && publishes <= PublishAnswers(trace) + Open(Publishing(r)) + CountReplaced(steps)
      && ConsumeAnswers(trace) + Open(Consuming(r)) <= consumes
      && consumes <= ConsumeAnswers(trace) + Open(Consuming(r)) + CountReplaced(steps)
    decreases |steps|
  {
    if steps != [] {
      var r1, rest := Apply(r0, steps[0]), steps[1..];
      CallsAnswerTheirEvents(r0, steps[0]);
      CallOpens(r0, steps[0]);
      EveryCallIsAnswered(r1, rest, r);
      var trace := Trace(r0, steps, r);
      assert trace[0] == EventOf(r0, steps[0]) && trace[1..] == Trace(r1, rest, r);
    }
  }

  // ----- threads know of each other only what was released to them -----

  ghost predicate LearntByProducer(r: Ring) {
    r.producer.view.c == 0 || exists k :: 0 <= k < |r.tails| && r.tails[k].view.c == r.producer.view.c
  }

  ghost predicate ShownBySlot(slot: Slot, p: nat) {
    exists k :: 0 <= k < |slot.seqs| && slot.seqs[k].view.p == p
  }

  ghost predicate LearntByConsumer(r: Ring) {
    || r.consumer.view.p == 0
    || (exists k :: 0 <= k < |r.heads| && r.heads[k].view.p == r.consumer.view.p)
    || (exists i :: 0 <= i < |r.slots| && ShownBySlot(r.slots[i], r.consumer.view.p))
  }

  lemma ProducerLearns(r: Ring, step: Step)
    requires Shape(r) && LearntByProducer(r) && Enabled(r, step)
    ensures LearntByProducer(Apply(r, step))
  {
    var r' := Apply(r, step);
    assert forall k :: 0 <= k < |r.tails| ==> r'.tails[k] == r.tails[k];
  }

  lemma StampsStay(r: Ring, step: Step)
    requires Shape(r) && Enabled(r, step)
    ensures |Apply(r, step).slots| == |r.slots| && |r.heads| <= |Apply(r, step).heads|
    ensures forall k :: 0 <= k < |r.heads| ==> Apply(r, step).heads[k] == r.heads[k]
    ensures forall i, p :: 0 <= i < |r.slots| && ShownBySlot(r.slots[i], p) ==> ShownBySlot(Apply(r, step).slots[i], p)
  {
    var r' := Apply(r, step);
    forall i, p | 0 <= i < |r.slots| && ShownBySlot(r.slots[i], p)
      ensures ShownBySlot(r'.slots[i], p)
    {
      var k :| 0 <= k < |r.slots[i].seqs| && r.slots[i].seqs[k].view.p == p;
      assert r'.slots[i].seqs[k] == r.slots[i].seqs[k];
    }
  }

  lemma ConsumerLearns(r: Ring, step: Step)
    requires Shape(r) && LearntByConsumer(r) && Enabled(r, step)
    ensures LearntByConsumer(Apply(r, step))
  {
    var r' := Apply(r, step);
    StampsStay(r, step);
    if step.LoadSeq? {
      assert ShownBySlot(r.slots[Source(r)], r.slots[Source(r)].seqs[step.k].view.p);
    } else if step.LoadHead? {
      assert r'.heads[step.k].view.p == r.heads[step.k].view.p;
    } else {
      assert r'.consumer.view.p == r.consumer.view.p;
    }
  }

  lemma {:induction false} RunLearns(r0: Ring, steps: seq<Step>, r: Ring)
    requires LearntByProducer(r0) && LearntByConsumer(r0) && Run(r0, steps, r)
    ensures LearntByProducer(r) && LearntByConsumer(r)
    decreases |steps|
  {
    if steps != [] {
      ProducerLearns(r0, steps[0]);
      ConsumerLearns(r0, steps[0]);
      RunLearns(Apply(r0, steps[0]), steps[1..], r);
    }
  }

  function Later(a: nat, b: nat): nat {
    if a < b then b else a
  }

  /** A load teaches no more than its own stamp, however much newer ones know, and nothing else teaches. */
  lemma LoadsTeachTheirStamp(r: Ring, step: Step)
    requires Shape(r) && Enabled(r, step)
    ensures Apply(r, step).producer.view.c ==
            (if step.LoadTail? then Later(r.producer.view.c, r.tails[step.k].view.c) else r.producer.view.c)
    ensures Apply(r, step).consumer.view.p ==
            (match step
             case LoadSeq(k) => Later(r.consumer.view.p, r.slots[Source(r)].seqs[k].view.p)
             case LoadHead(k) => Later(r.consumer.view.p, r.heads[k].view.p)
             case _ => r.consumer.view.p)
  {
  }

  /** The absence of races rests on the release stores alone: in every reachable state all that a thread
      knows of the other was the knowledge of a store it can have loaded. */
  lemma OnlyReleasesTeach(cap: nat, r: Ring)
    requires Reachable(cap, r)
    ensures LearntByProducer(r) && LearntByConsumer(r)
  {
    var junk: seq<seq<byte>>, steps: seq<Step> :|
      && |junk| == cap
      && (forall i :: 0 <= i < cap ==> |junk[i]| == PAYLOAD)
      && Run(Init(cap, junk), steps, r);
    RunLearns(Init(cap, junk), steps, r);
  }

  /** A `head` value comes with the knowledge of the `seq` store of the last message it counts. */
  ghost predicate Counts(r: Ring, stamp: Stamp)
    requires Shape(r)
  {
    stamp.value == 0 || CountsFrom(r.slots[SlotOf(r.cap, stamp.value - 1)], stamp)
  }

  ghost predicate CountsFrom(slot: Slot, stamp: Stamp) {
    exists k :: 0 <= k < |slot.seqs| && slot.seqs[k].value == stamp.value && slot.seqs[k].view.p <= stamp.view.p
  }

  ghost predicate HeadsCount(r: Ring)
    requires Shape(r)
  {
    forall k :: 0 <= k < |r.heads| ==> Counts(r, r.heads[k])
  }

  lemma SeqsGrow(r: Ring, step: Step, i: nat)
    requires Shape(r) && Enabled(r, step) && Shape(Apply(r, step)) && i < r.cap
    ensures r.slots[i].seqs <= Apply(r, step).slots[i].seqs
  {
  }

  lemma CountsStill(slot: Slot, slot': Slot, stamp: Stamp)
    requires CountsFrom(slot, stamp) && slot.seqs <= slot'.seqs
    ensures CountsFrom(slot', stamp)
  {
    var k :| 0 <= k < |slot.seqs| && slot.seqs[k].value == stamp.value && slot.seqs[k].view.p <= stamp.view.p;
    assert slot'.seqs[k] == slot.seqs[k];
  }

  lemma NewHeadCounts(r: Ring)
    requires Shape(r) && Causal(r) && Cursors(r) && Laps(r) && Enabled(r, StoreHead)
    ensures Counts(r, Stamp(r.producer.next, Clock(r.producer.view.p + 1, r.producer.view.c)))
  {
    var slot := r.slots[SlotOf(r.cap, r.producer.next - 1)];
    assert Last(slot.seqs).value == LapMark(r.producer.next - 1);
    var k := |slot.seqs| - 1;
    assert slot.seqs[k] == Last(slot.seqs);
  }

  lemma HeadsMove(r: Ring, step: Step)
    requires Shape(r) && Enabled(r, step)
    ensures Apply(r, step).cap == r.cap
    ensures Apply(r, step).heads ==
            r.heads + (if step.StoreHead? then [Stamp(r.producer.next, Clock(r.producer.view.p + 1, r.producer.view.c))] else [])
  {
  }

  lemma HeadsCountOn(r: Ring, step: Step)
    requires Inv(r) && HeadsCount(r) && Enabled(r, step) && Shape(Apply(r, step))
    ensures HeadsCount(Apply(r, step))
  {
    var r' := Apply(r, step);
    HeadsMove(r, step);
    if step.StoreHead? { NewHeadCounts(r); }
    forall k | 0 <= k < |r'.heads|
      ensures Counts(r', r'.heads[k])
    {
      var stamp := r'.heads[k];
      assert Counts(r, stamp) by {
        if k < |r.heads| { assert stamp == r.heads[k]; }
      }
      if stamp.value > 0 {
        var i := SlotOf(r.cap, stamp.value - 1);
        SeqsGrow(r, step, i);
        CountsStill(r.slots[i], r'.slots[i], stamp);
      }
    }
  }

  lemma {:induction false} RunHeadsCount(r0: Ring, steps: seq<Step>, r: Ring)
    requires Inv(r0) && HeadsCount(r0) && Run(r0, steps, r)
    ensures Inv(r) && HeadsCount(r)
    decreases |steps|
  {
    if steps != [] {
      StepKeeps(r0, steps[0]);
      HeadsCountOn(r0, steps[0]);
      RunHeadsCount(Apply(r0, steps[0]), steps[1..], r);
    }
  }

  /** Whoever acquires a `head` value knows of the publish of the message before it, however old the value. */
  lemma HeadIsReleased(cap: nat, r: Ring, k: nat)
    requires Reachable(cap, r) && k < |r.heads|
    ensures Counts(r, r.heads[k])
  {
    var junk: seq<seq<byte>>, steps: seq<Step> :|
      && |junk| == cap
      && (forall i :: 0 <= i < cap ==> |junk[i]| == PAYLOAD)
      && Run(Init(cap, junk), steps, r);
    InitHolds(cap, junk);
    RunHeadsCount(Init(cap, junk), steps, r);
  }
}
