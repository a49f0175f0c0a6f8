/** The other cost of replacing a producer between its two stores: with a message unread, its successor
    can overwrite the bytes that the consumer is reading. */
module RingRace {
  import opened Basics
  import opened RingProtocol
  import opened RingSafety
  import opened RingTheorems
  import opened RingProgress
  import opened RingTakeover

  // ----- reads that no tail store has released -----

  ghost predicate ReadSince(slot: Slot, done: set<nat>, c: nat) {
    forall b :: 0 <= b < |slot.cells| && b in done ==> slot.cells[b].readAt > c
  }

  ghost predicate AllReadSince(slot: Slot, c: nat) {
    forall b :: 0 <= b < |slot.cells| ==> slot.cells[b].readAt > c
  }

  /** All the producer knows of the consumer it learnt from `tail`, and what the consumer has read in
      its present call is newer than that. */
  ghost predicate Unreleased(r: Ring)
    requires Shape(r)
  {
    var c := Last(r.tails).view.c;
    && r.producer.view.c <= c <= r.consumer.view.c
    && match r.consumer.pc
       case CCopy(_, done) => ReadSince(r.slots[SlotOf(r.cap, r.consumer.next)], done, c)
       case CStoreTail(_) => AllReadSince(r.slots[SlotOf(r.cap, r.consumer.next - 1)], c)
       case _ => true
  }

  lemma UnreleasedKeptByProducer(r: Ring, step: Step)
    requires Shape(r) && Cursors(r) && Windows(r) && Unreleased(r)
    requires Enabled(r, step) && Shape(Apply(r, step)) && !ConsumerStep(step)
    ensures Unreleased(Apply(r, step))
  {
  }

  lemma UnreleasedKeptByConsumer(r: Ring, step: Step)
    requires Shape(r) && Cursors(r) && Unreleased(r)
    requires Enabled(r, step) && Shape(Apply(r, step)) && ConsumerStep(step)
    ensures Unreleased(Apply(r, step))
  {
  }

  lemma UnreleasedKept(r: Ring, step: Step)
    requires Shape(r) && Cursors(r) && Windows(r) && Unreleased(r)
    requires Enabled(r, step) && Shape(Apply(r, step))
    ensures Unreleased(Apply(r, step))
  {
    if ConsumerStep(step) {
      UnreleasedKeptByConsumer(r, step);
    } else {
      UnreleasedKeptByProducer(r, step);
    }
  }

  lemma {:induction false} RunKeepsUnreleased(r0: Ring, steps: seq<Step>, r: Ring)
    requires Inv(r0) && Unreleased(r0) && Run(r0, steps, r)
    ensures Inv(r) && Unreleased(r)
    decreases |steps|
  {
    if steps != [] {
      StepKeeps(r0, steps[0]);
      UnreleasedKept(r0, steps[0]);
      RunKeepsUnreleased(Apply(r0, steps[0]), steps[1..], r);
    }
  }

  lemma ReachableUnreleased(cap: nat, r: Ring)
    requires Reachable(cap, r)
    ensures Inv(r) && Unreleased(r)
  {
    var junk: seq<seq<byte>>, steps: seq<Step> :|
      && |junk| == cap
      && (forall i :: 0 <= i < cap ==> |junk[i]| == PAYLOAD)
      && Run(Init(cap, junk), steps, r);
    InitHolds(cap, junk);
    RunKeepsUnreleased(Init(cap, junk), steps, r);
  }

  // ----- the consumer reads on to the last message -----

  /** The producer stands between its two stores, in `h`, and an unread message waits. */
  ghost predicate Caught(h: Ring) {
    Inv(h) && Unreleased(h) && h.producer.pc.PStoreHead? && |h.released| < |h.published|
  }

  /** The consumer has read the last message and not yet stored `tail`. */
  ghost predicate AtLastTail(h: Ring) {
    |h.published| == |h.released| + 1 && h.consumer.pc.CStoreTail?
  }

  lemma NextRead(h: Ring) returns (step: Step)
    requires Caught(h) && !AtLastTail(h)
    ensures ConsumerStep(step) && Enabled(h, step) && Latest(h, step) && !step.ReplaceConsumer? && !step.LoadHead?
    ensures step.LoadSeq? ==> Apply(h, step).consumer.pc.CCopy?
    ensures step.StoreTail? ==> |h.published| > |h.released| + 1
  {
    match h.consumer.pc
    case CIdle => step := CallConsume(seq(PAYLOAD, _ => 0));
    case CStoreTail(_) => step := StoreTail;
    case CLoadSeq(_) =>
      step := LoadSeq(|h.slots[Source(h)].seqs| - 1);
      assert Last(h.slots[SlotOf(h.cap, |h.released|)].seqs).value == LapMark(|h.released|);
    case CCopy(_, done) =>
      if AllBytes(done) {
        step := FinishCopy;
      } else {
        var b: nat :| b < PAYLOAD && b !in done;
        step := ReadByte(b);
      }
  }

  lemma ReadKeepsCaught(h: Ring, step: Step)
    requires Caught(h) && ConsumerStep(step) && Enabled(h, step)
    requires step.StoreTail? ==> |h.published| > |h.released| + 1
    ensures Caught(Apply(h, step))
    ensures Apply(h, step).published == h.published
    ensures |Apply(h, step).released| == |h.released| + (if step.StoreTail? then 1 else 0)
  {
    StepKeeps(h, step);
    UnreleasedKept(h, step);
    HealingCommutes(h, step);
  }

  function Stage(n: nat, pc: ConsumerPc): nat {
    if pc.CIdle? then n + 4 else ConsumerLeft(n, pc)
  }

  lemma StageDrops(n: nat, h: Ring, step: Step)
    requires n == PAYLOAD && Shape(h) && Enabled(h, step) && (step.CallConsume? || StepOf(step, false))
    requires !step.StoreTail? && (step.LoadSeq? ==> Apply(h, step).consumer.pc.CCopy?)
    ensures Stage(n, Apply(h, step).consumer.pc) < Stage(n, h.consumer.pc)
  {
    if !step.CallConsume? {
      ConsumerPcMoves(h, step);
      ConsumerLeftDrops(n, h, step);
    }
  }

  /** The same ring under a producer that has read the old `head`. */
  ghost function Restarted(h: Ring): Ring
    requires h.published != []
  {
    h.(producer := h.producer.(next := |h.published| - 1, pc := PIdle))
  }

  lemma RestartCommutes(h: Ring, step: Step)
    requires Shape(h) && h.published != [] && ConsumerStep(step) && Enabled(h, step) && Latest(h, step)
    requires Apply(h, step).published == h.published
    ensures Shape(Restarted(h)) && Enabled(Restarted(h), step) && Latest(Restarted(h), step)
    ensures Restarted(Apply(h, step)) == Apply(Restarted(h), step)
  {
  }

  lemma {:induction false} ReadOn(n: nat, h: Ring) returns (steps: seq<Step>, h': Ring)
    requires n == PAYLOAD && Caught(h)
    ensures Caught(h') && AtLastTail(h')
    ensures AnyRun(Restarted(h), steps, Restarted(h'))
    decreases |h.published| - |h.released|, Stage(n, h.consumer.pc)
  {
    if AtLastTail(h) {
      steps, h' := [], h;
    } else {
      var step := NextRead(h);
      ReadKeepsCaught(h, step);
      RestartCommutes(h, step);
      if !step.StoreTail? {
        StageDrops(n, h, step);
      }
      var rest;
      rest, h' := ReadOn(n, Apply(h, step));
      steps := [step] + rest;
      assert steps[1..] == rest;
    }
  }

  // ----- the race -----

  lemma EnterPublish(r: Ring) returns (steps: seq<Step>, r': Ring)
    requires Shape(r) && r.producer.pc.PIdle? && r.producer.next + 1 < U64
    requires Last(r.tails).value == r.producer.next && r.producer.view.c <= Last(r.tails).view.c
    ensures AnyRun(r, steps, r') && Shape(r')
    ensures r'.producer.pc == PCopy([], {}) && r'.producer.next == r.producer.next
    ensures r'.producer.view.c == Last(r.tails).view.c && r' == r.(producer := r'.producer)
  {
    var s0, s1 := CallPublish([]), LoadTail(|r.tails| - 1);
    var r1 := Apply(r, s0);
    r' := Apply(r1, s1);
    steps := [s0, s1];
    assert AnyRun(r', [], r');
    assert AnyRun(r1, [s1], r');
    assert steps[1..] == [s1];
  }

  lemma {:induction false} RunsChain(r0: Ring, a: seq<Step>, r1: Ring, b: seq<Step>, r2: Ring)
    requires AnyRun(r0, a, r1) && AnyRun(r1, b, r2)
    ensures AnyRun(r0, a + b, r2)
    decreases |a|
  {
    if a == [] {
      assert a + b == b;
    } else {
      RunsChain(Apply(r0, a[0]), a[1..], r1, b, r2);
      assert (a + b)[1..] == a[1..] + b;
    }
  }

  lemma WritesWhatIsRead(h: Ring, r: Ring)
    requires Caught(h) && AtLastTail(h) && Shape(r)
    requires r == Restarted(h).(producer := r.producer)
    requires r.producer.pc == PCopy([], {}) && r.producer.next == |h.published| - 1
    requires r.producer.view.c == Last(h.tails).view.c
    ensures Enabled(r, WriteByte(0)) && Races(r, WriteByte(0))
  {
    assert h.consumer.next - 1 == r.producer.next;
  }

  /** Whatever the consumer is doing when the producer dies in the window, and however many messages are
      unread, a run follows in which the successor writes a byte of the last of them that the
      consumer has read and not released. */
  lemma TakeoverCanRace(cap: nat, r: Ring) returns (steps: seq<Step>, r': Ring)
    requires Reachable(cap, r)
    requires r.producer.pc.PStoreHead? && Queue(r) != []
    ensures AnyRun(Apply(r, ReplaceProducer), steps, r')
    ensures Shape(r') && Enabled(r', WriteByte(0)) && Races(r', WriteByte(0))
  {
    ReachableUnreleased(cap, r);
    var h := Tick(r, ReplaceProducer);
    LaterProducerView(r, h);
    assert Restarted(h) == Apply(r, ReplaceProducer);
    var a, h' := ReadOn(PAYLOAD, h);
    var b;
    b, r' := EnterPublish(Restarted(h'));
    RunsChain(Restarted(h), a, Restarted(h'), b, r');
    WritesWhatIsRead(h', r');
    steps := a + b;
  }
}
