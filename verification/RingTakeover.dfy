/** Replacing a dead process: harmless everywhere but between the `seq` and the `head` store. */
module RingTakeover {
  import opened Basics
  import opened BoundedQueue
  import opened RingProtocol
  import opened RingSafety
  import opened RingTheorems

  /** A new producer keeps the ring invariant exactly when its predecessor did not die in between. */
  lemma ProducerTakeoverExact(cap: nat, r: Ring)
    requires Reachable(cap, r)
    ensures Inv(Apply(r, ReplaceProducer)) <==> !r.producer.pc.PStoreHead?
  {
    ReachableIsSound(cap, r);
    if !r.producer.pc.PStoreHead? {
      StepKeeps(r, ReplaceProducer);
    }
  }

  /** A new consumer may start anywhere, and next takes the oldest message not given back. */
  lemma ConsumerTakeoverSafe(cap: nat, r: Ring)
    requires Reachable(cap, r)
    ensures Inv(Apply(r, ReplaceConsumer))
    ensures Apply(r, ReplaceConsumer).consumer.next == |r.released|
    ensures Queue(Apply(r, ReplaceConsumer)) == Queue(r)
  {
    ReachableIsSound(cap, r);
    StepKeeps(r, ReplaceConsumer);
  }

  /** The ring as it would be had the `head` store not been lost. */
  ghost function Healed(r: Ring): Ring {
    r.(producer := r.producer.(next := |r.published|, pc := PStoreHead))
  }

  /** The producer restarted one message behind a reader that has already taken that message. */
  ghost predicate Wedged(r: Ring) {
    && Inv(Healed(r))
    && |r.released| == |r.published|
    && r.producer.next == |r.published| - 1
    && (r.producer.pc.PIdle? || (r.producer.pc.PLoadTail? && |r.producer.pc.bytes| <= PAYLOAD))
  }

  lemma TakeoverWedges(cap: nat, r: Ring)
    requires Reachable(cap, r)
    requires r.producer.pc.PStoreHead? && |r.released| == |r.published|
    ensures Wedged(Apply(r, ReplaceProducer))
  {
    ReachableIsSound(cap, r);
    var r' := Apply(r, ReplaceProducer);
    LaterProducerView(r, Healed(r'));
  }

  /** The invariant does not mind the producer knowing more. */
  lemma LaterProducerView(r: Ring, r': Ring)
    requires Inv(r) && r.producer.pc.PStoreHead?
    requires r' == r.(producer := r.producer.(view := r'.producer.view))
    requires r.producer.view.p <= r'.producer.view.p && r.producer.view.c <= r'.producer.view.c <= r.consumer.view.c
    ensures Inv(r')
  {
    WindowsFrame(r, r');
    LaterViewIsCausal(r, r');
  }

  lemma LaterViewIsCausal(r: Ring, r': Ring)
    requires Shape(r) && Causal(r) && r.producer.view.p <= r'.producer.view.p
    requires r' == r.(producer := r.producer.(view := r'.producer.view))
    requires r'.producer.view.c <= r.consumer.view.c
    ensures Causal(r')
  {
  }

  lemma HealingCommutes(r: Ring, step: Step)
    requires Shape(r) && ConsumerStep(step) && Enabled(r, step)
    ensures Enabled(Healed(r), step)
    ensures Apply(r, step).published == r.published && Apply(r, step).producer == r.producer
    ensures Healed(Apply(r, step)) == Apply(Healed(r), step)
  {
  }

  lemma EmptyStaysEmpty(r: Ring, step: Step)
    requires Shape(r) && Cursors(r) && ConsumerAt(r) && |r.released| == |r.published|
    requires ConsumerStep(step) && Enabled(r, step)
    ensures Apply(r, step).released == r.released
  {
  }

  lemma WedgedConsumerStep(r: Ring, step: Step)
    requires Wedged(r) && Enabled(r, step) && Latest(r, step)
    requires ConsumerStep(step)
    ensures Wedged(Apply(r, step))
    ensures Apply(r, step).published == r.published
  {
    HealingCommutes(r, step);
    StepKeeps(Healed(r), step);
    EmptyStaysEmpty(Healed(r), step);
  }

  lemma WedgedProducerStep(r: Ring, step: Step)
    requires Wedged(r) && Enabled(r, step) && Latest(r, step)
    requires !ConsumerStep(step)
    ensures Wedged(Apply(r, step))
    ensures Apply(r, step).published == r.published
    ensures step.LoadTail? ==> EventOf(r, step) == RefusedFull
  {
    if step.LoadTail? {
      assert r.tails[step.k].value == r.producer.next + 1;
      assert WrappingSub(r.producer.next, r.producer.next + 1) == U64 - 1;
    }
    LaterProducerView(Healed(r), Healed(Apply(r, step)));
  }

  /** A stale load of `tail` is refused just as well, unless it is less than a lap old. */
  lemma WedgedLoadExactly(r: Ring, k: nat)
    requires Wedged(r) && Enabled(r, LoadTail(k))
    ensures EventOf(r, LoadTail(k)) == RefusedFull <==> k == |r.released| || |r.released| - k > r.cap
  {
    assert r.tails[k].value == k && r.producer.next == |r.released| - 1;
    if k == |r.released| {
      assert WrappingSub(r.producer.next, k) == U64 - 1;
    } else {
      assert WrappingSub(r.producer.next, k) == r.producer.next - k;
    }
  }

  ghost predicate AnyRun(r0: Ring, steps: seq<Step>, r: Ring)
    decreases |steps|
  {
    if steps == [] then r == r0
    else
      && Shape(r0)
      && Enabled(r0, steps[0])
      && Latest(r0, steps[0])
      && AnyRun(Apply(r0, steps[0]), steps[1..], r)
  }

  /** Once wedged, the ring reports full to every publish and never carries a message again, even
      though it is empty and even if either side is replaced again. */
  lemma {:induction false} WedgedForever(r0: Ring, steps: seq<Step>, r: Ring)
    requires Wedged(r0) && AnyRun(r0, steps, r)
    ensures Wedged(r) && r.published == r0.published && Queue(r) == []
    ensures !Enabled(r, StoreSeq)
    ensures forall k :: Enabled(r, LoadTail(k)) && Latest(r, LoadTail(k)) ==>
              EventOf(r, LoadTail(k)) == RefusedFull
    decreases |steps|
  {
    if steps == [] {
      forall k | Enabled(r, LoadTail(k)) && Latest(r, LoadTail(k))
        ensures EventOf(r, LoadTail(k)) == RefusedFull
      {
        WedgedProducerStep(r, LoadTail(k));
      }
    } else {
      if ConsumerStep(steps[0]) {
        WedgedConsumerStep(r0, steps[0]);
      } else {
        WedgedProducerStep(r0, steps[0]);
      }
      WedgedForever(Apply(r0, steps[0]), steps[1..], r);
    }
  }

  lemma ReachableCursors(cap: nat, r: Ring)
    requires Reachable(cap, r)
    ensures Shape(r) && Cursors(r) && r.cap == cap
  {
    ReachableIsSound(cap, r);
  }

  lemma SuccessorPublishes(r: Ring, bytes: seq<byte>)
    requires Shape(r) && Cursors(r) && r.producer.pc.PStoreHead? && |bytes| <= PAYLOAD
    ensures Shape(Apply(r, ReplaceProducer)) && Enabled(Apply(r, ReplaceProducer), CallPublish(bytes))
    ensures
      var r1 := Apply(Apply(r, ReplaceProducer), CallPublish(bytes));
      && Shape(r1) && r1.tails == r.tails && r1.cap == r.cap
      && r1.producer.pc == PLoadTail(bytes) && r1.producer.next == |r.published| - 1
  {
  }

  lemma LatestTailDecides(r: Ring, n: nat, m: nat)
    requires Shape(r) && r.producer.pc.PLoadTail? && r.producer.next == n - 1
    requires Last(r.tails).value == m && m <= n <= m + r.cap && 0 < n < U64
    ensures EventOf(r, LoadTail(|r.tails| - 1)) == RefusedFull <==> m == n
    ensures Shape(Apply(r, LoadTail(|r.tails| - 1)))
    ensures m < n ==> Apply(r, LoadTail(|r.tails| - 1)).producer.pc.PCopy?
    ensures Target(Apply(r, LoadTail(|r.tails| - 1))) == SlotOf(r.cap, n - 1)
  {
    if m == n {
      assert WrappingSub(n - 1, m) == U64 - 1;
    } else {
      assert WrappingSub(n - 1, m) == n - 1 - m;
    }
  }

  /** The ring once a producer that died in the window is replaced and the new one calls publish. */
  ghost function Succeeded(cap: nat, r: Ring, bytes: seq<byte>): (r1: Ring)
    requires Reachable(cap, r) && r.producer.pc.PStoreHead? && |bytes| <= PAYLOAD
    ensures Shape(r1) && r1.tails == r.tails && r1.cap == cap
    ensures r1.producer.pc == PLoadTail(bytes) && r1.producer.next == |r.published| - 1
  {
    ReachableCursors(cap, r);
    SuccessorPublishes(r, bytes);
    Apply(Apply(r, ReplaceProducer), CallPublish(bytes))
  }

  /** What the bad window costs: the successor's first publish is refused exactly when the message was
      already taken, and otherwise is let into the slot of that unread message. */
  lemma TakeoverInWindow(cap: nat, r: Ring, bytes: seq<byte>)
    requires Reachable(cap, r)
    requires r.producer.pc.PStoreHead? && |bytes| <= PAYLOAD
    ensures
      var r1, load := Succeeded(cap, r, bytes), LoadTail(|r.tails| - 1);
      && Shape(Apply(r1, load))
      && (EventOf(r1, load) == RefusedFull <==> Queue(r) == [])
      && (Queue(r) != [] ==>
            && Apply(r1, load).producer.pc.PCopy?
            && Target(Apply(r1, load)) == SlotOf(cap, |r.published| - 1))
  {
    ReachableCursors(cap, r);
    LatestTailDecides(Succeeded(cap, r, bytes), |r.published|, |r.released|);
  }
}
