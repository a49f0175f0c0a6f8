/** Every step of every interleaving keeps the ring invariant, whatever the loads return. */
module RingSafety {
  import opened Arithmetic
  import opened Basics
  import opened RingProtocol

  /** Two message numbers less than a lap apart never share a slot; a lap apart they do. */
  lemma SlotsInWindow(cap: nat, a: int, b: int)
    requires cap > 0
    ensures 0 < b - a < cap ==> SlotOf(cap, a) != SlotOf(cap, b)
    ensures b - a == cap ==> SlotOf(cap, a) == SlotOf(cap, b)
  {
    var x, y := a / cap, b / cap;
    var gap := cap * (y - x);
    ProductOf(cap, y - x);
    assert gap == cap * y - cap * x;
    assert b - a == gap + b % cap - a % cap;
  }

  lemma OthersKeepTheirSlot(cap: nat, a: int)
    requires cap > 0
    ensures forall b: int {:trigger SlotOf(cap, b)} :: 0 < a - b < cap || 0 < b - a < cap ==> SlotOf(cap, a) != SlotOf(cap, b)
    ensures SlotOf(cap, a - cap) == SlotOf(cap, a)
  {
    forall b: int | 0 < a - b < cap || 0 < b - a < cap
      ensures SlotOf(cap, a) != SlotOf(cap, b)
    {
      SlotsInWindow(cap, a, b);
      SlotsInWindow(cap, b, a);
    }
    SlotsInWindow(cap, a - cap, a);
  }

  lemma InitHolds(cap: nat, junk: seq<seq<byte>>)
    requires 0 < cap < U64
    requires |junk| == cap && forall i :: 0 <= i < cap ==> |junk[i]| == PAYLOAD
    ensures Inv(Init(cap, junk))
  {
  }

  lemma NotFull(r: Ring, k: nat)
    requires Shape(r) && Cursors(r) && k < |r.tails|
    ensures WrappingSub(r.producer.next, r.tails[k].value) == r.producer.next - k
  {
  }

  // ----- one lemma per part of the invariant, over every step -----

  lemma CursorsKeptByProducer(r: Ring, step: Step)
    requires Shape(r) && Cursors(r) && ProducerAt(r) && ConsumerAt(r)
    requires Enabled(r, step) && Safe(r, step)
    requires !ConsumerStep(step)
    ensures Shape(Apply(r, step)) && Cursors(Apply(r, step))
  {
  }

  lemma CursorsKeptByConsumer(r: Ring, step: Step)
    requires Shape(r) && Cursors(r) && ProducerAt(r) && ConsumerAt(r)
    requires Enabled(r, step) && Safe(r, step)
    requires ConsumerStep(step)
    ensures Shape(Apply(r, step)) && Cursors(Apply(r, step))
  {
  }

  lemma CursorsKept(r: Ring, step: Step)
    requires Shape(r) && Cursors(r) && ProducerAt(r) && ConsumerAt(r)
    requires Enabled(r, step) && Safe(r, step)
    ensures Shape(Apply(r, step)) && Cursors(Apply(r, step))
  {
    if ConsumerStep(step) {
      CursorsKeptByConsumer(r, step);
    } else {
      CursorsKeptByProducer(r, step);
    }
  }

  lemma CausalKeptByProducer(r: Ring, step: Step)
    requires Shape(r) && Causal(r)
    requires Enabled(r, step)
    requires Shape(Apply(r, step))
    requires !ConsumerStep(step)
    ensures Causal(Apply(r, step))
  {
  }

  lemma CausalKeptByConsumer(r: Ring, step: Step)
    requires Shape(r) && Causal(r)
    requires Enabled(r, step)
    requires Shape(Apply(r, step))
    requires ConsumerStep(step)
    ensures Causal(Apply(r, step))
  {
  }

  lemma CausalKept(r: Ring, step: Step)
    requires Shape(r) && Causal(r)
    requires Enabled(r, step)
    requires Shape(Apply(r, step))
    ensures Causal(Apply(r, step))
  {
    if ConsumerStep(step) {
      CausalKeptByConsumer(r, step);
    } else {
      CausalKeptByProducer(r, step);
    }
  }

  /** What a publish does to the slots: the target slot shows one more number. */
  ghost predicate Stamped(r: Ring, r': Ring, payload: seq<byte>)
    requires Shape(r)
  {
    var i := Target(r);
    && r'.cap == r.cap && r'.tails == r.tails && r'.consumer == r.consumer
    && r'.released == r.released && r'.published == r.published + [payload]
    && r'.producer.view == r.producer.view.(p := r.producer.view.p + 1)
    && r'.slots == r.slots[i := r.slots[i].(seqs := r.slots[i].seqs + [Stamp(r.producer.next + 1, r'.producer.view)])]
  }

  lemma StoreSeqStamps(r: Ring)
    requires Shape(r) && Enabled(r, StoreSeq)
    ensures Stamped(r, Apply(r, StoreSeq), Padded(r.producer.pc.bytes))
  {
  }

  lemma LapsKeptByStoreSeq(r: Ring, r': Ring, payload: seq<byte>)
    requires Shape(r) && Cursors(r) && Laps(r) && Stamped(r, r', payload)
    requires Shape(r')
    ensures Laps(r')
  {
    OthersKeepTheirSlot(r.cap, |r.published|);
  }

  lemma LapsKeptByOthers(r: Ring, step: Step)
    requires Shape(r) && Laps(r)
    requires Enabled(r, step) && !step.StoreSeq?
    requires Shape(Apply(r, step))
    ensures Laps(Apply(r, step))
  {
    var r' := Apply(r, step);
    assert r'.published == r.published && r'.cap == r.cap;
    assert forall i :: 0 <= i < r.cap ==> r'.slots[i].seqs == r.slots[i].seqs;
  }

  lemma LapsKept(r: Ring, step: Step)
    requires Shape(r) && Cursors(r) && Laps(r)
    requires Enabled(r, step)
    requires Shape(Apply(r, step))
    ensures Laps(Apply(r, step))
  {
    if step.StoreSeq? {
      StoreSeqStamps(r);
      LapsKeptByStoreSeq(r, Apply(r, step), Padded(r.producer.pc.bytes));
    } else {
      LapsKeptByOthers(r, step);
    }
  }

  lemma WindowsKeptByWriteByte(r: Ring, b: nat)
    requires Shape(r) && Cursors(r) && Windows(r) && ProducerAt(r)
    requires Enabled(r, WriteByte(b))
    requires Shape(Apply(r, WriteByte(b))) && Cursors(Apply(r, WriteByte(b)))
    ensures Windows(Apply(r, WriteByte(b)))
  {
    var r' := Apply(r, WriteByte(b));
    var n, m := |r.published|, |r.released|;
    OthersKeepTheirSlot(r.cap, n);
    forall j: int | n - r.cap <= j < m
      ensures ReadBefore(r'.slots[SlotOf(r.cap, j)], ReleasedAt(r', j))
    {
      assert ReadBefore(r.slots[SlotOf(r.cap, j)], ReleasedAt(r, j));
    }
    forall j: int | m <= j < n
      ensures Holds(r'.slots[SlotOf(r.cap, j)], r'.published[j])
    {
      assert r'.slots[SlotOf(r.cap, j)] == r.slots[SlotOf(r.cap, j)];
    }
  }

  lemma WindowsKeptByStoreSeq(r: Ring, r': Ring, payload: seq<byte>)
    requires Shape(r) && Cursors(r) && Windows(r) && Stamped(r, r', payload)
    requires |payload| == PAYLOAD && |r.published| < |r.released| + r.cap
    requires forall b :: 0 <= b < PAYLOAD ==> r.slots[Target(r)].cells[b].value == payload[b]
    requires Shape(r') && Cursors(r')
    ensures Windows(r')
  {
    var n, m := |r.published|, |r.released|;
    OthersKeepTheirSlot(r.cap, n);
    forall j: int | n + 1 - r.cap <= j < m
      ensures ReadBefore(r'.slots[SlotOf(r.cap, j)], ReleasedAt(r', j))
    {
      assert ReadBefore(r.slots[SlotOf(r.cap, j)], ReleasedAt(r, j));
    }
    forall j: int | m <= j < n + 1
      ensures Holds(r'.slots[SlotOf(r.cap, j)], r'.published[j])
    {
      if j < n {
        assert r'.slots[SlotOf(r.cap, j)] == r.slots[SlotOf(r.cap, j)];
      } else {
        assert WrittenBefore(r.slots[SlotOf(r.cap, n)], r.producer.view.p);
      }
    }
  }

  /** What a byte read does to the slots: one cell remembers it. */
  ghost predicate Touched(r: Ring, r': Ring, b: nat)
    requires Shape(r) && b < PAYLOAD
  {
    var i := Source(r);
    var cell := r.slots[i].cells[b].(readAt := r'.consumer.view.c);
    && r'.cap == r.cap && r'.tails == r.tails && r'.producer == r.producer
    && r'.released == r.released && r'.published == r.published
    && r'.consumer.view == r.consumer.view.(c := r.consumer.view.c + 1)
    && r'.slots == r.slots[i := r.slots[i].(cells := r.slots[i].cells[b := cell])]
  }

  lemma ReadByteTouches(r: Ring, b: nat)
    requires Shape(r) && Enabled(r, ReadByte(b))
    ensures Touched(r, Apply(r, ReadByte(b)), b)
  {
  }

  lemma WindowsKeptByReadByte(r: Ring, r': Ring, b: nat)
    requires Shape(r) && Cursors(r) && Windows(r) && b < PAYLOAD && Touched(r, r', b)
    requires |r.released| < |r.published| && r.consumer.next == |r.released|
    requires Shape(r') && Cursors(r')
    ensures Windows(r')
  {
    var n, m := |r.published|, |r.released|;
    OthersKeepTheirSlot(r.cap, m);
    forall j: int | n - r.cap <= j < m
      ensures ReadBefore(r'.slots[SlotOf(r.cap, j)], ReleasedAt(r', j))
    {
      assert r'.slots[SlotOf(r.cap, j)] == r.slots[SlotOf(r.cap, j)];
    }
    forall j: int | m <= j < n
      ensures Holds(r'.slots[SlotOf(r.cap, j)], r'.published[j])
    {
      assert Holds(r.slots[SlotOf(r.cap, j)], r.published[j]);
    }
  }

  lemma WindowsKeptByStoreTail(r: Ring)
    requires Shape(r) && Cursors(r) && Windows(r)
    requires Enabled(r, StoreTail)
    requires Shape(Apply(r, StoreTail)) && Cursors(Apply(r, StoreTail))
    ensures Windows(Apply(r, StoreTail))
  {
    var r' := Apply(r, StoreTail);
    var n, m := |r.published|, |r.released|;
    forall j: int | n - r.cap <= j < m + 1
      ensures ReadBefore(r'.slots[SlotOf(r.cap, j)], ReleasedAt(r', j))
    {
      if j < m {
        assert ReadBefore(r.slots[SlotOf(r.cap, j)], ReleasedAt(r, j));
      } else {
        assert ReadBefore(r.slots[SlotOf(r.cap, m)], r.consumer.view.c);
      }
    }
  }

  /** The same memory and history, seen by threads that know no less. */
  ghost predicate SameMemory(r: Ring, r': Ring) {
    && r'.cap == r.cap && r'.slots == r.slots && r'.tails == r.tails
    && r'.published == r.published && r'.released == r.released
    && r.producer.view.p <= r'.producer.view.p && r.producer.view.c <= r'.producer.view.c
    && r.consumer.view.p <= r'.consumer.view.p && r.consumer.view.c <= r'.consumer.view.c
  }

  lemma OthersLeaveMemory(r: Ring, step: Step)
    requires Shape(r)
    requires Enabled(r, step) && !step.WriteByte? && !step.StoreSeq? && !step.ReadByte? && !step.StoreTail?
    ensures SameMemory(r, Apply(r, step))
  {
  }

  lemma WindowsFrame(r: Ring, r': Ring)
    requires Shape(r) && Cursors(r) && Windows(r) && SameMemory(r, r')
    requires Shape(r') && Cursors(r')
    ensures Windows(r')
  {
    forall j: int | |r.released| <= j < |r.published|
      ensures Holds(r'.slots[SlotOf(r'.cap, j)], r'.published[j])
    {
      assert Holds(r.slots[SlotOf(r.cap, j)], r.published[j]);
    }
    forall j: int | |r.published| - r.cap <= j < |r.released|
      ensures ReadBefore(r'.slots[SlotOf(r'.cap, j)], ReleasedAt(r', j))
    {
      assert ReadBefore(r.slots[SlotOf(r.cap, j)], ReleasedAt(r, j));
    }
  }

  lemma WindowsKeptByOthers(r: Ring, step: Step)
    requires Shape(r) && Cursors(r) && Windows(r)
    requires Enabled(r, step) && !step.WriteByte? && !step.StoreSeq? && !step.ReadByte? && !step.StoreTail?
    requires Shape(Apply(r, step)) && Cursors(Apply(r, step))
    ensures Windows(Apply(r, step))
  {
    OthersLeaveMemory(r, step);
    WindowsFrame(r, Apply(r, step));
  }

  lemma WindowsKept(r: Ring, step: Step)
    requires Shape(r) && Cursors(r) && Windows(r) && ProducerAt(r) && ConsumerAt(r)
    requires Enabled(r, step)
    requires Shape(Apply(r, step)) && Cursors(Apply(r, step))
    ensures Windows(Apply(r, step))
  {
    match step
    case WriteByte(b) => WindowsKeptByWriteByte(r, b);
    case StoreSeq =>
      StoreSeqStamps(r);
      WindowsKeptByStoreSeq(r, Apply(r, step), Padded(r.producer.pc.bytes));
    case ReadByte(b) =>
      ReadByteTouches(r, b);
      WindowsKeptByReadByte(r, Apply(r, step), b);
    case StoreTail => WindowsKeptByStoreTail(r);
    case _ => WindowsKeptByOthers(r, step);
  }

  /** The slot the producer is about to overwrite: every read of its last lap happened before the
      tail store that was loaded, however stale that load. */
  lemma FreeSlotIsRead(r: Ring, k: nat)
    requires Shape(r) && Cursors(r) && Windows(r)
    requires k < |r.tails| && |r.published| - k < r.cap
    ensures ReadBefore(r.slots[SlotOf(r.cap, |r.published|)], r.tails[k].view.c)
  {
    var j := |r.published| - r.cap;
    OthersKeepTheirSlot(r.cap, |r.published|);
    assert ReadBefore(r.slots[SlotOf(r.cap, j)], ReleasedAt(r, j));
  }

  lemma ProducerAtKeptByProducer(r: Ring, step: Step)
    requires Shape(r) && Cursors(r) && Windows(r) && ProducerAt(r)
    requires Enabled(r, step) && !ConsumerStep(step)
    requires Shape(Apply(r, step)) && Cursors(Apply(r, step))
    ensures ProducerAt(Apply(r, step))
  {
    if step.LoadTail? {
      NotFull(r, step.k);
      if |r.published| - step.k < r.cap { FreeSlotIsRead(r, step.k); }
    }
  }

  lemma ProducerAtKeptByConsumer(r: Ring, step: Step)
    requires Shape(r) && Cursors(r) && ProducerAt(r) && ConsumerAt(r)
    requires Enabled(r, step) && ConsumerStep(step)
    requires Shape(Apply(r, step)) && Cursors(Apply(r, step))
    ensures ProducerAt(Apply(r, step))
  {
    OthersKeepTheirSlot(r.cap, |r.released|);
  }

  lemma ProducerAtKept(r: Ring, step: Step)
    requires Shape(r) && Cursors(r) && Windows(r) && ProducerAt(r) && ConsumerAt(r)
    requires Enabled(r, step)
    requires Shape(Apply(r, step)) && Cursors(Apply(r, step))
    ensures ProducerAt(Apply(r, step))
  {
    if ConsumerStep(step) {
      ProducerAtKeptByConsumer(r, step);
    } else {
      ProducerAtKeptByProducer(r, step);
    }
  }

  /** A slot that shows the expected number shows it in its newest entry, so its payload is intact
      and every write of it happened before the load. */
  lemma ReadySlotIsWritten(r: Ring, k: nat)
    requires Shape(r) && Cursors(r) && Laps(r) && Windows(r)
    requires k < |r.slots[SlotOf(r.cap, |r.released|)].seqs|
    requires r.slots[SlotOf(r.cap, |r.released|)].seqs[k].value == |r.released| + 1
    ensures |r.released| < |r.published|
    ensures WrittenBefore(r.slots[SlotOf(r.cap, |r.released|)], r.slots[SlotOf(r.cap, |r.released|)].seqs[k].view.p)
  {
    var m := |r.released|;
    var slot := r.slots[SlotOf(r.cap, m)];
    assert Last(slot.seqs).value == LapMark(m);
    assert k == |slot.seqs| - 1;
    assert Holds(slot, r.published[m]);
  }

  lemma ConsumerAtKeptByProducer(r: Ring, step: Step)
    requires Shape(r) && Cursors(r) && ProducerAt(r) && ConsumerAt(r)
    requires Enabled(r, step) && !ConsumerStep(step)
    requires Shape(Apply(r, step)) && Cursors(Apply(r, step))
    ensures ConsumerAt(Apply(r, step))
  {
    OthersKeepTheirSlot(r.cap, |r.released|);
  }

  lemma ConsumerAtKeptByReadByte(r: Ring, b: nat)
    requires Shape(r) && Cursors(r) && Windows(r) && ConsumerAt(r)
    requires Enabled(r, ReadByte(b))
    requires Shape(Apply(r, ReadByte(b))) && Cursors(Apply(r, ReadByte(b)))
    ensures ConsumerAt(Apply(r, ReadByte(b)))
  {
    assert Holds(r.slots[SlotOf(r.cap, |r.released|)], r.published[|r.released|]);
  }

  lemma ConsumerAtKeptByConsumer(r: Ring, step: Step)
    requires Shape(r) && Cursors(r) && Laps(r) && Windows(r) && ConsumerAt(r)
    requires Enabled(r, step) && ConsumerStep(step)
    requires Shape(Apply(r, step)) && Cursors(Apply(r, step))
    ensures ConsumerAt(Apply(r, step))
  {
    if step.ReadByte? {
      ConsumerAtKeptByReadByte(r, step.b);
    } else if step.LoadSeq? && r.slots[Source(r)].seqs[step.k].value == r.consumer.next + 1 {
      ReadySlotIsWritten(r, step.k);
    }
  }

  lemma ConsumerAtKept(r: Ring, step: Step)
    requires Shape(r) && Cursors(r) && Laps(r) && Windows(r) && ProducerAt(r) && ConsumerAt(r)
    requires Enabled(r, step)
    requires Shape(Apply(r, step)) && Cursors(Apply(r, step))
    ensures ConsumerAt(Apply(r, step))
  {
    if ConsumerStep(step) {
      ConsumerAtKeptByConsumer(r, step);
    } else {
      ConsumerAtKeptByProducer(r, step);
    }
  }

  lemma HandedKeptByFinishCopy(r: Ring)
    requires Shape(r) && Cursors(r) && Handed(r)
    requires Enabled(r, FinishCopy)
    requires |r.released| < |r.published| && r.consumer.pc.out == r.published[|r.released|]
    requires Shape(Apply(r, FinishCopy)) && Cursors(Apply(r, FinishCopy))
    ensures Handed(Apply(r, FinishCopy))
  {
  }

  lemma HandedKeptByOthersByProducer(r: Ring, step: Step)
    requires Shape(r) && Cursors(r) && Handed(r)
    requires Enabled(r, step) && !step.FinishCopy?
    requires Shape(Apply(r, step)) && Cursors(Apply(r, step))
    requires !ConsumerStep(step)
    ensures Handed(Apply(r, step))
  {
  }

  lemma HandedKeptByOthersByConsumer(r: Ring, step: Step)
    requires Shape(r) && Cursors(r) && Handed(r)
    requires Enabled(r, step) && !step.FinishCopy?
    requires Shape(Apply(r, step)) && Cursors(Apply(r, step))
    requires ConsumerStep(step)
    ensures Handed(Apply(r, step))
  {
  }

  lemma HandedKeptByOthers(r: Ring, step: Step)
    requires Shape(r) && Cursors(r) && Handed(r)
    requires Enabled(r, step) && !step.FinishCopy?
    requires Shape(Apply(r, step)) && Cursors(Apply(r, step))
    ensures Handed(Apply(r, step))
  {
    if ConsumerStep(step) {
      HandedKeptByOthersByConsumer(r, step);
    } else {
      HandedKeptByOthersByProducer(r, step);
    }
  }

  lemma {:induction false} StepKeeps(r: Ring, step: Step)
    requires Inv(r) && Enabled(r, step) && Safe(r, step)
    ensures Inv(Apply(r, step))
  {
    CursorsKept(r, step);
    CausalKept(r, step);
    LapsKept(r, step);
    WindowsKept(r, step);
    ProducerAtKept(r, step);
    ConsumerAtKept(r, step);
    if step.FinishCopy? {
      assert r.consumer.pc.out == r.published[|r.released|];
      HandedKeptByFinishCopy(r);
    } else {
      HandedKeptByOthers(r, step);
    }
  }
}
