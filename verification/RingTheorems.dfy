/** What every run of the ring guarantees: no race, exact payloads, a linearizable bounded queue. */
module RingTheorems {
  import opened Arithmetic
  import opened Basics
  import opened BoundedQueue
  import opened RingProtocol
  import opened RingSafety

  /** `steps` leads from `r0` to `r`: any interleaving, any loads, takeovers outside the bad window. */
  ghost predicate Run(r0: Ring, steps: seq<Step>, r: Ring)
    decreases |steps|
  {
    if steps == [] then r == r0
    else
      && Shape(r0)
      && Enabled(r0, steps[0])
      && Safe(r0, steps[0])
      && Run(Apply(r0, steps[0]), steps[1..], r)
  }

  ghost predicate Reachable(cap: nat, r: Ring) {
    && 0 < cap < U64
    && Shape(r)
    && r.cap == cap
    && exists junk: seq<seq<byte>>, steps: seq<Step> ::
         && |junk| == cap
         && (forall i :: 0 <= i < cap ==> |junk[i]| == PAYLOAD)
         && Run(Init(cap, junk), steps, r)
  }

  lemma {:induction false} RunKeeps(r0: Ring, steps: seq<Step>, r: Ring)
    requires Inv(r0) && Run(r0, steps, r)
    ensures Inv(r) && r.cap == r0.cap
    decreases |steps|
  {
    if steps != [] {
      StepKeeps(r0, steps[0]);
      RunKeeps(Apply(r0, steps[0]), steps[1..], r);
    }
  }

  lemma ReachableIsSound(cap: nat, r: Ring)
    requires Reachable(cap, r)
    ensures Inv(r)
  {
    var junk: seq<seq<byte>>, steps: seq<Step> :|
      && |junk| == cap
      && (forall i :: 0 <= i < cap ==> |junk[i]| == PAYLOAD)
      && Run(Init(cap, junk), steps, r);
    InitHolds(cap, junk);
    RunKeeps(Init(cap, junk), steps, r);
  }

  // ----- memory safety -----

  /** No byte copy of either thread ever conflicts with an access it does not happen after. */
  lemma NoDataRace(cap: nat, r: Ring, step: Step)
    requires Reachable(cap, r) && Enabled(r, step) && Safe(r, step)
    ensures !Races(r, step)
  {
    ReachableIsSound(cap, r);
  }

  /** While both threads copy, they copy different slots. */
  lemma CopiesAreApart(cap: nat, r: Ring)
    requires Reachable(cap, r)
    requires r.producer.pc.PCopy? && r.consumer.pc.CCopy?
    ensures Target(r) != Source(r)
  {
    ReachableIsSound(cap, r);
    OthersKeepTheirSlot(r.cap, |r.released|);
  }

  // ----- delivery -----

  ghost predicate HandedOver(copies: seq<Copy>, j: nat) {
    exists i :: 0 <= i < |copies| && copies[i].index == j
  }

  lemma {:induction false} StepsCoverEveryIndex(copies: seq<Copy>, j: nat)
    requires copies != [] && copies[0].index == 0 && j <= copies[|copies| - 1].index
    requires forall i, i' :: 0 <= i < |copies| && i' == i + 1 < |copies| ==>
               copies[i].index <= copies[i'].index <= copies[i].index + 1
    ensures HandedOver(copies, j)
    decreases |copies|
  {
    if copies[|copies| - 1].index != j {
      var init := copies[..|copies| - 1];
      assert copies[|copies| - 2].index <= copies[|copies| - 1].index <= copies[|copies| - 2].index + 1;
      StepsCoverEveryIndex(init, j);
      var i :| 0 <= i < |init| && init[i].index == j;
      assert copies[i].index == j;
    }
  }

  /** Consumers are handed the published payloads byte for byte, in order, with none skipped; the
      number of repeats is at most the number of times the consumer was replaced. */
  lemma ExactDelivery(cap: nat, r: Ring)
    requires Reachable(cap, r)
    ensures r.released <= r.published && |r.published| - |r.released| <= cap
    ensures forall i :: 0 <= i < |r.copies| ==>
              r.copies[i].index < |r.published| && r.copies[i].payload == r.published[r.copies[i].index]
    ensures forall i, i' :: 0 <= i < |r.copies| && i' == i + 1 < |r.copies| ==>
              r.copies[i].index <= r.copies[i'].index <= r.copies[i].index + 1
    ensures forall j: nat :: j < |r.released| ==> HandedOver(r.copies, j)
    ensures r.copies != [] ==> |r.copies| - (Last(r.copies).index + 1) <= r.takeovers
  {
    ReachableIsSound(cap, r);
    forall j: nat | j < |r.released|
      ensures HandedOver(r.copies, j)
    {
      StepsCoverEveryIndex(r.copies, j);
    }
  }

  /** Slot `i` shows the number of the newest message mapped to it, or 0 when there is none. */
  ghost predicate ShowsNewest(cap: nat, n: nat, i: nat, mark: nat)
    requires cap > 0
  {
    && mark <= n
    && (mark > 0 ==> SlotOf(cap, mark - 1) == i)
    && forall k: int {:trigger SlotOf(cap, k)} :: mark <= k < n ==> SlotOf(cap, k) != i
  }

  lemma NewestBefore(cap: nat, n: nat, i: nat) returns (j: int)
    requires cap > 0 && i < cap
    ensures n - cap <= j < n && SlotOf(cap, j) == i
  {
    var d := (n - 1 - i) % cap;
    var q := (n - 1 - i) / cap;
    j := n - 1 - d;
    assert n - 1 - i == cap * q + d;
    assert j == cap * q + i;
    RemainderIs(cap, q, i);
  }

  /** The lap rule: each slot shows its newest message, so the consumer finds the number it waits for
      exactly when that message is published, and then its payload is untouched. */
  lemma SlotLaps(cap: nat, r: Ring, i: nat)
    requires Reachable(cap, r) && i < cap
    ensures ShowsNewest(cap, |r.published|, i, Last(r.slots[i].seqs).value)
    ensures Last(r.slots[SlotOf(cap, |r.released|)].seqs).value == |r.released| + 1
            <==> |r.released| < |r.published|
    ensures |r.released| < |r.published| ==>
              Holds(r.slots[SlotOf(cap, |r.released|)], r.published[|r.released|])
  {
    ReachableIsSound(cap, r);
    var n := |r.published|;
    var j := NewestBefore(cap, n, i);
    forall k: int | LapMark(j) <= k < n
      ensures SlotOf(cap, k) != i
    {
      SlotsInWindow(cap, j, k);
    }
    assert Last(r.slots[SlotOf(cap, |r.released|)].seqs).value <= n;
  }

  // ----- linearizability -----

  ghost predicate Latest(r: Ring, step: Step)
    requires Shape(r) && Enabled(r, step)
  {
    match step
    case LoadTail(k) => k == |r.tails| - 1
    case LoadSeq(k) => k == |r.slots[Source(r)].seqs| - 1
    case LoadHead(k) => k == |r.heads| - 1
    case _ => true
  }

  /** The unread messages. */
  ghost function Queue(r: Ring): seq<seq<byte>> {
    if |r.released| <= |r.published| then r.published[|r.released|..] else []
  }

  /** Where each call takes effect: publish at the `seq` store, consume at the `tail` store, and a
      refusal at the load that decides it. The items are the call's own argument and result. */
  ghost function EventOf(r: Ring, step: Step): Event<seq<byte>>
    requires Shape(r) && Enabled(r, step)
  {
    match step
    case LoadTail(k) =>
      if WrappingSub(r.producer.next, r.tails[k].value) >= r.cap then RefusedFull else Silent
    case StoreSeq => Enqueued(Padded(r.producer.pc.bytes))
    case LoadSeq(k) =>
      if r.slots[Source(r)].seqs[k].value != r.consumer.next + 1 then RefusedEmpty else Silent
    case StoreTail => Dequeued(r.consumer.pc.out)
    case _ => Silent
  }

  lemma QueueMoves(r: Ring, step: Step)
    requires Shape(r) && Cursors(r) && ProducerAt(r) && ConsumerAt(r)
    requires Enabled(r, step) && Safe(r, step)
    requires Shape(Apply(r, step)) && Cursors(Apply(r, step))
    ensures AcceptsStale(r.cap, Queue(r), EventOf(r, step), Queue(Apply(r, step)))
  {
  }

  lemma RefusalsAreExact(r: Ring, step: Step)
    requires Shape(r) && Cursors(r) && Laps(r)
    requires Enabled(r, step) && Latest(r, step)
    ensures EventOf(r, step) == RefusedFull ==> |Queue(r)| == r.cap
    ensures EventOf(r, step) == RefusedEmpty ==> Queue(r) == []
  {
    var m := |r.released|;
    if step.LoadTail? {
      NotFull(r, step.k);
    }
    if step.LoadSeq? && m < |r.published| {
      assert Last(r.slots[SlotOf(r.cap, m)].seqs).value == LapMark(m);
    }
  }

  /** Whatever the loads return, a success is a success of the bounded queue. */
  lemma {:induction false} StaleStepRefines(r: Ring, step: Step)
    requires Inv(r) && Enabled(r, step) && Safe(r, step)
    ensures Inv(Apply(r, step))
    ensures AcceptsStale(r.cap, Queue(r), EventOf(r, step), Queue(Apply(r, step)))
  {
    StepKeeps(r, step);
    QueueMoves(r, step);
  }

  /** With loads of the latest value, refusals are exact too. */
  lemma {:induction false} LatestStepRefines(r: Ring, step: Step)
    requires Inv(r) && Enabled(r, step) && Safe(r, step) && Latest(r, step)
    ensures Inv(Apply(r, step))
    ensures Accepts(r.cap, Queue(r), EventOf(r, step), Queue(Apply(r, step)))
  {
    StaleStepRefines(r, step);
    RefusalsAreExact(r, step);
  }

  ghost predicate AllLatest(r0: Ring, steps: seq<Step>, r: Ring)
    requires Run(r0, steps, r)
    decreases |steps|
  {
    steps == [] || (Latest(r0, steps[0]) && AllLatest(Apply(r0, steps[0]), steps[1..], r))
  }

  ghost function Trace(r0: Ring, steps: seq<Step>, r: Ring): seq<Event<seq<byte>>>
    requires Run(r0, steps, r)
    decreases |steps|
  {
    if steps == [] then []
    else [EventOf(r0, steps[0])] + Trace(Apply(r0, steps[0]), steps[1..], r)
  }

  lemma {:induction false} RunRefines(exact: bool, r0: Ring, steps: seq<Step>, r: Ring)
    requires Inv(r0) && Run(r0, steps, r)
    requires exact ==> AllLatest(r0, steps, r)
    ensures Inv(r) && r.cap == r0.cap
    ensures AcceptsAll(exact, r0.cap, Queue(r0), Trace(r0, steps, r), Queue(r))
    decreases |steps|
  {
    if steps != [] {
      var r1, rest := Apply(r0, steps[0]), steps[1..];
      StaleStepRefines(r0, steps[0]);
      if exact {
        LatestStepRefines(r0, steps[0]);
      }
      RunRefines(exact, r1, rest, r);
      AcceptOne(exact, r0.cap, Queue(r0), EventOf(r0, steps[0]), Queue(r1), Trace(r1, rest, r), Queue(r));
    }
  }

  /** The events of every run from a fresh ring, with takeovers and whatever its loads return, are those
      of a bounded FIFO queue: what was consumed, followed by what is still unread, is what was
      published. If every load returned the latest value no refusal was spurious. */
  lemma Linearizable(cap: nat, junk: seq<seq<byte>>, steps: seq<Step>, r: Ring)
    requires 0 < cap < U64
    requires |junk| == cap && forall i :: 0 <= i < cap ==> |junk[i]| == PAYLOAD
    requires Run(Init(cap, junk), steps, r)
    ensures
      var trace := Trace(Init(cap, junk), steps, r);
      && AcceptsAll(AllLatest(Init(cap, junk), steps, r), cap, [], trace, Queue(r))
      && Inputs(trace) == Outputs(trace) + Queue(r)
  {
    var r0 := Init(cap, junk);
    var trace, exact := Trace(r0, steps, r), AllLatest(r0, steps, r);
    InitHolds(cap, junk);
    RunRefines(exact, r0, steps, r);
    assert Queue(r0) == [];
    FirstInFirstOut(exact, cap, [], trace, Queue(r));
    assert [] + Inputs(trace) == Inputs(trace);
  }

  /** `pending` never exceeds the unread count. At the latest `head` it is short by one exactly while
      a publish stands between its `seq` and `head` stores and the message is unread. */
  lemma PendingIsClose(cap: nat, r: Ring, k: nat)
    requires Reachable(cap, r) && Enabled(r, LoadHead(k))
    ensures SaturatingSub(r.heads[k].value, r.consumer.next) <= |Queue(r)| <= cap
    ensures k == |r.heads| - 1 ==>
              SaturatingSub(r.heads[k].value, r.consumer.next) ==
              |Queue(r)| - (if r.producer.pc.PStoreHead? && Queue(r) != [] then 1 else 0)
  {
    ReachableIsSound(cap, r);
  }
}
