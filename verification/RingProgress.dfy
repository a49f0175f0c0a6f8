/** Neither side ever waits for the other: a call takes a bounded number of its own steps. */
module RingProgress {
  import opened RingProtocol
  import opened RingTheorems

  function Below(n: nat): (r: set<nat>)
    ensures |r| == n && forall b: nat :: b in r <==> b < n
  {
    if n == 0 then {} else Below(n - 1) + {n - 1}
  }

  /** How many of `n` bytes a copy has yet to move. */
  function Missing(n: nat, done: set<nat>): (k: nat)
    ensures k <= n
  {
    var all := Below(n);
    assert all == (all - done) + (all * done);
    |all - done|
  }

  lemma OneFewer(n: nat, done: set<nat>, b: nat)
    requires b < n && b !in done
    ensures Missing(n, done + {b}) < Missing(n, done)
  {
    var all := Below(n);
    assert all - (done + {b}) == (all - done) - {b};
  }

  function ProducerLeft(n: nat, pc: ProducerPc): (k: nat)
    ensures k <= n + 3
  {
    match pc
    case PIdle => 0
    case PLoadTail(_) => n + 3
    case PCopy(_, done) => Missing(n, done) + 2
    case PStoreHead => 1
  }

  function ConsumerLeft(n: nat, pc: ConsumerPc): (k: nat)
    ensures k <= n + 3
  {
    match pc
    case CIdle => 0
    case CLoadSeq(_) => n + 3
    case CCopy(_, done) => Missing(n, done) + 2
    case CStoreTail(_) => 1
  }

  /** An upper bound on the steps the open call of either side has left, for a payload of `n` bytes. */
  function StepsLeft(n: nat, r: Ring, producer: bool): (k: nat)
    ensures k <= n + 3
  {
    if producer then ProducerLeft(n, r.producer.pc) else ConsumerLeft(n, r.consumer.pc)
  }

  predicate StepOf(step: Step, producer: bool) {
    if producer then step.LoadTail? || step.WriteByte? || step.StoreSeq? || step.StoreHead?
    else step.LoadSeq? || step.ReadByte? || step.FinishCopy? || step.StoreTail?
  }

  predicate Opens(step: Step, producer: bool) {
    if producer then step.CallPublish? else step.CallConsume?
  }

  predicate Replaces(step: Step, producer: bool) {
    if producer then step.ReplaceProducer? else step.ReplaceConsumer?
  }

  lemma ProducerPcMoves(r: Ring, step: Step)
    requires Shape(r) && Enabled(r, step) && StepOf(step, true)
    ensures
      var pc, pc' := r.producer.pc, Apply(r, step).producer.pc;
      match step
      case WriteByte(b) => pc.PCopy? && b < PAYLOAD && b !in pc.done && pc' == PCopy(pc.bytes, pc.done + {b})
      case StoreSeq => pc.PCopy? && pc' == PStoreHead
      case StoreHead => pc.PStoreHead? && pc' == PIdle
      case _ => pc.PLoadTail? && (pc' == PIdle || pc' == PCopy(pc.bytes, {}))
  {
  }

  lemma ConsumerPcMoves(r: Ring, step: Step)
    requires Shape(r) && Enabled(r, step) && StepOf(step, false)
    ensures
      var pc, pc' := r.consumer.pc, Apply(r, step).consumer.pc;
      match step
      case ReadByte(b) => pc.CCopy? && b < PAYLOAD && b !in pc.done && pc'.CCopy? && pc'.done == pc.done + {b}
      case FinishCopy => pc.CCopy? && pc'.CStoreTail?
      case StoreTail => pc.CStoreTail? && pc' == CIdle
      case _ => pc.CLoadSeq? && (pc' == CIdle || pc' == CCopy(pc.out, {}))
  {
  }

  lemma ProducerLeftDrops(n: nat, r: Ring, step: Step)
    requires n == PAYLOAD && Shape(r) && Enabled(r, step) && StepOf(step, true)
    ensures ProducerLeft(n, Apply(r, step).producer.pc) < ProducerLeft(n, r.producer.pc)
  {
    ProducerPcMoves(r, step);
    if step.WriteByte? {
      OneFewer(n, r.producer.pc.done, step.b);
    }
  }

  lemma ConsumerLeftDrops(n: nat, r: Ring, step: Step)
    requires n == PAYLOAD && Shape(r) && Enabled(r, step) && StepOf(step, false)
    ensures ConsumerLeft(n, Apply(r, step).consumer.pc) < ConsumerLeft(n, r.consumer.pc)
  {
    ConsumerPcMoves(r, step);
    if step.ReadByte? {
      OneFewer(n, r.consumer.pc.done, step.b);
    }
  }

  lemma OtherStepsLeave(r: Ring, step: Step, producer: bool)
    requires Shape(r) && Enabled(r, step)
    requires !StepOf(step, producer) && !Opens(step, producer) && !Replaces(step, producer)
    ensures if producer then Apply(r, step).producer.pc == r.producer.pc
            else Apply(r, step).consumer.pc == r.consumer.pc
  {
  }

  lemma StepsLeftDrops(n: nat, r: Ring, step: Step, producer: bool)
    requires n == PAYLOAD && Shape(r) && Enabled(r, step) && !Opens(step, producer) && !Replaces(step, producer)
    ensures StepsLeft(n, Apply(r, step), producer) <= StepsLeft(n, r, producer) - (if StepOf(step, producer) then 1 else 0)
  {
    if !StepOf(step, producer) {
      OtherStepsLeave(r, step, producer);
    } else if producer {
      ProducerLeftDrops(n, r, step);
    } else {
      ConsumerLeftDrops(n, r, step);
    }
  }

  ghost function OwnSteps(steps: seq<Step>, producer: bool): nat {
    if steps == [] then 0 else (if StepOf(steps[0], producer) then 1 else 0) + OwnSteps(steps[1..], producer)
  }

  /** Wait-freedom, bounded: from any point of a call and whatever the other side does or fails to do,
      the call is over after at most 83 steps of its own. */
  lemma {:induction false} CallsAreBounded(n: nat, r0: Ring, steps: seq<Step>, r: Ring, producer: bool)
    requires n == PAYLOAD && Run(r0, steps, r)
    requires forall i :: 0 <= i < |steps| ==> !Opens(steps[i], producer) && !Replaces(steps[i], producer)
    ensures OwnSteps(steps, producer) + StepsLeft(n, r, producer) <= StepsLeft(n, r0, producer) <= 83
    decreases |steps|
  {
    if steps != [] {
      StepsLeftDrops(n, r0, steps[0], producer);
      CallsAreBounded(n, Apply(r0, steps[0]), steps[1..], r, producer);
    }
  }

  /** And in every reachable state an open call has a step it can take at once. */
  lemma OpenCallCanMove(cap: nat, r: Ring, producer: bool) returns (step: Step)
    requires Reachable(cap, r)
    requires if producer then !r.producer.pc.PIdle? else !r.consumer.pc.CIdle?
    ensures Enabled(r, step) && StepOf(step, producer)
  {
    ReachableIsSound(cap, r);
    if producer {
      match r.producer.pc
      case PLoadTail(_) => step := LoadTail(|r.tails| - 1);
      case PStoreHead => step := StoreHead;
      case PCopy(_, done) =>
        if AllBytes(done) {
          step := StoreSeq;
        } else {
          var b: nat :| b < PAYLOAD && b !in done;
          step := WriteByte(b);
        }
    } else {
      match r.consumer.pc
      case CLoadSeq(_) => step := LoadSeq(|r.slots[Source(r)].seqs| - 1);
      case CStoreTail(_) => step := StoreTail;
      case CCopy(_, done) =>
        if AllBytes(done) {
          step := FinishCopy;
        } else {
          var b: nat :| b < PAYLOAD && b !in done;
          step := ReadByte(b);
        }
    }
  }
}
