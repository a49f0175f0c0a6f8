/** The lock-free ring as two threads of single memory steps under release/acquire.

    Every atomic location keeps all the values ever stored in it, each stamped with the view of the
    storing thread. A load may return any of them, however old, and an acquire load joins the stamp
    into the loader's view. Payload bytes are plain memory: each remembers when it was last written
    and last read, so that an access not ordered by happens-before is visible as a race. */
module RingProtocol {
  import opened Basics

  const PAYLOAD: nat := 80

  newtype byte = x: int | 0 <= x < 256

  /** How many steps of each thread are known to have happened. */
  datatype Clock = Clock(p: nat, c: nat)

  datatype Stamp = Stamp(value: nat, view: Clock)

  datatype Cell = Cell(value: byte, writtenAt: nat, readAt: nat)

  datatype Slot = Slot(seqs: seq<Stamp>, cells: seq<Cell>)

  datatype ProducerPc =
    | PIdle
    | PLoadTail(bytes: seq<byte>)
    | PCopy(bytes: seq<byte>, done: set<nat>)
    | PStoreHead

  datatype ConsumerPc =
    | CIdle
    | CLoadSeq(out: seq<byte>)
    | CCopy(out: seq<byte>, done: set<nat>)
    | CStoreTail(out: seq<byte>)

  datatype Producer = Producer(next: nat, pc: ProducerPc, view: Clock)

  datatype Consumer = Consumer(next: nat, pc: ConsumerPc, view: Clock)

  /** A payload handed over to a consumer, with the number of the message it was taken from. */
  datatype Copy = Copy(index: nat, payload: seq<byte>)

  /** `published`, `released`, `copies` and `takeovers` record history; no step's outcome reads them. */
  datatype Ring = Ring(
    cap: nat,
    heads: seq<Stamp>,
    tails: seq<Stamp>,
    slots: seq<Slot>,
    producer: Producer,
    consumer: Consumer,
    published: seq<seq<byte>>,
    released: seq<seq<byte>>,
    copies: seq<Copy>,
    takeovers: nat
  )

  /** Loads name the entry of the history they return; byte copies name the byte, so a copy may run
      in any order. */
  datatype Step =
    | CallPublish(bytes: seq<byte>)
    | LoadTail(k: nat)
    | WriteByte(b: nat)
    | StoreSeq
    | StoreHead
    | CallConsume(out: seq<byte>)
    | LoadSeq(k: nat)
    | ReadByte(b: nat)
    | FinishCopy
    | StoreTail
    | LoadHead(k: nat)
    | ReplaceProducer
    | ReplaceConsumer

  function Join(a: Clock, b: Clock): Clock {
    Clock(if a.p < b.p then b.p else a.p, if a.c < b.c then b.c else a.c)
  }

  function SlotOf(cap: nat, k: int): nat
    requires cap > 0
  {
    k % cap
  }

  function SaturatingSub(a: nat, b: nat): nat {
    if a < b then 0 else a - b
  }

  /** The slot contents after the copy and the zero fill. */
  function Padded(bytes: seq<byte>): (r: seq<byte>)
    requires |bytes| <= PAYLOAD
    ensures |r| == PAYLOAD
    ensures r[..|bytes|] == bytes
    ensures forall b :: |bytes| <= b < PAYLOAD ==> r[b] == 0
  {
    bytes + seq(PAYLOAD - |bytes|, _ => 0)
  }

  function Init(cap: nat, junk: seq<seq<byte>>): Ring
    requires cap > 0
    requires |junk| == cap && forall i :: 0 <= i < cap ==> |junk[i]| == PAYLOAD
  {
    var origin := Clock(0, 0);
    var zero := Stamp(0, origin);
    Ring(cap, [zero], [zero],
         seq(cap, i requires 0 <= i < cap =>
           Slot([zero], seq(PAYLOAD, b requires 0 <= b < PAYLOAD => Cell(junk[i][b], 0, 0)))),
         Producer(0, PIdle, origin), Consumer(0, CIdle, origin),
         [], [], [], 0)
  }

  ghost predicate Shape(r: Ring) {
    && r.cap > 0
    && r.cap < U64
    && |r.slots| == r.cap
    && r.heads != []
    && r.tails != []
    && forall i :: 0 <= i < r.cap ==> r.slots[i].seqs != [] && |r.slots[i].cells| == PAYLOAD
  }

  function Target(r: Ring): nat
    requires Shape(r)
  {
    SlotOf(r.cap, r.producer.next)
  }

  function Source(r: Ring): nat
    requires Shape(r)
  {
    SlotOf(r.cap, r.consumer.next)
  }

  ghost predicate AllBytes(done: set<nat>) {
    forall b: nat :: b < PAYLOAD ==> b in done
  }

  ghost predicate Enabled(r: Ring, step: Step)
    requires Shape(r)
  {
    match step
    case CallPublish(bytes) => r.producer.pc.PIdle? && |bytes| <= PAYLOAD && r.producer.next + 1 < U64
    case LoadTail(k) => r.producer.pc.PLoadTail? && k < |r.tails|
    case WriteByte(b) => r.producer.pc.PCopy? && b < PAYLOAD && b !in r.producer.pc.done
                         && |r.producer.pc.bytes| <= PAYLOAD
    case StoreSeq => r.producer.pc.PCopy? && AllBytes(r.producer.pc.done) && |r.producer.pc.bytes| <= PAYLOAD
    case StoreHead => r.producer.pc.PStoreHead?
    case CallConsume(out) => r.consumer.pc.CIdle? && |out| == PAYLOAD
    case LoadSeq(k) => r.consumer.pc.CLoadSeq? && k < |r.slots[Source(r)].seqs|
    case ReadByte(b) => r.consumer.pc.CCopy? && b < PAYLOAD && b !in r.consumer.pc.done
                        && |r.consumer.pc.out| == PAYLOAD
    case FinishCopy => r.consumer.pc.CCopy? && AllBytes(r.consumer.pc.done)
    case StoreTail => r.consumer.pc.CStoreTail?
    case LoadHead(k) => r.consumer.pc.CIdle? && k < |r.heads|
    case ReplaceProducer => true
    case ReplaceConsumer => true
  }

  predicate ConsumerStep(step: Step) {
    step.CallConsume? || step.LoadSeq? || step.ReadByte? || step.FinishCopy? || step.StoreTail?
    || step.LoadHead? || step.ReplaceConsumer?
  }

  function Tick(r: Ring, step: Step): Ring {
    if ConsumerStep(step) then r.(consumer := r.consumer.(view := r.consumer.view.(c := r.consumer.view.c + 1)))
    else r.(producer := r.producer.(view := r.producer.view.(p := r.producer.view.p + 1)))
  }

  /** The state after one step of `try_publish`, `try_consume`, `pending` or a handle constructor. */
  ghost function Apply(r0: Ring, step: Step): Ring
    requires Shape(r0)
    requires Enabled(r0, step)
  {
    var r := Tick(r0, step);
    var p, c := r.producer, r.consumer;
    match step
    case CallPublish(bytes) => r.(producer := p.(pc := PLoadTail(bytes)))
    case LoadTail(k) =>
      var t := r.tails[k];
      var full := WrappingSub(p.next, t.value) >= r.cap;
      r.(producer := p.(pc := if full then PIdle else PCopy(p.pc.bytes, {}), view := Join(p.view, t.view)))
    case WriteByte(b) =>
      var i := Target(r);
      var cell := r.slots[i].cells[b].(value := Padded(p.pc.bytes)[b], writtenAt := p.view.p);
      r.(slots := r.slots[i := r.slots[i].(cells := r.slots[i].cells[b := cell])],
         producer := p.(pc := p.pc.(done := p.pc.done + {b})))
    case StoreSeq =>
      var i := Target(r);
      r.(slots := r.slots[i := r.slots[i].(seqs := r.slots[i].seqs + [Stamp(p.next + 1, p.view)])],
         producer := p.(next := p.next + 1, pc := PStoreHead),
         published := r.published + [Padded(p.pc.bytes)])
    case StoreHead =>
      r.(heads := r.heads + [Stamp(p.next, p.view)], producer := p.(pc := PIdle))
    case CallConsume(out) => r.(consumer := c.(pc := CLoadSeq(out)))
    case LoadSeq(k) =>
      var s := r.slots[Source(r)].seqs[k];
      var ready := s.value == c.next + 1;
      r.(consumer := c.(pc := if ready then CCopy(c.pc.out, {}) else CIdle, view := Join(c.view, s.view)))
    case ReadByte(b) =>
      var i := Source(r);
      var cell := r.slots[i].cells[b];
      r.(slots := r.slots[i := r.slots[i].(cells := r.slots[i].cells[b := cell.(readAt := c.view.c)])],
         consumer := c.(pc := CCopy(c.pc.out[b := cell.value], c.pc.done + {b})))
    case FinishCopy =>
      r.(consumer := c.(next := c.next + 1, pc := CStoreTail(c.pc.out)),
         copies := r.copies + [Copy(c.next, c.pc.out)])
    case StoreTail =>
      r.(tails := r.tails + [Stamp(c.next, c.view)],
         consumer := c.(pc := CIdle),
         released := r.released + [c.pc.out])
    case LoadHead(k) => r.(consumer := c.(view := Join(c.view, r.heads[k].view)))
    case ReplaceProducer => r.(producer := p.(next := Last(r.heads).value, pc := PIdle))
    case ReplaceConsumer =>
      r.(consumer := c.(next := Last(r.tails).value, pc := CIdle), takeovers := r.takeovers + 1)
  }

  /** A plain access that conflicts with an earlier one it does not happen after. */
  ghost predicate Races(r: Ring, step: Step)
    requires Shape(r)
    requires Enabled(r, step)
  {
    match step
    case WriteByte(b) => r.slots[Target(r)].cells[b].readAt > r.producer.view.c
    case ReadByte(b) => r.slots[Source(r)].cells[b].writtenAt > r.consumer.view.p
    case _ => false
  }

  /** The window in which replacing the producer is unsafe: `seq` is stored and `head` is not. */
  ghost predicate Safe(r: Ring, step: Step) {
    step.ReplaceProducer? ==> !r.producer.pc.PStoreHead?
  }

  // ----- the invariant -----

  ghost predicate Cursors(r: Ring)
    requires Shape(r)
  {
    var n, m := |r.published|, |r.released|;
    && m <= n <= m + r.cap
    && n < U64
    && r.released == r.published[..m]
    && (forall j :: 0 <= j < n ==> |r.published[j]| == PAYLOAD)
    && r.producer.next == n
    && Last(r.heads).value == (if r.producer.pc.PStoreHead? then n - 1 else n)
    && (forall k :: 0 <= k < |r.heads| ==> r.heads[k].value <= n)
    && |r.tails| == m + 1
    && (forall k :: 0 <= k <= m ==> r.tails[k].value == k)
    && r.consumer.next == (if r.consumer.pc.CStoreTail? then m + 1 else m)
    && (r.producer.pc.PStoreHead? ==> n > 0)
    && (r.producer.pc.PCopy? || r.producer.pc.PLoadTail? ==>
          |r.producer.pc.bytes| <= PAYLOAD && n + 1 < U64)
  }

  /** The number stored in the slot of message `j`; messages below 0 stand for a slot never used. */
  function LapMark(j: int): nat {
    if j < 0 then 0 else j + 1
  }

  /** A slot's sequence number is that of the newest message mapped to it. */
  ghost predicate Laps(r: Ring)
    requires Shape(r)
  {
    var n := |r.published|;
    && (forall j: int {:trigger SlotOf(r.cap, j)} :: n - r.cap <= j < n ==>
          Last(r.slots[SlotOf(r.cap, j)].seqs).value == LapMark(j))
    && (forall i, k :: 0 <= i < r.cap && 0 <= k < |r.slots[i].seqs| ==> r.slots[i].seqs[k].value <= n)
    && (forall i, k, l :: 0 <= i < r.cap && 0 <= k < l < |r.slots[i].seqs| ==>
          r.slots[i].seqs[k].value < r.slots[i].seqs[l].value)
  }

  ghost predicate Holds(slot: Slot, payload: seq<byte>) {
    && slot.seqs != []
    && |slot.cells| == |payload|
    && forall b :: 0 <= b < |slot.cells| ==>
         && slot.cells[b].value == payload[b]
         && slot.cells[b].writtenAt <= Last(slot.seqs).view.p
  }

  ghost predicate ReadBefore(slot: Slot, c: nat) {
    forall b :: 0 <= b < |slot.cells| ==> slot.cells[b].readAt <= c
  }

  ghost predicate WrittenBefore(slot: Slot, p: nat) {
    forall b :: 0 <= b < |slot.cells| ==> slot.cells[b].writtenAt <= p
  }

  /** The consumer's clock when it gave message `j`'s slot back. */
  function ReleasedAt(r: Ring, j: int): nat
    requires j + 1 < |r.tails|
  {
    if j < 0 then 0 else r.tails[j + 1].view.c
  }

  /** The slots split in two windows: unread messages intact, free slots with every read released. */
  ghost predicate Windows(r: Ring)
    requires Shape(r) && Cursors(r)
  {
    var n, m := |r.published|, |r.released|;
    && (forall j: int {:trigger SlotOf(r.cap, j)} :: m <= j < n ==>
          Holds(r.slots[SlotOf(r.cap, j)], r.published[j]))
    && (forall j: int {:trigger SlotOf(r.cap, j)} :: n - r.cap <= j < m ==>
          ReadBefore(r.slots[SlotOf(r.cap, j)], ReleasedAt(r, j)))
    && (forall i :: 0 <= i < r.cap ==>
          && ReadBefore(r.slots[i], r.consumer.view.c)
          && WrittenBefore(r.slots[i], r.producer.view.p))
    && (forall k, l :: 0 <= k <= l <= m ==> r.tails[k].view.c <= r.tails[l].view.c)
    && (forall k :: 0 <= k <= m ==> r.tails[k].view.c <= r.consumer.view.c)
  }

  ghost predicate ProducerAt(r: Ring)
    requires Shape(r) && Cursors(r)
  {
    var n, m := |r.published|, |r.released|;
    var slot := r.slots[SlotOf(r.cap, n)];
    r.producer.pc.PCopy? ==>
      && n < m + r.cap
      && ReadBefore(slot, r.producer.view.c)
      && forall b :: 0 <= b < PAYLOAD && b in r.producer.pc.done ==>
           slot.cells[b].value == Padded(r.producer.pc.bytes)[b]
  }

  ghost predicate ConsumerAt(r: Ring)
    requires Shape(r) && Cursors(r)
  {
    var n, m := |r.published|, |r.released|;
    match r.consumer.pc
    case CIdle => true
    case CLoadSeq(out) => |out| == PAYLOAD
    case CCopy(out, done) =>
      && m < n
      && |out| == PAYLOAD
      && WrittenBefore(r.slots[SlotOf(r.cap, m)], r.consumer.view.p)
      && forall b :: 0 <= b < PAYLOAD && b in done ==> out[b] == r.published[m][b]
    case CStoreTail(out) => m < n && out == r.published[m]
  }

  /** What consumers have been handed: the messages in order, a repeat only after a takeover. */
  ghost predicate Handed(r: Ring)
    requires Shape(r) && Cursors(r)
  {
    var m, k := |r.released|, |r.copies|;
    && (forall i :: 0 <= i < k ==>
          r.copies[i].index < |r.published| && r.copies[i].payload == r.published[r.copies[i].index])
    && (forall i, j :: 0 <= i < k && j == i + 1 < k ==>
          r.copies[i].index <= r.copies[j].index <= r.copies[i].index + 1)
    && (if k == 0 then m == 0 else r.copies[0].index == 0 && m - 1 <= r.copies[k - 1].index <= m)
    && (r.consumer.pc.CStoreTail? ==> k > 0 && r.copies[k - 1].index == m)
    && k <= r.consumer.next + r.takeovers
  }

  ghost predicate Past(r: Ring, view: Clock) {
    view.p <= r.producer.view.p && view.c <= r.consumer.view.c
  }

  /** No thread and no stamp knows of a step that has not happened. */
  ghost predicate Causal(r: Ring)
    requires Shape(r)
  {
    && Past(r, r.producer.view)
    && Past(r, r.consumer.view)
    && (forall k :: 0 <= k < |r.heads| ==> Past(r, r.heads[k].view))
    && (forall k :: 0 <= k < |r.tails| ==> Past(r, r.tails[k].view))
    && (forall i, k :: 0 <= i < r.cap && 0 <= k < |r.slots[i].seqs| ==> Past(r, r.slots[i].seqs[k].view))
  }

  ghost predicate Inv(r: Ring) {
    && Shape(r)
    && Causal(r)
    && Cursors(r)
    && Laps(r)
    && Windows(r)
    && ProducerAt(r)
    && ConsumerAt(r)
    && Handed(r)
  }
}
