/** The ring, its two handles and the bus that maps it, as the objects the processes hold. Each method
    runs undisturbed here; `RingProtocol` treats the same code step by step. */
module RingHandles {
  import opened Arithmetic
  import opened Basics
  import opened BoundedQueue
  import opened RingProtocol
  import opened RingSafety

  const RING_CAPACITY: nat := 16384
  const RING_MASK: nat := RING_CAPACITY - 1

  // ----- the slot index: a mask in the code, a remainder in the proofs -----

  /** Bitwise and. */
  function BitAnd(a: nat, b: nat): nat {
    if a == 0 || b == 0 then 0
    else 2 * BitAnd(a / 2, b / 2) + (if a % 2 == 1 && b % 2 == 1 then 1 else 0)
  }

  lemma DoubleRemainder(h: nat, half: nat)
    requires half > 0
    ensures h % (2 * half) == 2 * ((h / 2) % half) + h % 2
  {
    var q, s := (h / 2) / half, (h / 2) % half;
    var t := half * q;
    assert h / 2 == t + s;
    assert (2 * half) * q == 2 * t;
    RemainderIs(2 * half, q, 2 * s + h % 2);
  }

  lemma BitAndStep(h: nat, half: nat)
    requires half > 0
    ensures BitAnd(h, 2 * half - 1) == 2 * BitAnd(h / 2, half - 1) + h % 2
  {
    var mask := 2 * half - 1;
    assert mask / 2 == half - 1 && mask % 2 == 1;
  }

  lemma {:induction false} MaskIsRemainder(h: nat, k: nat)
    ensures BitAnd(h, PowerOfTwo(k) - 1) == h % PowerOfTwo(k)
  {
    if k > 0 {
      var half := PowerOfTwo(k - 1);
      MaskIsRemainder(h / 2, k - 1);
      BitAndStep(h, half);
      DoubleRemainder(h, half);
    }
  }

  /** The masked index of a ring of 16384 slots is the remainder used throughout. */
  lemma MaskedIndex(h: nat)
    ensures BitAnd(h, RING_MASK) == SlotOf(RING_CAPACITY, h)
  {
    assert PowerOfTwo(4) == 16;
    assert PowerOfTwo(8) == 256;
    assert PowerOfTwo(12) == 4096;
    assert PowerOfTwo(14) == RING_CAPACITY;
    MaskIsRemainder(h, 14);
  }

  class SpscRing {
    var head: nat
    var tail: nat
    const cap: nat
    const seqs: array<nat>
    const payload: array2<byte>

    constructor (cap: nat)
      requires 0 < cap < U64
      ensures Mapped() && this.cap == cap
      ensures fresh(seqs) && fresh(payload)
    {
      this.cap := cap;
      seqs := new nat[cap];
      payload := new byte[cap, PAYLOAD];
    }

    ghost predicate Mapped() {
      0 < cap < U64 && seqs.Length == cap && payload.Length0 == cap && payload.Length1 == PAYLOAD
    }

    ghost function Row(i: nat): (row: seq<byte>)
      requires Mapped() && i < cap
      reads payload
      ensures |row| == PAYLOAD
    {
      seq(PAYLOAD, b requires 0 <= b < PAYLOAD reads payload => payload[i, b])
    }

    ghost predicate Zeroed()
      requires Mapped()
      reads payload
    {
      forall i, b :: 0 <= i < cap && 0 <= b < PAYLOAD ==> payload[i, b] == 0
    }

    ghost predicate Valid()
      reads this, seqs
    {
      && Mapped()
      && tail <= head <= tail + cap
      && head < U64
      && forall j: int {:trigger SlotOf(cap, j)} :: head - cap <= j < head ==> seqs[SlotOf(cap, j)] == LapMark(j)
    }

    /** The messages published and not yet consumed, oldest first. */
    ghost function Unread(): (q: seq<seq<byte>>)
      requires Valid()
      reads this, seqs, payload
      ensures |q| == head - tail
    {
      seq(head - tail, k requires 0 <= k < head - tail reads this, payload, seqs => Row(SlotOf(cap, tail + k)))
    }

    /** The slots the consumer has yet to take hold the same payloads as before. */
    twostate predicate UnreadKept()
      requires old(Valid()) && Mapped()
      reads this, seqs, payload
    {
      forall j: int {:trigger SlotOf(cap, j)} :: old(tail) <= j < old(head) ==> Row(SlotOf(cap, j)) == old(Row(SlotOf(cap, j)))
    }

    /** Stamping the free slot and moving the head on keeps the ring in order. */
    twostate lemma HeadAdvances()
      requires old(Valid()) && Mapped() && old(head) < old(tail) + cap && old(head) + 1 < U64
      requires tail == old(tail) && head == old(head) + 1
      requires seqs[SlotOf(cap, old(head))] == old(head) + 1
      requires forall i :: 0 <= i < cap && i != SlotOf(cap, old(head)) ==>
                 seqs[i] == old(seqs[i]) && Row(i) == old(Row(i))
      ensures Valid() && UnreadKept()
    {
      OthersKeepTheirSlot(cap, old(head));
    }

    /** A slot more before the head is a message more at the end of the queue. */
    twostate lemma OneMoreUnread()
      requires old(Valid()) && Valid()
      requires tail == old(tail) && head == old(head) + 1 && UnreadKept()
      ensures Unread() == old(Unread()) + [Row(SlotOf(cap, old(head)))]
    {
      var q, q' := old(Unread()), Unread();
      forall k | 0 <= k < |q|
        ensures q'[k] == q[k]
      {
        assert q'[k] == Row(SlotOf(cap, tail + k));
      }
    }

    /** A step of the tail takes the oldest message off the queue. */
    twostate lemma OneFewerUnread()
      requires old(Valid()) && Valid() && old(tail) < old(head)
      requires tail == old(tail) + 1 && head == old(head)
      requires unchanged(payload)
      ensures old(Unread())[0] == old(Row(SlotOf(cap, tail))) && Unread() == old(Unread())[1..]
    {
      var q, q' := old(Unread()), Unread();
      forall k | 0 <= k < |q'|
        ensures q'[k] == q[k + 1]
      {
        assert q[k + 1] == old(Row(SlotOf(cap, tail + (k + 1))));
      }
    }

    method InitInPlace()
      requires Mapped()
      modifies this, seqs
      ensures Valid() && Unread() == []
      ensures head == 0 && tail == 0
    {
      head, tail := 0, 0;
      for i := 0 to cap
        invariant forall k :: 0 <= k < i ==> seqs[k] == 0
        invariant head == 0 && tail == 0
      {
        seqs[i] := 0;
      }
    }
  }

  class RingProducer {
    const ring: SpscRing
    var nextSeq: nat

    ghost predicate Valid()
      reads this, ring, ring.seqs
    {
      ring.Valid() && nextSeq == ring.head
    }

    constructor (ring: SpscRing)
      requires ring.Valid()
      ensures this.ring == ring && Valid()
    {
      this.ring := ring;
      nextSeq := ring.head;
    }

    method CopyIn(i: nat, bytes: seq<byte>)
      requires ring.Mapped() && i < ring.cap && |bytes| <= PAYLOAD
      modifies ring.payload
      ensures ring.Row(i) == Padded(bytes)
      ensures forall j :: 0 <= j < ring.cap && j != i ==> ring.Row(j) == old(ring.Row(j))
    {
      for b := 0 to |bytes|
        invariant forall k :: 0 <= k < b ==> ring.payload[i, k] == bytes[k]
        invariant forall j, k :: 0 <= j < ring.cap && 0 <= k < PAYLOAD && j != i ==>
                    ring.payload[j, k] == old(ring.payload[j, k])
      {
        ring.payload[i, b] := bytes[b];
      }
      for b := |bytes| to PAYLOAD
        invariant forall k :: 0 <= k < b ==> ring.payload[i, k] == Padded(bytes)[k]
        invariant forall j, k :: 0 <= j < ring.cap && 0 <= k < PAYLOAD && j != i ==>
                    ring.payload[j, k] == old(ring.payload[j, k])
      {
        ring.payload[i, b] := 0;
      }
      forall j | 0 <= j < ring.cap && j != i
        ensures ring.Row(j) == old(ring.Row(j))
      {
        assert forall k :: 0 <= k < PAYLOAD ==> ring.payload[j, k] == old(ring.payload[j, k]);
      }
    }

    method TryPublish(bytes: seq<byte>) returns (ok: bool)
      requires Valid() && |bytes| <= PAYLOAD && nextSeq + 1 < U64
      modifies this, ring, ring.seqs, ring.payload
      ensures Valid() && ring.tail == old(ring.tail)
      ensures Accepts(ring.cap, old(ring.Unread()), if ok then Enqueued(Padded(bytes)) else RefusedFull, ring.Unread())
    {
      var head := nextSeq;
      var tail := ring.tail;
      if WrappingSub(head, tail) >= ring.cap {
        return false;
      }
      var i := SlotOf(ring.cap, head);
      CopyIn(i, bytes);
      ring.seqs[i] := head + 1;
      nextSeq := head + 1;
      ring.head := nextSeq;
      ok := true;
      ring.HeadAdvances();
      ring.OneMoreUnread();
    }
  }

  class RingConsumer {
    const ring: SpscRing
    var nextSeq: nat

    ghost predicate Valid()
      reads this, ring, ring.seqs
    {
      ring.Valid() && nextSeq == ring.tail
    }

    constructor (ring: SpscRing)
      requires ring.Valid()
      ensures this.ring == ring && Valid()
    {
      this.ring := ring;
      nextSeq := ring.tail;
    }

    /** The awaited number is in the slot exactly when a message is unread. */
    lemma ReadyExactly()
      requires Valid()
      ensures ring.seqs[SlotOf(ring.cap, nextSeq)] == nextSeq + 1 <==> ring.tail < ring.head
    {
      var cap := ring.cap;
      OthersKeepTheirSlot(cap, nextSeq);
      if nextSeq == ring.head {
        assert ring.seqs[SlotOf(cap, nextSeq - cap)] == LapMark(nextSeq - cap);
      } else {
        assert ring.seqs[SlotOf(cap, nextSeq)] == LapMark(nextSeq);
      }
    }

    method CopyOut(i: nat, out: array<byte>)
      requires ring.Mapped() && i < ring.cap && out.Length >= PAYLOAD
      modifies out
      ensures out[..PAYLOAD] == ring.Row(i)
      ensures out[PAYLOAD..] == old(out[PAYLOAD..])
    {
      for b := 0 to PAYLOAD
        invariant forall k :: 0 <= k < b ==> out[k] == ring.payload[i, k]
        invariant out[PAYLOAD..] == old(out[PAYLOAD..])
      {
        out[b] := ring.payload[i, b];
      }
    }

    method TryConsume(out: array<byte>) returns (n: Option<nat>)
      requires Valid() && out.Length >= PAYLOAD
      modifies this, ring`tail, out
      ensures Valid() && ring.head == old(ring.head)
      ensures out[PAYLOAD..] == old(out[PAYLOAD..])
      ensures n.Some? ==> n.value == PAYLOAD
      ensures n.None? ==> out[..] == old(out[..])
      ensures Accepts(ring.cap, old(ring.Unread()),
                      if n.Some? then Dequeued(out[..PAYLOAD]) else RefusedEmpty, ring.Unread())
    {
      var expected := nextSeq + 1;
      var i := SlotOf(ring.cap, nextSeq);
      ReadyExactly();
      if ring.seqs[i] != expected {
        return None;
      }
      CopyOut(i, out);
      nextSeq := expected;
      ring.tail := nextSeq;
      n := Some(PAYLOAD);
      ring.OneFewerUnread();
    }

    method Pending() returns (n: nat)
      requires Valid()
      ensures n == |ring.Unread()|
    {
      n := SaturatingSub(ring.head, nextSeq);
    }
  }

  // ----- the mapped file -----

  const BUS_MAGIC: nat := 0x5348_4D42
  const BUS_VERSION: nat := 1

  datatype Opening = Attached | VersionMismatch(file: nat) | WaitingForCreator

  class ShmBus {
    var magic: nat
    var version: nat
    var ready: nat
    const ticks: SpscRing
    const orders: SpscRing

    ghost predicate Mapped() {
      && ticks.Mapped() && orders.Mapped()
      && ticks != orders
      && ticks.seqs != orders.seqs
      && ticks.payload != orders.payload
    }

    constructor (cap: nat)
      requires 0 < cap < U64
      ensures Mapped() && ticks.cap == cap && orders.cap == cap
    {
      ticks := new SpscRing(cap);
      orders := new SpscRing(cap);
    }

    /** Both rings usable and the header stamped by this build. */
    ghost predicate Live()
      reads this, ticks, ticks.seqs, orders, orders.seqs
    {
      && Mapped() && ticks.Valid() && orders.Valid()
      && magic == BUS_MAGIC && version == BUS_VERSION && ready == 1
    }

    /** `isNew` says the file was shorter than the layout. One look at the ready flag is modelled: a
        caller told to wait looks again. */
    method OpenOrCreate(isNew: bool) returns (outcome: Opening)
      requires Mapped()
      modifies this, ticks, ticks.seqs, ticks.payload, orders, orders.seqs, orders.payload
      ensures isNew || old(magic) != 0x5348_4D42 ==>
                && outcome == Attached && Live() && ticks.Unread() == [] && orders.Unread() == []
                && ticks.Zeroed() && orders.Zeroed()
      ensures !isNew && old(magic) == 0x5348_4D42 ==>
                && unchanged(this) && unchanged(ticks) && unchanged(orders)
                && unchanged(ticks.seqs) && unchanged(orders.seqs)
                && unchanged(ticks.payload) && unchanged(orders.payload)
                && outcome == (if version != 1 then VersionMismatch(version)
                               else if ready != 1 then WaitingForCreator else Attached)
      ensures old(Live()) && !isNew ==>
                && outcome == Attached && Live()
                && ticks.Unread() == old(ticks.Unread()) && orders.Unread() == old(orders.Unread())
    {
      if isNew || magic != BUS_MAGIC {
        magic, version, ready := 0, 0, 0;
        ZeroRing(ticks);
        ZeroRing(orders);
        ticks.InitInPlace();
        orders.InitInPlace();
        version := BUS_VERSION;
        magic := BUS_MAGIC;
        ready := 1;
        outcome := Attached;
      } else if version != BUS_VERSION {
        outcome := VersionMismatch(version);
      } else if ready != 1 {
        outcome := WaitingForCreator;
      } else {
        outcome := Attached;
      }
    }

    method ZeroRing(ring: SpscRing)
      requires ring.Mapped()
      modifies ring, ring.seqs, ring.payload
      ensures ring.head == 0 && ring.tail == 0
      ensures forall i :: 0 <= i < ring.cap ==> ring.seqs[i] == 0
      ensures ring.Zeroed()
    {
      ring.head, ring.tail := 0, 0;
      forall i | 0 <= i < ring.cap {
        ring.seqs[i] := 0;
      }
      forall i, b | 0 <= i < ring.cap && 0 <= b < PAYLOAD {
        ring.payload[i, b] := 0;
      }
    }
  }
}
