/** The bounded FIFO queue that one ring is meant to be, and the events by which it is observed. */
module BoundedQueue {

  datatype Event<T> =
    | Enqueued(item: T)
    | RefusedFull
    | Dequeued(item: T)
    | RefusedEmpty
    | Silent

  /** One atomic operation of a queue of capacity `cap`: a refusal is allowed only when it is exact. */
  ghost predicate Accepts<T>(cap: nat, q: seq<T>, e: Event<T>, q': seq<T>) {
    match e
    case Enqueued(x) => |q| < cap && q' == q + [x]
    case RefusedFull => |q| == cap && q' == q
    case Dequeued(x) => q != [] && x == q[0] && q' == q[1..]
    case RefusedEmpty => q == [] && q' == q
    case Silent => q' == q
  }

  /** The same queue seen through stale loads: a refusal may be spurious, a success may not. */
  ghost predicate AcceptsStale<T>(cap: nat, q: seq<T>, e: Event<T>, q': seq<T>) {
    if e.RefusedFull? || e.RefusedEmpty? then q' == q else Accepts(cap, q, e, q')
  }

  /** A run of operations; with `exact` no refusal is spurious. */
  ghost predicate AcceptsAll<T(!new)>(exact: bool, cap: nat, q: seq<T>, trace: seq<Event<T>>, q': seq<T>)
    decreases |trace|
  {
    if trace == [] then q == q'
    else
      exists mid: seq<T> ::
        && AcceptsStale(cap, q, trace[0], mid)
        && (exact ==> Accepts(cap, q, trace[0], mid))
        && AcceptsAll(exact, cap, mid, trace[1..], q')
  }

  lemma AcceptOne<T(!new)>(
    exact: bool, cap: nat, q: seq<T>, e: Event<T>, mid: seq<T>, rest: seq<Event<T>>, q': seq<T>)
    requires AcceptsStale(cap, q, e, mid) && (exact ==> Accepts(cap, q, e, mid))
    requires AcceptsAll(exact, cap, mid, rest, q')
    ensures AcceptsAll(exact, cap, q, [e] + rest, q')
  {
    var trace := [e] + rest;
    assert trace[0] == e && trace[1..] == rest;
  }

  function Entering<T>(e: Event<T>): seq<T> {
    if e.Enqueued? then [e.item] else []
  }

  function Leaving<T>(e: Event<T>): seq<T> {
    if e.Dequeued? then [e.item] else []
  }

  ghost function Inputs<T>(trace: seq<Event<T>>): seq<T> {
    if trace == [] then [] else Entering(trace[0]) + Inputs(trace[1..])
  }

  ghost function Outputs<T>(trace: seq<Event<T>>): seq<T> {
    if trace == [] then [] else Leaving(trace[0]) + Outputs(trace[1..])
  }

  lemma OperationBalances<T>(cap: nat, q: seq<T>, e: Event<T>, q': seq<T>)
    requires |q| <= cap && AcceptsStale(cap, q, e, q')
    ensures q + Entering(e) == Leaving(e) + q'
    ensures |q'| <= cap
  {
  }

  /** What the specification means for a client, spurious refusals or not: items leave in the order
      they entered, none lost, none invented, and no more than `cap` are ever inside. */
  lemma {:induction false} FirstInFirstOut<T(!new)>(exact: bool, cap: nat, q: seq<T>, trace: seq<Event<T>>, q': seq<T>)
    requires |q| <= cap
    requires AcceptsAll(exact, cap, q, trace, q')
    ensures q + Inputs(trace) == Outputs(trace) + q'
    ensures |q'| <= cap
    decreases |trace|
  {
    if trace != [] {
      var mid: seq<T> :|
        && AcceptsStale(cap, q, trace[0], mid)
        && AcceptsAll(exact, cap, mid, trace[1..], q');
      OperationBalances(cap, q, trace[0], mid);
      FirstInFirstOut(exact, cap, mid, trace[1..], q');
      var e, ins, outs := trace[0], Inputs(trace[1..]), Outputs(trace[1..]);
      calc {
        q + (Entering(e) + ins);
        (q + Entering(e)) + ins;
        (Leaving(e) + mid) + ins;
        Leaving(e) + (mid + ins);
        Leaving(e) + (outs + q');
        (Leaving(e) + outs) + q';
      }
    }
  }

  /** How many items are inside when operation `i` of a run comes. */
  ghost function Inside<T>(q: seq<T>, trace: seq<Event<T>>, i: nat): int
    requires i <= |trace|
  {
    |q| + |Inputs(trace[..i])| - |Outputs(trace[..i])|
  }

  /** What an exact run tells a client: a refusal as full comes at `cap` items and one as empty at none;
      spurious or not, an item goes in only below `cap` and comes out only of a queue that has one. */
  lemma {:induction false} AnswersAreExact<T(!new)>(
    exact: bool, cap: nat, q: seq<T>, trace: seq<Event<T>>, q': seq<T>, i: nat)
    requires AcceptsAll(exact, cap, q, trace, q') && i < |trace|
    ensures
      match trace[i]
      case Enqueued(_) => Inside(q, trace, i) < cap
      case RefusedFull => exact ==> Inside(q, trace, i) == cap
      case Dequeued(_) => Inside(q, trace, i) > 0
      case RefusedEmpty => exact ==> Inside(q, trace, i) == 0
      case Silent => true
    decreases |trace|
  {
    var mid: seq<T> :|
      && AcceptsStale(cap, q, trace[0], mid)
      && (exact ==> Accepts(cap, q, trace[0], mid))
      && AcceptsAll(exact, cap, mid, trace[1..], q');
    if i > 0 {
      AnswersAreExact(exact, cap, mid, trace[1..], q', i - 1);
      assert trace[..i][0] == trace[0] && trace[..i][1..] == trace[1..][..i - 1];
    } else {
      assert trace[..0] == [];
    }
  }
}
