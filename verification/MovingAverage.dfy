/** What the strategy's average and its orders mean in terms of the prices a symbol has shown. */
module MovingAverage {
  import opened Basics
  import opened Strategy

  function Mids(ticks: seq<TimedTick>): (r: seq<real>)
    ensures |r| == |ticks|
  {
    seq(|ticks|, i requires 0 <= i < |ticks| => Mid(ticks[i].tick))
  }

  /** The average of a price history, first price first. */
  function Ema(alpha: real, mids: seq<real>): real
    requires mids != []
  {
    if |mids| == 1 then mids[0]
    else Blend(alpha, mids[|mids| - 1], Ema(alpha, mids[..|mids| - 1]))
  }

  function Times(x: real, y: real): real {
    x * y
  }

  function Power(x: real, k: nat): real {
    if k == 0 then 1.0 else Times(x, Power(x, k - 1))
  }

  function Scaled(x: real, w: seq<real>): (r: seq<real>)
    ensures |r| == |w|
  {
    if w == [] then [] else Scaled(x, w[..|w| - 1]) + [Times(x, w[|w| - 1])]
  }

  function Sum(w: seq<real>): real {
    if w == [] then 0.0 else Sum(w[..|w| - 1]) + w[|w| - 1]
  }

  function Dot(w: seq<real>, v: seq<real>): real
    requires |w| == |v|
  {
    if w == [] then 0.0 else Dot(w[..|w| - 1], v[..|v| - 1]) + Times(w[|w| - 1], v[|v| - 1])
  }

  /** The weight each of the first `n` prices has in the average. */
  function Weights(alpha: real, n: nat): (w: seq<real>)
    requires n > 0
    ensures |w| == n
  {
    if n == 1 then [1.0] else Scaled(1.0 - alpha, Weights(alpha, n - 1)) + [alpha]
  }

  lemma Distributes(x: real, a: real, b: real, t: real)
    requires t == a + b
    ensures Times(x, t) == Times(x, a) + Times(x, b)
  {
  }

  lemma Associates(x: real, a: real, b: real)
    ensures Times(x, Times(a, b)) == Times(Times(x, a), b)
  {
  }

  lemma SumAppend(w: seq<real>, x: real)
    ensures Sum(w + [x]) == Sum(w) + x
  {
    assert (w + [x])[..|w|] == w;
  }

  lemma DotAppend(w: seq<real>, v: seq<real>, x: real, y: real)
    requires |w| == |v|
    ensures Dot(w + [x], v + [y]) == Dot(w, v) + Times(x, y)
  {
    var w', v' := w + [x], v + [y];
    assert w'[..|w'| - 1] == w && v'[..|v'| - 1] == v;
    assert w'[|w'| - 1] == x && v'[|v'| - 1] == y;
  }

  lemma ScaledAppend(x: real, w: seq<real>, last: real)
    ensures Scaled(x, w + [last]) == Scaled(x, w) + [Times(x, last)]
  {
    var w' := w + [last];
    assert w'[..|w'| - 1] == w && w'[|w'| - 1] == last;
  }

  lemma ScaledSumStep(x: real, w: seq<real>, a: real)
    requires Sum(Scaled(x, w)) == Times(x, Sum(w))
    ensures Sum(Scaled(x, w + [a])) == Times(x, Sum(w + [a]))
  {
    ScaledAppend(x, w, a);
    SumAppend(Scaled(x, w), Times(x, a));
    SumAppend(w, a);
    Distributes(x, Sum(w), a, Sum(w + [a]));
  }

  lemma {:induction false} ScaledSum(x: real, w: seq<real>)
    ensures Sum(Scaled(x, w)) == Times(x, Sum(w))
  {
    if w == [] {
      assert Scaled(x, w) == [];
    } else {
      var n := |w| - 1;
      assert w == w[..n] + [w[n]];
      ScaledSum(x, w[..n]);
      ScaledSumStep(x, w[..n], w[n]);
    }
  }

  lemma ScaledDotStep(x: real, w: seq<real>, v: seq<real>, a: real, b: real)
    requires |w| == |v| && Dot(Scaled(x, w), v) == Times(x, Dot(w, v))
    ensures Dot(Scaled(x, w + [a]), v + [b]) == Times(x, Dot(w + [a], v + [b]))
  {
    ScaledAppend(x, w, a);
    DotAppend(Scaled(x, w), v, Times(x, a), b);
    DotAppend(w, v, a, b);
    Associates(x, a, b);
    Distributes(x, Dot(w, v), Times(a, b), Dot(w + [a], v + [b]));
  }

  lemma {:induction false} ScaledDot(x: real, w: seq<real>, v: seq<real>)
    requires |w| == |v|
    ensures Dot(Scaled(x, w), v) == Times(x, Dot(w, v))
  {
    if w == [] {
      assert Scaled(x, w) == [];
    } else {
      var n := |w| - 1;
      assert w == w[..n] + [w[n]] && v == v[..n] + [v[n]];
      ScaledDot(x, w[..n], v[..n]);
      ScaledDotStep(x, w[..n], v[..n], w[n], v[n]);
    }
  }

  lemma {:induction false} ScaledNonNegative(x: real, w: seq<real>)
    requires x >= 0.0 && forall i :: 0 <= i < |w| ==> w[i] >= 0.0
    ensures forall i :: 0 <= i < |w| ==> Scaled(x, w)[i] >= 0.0
  {
    if w != [] {
      ScaledNonNegative(x, w[..|w| - 1]);
      ProductNonNegative(x, w[|w| - 1]);
    }
  }

  lemma DotStep(alpha: real, keep: real, w: seq<real>, v: seq<real>, last: real)
    requires |w| == |v|
    ensures Dot(Scaled(keep, w) + [alpha], v + [last]) == Times(keep, Dot(w, v)) + Times(alpha, last)
  {
    ScaledDot(keep, w, v);
    DotAppend(Scaled(keep, w), v, alpha, last);
  }

  lemma BlendIs(alpha: real, mid: real, ema: real)
    ensures Blend(alpha, mid, ema) == Times(1.0 - alpha, ema) + Times(alpha, mid)
  {
  }

  lemma DotIsBlend(alpha: real, w: seq<real>, v: seq<real>, last: real)
    requires |w| == |v|
    ensures Dot(Scaled(1.0 - alpha, w) + [alpha], v + [last]) == Blend(alpha, last, Dot(w, v))
  {
    DotStep(alpha, 1.0 - alpha, w, v, last);
    BlendIs(alpha, last, Dot(w, v));
  }

  lemma {:induction false} WeightsSumToOne(alpha: real, n: nat)
    requires n > 0
    ensures Sum(Weights(alpha, n)) == 1.0
  {
    if n == 1 {
      SumAppend([], 1.0);
      assert [] + [1.0] == [1.0];
    } else {
      WeightsSumToOne(alpha, n - 1);
      ScaledSum(1.0 - alpha, Weights(alpha, n - 1));
      SumAppend(Scaled(1.0 - alpha, Weights(alpha, n - 1)), alpha);
    }
  }

  lemma {:induction false} WeightsNonNegative(alpha: real, n: nat)
    requires n > 0 && 0.0 <= alpha <= 1.0
    ensures forall i :: 0 <= i < n ==> Weights(alpha, n)[i] >= 0.0
  {
    if n > 1 {
      WeightsNonNegative(alpha, n - 1);
      ScaledNonNegative(1.0 - alpha, Weights(alpha, n - 1));
    }
  }

  lemma EmaAppend(alpha: real, mids: seq<real>, c: real)
    requires mids != []
    ensures Ema(alpha, mids + [c]) == Blend(alpha, c, Ema(alpha, mids))
  {
    assert (mids + [c])[..|mids|] == mids;
  }

  lemma EmaIsDotStep(alpha: real, mids: seq<real>, w: seq<real>, last: real)
    requires mids != [] && |w| == |mids|
    requires Ema(alpha, mids) == Dot(w, mids)
    ensures Ema(alpha, mids + [last]) == Dot(Scaled(1.0 - alpha, w) + [alpha], mids + [last])
  {
    DotIsBlend(alpha, w, mids, last);
    EmaAppend(alpha, mids, last);
  }

  lemma EmaIsDotFirst(alpha: real, mid: real)
    ensures Ema(alpha, [mid]) == Dot([1.0], [mid])
  {
    DotAppend([], [], 1.0, mid);
    assert [] + [1.0] == [1.0] && [] + [mid] == [mid];
  }

  lemma {:induction false} EmaIsDot(alpha: real, mids: seq<real>)
    requires mids != []
    ensures Ema(alpha, mids) == Dot(Weights(alpha, |mids|), mids)
  {
    var n := |mids| - 1;
    assert mids == mids[..n] + [mids[n]];
    if n == 0 {
      assert mids == [mids[0]];
      EmaIsDotFirst(alpha, mids[0]);
    } else {
      EmaIsDot(alpha, mids[..n]);
      EmaIsDotStep(alpha, mids[..n], Weights(alpha, n), mids[n]);
    }
  }

  /** The average is a convex combination of all the prices seen. */
  lemma EmaIsWeighted(alpha: real, mids: seq<real>)
    requires mids != [] && 0.0 <= alpha <= 1.0
    ensures Ema(alpha, mids) == Dot(Weights(alpha, |mids|), mids)
    ensures Sum(Weights(alpha, |mids|)) == 1.0
    ensures forall i :: 0 <= i < |mids| ==> Weights(alpha, |mids|)[i] >= 0.0
  {
    WeightsSumToOne(alpha, |mids|);
    WeightsNonNegative(alpha, |mids|);
    EmaIsDot(alpha, mids);
  }

  lemma ProductNonNegative(a: real, b: real)
    requires a >= 0.0 && b >= 0.0
    ensures a * b >= 0.0
  {
  }

  /** So it never leaves the range of the prices. */
  lemma {:induction false} EmaInRange(alpha: real, mids: seq<real>, lo: real, hi: real)
    requires mids != [] && 0.0 <= alpha <= 1.0
    requires forall i :: 0 <= i < |mids| ==> lo <= mids[i] <= hi
    ensures lo <= Ema(alpha, mids) <= hi
  {
    if |mids| > 1 {
      var init, last := mids[..|mids| - 1], mids[|mids| - 1];
      EmaInRange(alpha, init, lo, hi);
      BlendBetween(alpha, last, Ema(alpha, init), lo, hi);
    }
  }

  lemma BlendBetween(alpha: real, a: real, b: real, lo: real, hi: real)
    requires 0.0 <= alpha <= 1.0 && lo <= a <= hi && lo <= b <= hi
    ensures lo <= Blend(alpha, a, b) <= hi
  {
    ProductNonNegative(alpha, a - lo);
    ProductNonNegative(1.0 - alpha, b - lo);
    ProductNonNegative(alpha, hi - a);
    ProductNonNegative(1.0 - alpha, hi - b);
  }

  function Held(c: real, k: nat): (r: seq<real>)
    ensures |r| == k && forall i :: 0 <= i < k ==> r[i] == c
  {
    if k == 0 then [] else Held(c, k - 1) + [c]
  }

  function Decayed(keep: real, gap: real, k: nat): real {
    if k == 0 then gap else Times(keep, Decayed(keep, gap, k - 1))
  }

  lemma {:induction false} DecaysByPower(keep: real, gap: real, k: nat, total: real)
    requires total == Decayed(keep, gap, k)
    ensures total == Times(Power(keep, k), gap)
  {
    if k > 0 {
      DecaysByPower(keep, gap, k - 1, Decayed(keep, gap, k - 1));
      Associates(keep, Power(keep, k - 1), gap);
    }
  }

  lemma EmaHeldStep(alpha: real, mids: seq<real>, c: real, k: nat)
    requires mids != [] && k > 0
    ensures Ema(alpha, mids + Held(c, k)) == Blend(alpha, c, Ema(alpha, mids + Held(c, k - 1)))
  {
    var before := mids + Held(c, k - 1);
    EmaAppend(alpha, before, c);
    assert mids + Held(c, k) == before + [c];
  }

  lemma GapStep(alpha: real, keep: real, c: real, ema: real, gap: real, k: nat)
    requires k > 0 && keep == 1.0 - alpha && ema - c == Decayed(keep, gap, k - 1)
    ensures Blend(alpha, c, ema) - c == Decayed(keep, gap, k)
  {
    BlendGap(alpha, keep, c, ema, Decayed(keep, gap, k - 1));
  }

  lemma BlendGap(alpha: real, keep: real, c: real, ema: real, gap: real)
    requires keep == 1.0 - alpha && ema - c == gap
    ensures Blend(alpha, c, ema) - c == Times(keep, gap)
  {
  }

  lemma {:induction false} GapDecays(alpha: real, mids: seq<real>, c: real, k: nat)
    requires mids != []
    ensures Ema(alpha, mids + Held(c, k)) - c == Decayed(1.0 - alpha, Ema(alpha, mids) - c, k)
  {
    if k == 0 {
      assert mids + Held(c, 0) == mids;
    } else {
      GapDecays(alpha, mids, c, k - 1);
      EmaHeldStep(alpha, mids, c, k);
      GapStep(alpha, 1.0 - alpha, c, Ema(alpha, mids + Held(c, k - 1)), Ema(alpha, mids) - c, k);
    }
  }

  /** While the price holds at `c`, the gap shrinks by the factor 1 - alpha a tick. */
  lemma GapShrinks(alpha: real, mids: seq<real>, c: real, k: nat)
    requires mids != []
    ensures Ema(alpha, mids + Held(c, k)) - c == Times(Power(1.0 - alpha, k), Ema(alpha, mids) - c)
  {
    GapDecays(alpha, mids, c, k);
    DecaysByPower(1.0 - alpha, Ema(alpha, mids) - c, k, Ema(alpha, mids + Held(c, k)) - c);
  }

  /** The state a symbol reaches holds the average of its prices. */
  lemma {:induction false} RunHoldsEma(p: Params, ticks: seq<TimedTick>)
    requires ticks != []
    ensures SymbolRun(p, BLANK, ticks).0.initialised
    ensures SymbolRun(p, BLANK, ticks).0.emaPx == Ema(p.alpha, Mids(ticks))
  {
    var init, t := ticks[..|ticks| - 1], ticks[|ticks| - 1];
    assert Mids(ticks)[..|ticks| - 1] == Mids(init);
    if init != [] {
      RunHoldsEma(p, init);
    } else {
      assert SymbolRun(p, BLANK, init) == (BLANK, []);
    }
  }

  // ----- the price of a tick -----

  function Bid(t: Tick): real {
    t.bidPx as real / 1000000.0
  }

  function Ask(t: Tick): real {
    t.askPx as real / 1000000.0
  }

  /** The mid stands as far above the bid as below the ask, so between them, and does not change when they
      are exchanged. Prices are in millionths. */
  lemma MidIsMiddle(t: Tick)
    ensures Mid(t) - Bid(t) == Ask(t) - Mid(t)
    ensures Bid(t) <= Ask(t) ==> Bid(t) <= Mid(t) <= Ask(t)
    ensures Mid(t.(bidPx := t.askPx, askPx := t.bidPx)) == Mid(t)
  {
  }

  ghost predicate Quoted(t: Tick, lo: real, hi: real) {
    lo <= Bid(t) <= hi && lo <= Ask(t) <= hi
  }

  /** The stored average stays within whatever bounds held all the bids and asks seen. */
  lemma AverageWithinQuotes(p: Params, ticks: seq<TimedTick>, lo: real, hi: real)
    requires ticks != [] && 0.0 <= p.alpha <= 1.0
    requires forall i :: 0 <= i < |ticks| ==> Quoted(ticks[i].tick, lo, hi)
    ensures lo <= SymbolRun(p, BLANK, ticks).0.emaPx <= hi
  {
    RunHoldsEma(p, ticks);
    forall i | 0 <= i < |ticks|
      ensures lo <= Mids(ticks)[i] <= hi
    {
      assert Quoted(ticks[i].tick, lo, hi);
      MidIsMiddle(ticks[i].tick);
    }
    EmaInRange(p.alpha, Mids(ticks), lo, hi);
  }

  // ----- orders -----

  lemma DivisionKeepsSign(a: real, b: real)
    requires b > 0.0
    ensures a / b > 0.0 <==> a > 0.0
    ensures a / b < 0.0 <==> a < 0.0
  {
    var q := a / b;
    assert q * b == a;
    if q > 0.0 { assert q * b > 0.0; }
    if q < 0.0 { assert (-q) * b > 0.0; }
  }

  /** Orders fade the move: with positive prices a symbol is sold, at the bid, exactly when its price
      stands above the average of all the earlier ones, and bought at the ask otherwise. */
  lemma OrdersFadeTheMove(p: Params, earlier: seq<TimedTick>, t: TimedTick)
    requires earlier != [] && 0.0 <= p.alpha < 1.0
    requires Mid(t.tick) > 0.0 && forall i :: 0 <= i < |earlier| ==> Mid(earlier[i].tick) > 0.0
    ensures
      var quote := SymbolStep(p, SymbolRun(p, BLANK, earlier).0, t).1;
      quote.Some? ==>
        && (quote.value.side == Sell <==> Mid(t.tick) > Ema(p.alpha, Mids(earlier)))
        && quote.value.px == (if quote.value.side == Sell then t.tick.bidPx else t.tick.askPx)
        && quote.value.submitNs == t.now && quote.value.symbol == t.tick.symbol && quote.value.qty == p.qty
  {
    RunHoldsEma(p, earlier);
    var m, e := Mid(t.tick), Ema(p.alpha, Mids(earlier));
    EmaPositive(p.alpha, Mids(earlier));
    FadeSign(p.alpha, m, e);
  }

  lemma FadeSign(alpha: real, m: real, e: real)
    requires 0.0 <= alpha < 1.0 && m > 0.0 && e > 0.0
    ensures SideFor(DeviationBps(m, Blend(alpha, m, e))) == Sell <==> m > e
  {
    BlendPositive(alpha, m, e);
    BlendLags(alpha, m, e, Blend(alpha, m, e));
    SellSign(m, Blend(alpha, m, e));
  }

  lemma BlendLags(alpha: real, m: real, e: real, e': real)
    requires 0.0 <= alpha < 1.0 && e' == Blend(alpha, m, e)
    ensures m > e' <==> m > e
  {
    var a, b := 1.0 - alpha, m - e;
    assert m - e' == a * b;
    SignOfProduct(a, b);
  }

  lemma SellSign(m: real, e: real)
    requires e > 0.0
    ensures SideFor(DeviationBps(m, e)) == Sell <==> m > e
  {
    DivisionKeepsSign(m - e, e);
  }

  lemma SignOfProduct(a: real, b: real)
    requires a > 0.0
    ensures a * b > 0.0 <==> b > 0.0
  {
    if b < 0.0 { assert a * (-b) > 0.0; }
  }

  lemma BlendPositive(alpha: real, m: real, e: real)
    requires 0.0 <= alpha <= 1.0 && m > 0.0 && e > 0.0
    ensures Blend(alpha, m, e) > 0.0
  {
    var lo := if m < e then m else e;
    var hi := if m < e then e else m;
    BlendBetween(alpha, m, e, lo, hi);
  }

  lemma {:induction false} EmaPositive(alpha: real, mids: seq<real>)
    requires mids != [] && 0.0 <= alpha <= 1.0
    requires forall i :: 0 <= i < |mids| ==> mids[i] > 0.0
    ensures Ema(alpha, mids) > 0.0
  {
    if |mids| > 1 {
      EmaPositive(alpha, mids[..|mids| - 1]);
      BlendPositive(alpha, mids[|mids| - 1], Ema(alpha, mids[..|mids| - 1]));
    }
  }

  function Size(x: real): real {
    if x < 0.0 then -x else x
  }

  /** The price stands at least `threshold` basis points of the average away from it. */
  predicate FarFrom(m: real, e: real, threshold: real) {
    Size(m - e) * 10000.0 >= threshold * Size(e)
  }

  lemma QuietAbove(m: real, e: real, threshold: real)
    requires e > 0.0
    ensures FarFrom(m, e, threshold) <==> !Quiet(DeviationBps(m, e), threshold)
  {
    var q := (m - e) / e;
    assert q * e == m - e;
    assert (q * 10000.0) * e == (m - e) * 10000.0;
    OrderScales(q * 10000.0, threshold, e);
    OrderScales(-threshold, q * 10000.0, e);
    EitherSide(m - e, threshold * e);
  }

  lemma EitherSide(d: real, bound: real)
    ensures Size(d) * 10000.0 >= bound <==> d * 10000.0 >= bound || -d * 10000.0 >= bound
  {
  }

  lemma NegatedRatio(a: real, b: real)
    requires b != 0.0
    ensures (-a) / (-b) == a / b
  {
    var q, q' := a / b, (-a) / (-b);
    assert q * b == a && q' * b == a;
    SameQuotient(q, q', b);
  }

  lemma SameQuotient(x: real, y: real, b: real)
    requires b != 0.0 && x * b == y * b
    ensures x == y
  {
    assert (x - y) * b == 0.0;
  }

  /** The threshold is met exactly when the price is far enough from the average, whatever the signs; with an
      average of zero it always is. */
  lemma QuietMeans(m: real, e: real, threshold: real)
    ensures FarFrom(m, e, threshold) <==> !Quiet(DeviationBps(m, e), threshold)
  {
    if e > 0.0 {
      QuietAbove(m, e, threshold);
    } else if e < 0.0 {
      QuietAbove(-m, -e, threshold);
      NegatedRatio(m - e, e);
      assert -m - -e == -(m - e);
    } else {
      assert threshold * Size(e) == 0.0;
    }
  }

  lemma OrderScales(a: real, b: real, e: real)
    requires e > 0.0
    ensures a < b <==> a * e < b * e
  {
    SignOfProduct(e, b - a);
    assert e * (b - a) == b * e - a * e;
  }

  /** The clock reading of a symbol's last order, 0 if it has none. */
  function LastOrder(quotes: seq<Quote>): nat {
    if quotes == [] then 0 else quotes[|quotes| - 1].submitNs
  }

  lemma {:induction false} RunHoldsLastOrder(p: Params, ticks: seq<TimedTick>)
    ensures
      var (st, quotes) := SymbolRun(p, BLANK, ticks);
      && st.lastOrderNs == LastOrder(quotes)
      && ((forall i :: 0 <= i < |ticks| ==> ticks[i].now < U64) ==> st.lastOrderNs < U64)
  {
    if ticks != [] {
      RunHoldsLastOrder(p, ticks[..|ticks| - 1]);
    }
  }

  /** An order goes out exactly when the price stands at least the threshold away from the average of all
      prices including it, and the cooldown has passed since the symbol's last order, in 64-bit arithmetic: a
      clock that has gone back looks far ahead. */
  lemma {:induction false} OrderExactlyWhen(p: Params, earlier: seq<TimedTick>, t: TimedTick)
    requires earlier != []
    requires t.now < U64 && forall i :: 0 <= i < |earlier| ==> earlier[i].now < U64
    ensures
      var (st, quotes) := SymbolRun(p, BLANK, earlier);
      var m, e := Mid(t.tick), Ema(p.alpha, Mids(earlier) + [Mid(t.tick)]);
      var last := LastOrder(quotes);
      var elapsed := if t.now >= last then t.now - last else t.now - last + 0x1_0000_0000_0000_0000;
      SymbolStep(p, st, t).1.Some? <==> FarFrom(m, e, p.thresholdBps) && elapsed >= p.cooldownNs
  {
    var st := SymbolRun(p, BLANK, earlier).0;
    RunHoldsEma(p, earlier);
    EmaAppend(p.alpha, Mids(earlier), Mid(t.tick));
    RunHoldsLastOrder(p, earlier);
    WrapsAround(t.now, st.lastOrderNs);
    StepOrdersWhen(p, st, t, Blend(p.alpha, Mid(t.tick), st.emaPx));
  }

  lemma StepOrdersWhen(p: Params, st: SymbolState, t: TimedTick, e: real)
    requires st.initialised && e == Blend(p.alpha, Mid(t.tick), st.emaPx)
    ensures SymbolStep(p, st, t).1.Some? <==>
              && FarFrom(Mid(t.tick), e, p.thresholdBps)
              && WrappingSub(t.now, st.lastOrderNs) >= p.cooldownNs
  {
    QuietMeans(Mid(t.tick), e, p.thresholdBps);
  }

  /** A symbol's first tick sets its average and makes no order. */
  lemma FirstTickIsQuiet(p: Params, t: TimedTick)
    ensures SymbolRun(p, BLANK, [t]).1 == []
    ensures SymbolRun(p, BLANK, [t]).0.initialised && SymbolRun(p, BLANK, [t]).0.lastOrderNs == 0
    ensures SymbolRun(p, BLANK, [t]).0.emaPx == Mid(t.tick)
  {
    var ticks := [t];
    assert ticks[..|ticks| - 1] == [] && ticks[|ticks| - 1] == t;
  }

  lemma SideMeans(m: real, e: real)
    ensures SideFor(DeviationBps(m, e)) == Sell <==> (e >= 0.0 && m > e) || (e < 0.0 && m < e)
  {
    if e > 0.0 {
      SellSign(m, e);
    } else if e < 0.0 {
      SellSign(-m, -e);
      NegatedRatio(m - e, e);
      assert -m - -e == -(m - e);
    }
  }

  lemma StepSays(p: Params, st: SymbolState, t: TimedTick, e: real)
    requires st.initialised && e == Blend(p.alpha, Mid(t.tick), st.emaPx)
    ensures
      var quote, m := SymbolStep(p, st, t).1, Mid(t.tick);
      var sells := (e >= 0.0 && m > e) || (e < 0.0 && m < e);
      quote.Some? ==>
        quote.value == Quote(t.now, t.tick.symbol, if sells then t.tick.bidPx else t.tick.askPx, p.qty,
                             if sells then Sell else Buy)
  {
    SideMeans(Mid(t.tick), e);
  }

  /** What an order says, at any prices: it sells at the bid exactly when the price stands beyond the average
      that includes it, away from zero, and else buys at the ask. */
  lemma {:induction false} OrderSays(p: Params, earlier: seq<TimedTick>, t: TimedTick)
    requires earlier != []
    ensures
      var quote := SymbolStep(p, SymbolRun(p, BLANK, earlier).0, t).1;
      var m, e := Mid(t.tick), Ema(p.alpha, Mids(earlier) + [Mid(t.tick)]);
      var sells := (e >= 0.0 && m > e) || (e < 0.0 && m < e);
      quote.Some? ==>
        quote.value == Quote(t.now, t.tick.symbol, if sells then t.tick.bidPx else t.tick.askPx, p.qty,
                             if sells then Sell else Buy)
  {
    RunHoldsEma(p, earlier);
    EmaAppend(p.alpha, Mids(earlier), Mid(t.tick));
    StepSays(p, SymbolRun(p, BLANK, earlier).0, t, Ema(p.alpha, Mids(earlier) + [Mid(t.tick)]));
  }

  /** Closer to the price means a smaller deviation, from either side. */
  lemma CloserIsQuieter(c: real, e: real, e': real, threshold: real)
    requires c > 0.0 && e > 0.0
    requires c <= e' <= e || e <= e' <= c
    requires Quiet(DeviationBps(c, e), threshold)
    ensures Quiet(DeviationBps(c, e'), threshold)
  {
    var d, d' := (c - e) / e, (c - e') / e';
    assert d * e == c - e && d' * e' == c - e';
    assert d * e == c - e;
    assert (d + 1.0) * e == c && (d' + 1.0) * e' == c;
    if e <= e' {
      RatioOrder(d' + 1.0, d + 1.0, e', e, c);
      assert d' <= d;
      DivisionKeepsSign(c - e', e');
    } else {
      RatioOrder(d + 1.0, d' + 1.0, e, e', c);
      assert d <= d';
      DivisionKeepsSign(c - e', e');
    }
  }

  lemma RatioOrder(x: real, y: real, a: real, b: real, c: real)
    requires x * a == c && y * b == c && c > 0.0 && a >= b > 0.0
    ensures x <= y
  {
    SignOfProduct(a, x);
    ProductNonNegative(x, a - b);
    assert b * (y - x) == x * (a - b);
    SignOfProduct(b, x - y);
  }

  /** Once a price has brought the deviation under the threshold, no further order is sent while that
      price holds, whatever the clock does. */
  lemma {:induction false} QuietWhileHeld(p: Params, st: SymbolState, ticks: seq<TimedTick>, c: real)
    requires 0.0 <= p.alpha <= 1.0 && c > 0.0
    requires st.initialised && st.emaPx > 0.0 && Quiet(DeviationBps(c, st.emaPx), p.thresholdBps)
    requires forall i :: 0 <= i < |ticks| ==> Mid(ticks[i].tick) == c
    ensures
      var (st', quotes) := SymbolRun(p, st, ticks);
      && quotes == []
      && st'.initialised && st'.emaPx > 0.0 && Quiet(DeviationBps(c, st'.emaPx), p.thresholdBps)
  {
    if ticks != [] {
      var init, t := ticks[..|ticks| - 1], ticks[|ticks| - 1];
      QuietWhileHeld(p, st, init, c);
      var (mid, quotes) := SymbolRun(p, st, init);
      var e, e' := mid.emaPx, Blend(p.alpha, c, mid.emaPx);
      BlendPositive(p.alpha, c, e);
      if c <= e { BlendBetween(p.alpha, c, e, c, e); } else { BlendBetween(p.alpha, c, e, e, c); }
      CloserIsQuieter(c, e, e', p.thresholdBps);
    }
  }
}
