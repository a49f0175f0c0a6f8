/** The printed list is not only the one with the fewest parts: no accepted text for the same CPUs has fewer
    characters. Every accepted text must spell the first and the last CPU of each run. */
module CpuShortest {
  import opened CpuText
  import opened CpuList
  import opened CpuListTheorems
  import opened CpuGrammar

  // ----- what it takes to spell a set of numbers, each followed by a separator -----

  function Cost(x: nat): nat {
    |Decimal(x)| + 1
  }

  ghost function Weight(marks: set<nat>, n: nat): nat {
    if n == 0 then 0 else Weight(marks, n - 1) + (if n - 1 in marks then Cost(n - 1) else 0)
  }

  lemma {:induction false} WeightOfNone(n: nat)
    ensures Weight({}, n) == 0
  {
    if n > 0 { WeightOfNone(n - 1); }
  }

  lemma {:induction false} WeightOfOne(x: nat, n: nat)
    ensures Weight({x}, n) == if x < n then Cost(x) else 0
  {
    if n > 0 { WeightOfOne(x, n - 1); }
  }

  lemma {:induction false} WeightJoins(a: set<nat>, b: set<nat>, n: nat)
    ensures Weight(a + b, n) <= Weight(a, n) + Weight(b, n)
    ensures a * b == {} ==> Weight(a + b, n) == Weight(a, n) + Weight(b, n)
  {
    if n > 0 {
      WeightJoins(a, b, n - 1);
      assert n - 1 in a && n - 1 in b <==> n - 1 in a * b;
    }
  }

  lemma {:induction false} WeightGrows(a: set<nat>, b: set<nat>, n: nat)
    requires a <= b
    ensures Weight(a, n) <= Weight(b, n)
  {
    if n > 0 { WeightGrows(a, b, n - 1); }
  }

  /** The numbers a list of ranges has to name. */
  function Ends(range: Range): set<nat> {
    {range.lo, range.hi}
  }

  function Marks(ranges: seq<Range>): set<nat> {
    if ranges == [] then {} else Marks(ranges[..|ranges| - 1]) + Ends(ranges[|ranges| - 1])
  }

  lemma {:induction false} MarksAre(ranges: seq<Range>, x: nat)
    ensures x in Marks(ranges) <==> exists i :: 0 <= i < |ranges| && x in Ends(ranges[i])
  {
    if ranges != [] {
      var init := ranges[..|ranges| - 1];
      MarksAre(init, x);
      if i :| 0 <= i < |ranges| && x in Ends(ranges[i]) {
        assert i < |init| ==> init[i] == ranges[i];
      }
      if j :| 0 <= j < |init| && x in Ends(init[j]) {
        assert x in Ends(ranges[j]);
      }
    }
  }

  lemma {:induction false} MarksConcat(a: seq<Range>, b: seq<Range>)
    ensures Marks(a + b) == Marks(a) + Marks(b)
  {
    if b == [] {
      assert a + b == a;
    } else {
      var init := b[..|b| - 1];
      assert (a + b)[..|a + b| - 1] == a + init;
      MarksConcat(a, init);
    }
  }

  lemma WeightOfTwo(x: nat, y: nat, n: nat)
    ensures Weight({x, y}, n) <= Cost(x) + Cost(y)
  {
    WeightOfOne(x, n);
    WeightOfOne(y, n);
    WeightJoins({x}, {y}, n);
    assert {x, y} == {x} + {y};
  }

  lemma EndsWeigh(range: Range, n: nat)
    requires range.hi < n
    ensures Weight(Ends(range), n) == Cost(range.lo) + (if range.lo < range.hi then Cost(range.hi) else 0)
  {
    WeightOfOne(range.lo, n);
    WeightOfOne(range.hi, n);
    WeightJoins({range.lo}, {range.hi}, n);
    assert Ends(range) == {range.lo} + {range.hi};
    assert range.lo == range.hi ==> Ends(range) == {range.lo};
  }

  // ----- the printed text takes no more -----

  lemma TextWeight(range: Range, n: nat)
    requires range.hi < n
    ensures |RangeText(range)| + 1 == Weight(Ends(range), n)
  {
    EndsWeigh(range, n);
  }

  lemma PrintedStep(init: seq<Range>, last: Range, n: nat)
    requires Separated(init + [last]) && last.hi < n
    requires init != [] && |Join(Texts(init))| + 1 == Weight(Marks(init), n)
    ensures |Join(Texts(init + [last]))| + 1 == Weight(Marks(init + [last]), n)
  {
    var ranges := init + [last];
    assert ranges[..|ranges| - 1] == init && ranges[|ranges| - 1] == last;
    TextWeight(last, n);
    PrintOneMore(init, last);
    JoinNonEmpty(init);
    ApartFromLast(ranges);
    WeightJoins(Marks(init), Ends(last), n);
  }

  lemma PrintedAlone(range: Range, n: nat)
    requires range.hi < n
    ensures |Join(Texts([range]))| + 1 == Weight(Marks([range]), n)
  {
    TextWeight(range, n);
    var ranges := [range];
    assert Texts(ranges) == [RangeText(range)];
    assert ranges[..|ranges| - 1] == [] && ranges[|ranges| - 1] == range;
    assert Marks([]) == {};
    assert Marks(ranges) == Ends(range);
  }

  lemma SeparatedInit(ranges: seq<Range>)
    requires ranges != [] && Separated(ranges)
    ensures Separated(ranges[..|ranges| - 1])
  {
  }

  lemma {:induction false} PrintedWeighs(ranges: seq<Range>, n: nat)
    requires ranges != [] && Separated(ranges) && forall i :: 0 <= i < |ranges| ==> ranges[i].hi < n
    ensures |Join(Texts(ranges))| + 1 == Weight(Marks(ranges), n)
  {
    var init, last := ranges[..|ranges| - 1], ranges[|ranges| - 1];
    if init == [] {
      assert ranges == [last];
      PrintedAlone(last, n);
    } else {
      SeparatedInit(ranges);
      PrintedWeighs(init, n);
      assert ranges == init + [last];
      PrintedStep(init, last, n);
    }
  }

  lemma ApartFromLast(ranges: seq<Range>)
    requires ranges != [] && Separated(ranges)
    ensures Marks(ranges[..|ranges| - 1]) * Ends(ranges[|ranges| - 1]) == {}
  {
    var init, last := ranges[..|ranges| - 1], ranges[|ranges| - 1];
    forall x | x in Marks(init)
      ensures x !in Ends(last)
    {
      MarksAre(init, x);
      var i :| 0 <= i < |init| && x in Ends(init[i]);
      assert ranges[i].hi + 1 < ranges[|init|].lo;
    }
  }

  // ----- an accepted text takes no less -----

  lemma {:induction false} DecimalIsShortest(d: string)
    requires d != "" && Digits(d)
    ensures |Decimal(ValueOf(d))| <= |d|
  {
    var init := d[..|d| - 1];
    if init == "" {
      assert ValueOf(init) == 0;
    } else {
      DecimalIsShortest(init);
      assert ValueOf(d) / 10 == ValueOf(init);
    }
  }

  lemma SpellingIsLong(s: string, n: nat)
    requires Spells(s, n)
    ensures |s| >= |Decimal(n)|
  {
    DecimalIsShortest(if s[0] == '+' then s[1..] else s);
  }

  function Ranges(text: string): seq<Range>
    requires Parse(text).Ok?
  {
    ParseParts(Parts(text)).value
  }

  lemma PartWeighs(part: string, n: nat)
    requires n == USIZE && ',' !in part && Parse(part).Ok?
    ensures |part| + 1 >= Weight(Marks(Ranges(part)), n)
  {
    var shape := AcceptedHasShape(part);
    PartRanges(shape);
    match shape
    case Nothing(_) => WeightOfNone(n);
    case Single(_, a, _, x) =>
      SpellingIsLong(a, x);
      WeightOfOne(x, n);
    case Dashed(_, a, _, _, b, _, lo, hi) =>
      SpellingIsLong(a, lo);
      SpellingIsLong(b, hi);
      WeightOfTwo(lo, hi, n);
  }

  function Named(shape: Shape): set<nat> {
    match shape
    case Nothing(_) => {}
    case Single(_, _, _, x) => {x}
    case Dashed(_, _, _, _, _, _, lo, hi) => {lo, hi}
  }

  lemma PartRanges(shape: Shape)
    requires Proper(shape) && Small(shape) && Parse(Written(shape)).Ok?
    ensures Marks(Ranges(Written(shape))) == Named(shape)
  {
    var part := Written(shape);
    ShapeReads(shape);
    ShapeIsOnePart(shape);
    ShapeTrims(shape);
    SplitPlain(part);
    assert [part][1..] == [];
    match shape
    case Nothing(_) => assert Parts(part) == [];
    case Single(_, a, _, x) =>
      SingleReads(a, x);
      OnePartMarks(part, Interval(x, x));
    case Dashed(_, a, w2, w3, b, _, lo, hi) =>
      DashedReads(a, w2, w3, b, lo, hi);
      OnePartMarks(part, Interval(lo, hi));
  }

  lemma OnePartMarks(part: string, range: Range)
    requires Split(part) == [part] && [part][1..] == [] && Trim(part) != "" && ParsePart(Trim(part)) == Ok(range)
    ensures Parse(part).Ok? && Marks(Ranges(part)) == Ends(range)
  {
    OnePart(Trim(part));
    assert Parts(part) == [Trim(part)];
    var ranges := [range];
    assert ranges[..|ranges| - 1] == [] && ranges[|ranges| - 1] == range;
    assert Marks([]) == {};
    assert Marks(ranges) == Ends(range);
  }

  lemma CommaRanges(a: string, b: string)
    requires Parse(a + "," + b).Ok?
    ensures Parse(a).Ok? && Parse(b).Ok?
    ensures Ranges(a + "," + b) == Ranges(a) + Ranges(b)
  {
    CommaReads(a, b);
    SplitConcat(a, b);
    NonEmptyConcat(Split(a), Split(b));
    PartsConcat(Parts(a), Parts(b));
  }

  lemma {:induction false} TextWeighs(text: string, n: nat)
    requires n == USIZE && Parse(text).Ok?
    ensures |text| + 1 >= Weight(Marks(Ranges(text)), n)
    decreases |text|
  {
    var k := Find(text, ',');
    if k == |text| {
      assert text[..k] == text;
      PartWeighs(text, n);
    } else {
      var a, b := text[..k], text[k + 1..];
      assert text == a + "," + b;
      CommaRanges(a, b);
      PartWeighs(a, n);
      TextWeighs(b, n);
      MarksConcat(Ranges(a), Ranges(b));
      WeightJoins(Marks(Ranges(a)), Marks(Ranges(b)), n);
    }
  }

  // ----- the ends of runs are ends of every cover -----

  lemma NothingJustAbove(runs: seq<Range>, i: nat, x: nat)
    requires Separated(runs) && i < |runs| && x == runs[i].hi + 1
    ensures !Covers(runs, x)
  {
    forall j | 0 <= j < |runs|
      ensures !(runs[j].lo <= x <= runs[j].hi)
    {
      assert j < i ==> runs[j].hi + 1 < runs[i].lo;
      assert i < j ==> runs[i].hi + 1 < runs[j].lo;
    }
  }

  lemma RunEndIsEnd(runs: seq<Range>, cover: seq<Range>, i: nat)
    requires Separated(runs) && i < |runs|
    requires forall x: nat :: Covers(runs, x) <==> Covers(cover, x)
    ensures runs[i].hi in Marks(cover)
  {
    var x := runs[i].hi;
    assert Covers(runs, x);
    var j :| 0 <= j < |cover| && cover[j].lo <= x <= cover[j].hi;
    var y: nat := x + 1;
    NothingJustAbove(runs, i, y);
    assert y <= cover[j].hi ==> Covers(cover, y);
    assert x in Ends(cover[j]);
    MarksAre(cover, x);
  }

  lemma RunStartIsMark(runs: seq<Range>, cover: seq<Range>, i: nat)
    requires Separated(runs) && i < |runs|
    requires forall x: nat :: Covers(runs, x) <==> Covers(cover, x)
    ensures runs[i].lo in Marks(cover)
  {
    RunStartIsStart(runs, cover, i);
    var r :| r in cover && r.lo == runs[i].lo;
    var j :| 0 <= j < |cover| && cover[j] == r;
    assert runs[i].lo in Ends(cover[j]);
    MarksAre(cover, runs[i].lo);
  }

  lemma MarksWithin(runs: seq<Range>, cover: seq<Range>)
    requires Separated(runs)
    requires forall x: nat :: Covers(runs, x) <==> Covers(cover, x)
    ensures Marks(runs) <= Marks(cover)
  {
    forall x | x in Marks(runs)
      ensures x in Marks(cover)
    {
      MarksAre(runs, x);
      var i :| 0 <= i < |runs| && x in Ends(runs[i]);
      RunStartIsMark(runs, cover, i);
      RunEndIsEnd(runs, cover, i);
    }
  }

  /** No accepted text for the same CPUs is shorter than the printed one, whatever its order, overlaps,
      blanks, zeros and signs. */
  lemma {:induction false} FormatIsShortestText(cpus: seq<nat>, text: string, n: nat)
    requires n == USIZE && Fits(cpus) && Parse(text).Ok? && SameCpus(Parse(text).value, cpus)
    ensures |Format(cpus)| <= |text|
  {
    var runs, cover := Runs(Normal(cpus)), Ranges(text);
    if runs != [] {
      NormalFits(cpus);
      RunsFit(Normal(cpus));
      RunsAreSeparated(Normal(cpus));
      PrintedWeighs(runs, n);
      SameCover(cpus, text);
      MarksWithin(runs, cover);
      WeightGrows(Marks(runs), Marks(cover), n);
      TextWeighs(text, n);
    }
  }

  lemma SameCover(cpus: seq<nat>, text: string)
    requires Parse(text).Ok? && SameCpus(Parse(text).value, cpus)
    ensures forall x: nat :: Covers(Runs(Normal(cpus)), x) <==> Covers(Ranges(text), x)
  {
    forall x: nat
      ensures Covers(Runs(Normal(cpus)), x) <==> Covers(Ranges(text), x)
    {
      ExpandCovers(Runs(Normal(cpus)), x);
      ExpandCovers(Ranges(text), x);
      ExpandOfRuns(Normal(cpus));
    }
  }
}
