/** The printer and the parser are inverse, and the printed form is canonical and shortest. */
module CpuListTheorems {
  import opened CpuText
  import opened CpuList

  ghost predicate Fits(cpus: seq<nat>) {
    forall i :: 0 <= i < |cpus| ==> cpus[i] < USIZE
  }

  ghost predicate SameCpus(a: seq<nat>, b: seq<nat>) {
    forall x :: x in a <==> x in b
  }

  // ----- runs and ranges -----

  lemma ExpandConcatStep(a: seq<Range>, init: seq<Range>, last: Range)
    requires Expand(a + init) == Expand(a) + Expand(init)
    ensures Expand((a + init) + [last]) == Expand(a) + Expand(init + [last])
  {
    ExpandAppend(a + init, last);
    ExpandAppend(init, last);
    assert (Expand(a) + Expand(init)) + Count(last.lo, last.hi) == Expand(a) + (Expand(init) + Count(last.lo, last.hi));
  }

  lemma {:induction false} ExpandConcat(a: seq<Range>, b: seq<Range>)
    ensures Expand(a + b) == Expand(a) + Expand(b)
  {
    if b == [] {
      assert a + b == a;
    } else {
      var init, last := b[..|b| - 1], b[|b| - 1];
      assert b == init + [last];
      assert a + b == (a + init) + [last];
      ExpandConcat(a, init);
      ExpandConcatStep(a, init, last);
    }
  }

  lemma ExpandPrepend(range: Range, ranges: seq<Range>)
    ensures Expand([range] + ranges) == Count(range.lo, range.hi) + Expand(ranges)
  {
    ExpandConcat([range], ranges);
    ExpandAppend([], range);
    assert [] + [range] == [range];
    assert Expand([]) + Count(range.lo, range.hi) == Count(range.lo, range.hi);
  }

  /** The runs of a list are the list. */
  lemma {:induction false} ExpandOfRuns(s: seq<nat>)
    ensures Expand(Runs(s)) == s
    decreases |s|
  {
    if s != [] {
      var k := RunLength(s);
      var first: Range := Interval(s[0], s[k - 1]);
      ExpandOfRuns(s[k..]);
      ExpandPrepend(first, Runs(s[k..]));
      RunIsCount(s, k, first);
    }
  }

  lemma RunIsCount(s: seq<nat>, k: nat, run: Range)
    requires 0 < k <= |s| && run == Interval(s[0], s[k - 1])
    requires forall i :: 0 <= i < k ==> s[i] == s[0] + i
    ensures Count(run.lo, run.hi) + s[k..] == s
  {
    assert Count(run.lo, run.hi) == s[..k];
  }

  /** Ranges in order with a gap after each: none of them can be merged with the next. */
  ghost predicate Separated(ranges: seq<Range>) {
    forall i, j :: 0 <= i < j < |ranges| ==> ranges[i].hi + 1 < ranges[j].lo
  }

  lemma {:induction false} RunsStartHigh(s: seq<nat>, floor: nat)
    requires Increasing(s) && forall i :: 0 <= i < |s| ==> floor <= s[i]
    ensures forall i :: 0 <= i < |Runs(s)| ==> floor <= Runs(s)[i].lo
    decreases |s|
  {
    if s != [] {
      RunsStartHigh(s[RunLength(s)..], floor);
    }
  }

  lemma {:induction false} RunsAreSeparated(s: seq<nat>)
    requires Increasing(s)
    ensures Separated(Runs(s))
    decreases |s|
  {
    if s != [] {
      var k := RunLength(s);
      RunsAreSeparated(s[k..]);
      if k < |s| {
        RunsStartHigh(s[k..], s[k - 1] + 2);
      }
    }
  }

  lemma {:induction false} ExpandStartsHigh(ranges: seq<Range>)
    requires ranges != []
    ensures Expand(ranges) != [] && Expand(ranges)[0] == ranges[0].lo
  {
    ExpandPrepend(ranges[0], ranges[1..]);
    assert [ranges[0]] + ranges[1..] == ranges;
  }

  lemma RunsUnfold(s: seq<nat>, k: nat, rest: seq<nat>)
    requires s != [] && RunLength(s) == k && s[k..] == rest
    ensures Runs(s) == [Interval(s[0], s[k - 1])] + Runs(rest)
  {
  }

  lemma CountIsRun(first: Range, s: seq<nat>, all: seq<nat>, k: nat)
    requires s != [] ==> s[0] > first.hi + 1
    requires all == Count(first.lo, first.hi) + s && k == first.hi - first.lo + 1
    ensures k <= |all| && RunLength(all) == k && all[k..] == s && all[0] == first.lo && all[k - 1] == first.hi
  {
    var count := Count(first.lo, first.hi);
    assert forall i :: 0 <= i < k ==> all[i] == count[i];
    assert k < |all| ==> all[k] == s[0];
    RunLengthIs(all, k);
  }

  lemma RunsPrepend(first: Range, s: seq<nat>, all: seq<nat>)
    requires s != [] ==> s[0] > first.hi + 1
    requires all == Count(first.lo, first.hi) + s
    ensures Runs(all) == [first] + Runs(s)
  {
    CountIsRun(first, s, all, first.hi - first.lo + 1);
    RunsUnfold(all, first.hi - first.lo + 1, s);
  }

  /** Maximal ascending ranges are unique: any way of writing a list as separated ranges is its runs. */
  lemma {:induction false} RunsAreUnique(ranges: seq<Range>)
    requires Separated(ranges)
    ensures Runs(Expand(ranges)) == ranges
    decreases |ranges|
  {
    if ranges != [] {
      var first, rest := ranges[0], ranges[1..];
      assert ranges == [first] + rest;
      RunsAreUnique(rest);
      if rest != [] {
        assert ranges[0].hi + 1 < ranges[1].lo;
        ExpandStartsHigh(rest);
      }
      ExpandPrepend(first, rest);
      RunsPrepend(first, Expand(rest), Expand(ranges));
    }
  }

  ghost predicate Covers(ranges: seq<Range>, x: nat) {
    exists i :: 0 <= i < |ranges| && ranges[i].lo <= x <= ranges[i].hi
  }

  lemma CoversLast(ranges: seq<Range>, x: nat)
    requires ranges != []
    ensures Covers(ranges, x) <==>
            Covers(ranges[..|ranges| - 1], x) || ranges[|ranges| - 1].lo <= x <= ranges[|ranges| - 1].hi
  {
    var init := ranges[..|ranges| - 1];
    assert forall i :: 0 <= i < |init| ==> init[i] == ranges[i];
  }

  lemma {:induction false} ExpandCovers(ranges: seq<Range>, x: nat)
    ensures x in Expand(ranges) <==> Covers(ranges, x)
  {
    if ranges != [] {
      var init, last := ranges[..|ranges| - 1], ranges[|ranges| - 1];
      ExpandCovers(init, x);
      var tail := Count(last.lo, last.hi);
      assert x in tail <==> last.lo <= x <= last.hi by {
        if last.lo <= x <= last.hi {
          assert tail[x - last.lo] == x;
        }
      }
      CoversLast(ranges, x);
    }
  }

  // ----- reading back what was printed -----

  lemma DecimalIsPlain(n: nat)
    ensures ',' !in Decimal(n) && '-' !in Decimal(n)
    ensures Trim(Decimal(n)) == Decimal(n)
  {
    TrimKeeps(Decimal(n));
  }

  lemma RangeTextReads(range: Range)
    requires range.hi < USIZE
    ensures ParsePart(RangeText(range)) == Ok(range)
  {
    var text, a, b := RangeText(range), Decimal(range.lo), Decimal(range.hi);
    DecimalIsPlain(range.lo);
    DecimalIsPlain(range.hi);
    ParseOfDecimal(range.lo);
    ParseOfDecimal(range.hi);
    if range.lo == range.hi {
      assert text[..|text|] == a;
      FindIs(text, '-', |text|);
    } else {
      assert text[..|a|] == a && text[|a|] == '-' && text[|a| + 1..] == b;
      FindIs(text, '-', |a|);
    }
  }

  lemma RangeTextIsPart(range: Range)
    ensures RangeText(range) != "" && ',' !in RangeText(range)
    ensures Trim(RangeText(range)) == RangeText(range)
  {
    DecimalIsPlain(range.lo);
    DecimalIsPlain(range.hi);
    TrimKeeps(RangeText(range));
  }

  lemma {:induction false} TextsAreParts(ranges: seq<Range>)
    ensures NonEmpty(Texts(ranges)) == Texts(ranges)
  {
    if ranges != [] {
      RangeTextIsPart(ranges[0]);
      assert Texts(ranges)[1..] == Texts(ranges[1..]);
      TextsAreParts(ranges[1..]);
    }
  }

  lemma {:induction false} TextsRead(ranges: seq<Range>)
    requires forall i :: 0 <= i < |ranges| ==> ranges[i].hi < USIZE
    ensures ParseParts(Texts(ranges)) == Ok(ranges)
  {
    if ranges != [] {
      var init := ranges[..|ranges| - 1];
      assert Texts(ranges)[..|ranges| - 1] == Texts(init);
      TextsRead(init);
      RangeTextReads(ranges[|ranges| - 1]);
      assert Texts(ranges)[|ranges| - 1] == RangeText(ranges[|ranges| - 1]);
      assert init + [ranges[|ranges| - 1]] == ranges;
    }
  }

  lemma JoinedTexts(ranges: seq<Range>)
    requires ranges != []
    ensures Join(Texts(ranges)) != "" && Split(Join(Texts(ranges))) == Texts(ranges)
  {
    forall i | 0 <= i < |ranges|
      ensures ',' !in Texts(ranges)[i]
    {
      RangeTextIsPart(ranges[i]);
    }
    RangeTextIsPart(ranges[0]);
    SplitOfJoin(Texts(ranges));
  }

  lemma PrintedParts(ranges: seq<Range>)
    ensures Parts(Join(Texts(ranges))) == Texts(ranges)
  {
    if ranges == [] {
      assert Split("") == [""];
      assert NonEmpty([""]) == [];
    } else {
      JoinedTexts(ranges);
      TextsAreParts(ranges);
    }
  }

  lemma RunsFit(s: seq<nat>)
    requires Fits(s)
    ensures forall i :: 0 <= i < |Runs(s)| ==> Runs(s)[i].hi < USIZE
    decreases |s|
  {
    if s != [] {
      RunsFit(s[RunLength(s)..]);
    }
  }

  lemma NormalFits(cpus: seq<nat>)
    requires Fits(cpus)
    ensures Fits(Normal(cpus))
  {
    forall i | 0 <= i < |Normal(cpus)|
      ensures Normal(cpus)[i] < USIZE
    {
      assert Normal(cpus)[i] in cpus;
    }
  }

  /** What was printed reads back as the sorted list without duplicates, for every list of CPUs. */
  lemma {:induction false} FormatThenParse(cpus: seq<nat>)
    requires Fits(cpus)
    ensures Parse(Format(cpus)) == Ok(Normal(cpus))
    ensures Increasing(Normal(cpus)) && SameCpus(Normal(cpus), cpus)
  {
    var runs := Runs(Normal(cpus));
    NormalFits(cpus);
    RunsFit(Normal(cpus));
    PrintedParts(runs);
    TextsRead(runs);
    ExpandOfRuns(Normal(cpus));
  }

  lemma {:induction false} ParsedRangesFit(parts: seq<string>)
    requires ParseParts(parts).Ok?
    ensures |ParseParts(parts).value| == |parts|
    ensures forall i :: 0 <= i < |parts| ==> ParseParts(parts).value[i].hi < USIZE
  {
    if parts != [] {
      ParsedRangesFit(parts[..|parts| - 1]);
    }
  }

  lemma ParsedFitsUsize(text: string)
    requires Parse(text).Ok?
    ensures Fits(Parse(text).value)
  {
    var ranges := ParseParts(Parts(text)).value;
    ParsedRangesFit(Parts(text));
    forall i | 0 <= i < |Expand(ranges)|
      ensures Expand(ranges)[i] < USIZE
    {
      ExpandCovers(ranges, Expand(ranges)[i]);
    }
  }

  /** The printed text depends only on the set of CPUs. */
  lemma FormatIsCanonical(a: seq<nat>, b: seq<nat>)
    requires SameCpus(a, b)
    ensures Format(a) == Format(b)
  {
    IncreasingUnique(Normal(a), Normal(b));
  }

  /** Printing what any accepted text means and reading that again changes nothing more. */
  lemma {:induction false} ParseThenFormat(text: string)
    requires Parse(text).Ok?
    ensures Parse(Format(Parse(text).value)) == Ok(Normal(Parse(text).value))
    ensures Format(Normal(Parse(text).value)) == Format(Parse(text).value)
  {
    ParsedFitsUsize(text);
    FormatThenParse(Parse(text).value);
    FormatIsCanonical(Normal(Parse(text).value), Parse(text).value);
  }

  // ----- no shorter text -----

  function Starts(ranges: seq<Range>): set<nat> {
    set r | r in ranges :: r.lo
  }

  lemma {:induction false} FewStarts(ranges: seq<Range>)
    ensures |Starts(ranges)| <= |ranges|
  {
    if ranges != [] {
      var init, last := ranges[..|ranges| - 1], ranges[|ranges| - 1];
      FewStarts(init);
      assert ranges == init + [last];
      assert Starts(ranges) == Starts(init) + {last.lo};
    }
  }

  lemma {:induction false} SeparatedStarts(ranges: seq<Range>)
    requires Separated(ranges)
    ensures |Starts(ranges)| == |ranges|
  {
    if ranges != [] {
      var init, last := ranges[..|ranges| - 1], ranges[|ranges| - 1];
      SeparatedStarts(init);
      assert ranges == init + [last];
      assert last.lo !in Starts(init) by {
        forall i | 0 <= i < |init|
          ensures init[i].lo != last.lo
        {
          assert ranges[i].hi + 1 < ranges[|init|].lo;
        }
      }
      assert Starts(ranges) == Starts(init) + {last.lo};
    }
  }

  lemma NothingJustBelow(runs: seq<Range>, i: nat, x: nat)
    requires Separated(runs) && i < |runs| && runs[i].lo == x + 1
    ensures !Covers(runs, x)
  {
  }

  /** The start of a maximal run starts some range of every cover of the same numbers. */
  lemma RunStartIsStart(runs: seq<Range>, cover: seq<Range>, i: nat)
    requires Separated(runs) && i < |runs|
    requires forall x: nat :: Covers(runs, x) <==> Covers(cover, x)
    ensures runs[i].lo in Starts(cover)
  {
    var x := runs[i].lo;
    assert Covers(runs, x);
    var j :| 0 <= j < |cover| && cover[j].lo <= x <= cover[j].hi;
    if x > 0 {
      var y: nat := x - 1;
      NothingJustBelow(runs, i, y);
      assert cover[j].lo <= y ==> Covers(cover, y);
    }
    assert cover[j] in cover;
  }

  lemma StartsWithin(runs: seq<Range>, cover: seq<Range>)
    requires Separated(runs)
    requires forall x: nat :: Covers(runs, x) <==> Covers(cover, x)
    ensures |runs| <= |cover|
  {
    forall s | s in Starts(runs)
      ensures s in Starts(cover)
    {
      var r :| r in runs && r.lo == s;
      var i :| 0 <= i < |runs| && runs[i] == r;
      RunStartIsStart(runs, cover, i);
    }
    SeparatedStarts(runs);
    FewStarts(cover);
    SubsetIsSmaller(Starts(runs), Starts(cover));
  }

  lemma {:induction false} SubsetIsSmaller(a: set<nat>, b: set<nat>)
    requires a <= b
    ensures |a| <= |b|
    decreases |a|
  {
    if a != {} {
      var x :| x in a;
      SubsetIsSmaller(a - {x}, b - {x});
    }
  }

  /** No accepted text for the same CPUs has fewer comma parts than the printed one. */
  lemma {:induction false} FormatIsShortest(cpus: seq<nat>, text: string)
    requires Fits(cpus)
    requires Parse(text).Ok? && SameCpus(Parse(text).value, cpus)
    ensures |Parts(Format(cpus))| <= |Parts(text)|
  {
    var runs, cover := Runs(Normal(cpus)), ParseParts(Parts(text)).value;
    PrintedParts(runs);
    RunsAreSeparated(Normal(cpus));
    ParsedRangesFit(Parts(text));
    forall x: nat
      ensures Covers(runs, x) <==> Covers(cover, x)
    {
      ExpandCovers(runs, x);
      ExpandCovers(cover, x);
      ExpandOfRuns(Normal(cpus));
    }
    StartsWithin(runs, cover);
  }
}
