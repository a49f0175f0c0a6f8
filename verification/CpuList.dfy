/** CPU lists: the parser, the canonical printer, and what one makes of the other. */
module CpuList {
  import opened CpuText

  /** The numbers from `lo` to `hi`, both included. */
  datatype Interval = Interval(lo: nat, hi: nat)

  type Range = r: Interval | r.lo <= r.hi witness Interval(0, 0)

  function Count(lo: nat, hi: nat): (r: seq<nat>)
    requires lo <= hi
    ensures |r| == hi - lo + 1 && forall i :: 0 <= i < |r| ==> r[i] == lo + i
  {
    seq(hi - lo + 1, i requires 0 <= i < hi - lo + 1 => lo + i)
  }

  // ----- parsing -----

  function ParsePart(part: string): (r: Result<Range>)
    ensures r.Ok? ==> r.value.hi < USIZE
  {
    var k := Find(part, '-');
    if k == |part| then
      match ParseUsize(part)
      case Err(e) => Err(e)
      case Ok(n) => UsizeFits(part); Ok(Interval(n, n))
    else
      match ParseUsize(Trim(part[..k]))
      case Err(e) => Err(e)
      case Ok(lo) =>
        match ParseUsize(Trim(part[k + 1..]))
        case Err(e) => Err(e)
        case Ok(hi) =>
          UsizeFits(Trim(part[k + 1..]));
          if hi < lo then Err(InvalidRange(lo, hi)) else Ok(Interval(lo, hi))
  }

  lemma UsizeFits(s: string)
    ensures ParseUsize(s).Ok? ==> ParseUsize(s).value < USIZE
  {
    ParsedFits(s);
    if s != [] { ParsedFits(s[1..]); }
  }

  /** The trimmed parts that are not empty. */
  function NonEmpty(parts: seq<string>): (r: seq<string>)
    ensures |r| <= |parts|
  {
    if parts == [] then []
    else (if Trim(parts[0]) == "" then [] else [Trim(parts[0])]) + NonEmpty(parts[1..])
  }

  function Parts(s: string): seq<string> {
    NonEmpty(Split(s))
  }

  /** The ranges of the parts in order, or the first error. */
  function ParseParts(parts: seq<string>): Result<seq<Range>> {
    if parts == [] then Ok([])
    else
      match ParseParts(parts[..|parts| - 1])
      case Err(e) => Err(e)
      case Ok(ranges) =>
        match ParsePart(parts[|parts| - 1])
        case Err(e) => Err(e)
        case Ok(range) => Ok(ranges + [range])
  }

  function Expand(ranges: seq<Range>): seq<nat> {
    if ranges == [] then []
    else Expand(ranges[..|ranges| - 1]) + Count(ranges[|ranges| - 1].lo, ranges[|ranges| - 1].hi)
  }

  function Parse(s: string): Result<seq<nat>> {
    match ParseParts(Parts(s))
    case Err(e) => Err(e)
    case Ok(ranges) => Ok(Expand(ranges))
  }

  lemma {:induction false} FirstErrorStays(parts: seq<string>, k: nat)
    requires k <= |parts| && ParseParts(parts[..k]).Err?
    ensures ParseParts(parts) == ParseParts(parts[..k])
    decreases |parts| - k
  {
    if k < |parts| {
      assert parts[..k + 1][..k] == parts[..k];
      FirstErrorStays(parts, k + 1);
    } else {
      assert parts[..k] == parts;
    }
  }

  /** `out` expands the first `i` parts. */
  ghost predicate Parsed(out: seq<nat>, ranges: seq<Range>, parts: seq<string>, i: nat) {
    i <= |parts| && ParseParts(parts[..i]) == Ok(ranges) && out == Expand(ranges)
  }

  lemma ParseStep(out: seq<nat>, ranges: seq<Range>, parts: seq<string>, i: nat)
    requires Parsed(out, ranges, parts, i) && i < |parts|
    ensures
      match ParsePart(parts[i])
      case Err(e) => ParseParts(parts) == Err(e)
      case Ok(range) => Parsed(out + Count(range.lo, range.hi), ranges + [range], parts, i + 1)
  {
    assert parts[..i + 1][..i] == parts[..i];
    match ParsePart(parts[i])
    case Err(e) => FirstErrorStays(parts, i + 1);
    case Ok(range) => ExpandAppend(ranges, range);
  }

  lemma ParseEnds(out: seq<nat>, ranges: seq<Range>, s: string)
    requires Parsed(out, ranges, Parts(s), |Parts(s)|)
    ensures Parse(s) == Ok(out)
  {
    assert Parts(s)[..|Parts(s)|] == Parts(s);
  }

  method ParseCpuList(s: string) returns (r: Result<seq<nat>>)
    ensures r == Parse(s)
  {
    var out: seq<nat> := [];
    var parts := Parts(s);
    ghost var ranges: seq<Range> := [];
    for i := 0 to |parts|
      invariant Parsed(out, ranges, parts, i)
    {
      ParseStep(out, ranges, parts, i);
      var range := ParsePart(parts[i]);
      if range.Err? {
        return Err(range.error);
      }
      out := out + Count(range.value.lo, range.value.hi);
      ranges := ranges + [range.value];
    }
    ParseEnds(out, ranges, s);
    r := Ok(out);
  }

  lemma ExpandAppend(ranges: seq<Range>, range: Range)
    ensures Expand(ranges + [range]) == Expand(ranges) + Count(range.lo, range.hi)
  {
    assert (ranges + [range])[..|ranges|] == ranges;
  }

  // ----- printing -----

  ghost predicate Increasing(s: seq<nat>) {
    forall i, j :: 0 <= i < j < |s| ==> s[i] < s[j]
  }

  ghost predicate Ascending(s: seq<nat>) {
    forall i, j :: 0 <= i <= j < |s| ==> s[i] <= s[j]
  }

  function Insert(x: nat, s: seq<nat>): seq<nat> {
    if s == [] || s[|s| - 1] <= x then s + [x]
    else Insert(x, s[..|s| - 1]) + [s[|s| - 1]]
  }

  /** The sort of the standard library. */
  function Sort(s: seq<nat>): seq<nat> {
    if s == [] then [] else Insert(s[|s| - 1], Sort(s[..|s| - 1]))
  }

  lemma {:induction false} InsertKeeps(x: nat, s: seq<nat>)
    ensures multiset(Insert(x, s)) == multiset(s) + multiset{x}
  {
    if s != [] && s[|s| - 1] > x {
      InsertKeeps(x, s[..|s| - 1]);
      assert s == s[..|s| - 1] + [s[|s| - 1]];
    }
  }

  lemma {:induction false} InsertAscends(x: nat, s: seq<nat>)
    requires Ascending(s)
    ensures Ascending(Insert(x, s))
    ensures forall y :: y in Insert(x, s) ==> y in s || y == x
  {
    if s != [] && s[|s| - 1] > x {
      InsertAscends(x, s[..|s| - 1]);
      var r := Insert(x, s[..|s| - 1]);
      forall i | 0 <= i < |r|
        ensures r[i] <= s[|s| - 1]
      {
        assert r[i] in r;
      }
    }
  }

  /** Sorting gives an ascending permutation. */
  lemma {:induction false} SortIsSorting(s: seq<nat>)
    ensures Ascending(Sort(s)) && multiset(Sort(s)) == multiset(s)
  {
    if s != [] {
      var init, last := s[..|s| - 1], s[|s| - 1];
      SortIsSorting(init);
      InsertKeeps(last, Sort(init));
      InsertAscends(last, Sort(init));
      assert s == init + [last];
    }
  }

  /** Drops every element equal to the one before it. */
  function Dedup(s: seq<nat>): (r: seq<nat>)
    requires Ascending(s)
    ensures Increasing(r)
    ensures forall x :: x in r <==> x in s
    ensures s != [] ==> r != [] && r[|r| - 1] == s[|s| - 1]
  {
    if s == [] then []
    else
      var init, last := s[..|s| - 1], s[|s| - 1];
      assert s == init + [last];
      var r := Dedup(init);
      if init != [] && init[|init| - 1] == last then r else r + [last]
  }

  function Normal(cpus: seq<nat>): (r: seq<nat>)
    ensures Increasing(r)
    ensures forall x :: x in r <==> x in cpus
  {
    SortIsSorting(cpus);
    var sorted := Sort(cpus);
    assert forall x :: x in sorted <==> x in multiset(sorted);
    assert forall x :: x in cpus <==> x in multiset(cpus);
    Dedup(sorted)
  }

  lemma {:induction false} IncreasingUnique(a: seq<nat>, b: seq<nat>)
    requires Increasing(a) && Increasing(b) && forall x :: x in a <==> x in b
    ensures a == b
    decreases |a|
  {
    assert a != [] ==> a[0] in b;
    assert b != [] ==> b[0] in a;
    if a != [] {
      var m, n := |a| - 1, |b| - 1;
      assert a[m] in b && b[n] in a;
      assert a[m] == b[n];
      forall x
        ensures x in a[..m] <==> x in b[..n]
      {
        InInit(a, x);
        InInit(b, x);
      }
      IncreasingUnique(a[..m], b[..n]);
    }
  }

  lemma InInit(s: seq<nat>, x: nat)
    requires Increasing(s) && s != []
    ensures x in s[..|s| - 1] <==> x in s && x != s[|s| - 1]
  {
  }

  /** How many elements continue the first one by steps of one. */
  function RunLength(s: seq<nat>): (k: nat)
    requires s != []
    ensures 0 < k <= |s|
    ensures forall i :: 0 <= i < k ==> s[i] == s[0] + i
    ensures k < |s| ==> s[k] != s[0] + k
  {
    RunFrom(s, 1)
  }

  function RunFrom(s: seq<nat>, k: nat): (r: nat)
    requires 0 < k <= |s|
    requires forall i :: 0 <= i < k ==> s[i] == s[0] + i
    ensures k <= r <= |s|
    ensures forall i :: 0 <= i < r ==> s[i] == s[0] + i
    ensures r < |s| ==> s[r] != s[0] + r
    decreases |s| - k
  {
    if k < |s| && s[k] == s[0] + k then RunFrom(s, k + 1) else k
  }

  /** The maximal ascending runs. */
  function Runs(s: seq<nat>): seq<Range>
    decreases |s|
  {
    if s == [] then []
    else
      var k := RunLength(s);
      [Interval(s[0], s[k - 1])] + Runs(s[k..])
  }

  function RangeText(range: Range): string {
    if range.lo == range.hi then Decimal(range.lo) else Decimal(range.lo) + "-" + Decimal(range.hi)
  }

  function Texts(ranges: seq<Range>): (r: seq<string>)
    ensures |r| == |ranges|
  {
    seq(|ranges|, i requires 0 <= i < |ranges| => RangeText(ranges[i]))
  }

  function Format(cpus: seq<nat>): string {
    Join(Texts(Runs(Normal(cpus))))
  }

  lemma RunLengthIs(s: seq<nat>, k: nat)
    requires 0 < k <= |s|
    requires forall i :: 0 <= i < k ==> s[i] == s[0] + i
    requires k < |s| ==> s[k] != s[0] + k
    ensures RunLength(s) == k
  {
  }

  /** The text `out` with one more range. */
  function OneMore(out: string, range: Range): string {
    (if out == "" then "" else out + ",") + RangeText(range)
  }

  lemma TextsAppend(ranges: seq<Range>, range: Range)
    ensures Texts(ranges + [range]) == Texts(ranges) + [RangeText(range)]
  {
  }

  lemma JoinNonEmpty(ranges: seq<Range>)
    requires ranges != []
    ensures Join(Texts(ranges)) != ""
  {
    assert Texts(ranges)[0] == RangeText(ranges[0]) != "";
  }

  lemma PrintOneMore(done: seq<Range>, range: Range)
    ensures Join(Texts(done + [range])) == OneMore(Join(Texts(done)), range)
  {
    TextsAppend(done, range);
    if done == [] {
      assert Texts(done) + [RangeText(range)] == [RangeText(range)];
      assert "" + RangeText(range) == RangeText(range);
    } else {
      JoinNonEmpty(done);
      JoinAppend(Texts(done), RangeText(range));
    }
  }

  lemma NextRun(s: seq<nat>, i: nat, j: nat)
    requires i <= j < |s|
    requires forall k :: i <= k <= j ==> s[k] == s[i] + (k - i)
    requires j + 1 < |s| ==> s[j + 1] != s[j] + 1
    ensures Runs(s[i..]) == [Interval(s[i], s[j])] + Runs(s[j + 1..])
  {
    var rest := s[i..];
    RunLengthIs(rest, j - i + 1);
    assert rest[j - i + 1..] == s[j + 1..];
  }

  /** The inner loop: the end of the run that starts at `i`. Its `sorted[j] + 1` is only taken where a
      larger element follows, so it does not overflow. */
  method RunEnd(sorted: seq<nat>, i: nat) returns (j: nat)
    requires Increasing(sorted) && i < |sorted| && forall k :: 0 <= k < |sorted| ==> sorted[k] < USIZE
    ensures i <= j < |sorted|
    ensures forall k :: i <= k <= j ==> sorted[k] == sorted[i] + (k - i)
    ensures j + 1 < |sorted| ==> sorted[j + 1] != sorted[j] + 1
  {
    j := i;
    while j + 1 < |sorted|
      invariant i <= j < |sorted|
      invariant forall k :: i <= k <= j ==> sorted[k] == sorted[i] + (k - i)
    {
      assert sorted[j] < sorted[j + 1] && sorted[j] + 1 < USIZE;
      if sorted[j + 1] != sorted[j] + 1 {
        break;
      }
      j := j + 1;
    }
  }

  method AppendRange(before: string, start: nat, end: nat) returns (out: string)
    requires start <= end
    ensures out == OneMore(before, Interval(start, end))
  {
    out := before;
    if out != "" {
      out := out + ",";
    }
    if start == end {
      out := out + Decimal(start);
    } else {
      out := out + (Decimal(start) + "-" + Decimal(end));
    }
  }

  /** `out` is the text of all the ranges but `rest`. */
  ghost predicate Printed(out: string, rest: seq<Range>, all: seq<Range>) {
    exists done: seq<Range> :: all == done + rest && out == Join(Texts(done))
  }

  lemma PrintStarts(all: seq<Range>)
    ensures Printed("", all, all)
  {
    var done: seq<Range> := [];
    assert all == done + all && "" == Join(Texts(done));
  }

  lemma PrintStep(out: string, range: Range, rest: seq<Range>, all: seq<Range>)
    requires Printed(out, [range] + rest, all)
    ensures Printed(OneMore(out, range), rest, all)
  {
    var done: seq<Range> :| all == done + ([range] + rest) && out == Join(Texts(done));
    PrintOneMore(done, range);
    assert all == (done + [range]) + rest;
  }

  lemma PrintEnds(out: string, all: seq<Range>)
    requires Printed(out, [], all)
    ensures out == Join(Texts(all))
  {
    var done: seq<Range> :| all == done + [] && out == Join(Texts(done));
    assert done + [] == done;
  }

  lemma FormatStep(out: string, sorted: seq<nat>, i: nat, j: nat, all: seq<Range>)
    requires i <= j < |sorted| && Printed(out, Runs(sorted[i..]), all)
    requires forall k :: i <= k <= j ==> sorted[k] == sorted[i] + (k - i)
    requires j + 1 < |sorted| ==> sorted[j + 1] != sorted[j] + 1
    ensures Printed(OneMore(out, Interval(sorted[i], sorted[j])), Runs(sorted[j + 1..]), all)
  {
    NextRun(sorted, i, j);
    PrintStep(out, Interval(sorted[i], sorted[j]), Runs(sorted[j + 1..]), all);
  }

  method FormatSorted(sorted: seq<nat>) returns (out: string)
    requires Increasing(sorted) && forall i :: 0 <= i < |sorted| ==> sorted[i] < USIZE
    ensures out == Join(Texts(Runs(sorted)))
  {
    out := "";
    var i := 0;
    ghost var all := Runs(sorted);
    PrintStarts(all);
    assert sorted[0..] == sorted;
    while i < |sorted|
      invariant i <= |sorted|
      invariant Printed(out, Runs(sorted[i..]), all)
    {
      var j := RunEnd(sorted, i);
      FormatStep(out, sorted, i, j, all);
      out := AppendRange(out, sorted[i], sorted[j]);
      i := j + 1;
    }
    PrintEnds(out, all);
  }

  method FormatCpuList(cpus: seq<nat>) returns (out: string)
    requires forall i :: 0 <= i < |cpus| ==> cpus[i] < USIZE
    ensures out == Format(cpus)
  {
    if |cpus| == 0 {
      return "";
    }
    SortIsSorting(cpus);
    var sorted := Dedup(Sort(cpus));
    forall i | 0 <= i < |sorted|
      ensures sorted[i] < USIZE
    {
      assert sorted[i] in Sort(cpus);
      assert sorted[i] in multiset(Sort(cpus));
      assert sorted[i] in multiset(cpus);
    }
    out := FormatSorted(sorted);
  }
}
