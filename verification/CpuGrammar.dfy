/** What the CPU list parser accepts and what it makes of it, in terms of characters alone. */
module CpuGrammar {
  import opened CpuText
  import opened CpuList
  import opened CpuListTheorems

  // ----- blanks -----

  const WHITE: string :=
    "\t\n\U{B}\U{C}\r \U{85}\U{A0}\U{1680}\U{2000}\U{2001}\U{2002}\U{2003}\U{2004}\U{2005}\U{2006}\U{2007}\U{2008}\U{2009}\U{200A}\U{2028}\U{2029}\U{202F}\U{205F}\U{3000}"

  /** The blanks are the 25 white-space characters of Unicode. */
  lemma WhiteIsSpace(c: char)
    ensures IsSpace(c) <==> c in WHITE
  {
    var w := WHITE;
    assert w[0] == '\t' && w[1] == '\n' && w[2] == '\U{B}' && w[3] == '\U{C}' && w[4] == '\r' && w[5] == ' ';
    assert w[6] == '\U{85}' && w[7] == '\U{A0}' && w[8] == '\U{1680}' && w[9] == '\U{2000}' && w[10] == '\U{2001}';
    assert w[11] == '\U{2002}' && w[12] == '\U{2003}' && w[13] == '\U{2004}' && w[14] == '\U{2005}';
    assert w[15] == '\U{2006}' && w[16] == '\U{2007}' && w[17] == '\U{2008}' && w[18] == '\U{2009}';
    assert w[19] == '\U{200A}' && w[20] == '\U{2028}' && w[21] == '\U{2029}' && w[22] == '\U{202F}';
    assert w[23] == '\U{205F}' && w[24] == '\U{3000}' && |w| == 25;
  }

  ghost predicate Blank(w: string) {
    forall i :: 0 <= i < |w| ==> IsSpace(w[i])
  }

  /** No blank at either end. */
  ghost predicate Bare(s: string) {
    s != "" ==> !IsSpace(s[0]) && !IsSpace(s[|s| - 1])
  }

  lemma {:induction false} TrimStartBlank(w: string, s: string)
    requires Blank(w)
    ensures TrimStart(w + s) == TrimStart(s)
  {
    if w == "" {
      assert w + s == s;
    } else {
      assert (w + s)[1..] == w[1..] + s;
      TrimStartBlank(w[1..], s);
    }
  }

  lemma {:induction false} TrimEndBlank(s: string, w: string)
    requires Blank(w)
    ensures TrimEnd(s + w) == TrimEnd(s)
  {
    if w == "" {
      assert s + w == s;
    } else {
      var n := |w| - 1;
      assert (s + w)[..|s + w| - 1] == s + w[..n];
      TrimEndBlank(s, w[..n]);
    }
  }

  /** Trimming takes the blanks off both ends and nothing else. */
  lemma TrimIs(w1: string, s: string, w2: string)
    requires Blank(w1) && Blank(w2) && Bare(s)
    ensures Trim(w1 + s + w2) == s
  {
    assert w1 + s + w2 == w1 + (s + w2);
    TrimStartBlank(w1, s + w2);
    if s == "" {
      assert s + w2 == w2 + "";
      TrimStartBlank(w2, "");
    } else {
      TrimEndBlank(s, w2);
    }
  }

  lemma {:induction false} StartSplits(s: string) returns (w: string)
    ensures Blank(w) && s == w + TrimStart(s)
    ensures TrimStart(s) != "" ==> !IsSpace(TrimStart(s)[0])
  {
    w := "";
    if s != "" {
      if IsSpace(s[0]) {
        var rest := StartSplits(s[1..]);
        w := [s[0]] + rest;
        assert s == [s[0]] + s[1..];
      }
    }
  }

  lemma {:induction false} EndSplits(s: string) returns (w: string)
    ensures Blank(w) && s == TrimEnd(s) + w
    ensures TrimEnd(s) != "" ==> !IsSpace(TrimEnd(s)[|TrimEnd(s)| - 1])
  {
    w := "";
    if s != "" {
      var n := |s| - 1;
      if IsSpace(s[n]) {
        var rest := EndSplits(s[..n]);
        w := rest + [s[n]];
        assert s == s[..n] + [s[n]];
      }
    }
  }

  lemma TrimSplits(s: string) returns (w1: string, w2: string)
    ensures Blank(w1) && Blank(w2) && Bare(Trim(s))
    ensures s == w1 + Trim(s) + w2
  {
    w1 := StartSplits(s);
    var t := TrimStart(s);
    w2 := EndSplits(t);
    assert Trim(s) != "" ==> Trim(s)[0] == t[0];
  }

  // ----- numbers -----

  ghost predicate Digits(s: string) {
    forall i :: 0 <= i < |s| ==> 48 <= s[i] as int <= 57
  }

  /** The number that a row of digits stands for. */
  ghost function ValueOf(s: string): nat
    requires Digits(s)
  {
    if s == "" then 0 else ValueOf(s[..|s| - 1]) * 10 + (s[|s| - 1] as int - 48)
  }

  /** One or more digits, with or without a plus, that stand for `n`. */
  ghost predicate Spells(s: string, n: nat) {
    && s != "" && s != "+"
    && var d := if s[0] == '+' then s[1..] else s;
       Digits(d) && ValueOf(d) == n
  }

  /** How many digits a text starts with. */
  function Leading(s: string): (k: nat)
    ensures k <= |s| && Digits(s[..k])
    ensures k < |s| ==> !(48 <= s[k] as int <= 57)
  {
    if s == "" || !(48 <= s[0] as int <= 57) then 0
    else
      assert s == [s[0]] + s[1..];
      assert s[..1 + Leading(s[1..])] == [s[0]] + s[1..][..Leading(s[1..])];
      1 + Leading(s[1..])
  }

  lemma {:induction false} ValueGrows(s: string, k: nat)
    requires Digits(s) && k <= |s|
    ensures ValueOf(s[..k]) <= ValueOf(s)
  {
    if k == |s| {
      assert s[..k] == s;
    } else {
      ValueGrows(s[..|s| - 1], k);
      assert s[..|s| - 1][..k] == s[..k];
    }
  }

  lemma {:induction false} DigitsRead(s: string)
    requires Digits(s)
    ensures ParseDigits(s) == if ValueOf(s) < 0x1_0000_0000_0000_0000 then Ok(ValueOf(s)) else Err(PosOverflow)
  {
    if s != "" {
      DigitsRead(s[..|s| - 1]);
    }
  }

  lemma {:induction false} LeadingDecides(s: string, k: nat)
    requires k < |s| && Digits(s[..k]) && !(48 <= s[k] as int <= 57)
    ensures ParseDigits(s) == if ValueOf(s[..k]) < 0x1_0000_0000_0000_0000 then Err(InvalidDigit) else Err(PosOverflow)
  {
    var n := |s| - 1;
    if k == n {
      DigitsRead(s[..n]);
    } else {
      assert s[..n][..k] == s[..k];
      LeadingDecides(s[..n], k);
    }
  }

  /** The reading of a number, every error included: a 64-bit word or less, after at most one plus. */
  lemma NumberReads(s: string)
    ensures
      var d := if s != "" && s[0] == '+' then s[1..] else s;
      ParseUsize(s) ==
      if s == "" then Err(Empty)
      else if ValueOf(d[..Leading(d)]) >= 0x1_0000_0000_0000_0000 then Err(PosOverflow)
      else if d == "" || Leading(d) < |d| then Err(InvalidDigit)
      else Ok(ValueOf(d[..Leading(d)]))
  {
    var d := if s != "" && s[0] == '+' then s[1..] else s;
    var k := Leading(d);
    if s == "+" {
      assert d == "";
    } else if k < |d| {
      LeadingDecides(d, k);
    } else {
      assert d[..k] == d;
      DigitsRead(d);
    }
  }

  lemma LeadingIsAll(d: string)
    ensures Leading(d) == |d| <==> Digits(d)
  {
    assert d[..|d|] == d;
  }

  lemma SpelledReads(s: string, n: nat)
    ensures ParseUsize(s) == Ok(n) <==> Spells(s, n) && n < 0x1_0000_0000_0000_0000
  {
    NumberReads(s);
    var d := if s != "" && s[0] == '+' then s[1..] else s;
    LeadingIsAll(d);
    assert d[..|d|] == d;
    assert s != "" && s[0] == '+' && d == "" ==> s == "+";
  }

  lemma DigitIsPlain(c: char)
    requires 48 <= c as int <= 57 || c == '+'
    ensures !IsSpace(c) && c != '-' && c != ','
  {
  }

  lemma SpelledIsPlain(s: string, n: nat)
    requires Spells(s, n)
    ensures Bare(s) && '-' !in s && ',' !in s
  {
    forall i | 0 <= i < |s|
      ensures !IsSpace(s[i]) && s[i] != '-' && s[i] != ','
    {
      assert s[0] == '+' && i > 0 ==> s[i] == s[1..][i - 1];
      DigitIsPlain(s[i]);
    }
  }

  /** A number is printed without leading zeros. */
  lemma {:induction false} DecimalStartsWell(n: nat)
    ensures n > 0 ==> Decimal(n)[0] != '0'
    ensures n == 0 ==> Decimal(n) == "0"
  {
    if n >= 10 {
      DecimalStartsWell(n / 10);
    }
  }

  lemma {:induction false} DecimalSpells(n: nat)
    ensures Spells(Decimal(n), n) && Digits(Decimal(n)) && ValueOf(Decimal(n)) == n
  {
    var s := Decimal(n);
    if n < 10 {
      assert s[..0] == "";
    } else {
      DecimalSpells(n / 10);
      assert s[..|s| - 1] == Decimal(n / 10);
    }
  }

  /** And that leaves only one way to print it. */
  lemma {:induction false} DecimalIsTheText(s: string, n: nat)
    requires s != "" && Digits(s) && ValueOf(s) == n && (|s| > 1 ==> s[0] != '0')
    ensures s == Decimal(n)
  {
    var init, last := s[..|s| - 1], s[|s| - 1];
    assert s == init + [last];
    if |s| == 1 {
      assert init == "";
    } else {
      LeadingDigitCounts(init);
      DecimalIsTheText(init, n / 10);
    }
  }

  lemma {:induction false} LeadingDigitCounts(s: string)
    requires s != "" && Digits(s) && s[0] != '0'
    ensures ValueOf(s) > 0
  {
    if |s| > 1 {
      LeadingDigitCounts(s[..|s| - 1]);
    } else {
      assert s[..0] == "";
    }
  }

  // ----- parts -----

  /** The ways to write a part: blank, a number, or two around a dash, with blanks around each number. */
  datatype Shape =
    | Nothing(w: string)
    | Single(w1: string, a: string, w2: string, n: nat)
    | Dashed(w1: string, a: string, w2: string, w3: string, b: string, w4: string, lo: nat, hi: nat)

  ghost predicate Proper(shape: Shape) {
    match shape
    case Nothing(w) => Blank(w)
    case Single(w1, a, w2, n) => Blank(w1) && Blank(w2) && Spells(a, n)
    case Dashed(w1, a, w2, w3, b, w4, lo, hi) =>
      Blank(w1) && Blank(w2) && Blank(w3) && Blank(w4) && Spells(a, lo) && Spells(b, hi)
  }

  function Written(shape: Shape): string {
    match shape
    case Nothing(w) => w
    case Single(w1, a, w2, _) => w1 + a + w2
    case Dashed(w1, a, w2, w3, b, w4, _, _) => w1 + ((a + w2) + "-" + (w3 + b)) + w4
  }

  /** The numbers fit a machine word. */
  predicate Small(shape: Shape) {
    match shape
    case Nothing(_) => true
    case Single(_, _, _, n) => n < 0x1_0000_0000_0000_0000
    case Dashed(_, _, _, _, _, _, lo, hi) => lo < 0x1_0000_0000_0000_0000 && hi < 0x1_0000_0000_0000_0000
  }

  function Meaning(shape: Shape): Result<seq<nat>> {
    match shape
    case Nothing(_) => Ok([])
    case Single(_, _, _, n) => Ok([n])
    case Dashed(_, _, _, _, _, _, lo, hi) => if hi < lo then Err(InvalidRange(lo, hi)) else Ok(Count(lo, hi))
  }

  lemma OnePart(t: string)
    ensures
      match ParsePart(t)
      case Err(e) => ParseParts([t]) == Err(e)
      case Ok(range) => ParseParts([t]) == Ok([range]) && Expand([range]) == Count(range.lo, range.hi)
  {
    var parts := [t];
    assert parts[..|parts| - 1] == [];
    assert ParseParts([]) == Ok([]);
    match ParsePart(t)
    case Err(e) =>
    case Ok(range) =>
      ExpandAppend([], range);
      assert [] + [range] == [range];
      assert Expand([]) + Count(range.lo, range.hi) == Count(range.lo, range.hi);
  }

  lemma PlainParse(part: string)
    requires ',' !in part
    ensures Parse(part) ==
            if Trim(part) == "" then Ok([])
            else match ParsePart(Trim(part)) case Err(e) => Err(e) case Ok(range) => Ok(Count(range.lo, range.hi))
  {
    SplitPlain(part);
    assert [part][1..] == [];
    if Trim(part) == "" {
      assert Parts(part) == [];
    } else {
      assert Parts(part) == [Trim(part)];
      OnePart(Trim(part));
    }
  }

  lemma BlankIsPlain(w: string)
    requires Blank(w)
    ensures ',' !in w && '-' !in w
  {
  }

  /** The first dash cuts a part in two numbers. */
  lemma DashCuts(l: string, r: string, t: string)
    requires '-' !in l && t == l + "-" + r
    ensures Find(t, '-') == |l| < |t| && t[..|l|] == l && t[|l| + 1..] == r
  {
    assert t[..|l|] == l && t[|l|] == '-' && t[|l| + 1..] == r;
    FindIs(t, '-', |l|);
  }

  lemma DashedPart(l: string, r: string, t: string, lo: nat, hi: nat)
    requires '-' !in l && t == l + "-" + r
    requires ParseUsize(Trim(l)) == Ok(lo) && ParseUsize(Trim(r)) == Ok(hi)
    ensures ParsePart(t) == if hi < lo then Err(InvalidRange(lo, hi)) else Ok(Interval(lo, hi))
  {
    DashCuts(l, r, t);
  }

  lemma TrimsBefore(w: string, s: string)
    requires Blank(w) && Bare(s)
    ensures Trim(w + s) == s
  {
    TrimIs(w, s, "");
    assert w + s + "" == w + s;
  }

  lemma TrimsAfter(s: string, w: string)
    requires Blank(w) && Bare(s)
    ensures Trim(s + w) == s
  {
    TrimIs("", s, w);
    assert "" + s + w == s + w;
  }

  lemma ShapeIsOnePart(shape: Shape)
    requires Proper(shape)
    ensures ',' !in Written(shape)
  {
    match shape
    case Nothing(w) => BlankIsPlain(w);
    case Single(w1, a, w2, n) =>
      BlankIsPlain(w1);
      BlankIsPlain(w2);
      SpelledIsPlain(a, n);
    case Dashed(w1, a, w2, w3, b, w4, lo, hi) =>
      BlankIsPlain(w1);
      BlankIsPlain(w2);
      BlankIsPlain(w3);
      BlankIsPlain(w4);
      SpelledIsPlain(a, lo);
      SpelledIsPlain(b, hi);
  }

  ghost function Core(shape: Shape): string {
    match shape
    case Nothing(_) => ""
    case Single(_, a, _, _) => a
    case Dashed(_, a, w2, w3, b, _, _, _) => (a + w2) + "-" + (w3 + b)
  }

  lemma CoreIsBare(a: string, w2: string, w3: string, b: string, t: string)
    requires a != "" && b != "" && Bare(a) && Bare(b) && t == (a + w2) + "-" + (w3 + b)
    ensures Bare(t)
  {
    assert t[0] == a[0] && t[|t| - 1] == b[|b| - 1];
  }

  lemma ShapeTrims(shape: Shape)
    requires Proper(shape)
    ensures Trim(Written(shape)) == Core(shape)
  {
    match shape
    case Nothing(w) =>
      TrimsAfter("", w);
      assert "" + w == w;
    case Single(w1, a, w2, n) =>
      SpelledIsPlain(a, n);
      TrimIs(w1, a, w2);
    case Dashed(w1, a, w2, w3, b, w4, lo, hi) =>
      SpelledIsPlain(a, lo);
      SpelledIsPlain(b, hi);
      CoreIsBare(a, w2, w3, b, Core(shape));
      TrimIs(w1, Core(shape), w4);
  }

  lemma SingleReads(a: string, n: nat)
    requires Spells(a, n) && n < 0x1_0000_0000_0000_0000
    ensures ParsePart(a) == Ok(Interval(n, n))
  {
    SpelledIsPlain(a, n);
    SpelledReads(a, n);
    assert a[..|a|] == a;
    FindIs(a, '-', |a|);
  }

  lemma DashedReads(a: string, w2: string, w3: string, b: string, lo: nat, hi: nat)
    requires Blank(w2) && Blank(w3) && Spells(a, lo) && Spells(b, hi)
    requires lo < 0x1_0000_0000_0000_0000 && hi < 0x1_0000_0000_0000_0000
    ensures ParsePart((a + w2) + "-" + (w3 + b)) == if hi < lo then Err(InvalidRange(lo, hi)) else Ok(Interval(lo, hi))
  {
    SpelledIsPlain(a, lo);
    SpelledIsPlain(b, hi);
    SpelledReads(a, lo);
    SpelledReads(b, hi);
    BlankIsPlain(w2);
    TrimsAfter(a, w2);
    TrimsBefore(w3, b);
    DashedPart(a + w2, w3 + b, (a + w2) + "-" + (w3 + b), lo, hi);
  }

  /** Every part written in one of these ways is read as what it means, and a range that runs backwards is
      refused as such. */
  lemma ShapeReads(shape: Shape)
    requires Proper(shape) && Small(shape)
    ensures Parse(Written(shape)) == Meaning(shape)
  {
    ShapeIsOnePart(shape);
    ShapeTrims(shape);
    PlainParse(Written(shape));
    match shape
    case Nothing(_) =>
    case Single(_, a, _, n) =>
      SingleReads(a, n);
      assert Count(n, n) == [n];
    case Dashed(_, a, w2, w3, b, _, lo, hi) =>
      DashedReads(a, w2, w3, b, lo, hi);
  }

  /** And no other part is accepted. */
  lemma AcceptedHasShape(part: string) returns (shape: Shape)
    requires ',' !in part && Parse(part).Ok?
    ensures Proper(shape) && Small(shape) && Written(shape) == part
  {
    PlainParse(part);
    var t := Trim(part);
    var w1, w2 := TrimSplits(part);
    var k := Find(t, '-');
    if t == "" {
      shape := Nothing(part);
      assert part == w1 + w2;
    } else if k == |t| {
      var n := ParseUsize(t).value;
      SpelledReads(t, n);
      shape := Single(w1, t, w2, n);
    } else {
      shape := DashedShape(part, w1, t, w2, k);
    }
  }

  lemma Regroups(w1: string, u1: string, a: string, u2: string, v1: string, b: string, v2: string, w2: string)
    ensures w1 + ((u1 + a + u2) + "-" + (v1 + b + v2)) + w2 == (w1 + u1) + ((a + u2) + "-" + (v1 + b)) + (v2 + w2)
  {
  }

  lemma BlankConcat(a: string, b: string)
    requires Blank(a) && Blank(b)
    ensures Blank(a + b)
  {
  }

  /** Two numbers around a dash, with the blanks of all three trims, make a dashed part. */
  lemma Assembled(part: string, w1: string, l: string, r: string, w2: string, lo: nat, hi: nat) returns (shape: Shape)
    requires part == w1 + (l + "-" + r) + w2 && Blank(w1) && Blank(w2)
    requires Spells(Trim(l), lo) && Spells(Trim(r), hi)
    ensures Proper(shape) && Written(shape) == part
    ensures shape.Dashed? && shape.lo == lo && shape.hi == hi
  {
    var u1, u2 := TrimSplits(l);
    var v1, v2 := TrimSplits(r);
    BlankConcat(w1, u1);
    BlankConcat(v2, w2);
    shape := Dashed(w1 + u1, Trim(l), u2, v1, Trim(r), v2 + w2, lo, hi);
    Regroups(w1, u1, Trim(l), u2, v1, Trim(r), v2, w2);
  }

  lemma DashedShape(part: string, w1: string, t: string, w2: string, k: nat) returns (shape: Shape)
    requires part == w1 + t + w2 && Blank(w1) && Blank(w2)
    requires k == Find(t, '-') < |t| && ParsePart(t).Ok?
    ensures Proper(shape) && Small(shape) && Written(shape) == part
  {
    var l, r := t[..k], t[k + 1..];
    var lo, hi := ParseUsize(Trim(l)).value, ParseUsize(Trim(r)).value;
    assert t == l + "-" + r;
    SpelledReads(Trim(l), lo);
    SpelledReads(Trim(r), hi);
    shape := Assembled(part, w1, l, r, w2, lo, hi);
  }

  // ----- parts that are refused -----

  lemma FiveRegroup(a: string, b: string, c: string, d: string, e: string)
    ensures a + (b + c + d) + e == (a + b) + c + (d + e)
  {
  }

  lemma TrimsAlike(w1: string, u: string, w2: string, s: string)
    requires Blank(w1) && Blank(w2) && s == w1 + u + w2
    ensures Trim(s) == Trim(u)
  {
    var a, b := TrimSplits(u);
    BlankConcat(w1, a);
    BlankConcat(b, w2);
    FiveRegroup(w1, a, Trim(u), b, w2);
    TrimIs(w1 + a, Trim(u), b + w2);
  }

  lemma TrimAfterStart(s: string)
    ensures Trim(TrimStart(s)) == Trim(s)
  {
    var w, u := "", TrimStart(s);
    w := StartSplits(s);
    assert w + u + "" == w + u;
    TrimsAlike(w, u, "", s);
  }

  lemma TrimAfterEnd(s: string)
    ensures Trim(TrimEnd(s)) == Trim(s)
  {
    var u, w := TrimEnd(s), "";
    w := EndSplits(s);
    assert "" + u + w == u + w;
    TrimsAlike("", u, w, s);
  }

  lemma DashRegroups(w1: string, l: string, r: string, w2: string)
    ensures (w1 + l) + "-" + (r + w2) == w1 + (l + "-" + r) + w2
  {
  }

  lemma DashIsBare(l: string, r: string, core: string)
    requires core == l + "-" + r
    requires l != "" ==> !IsSpace(l[0])
    requires r != "" ==> !IsSpace(r[|r| - 1])
    ensures Bare(core)
  {
    assert core[0] == if l == "" then '-' else l[0];
    assert core[|core| - 1] == if r == "" then '-' else r[|r| - 1];
  }

  lemma DashedTrims(l: string, r: string)
    ensures Trim(l + "-" + r) == TrimStart(l) + "-" + TrimEnd(r)
  {
    var w1 := StartSplits(l);
    var w2 := EndSplits(r);
    var l', r' := TrimStart(l), TrimEnd(r);
    DashIsBare(l', r', l' + "-" + r');
    DashRegroups(w1, l', r', w2);
    TrimIs(w1, l' + "-" + r', w2);
  }

  lemma {:induction false} TrimStartKeepsOut(s: string, c: char)
    requires c !in s
    ensures c !in TrimStart(s)
  {
    var w := StartSplits(s);
  }

  /** A part with a dash is read, refused or not, by what stands before and after the first one: the error of
      the first number, else that of the second, else that of the range. */
  lemma DashReads(l: string, r: string)
    requires ',' !in l && ',' !in r && '-' !in l
    ensures Parse(l + "-" + r) ==
            match ParseUsize(Trim(l))
            case Err(e) => Err(e)
            case Ok(lo) =>
              match ParseUsize(Trim(r))
              case Err(e) => Err(e)
              case Ok(hi) => if hi < lo then Err(InvalidRange(lo, hi)) else Ok(Count(lo, hi))
  {
    var part, t := l + "-" + r, TrimStart(l) + "-" + TrimEnd(r);
    DashedTrims(l, r);
    TrimStartKeepsOut(l, '-');
    DashCuts(TrimStart(l), TrimEnd(r), t);
    TrimAfterStart(l);
    TrimAfterEnd(r);
    PlainParse(part);
  }

  /** A part without a dash is nothing if blank, and else one number or the error of one. */
  lemma PlainReads(part: string)
    requires ',' !in part && '-' !in part
    ensures Parse(part) ==
            if Trim(part) == "" then Ok([])
            else match ParseUsize(Trim(part)) case Err(e) => Err(e) case Ok(n) => Ok([n])
  {
    var t := Trim(part);
    var w1, w2 := TrimSplits(part);
    assert '-' !in t;
    assert t[..|t|] == t;
    FindIs(t, '-', |t|);
    PlainParse(part);
    if t != "" && ParseUsize(t).Ok? {
      assert Count(ParseUsize(t).value, ParseUsize(t).value) == [ParseUsize(t).value];
    }
  }

  // ----- several parts -----

  lemma CommasRegroup(a: string, b: string, c: string)
    ensures (a + "," + b) + "," + c == a + "," + (b + "," + c)
  {
  }

  lemma PrependConcat(first: string, p: seq<string>, q: seq<string>)
    ensures [first] + (p + q) == ([first] + p) + q
  {
  }

  lemma SplitConcatStep(first: string, rest: string, b: string, a: string, tail: string, text: string)
    requires ',' !in first && a == first + "," + rest && text == first + "," + tail
    requires Split(tail) == Split(rest) + Split(b)
    ensures Split(text) == Split(a) + Split(b)
  {
    SplitPrepend(first, tail, text);
    SplitPrepend(first, rest, a);
    PrependConcat(first, Split(rest), Split(b));
  }

  lemma {:induction false} SplitConcat(a: string, b: string)
    ensures Split(a + "," + b) == Split(a) + Split(b)
    decreases |a|
  {
    var k := Find(a, ',');
    if k == |a| {
      assert a[..|a|] == a;
      SplitPlain(a);
      SplitPrepend(a, b, a + "," + b);
    } else {
      var first, rest := a[..k], a[k + 1..];
      assert a == first + "," + rest;
      SplitConcat(rest, b);
      CommasRegroup(first, rest, b);
      SplitConcatStep(first, rest, b, a, rest + "," + b, a + "," + b);
    }
  }

  lemma {:induction false} NonEmptyConcat(p: seq<string>, q: seq<string>)
    ensures NonEmpty(p + q) == NonEmpty(p) + NonEmpty(q)
  {
    if p == [] {
      assert p + q == q;
    } else {
      assert (p + q)[1..] == p[1..] + q;
      NonEmptyConcat(p[1..], q);
    }
  }

  lemma {:induction false} PartsConcat(p: seq<string>, q: seq<string>)
    ensures
      var x, y := ParseParts(p), ParseParts(q);
      ParseParts(p + q) == if x.Err? then x else if y.Err? then y else Ok(x.value + y.value)
  {
    if q == [] {
      assert p + q == p;
      if ParseParts(p).Ok? { assert ParseParts(p).value + [] == ParseParts(p).value; }
    } else {
      var init, last := q[..|q| - 1], q[|q| - 1];
      assert (p + q)[..|p + q| - 1] == p + init;
      PartsConcat(p, init);
      if ParseParts(p).Ok? && ParseParts(init).Ok? && ParsePart(last).Ok? {
        var x, y, r := ParseParts(p).value, ParseParts(init).value, ParsePart(last).value;
        assert (x + y) + [r] == x + (y + [r]);
      }
    }
  }

  /** A comma joins two texts: the first error of the two, or one list after the other. Together with
      the shapes of a part this fixes what every text is read as. */
  lemma CommaReads(a: string, b: string)
    ensures Parse(a + "," + b) ==
            if Parse(a).Err? then Parse(a) else if Parse(b).Err? then Parse(b)
            else Ok(Parse(a).value + Parse(b).value)
  {
    SplitConcat(a, b);
    NonEmptyConcat(Split(a), Split(b));
    PartsConcat(Parts(a), Parts(b));
    if Parse(a).Ok? && Parse(b).Ok? {
      ExpandConcat(ParseParts(Parts(a)).value, ParseParts(Parts(b)).value);
    }
  }
}
