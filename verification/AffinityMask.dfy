/** The IRQ affinity mask: from the kernel's CPU lists to comma-grouped hex, and back. */
module AffinityMask {
  import opened Arithmetic
  import opened Basics
  import opened CpuText
  import opened CpuList
  import opened CpuListTheorems

  // ----- bits -----

  predicate Bit(m: nat, c: nat) {
    if c == 0 then m % 2 == 1 else Bit(m / 2, c - 1)
  }

  /** Bitwise or. */
  function BitOr(a: nat, b: nat): nat
    decreases a + b
  {
    if a == 0 then b
    else if b == 0 then a
    else 2 * BitOr(a / 2, b / 2) + (if a % 2 == 1 || b % 2 == 1 then 1 else 0)
  }

  lemma {:induction false} ZeroHasNoBits(c: nat)
    ensures !Bit(0, c)
  {
    if c > 0 { ZeroHasNoBits(c - 1); }
  }

  lemma {:induction false} BitsOfOr(a: nat, b: nat, c: nat)
    ensures Bit(BitOr(a, b), c) <==> Bit(a, c) || Bit(b, c)
    decreases c
  {
    if a == 0 || b == 0 {
      ZeroHasNoBits(c);
    } else if c == 0 {
      HalvesOf(BitOr(a / 2, b / 2), a % 2 == 1 || b % 2 == 1);
    } else {
      HalvesOf(BitOr(a / 2, b / 2), a % 2 == 1 || b % 2 == 1);
      BitsOfOr(a / 2, b / 2, c - 1);
    }
  }

  lemma HalvesOf(half: nat, odd: bool)
    ensures (2 * half + (if odd then 1 else 0)) / 2 == half
    ensures (2 * half + (if odd then 1 else 0)) % 2 == 1 <==> odd
  {
  }

  lemma {:induction false} BitsOfPower(k: nat, c: nat)
    ensures Bit(PowerOfTwo(k), c) <==> c == k
  {
    if k == 0 {
      if c > 0 { ZeroHasNoBits(c - 1); }
    } else if c > 0 {
      BitsOfPower(k - 1, c - 1);
    }
  }

  /** Numbers with the same bits are the same number, so the bits are all there is to a mask. */
  lemma {:induction false} BitsDetermine(a: nat, b: nat)
    requires forall c: nat :: Bit(a, c) <==> Bit(b, c)
    ensures a == b
    decreases a + b
  {
    assert a % 2 == b % 2 by { assert Bit(a, 0) <==> Bit(b, 0); }
    if a + b > 0 {
      forall c: nat
        ensures Bit(a / 2, c) <==> Bit(b / 2, c)
      {
        assert Bit(a, c + 1) <==> Bit(b, c + 1);
      }
      BitsDetermine(a / 2, b / 2);
    }
  }

  ghost predicate IsMaskOf(m: nat, cpus: set<nat>) {
    forall c: nat :: Bit(m, c) <==> c in cpus
  }

  /** A set of CPUs has one mask. */
  lemma MaskIsUnique(a: nat, b: nat, cpus: set<nat>)
    requires IsMaskOf(a, cpus) && IsMaskOf(b, cpus)
    ensures a == b
  {
    BitsDetermine(a, b);
  }

  /** The loop over the allowed CPUs, in whatever order the set yields them. */
  method BuildMask(allowed: set<nat>) returns (m: nat)
    ensures IsMaskOf(m, allowed)
    ensures forall m': nat :: IsMaskOf(m', allowed) ==> m' == m
  {
    m := 0;
    var rest := allowed;
    forall c: nat ensures !Bit(0, c) { ZeroHasNoBits(c); }
    while rest != {}
      invariant rest <= allowed
      invariant forall c: nat :: Bit(m, c) <==> c in allowed - rest
    {
      var k :| k in rest;
      forall c: nat
        ensures Bit(BitOr(m, PowerOfTwo(k)), c) <==> c in allowed - (rest - {k})
      {
        BitsOfOr(m, PowerOfTwo(k), c);
        BitsOfPower(k, c);
      }
      m := BitOr(m, PowerOfTwo(k));
      rest := rest - {k};
    }
    assert IsMaskOf(m, allowed);
    forall m': nat | IsMaskOf(m', allowed)
      ensures m' == m
    {
      MaskIsUnique(m', m, allowed);
    }
  }

  // ----- hexadecimal groups -----

  /** The digits the script prints; the kernel also takes capitals. */
  predicate IsLowerHex(c: char) {
    '0' <= c <= '9' || 'a' <= c <= 'f'
  }

  predicate IsHex(c: char) {
    IsLowerHex(c) || 'A' <= c <= 'F'
  }

  ghost predicate AllHex(s: string) {
    forall i :: 0 <= i < |s| ==> IsHex(s[i])
  }

  ghost predicate AllLowerHex(s: string) {
    forall i :: 0 <= i < |s| ==> IsLowerHex(s[i])
  }

  function HexChar(d: nat): (c: char)
    requires d < 16
    ensures IsLowerHex(c) && HexDigit(c) == d
    ensures c == '0' <==> d == 0
  {
    if d < 10 then '0' + d as char else 'a' + (d - 10) as char
  }

  function HexDigit(c: char): (d: nat)
    requires IsHex(c)
    ensures d < 16
  {
    if c <= '9' then c as nat - '0' as nat
    else if 'a' <= c then c as nat - 'a' as nat + 10
    else c as nat - 'A' as nat + 10
  }

  function Hex(m: nat): (s: string)
    ensures s != "" && AllLowerHex(s)
    ensures s[0] == '0' ==> m == 0
    ensures |s| > 1 ==> m > 0
  {
    if m < 16 then [HexChar(m)] else Hex(m / 16) + [HexChar(m % 16)]
  }

  ghost function HexValue(s: string): nat
    requires AllHex(s)
  {
    if s == [] then 0 else HexValue(s[..|s| - 1]) * 16 + HexDigit(s[|s| - 1])
  }

  function Zeros(k: nat): (s: string)
    ensures |s| == k && AllLowerHex(s)
  {
    if k == 0 then "" else Zeros(k - 1) + "0"
  }

  /** Left-padded with zeros to a multiple of eight digits. */
  function PaddedHex(m: nat): (s: string)
    ensures |s| % 8 == 0 && s != "" && AllLowerHex(s)
    ensures |s| > 8 ==> exists i :: 0 <= i < 8 && s[i] != '0'
  {
    var h := Hex(m);
    var k := (-|h|) % 8;
    assert k < 8 && (Zeros(k) + h)[k] == h[0];
    Zeros(k) + h
  }

  function Groups(s: string): (g: seq<string>)
    requires |s| % 8 == 0
    ensures |g| == |s| / 8
    ensures forall i :: 0 <= i < |g| ==> |g[i]| == 8
  {
    seq(|s| / 8, i requires 0 <= i < |s| / 8 => Eight(s, i))
  }

  function Eight(s: string, i: nat): (g: string)
    requires 8 * i + 8 <= |s|
    ensures |g| == 8
  {
    s[8 * i..8 * i + 8]
  }

  function MaskText(m: nat): string {
    Join(Groups(PaddedHex(m)))
  }

  /** How the kernel reads a mask: groups of at most eight hex digits, 32 bits each, the most significant
      first. Anything else it refuses. */
  ghost predicate KernelGroup(g: string) {
    0 < |g| <= 8 && AllHex(g)
  }

  /** What is read so far moves up by 32 bits. */
  ghost function Shifted(v: nat, g: string): nat
    requires AllHex(g)
  {
    v * 0x1_0000_0000 + HexValue(g)
  }

  ghost function ReadGroups(groups: seq<string>): Option<nat> {
    if groups == [] then Some(0)
    else
      match ReadGroups(groups[..|groups| - 1])
      case None => None
      case Some(v) =>
        var g := groups[|groups| - 1];
        if KernelGroup(g) then Some(Shifted(v, g)) else None
  }

  ghost function ReadMask(text: string): Option<nat> {
    ReadGroups(Split(text))
  }

  /** How a mask has to be written: groups of eight small hex digits with a comma between them, the first not
      all zeros unless it is alone. */
  ghost predicate KernelText(text: string) {
    && |text| % 9 == 8
    && (forall i :: 0 <= i < |text| ==>
          if i % 9 == 8 then text[i] == ',' else '0' <= text[i] <= '9' || 'a' <= text[i] <= 'f')
    && (|text| > 8 ==> exists i :: 0 <= i < 8 && text[i] != '0')
  }

  lemma {:induction false} HexReads(m: nat)
    ensures HexValue(Hex(m)) == m
  {
    var s := Hex(m);
    if m < 16 {
      assert s[..0] == [];
      assert HexValue(s[..0]) == 0;
    } else {
      HexReads(m / 16);
      assert s[..|s| - 1] == Hex(m / 16);
    }
  }

  lemma {:induction false} ZerosReadZero(k: nat)
    ensures HexValue(Zeros(k)) == 0
  {
    if k > 0 {
      ZerosReadZero(k - 1);
      assert Zeros(k)[..k - 1] == Zeros(k - 1);
    }
  }

  function Sixteens(k: nat): nat {
    if k == 0 then 1 else Sixteens(k - 1) * 16
  }

  lemma ShiftStep(v: nat, p: nat, low: nat, d: nat)
    ensures (v * p + low) * 16 + d == v * (p * 16) + (low * 16 + d)
  {
    assert (v * p) * 16 == v * (p * 16);
  }

  lemma {:induction false} HexConcat(a: string, b: string)
    requires AllHex(a) && AllHex(b)
    ensures HexValue(a + b) == HexValue(a) * Sixteens(|b|) + HexValue(b)
  {
    if b == [] {
      assert a + b == a;
    } else {
      var init, d := b[..|b| - 1], HexDigit(b[|b| - 1]);
      HexConcat(a, init);
      assert (a + b)[..|a + b| - 1] == a + init;
      ShiftStep(HexValue(a), Sixteens(|init|), HexValue(init), d);
    }
  }

  lemma EightDigits(a: string, b: string)
    requires |b| == 8 && AllHex(a) && AllHex(b)
    ensures HexValue(a + b) == Shifted(HexValue(a), b)
  {
    HexConcat(a, b);
    assert Sixteens(4) == 0x1_0000;
    assert Sixteens(8) == 0x1_0000_0000;
  }

  lemma EightOfPrefix(s: string, n: nat, i: nat)
    requires n <= |s| && 8 * i + 8 <= n
    ensures Eight(s[..n], i) == Eight(s, i)
  {
  }

  lemma LastGroup(s: string)
    requires |s| % 8 == 0 && s != []
    ensures Groups(s) == Groups(s[..|s| - 8]) + [s[|s| - 8..]]
  {
    var n := |s| - 8;
    var a, b := Groups(s), Groups(s[..n]);
    assert |a| == |b| + 1;
    forall i | 0 <= i < |b|
      ensures a[i] == b[i]
    {
      EightOfPrefix(s, n, i);
    }
    assert a[|b|] == Eight(s, |b|);
    assert Eight(s, |b|) == s[n..];
  }

  lemma ReadGroupsAppend(groups: seq<string>, g: string)
    requires ReadGroups(groups).Some? && KernelGroup(g)
    ensures ReadGroups(groups + [g]) == Some(Shifted(ReadGroups(groups).value, g))
  {
    var all := groups + [g];
    assert all[..|all| - 1] == groups && all[|all| - 1] == g;
  }

  lemma {:induction false} GroupsRead(s: string)
    requires |s| % 8 == 0 && AllHex(s)
    ensures ReadGroups(Groups(s)) == Some(HexValue(s))
    decreases |s|
  {
    if s != [] {
      var a, b := s[..|s| - 8], s[|s| - 8..];
      GroupsRead(a);
      LastGroup(s);
      ReadGroupsAppend(Groups(a), b);
      EightDigits(a, b);
      assert a + b == s;
    }
  }

  lemma TimesZero(a: nat, b: nat)
    ensures a == 0 ==> a * b == 0
  {
  }

  lemma PaddingReads(m: nat)
    ensures HexValue(PaddedHex(m)) == m
  {
    var h := Hex(m);
    var k := (-|h|) % 8;
    HexReads(m);
    ZerosReadZero(k);
    HexConcat(Zeros(k), h);
    TimesZero(HexValue(Zeros(k)), Sixteens(|h|));
  }

  /** The digits of `s`, eight at a time, with commas between. */
  ghost predicate Spread(text: string, s: string) {
    && |text| == |s| / 8 * 9 - 1
    && forall i :: 0 <= i < |text| ==> text[i] == if i % 9 == 8 then ',' else s[i / 9 * 8 + i % 9]
  }

  lemma SpreadPlaces(k: nat, i: nat)
    requires i < 9 * k - 1 && i % 9 != 8
    ensures i / 9 * 8 + i % 9 < 8 * k
  {
  }

  lemma SpreadOne(s: string)
    requires |s| == 8
    ensures Spread(s, s)
  {
  }

  lemma SpreadMore(text: string, s: string, g: string)
    requires |s| > 0 && |s| % 8 == 0 && |g| == 8 && Spread(text, s)
    ensures Spread(text + "," + g, s + g)
  {
    var longer, k := text + "," + g, |s| / 8;
    forall i | 0 <= i < |longer|
      ensures longer[i] == if i % 9 == 8 then ',' else (s + g)[i / 9 * 8 + i % 9]
    {
      if i < |text| {
        if i % 9 != 8 { SpreadPlaces(k, i); }
      } else if i > |text| {
        var d := i - 9 * k;
        assert i / 9 == k && i % 9 == d;
        assert longer[i] == g[d];
      }
    }
  }

  lemma {:induction false} JoinSpreads(s: string)
    requires |s| % 8 == 0 && s != ""
    ensures Spread(Join(Groups(s)), s)
    decreases |s|
  {
    var n := |s| - 8;
    LastGroup(s);
    if n == 0 {
      assert Groups(s) == [s];
      SpreadOne(s);
    } else {
      JoinSpreads(s[..n]);
      JoinAppend(Groups(s[..n]), s[n..]);
      SpreadMore(Join(Groups(s[..n])), s[..n], s[n..]);
      assert s[..n] + s[n..] == s;
    }
  }

  /** The emitted text is written the way the kernel takes it. */
  lemma MaskIsWritten(m: nat)
    ensures KernelText(MaskText(m))
  {
    var s := PaddedHex(m);
    var text := MaskText(m);
    JoinSpreads(s);
    forall i | 0 <= i < |text|
      ensures if i % 9 == 8 then text[i] == ',' else IsLowerHex(text[i])
    {
      if i % 9 != 8 { SpreadPlaces(|s| / 8, i); }
    }
    if |text| > 8 {
      var i :| 0 <= i < 8 && s[i] != '0';
      assert text[i] == s[i];
    }
  }

  /** Reading the emitted text gives back the mask, whatever its size. */
  lemma MaskReadsBack(m: nat)
    ensures ReadMask(MaskText(m)) == Some(m)
  {
    var s := PaddedHex(m);
    PaddingReads(m);
    GroupsRead(s);
    forall i | 0 <= i < |Groups(s)|
      ensures ',' !in Groups(s)[i]
    {
      assert Groups(s)[i] == Eight(s, i);
    }
    SplitOfJoin(Groups(s));
  }

  // ----- the CPU lists -----

  /** Decimal digits of any length; errors are one kind, as they all end the script. */
  function PyDigits(s: string): Result<nat> {
    if s == [] then Ok(0)
    else
      match PyDigits(s[..|s| - 1])
      case Err(e) => Err(e)
      case Ok(v) =>
        if IsDigit(s[|s| - 1]) then Ok(v * 10 + DigitValue(s[|s| - 1])) else Err(InvalidDigit)
  }

  function PyInt(s: string): Result<nat> {
    var t := Trim(s);
    if t == "" || t == "+" then Err(Empty)
    else if t[0] == '+' then PyDigits(t[1..])
    else PyDigits(t)
  }

  function Span(lo: nat, hi: int): (r: set<nat>)
    ensures forall x: nat :: x in r <==> lo <= x <= hi
    decreases hi
  {
    if hi < lo then {} else Span(lo, hi - 1) + {hi}
  }

  /** One part: a number, or two around a single dash; a range that runs backwards is empty. */
  function PyPart(part: string): Result<set<nat>> {
    var k := Find(part, '-');
    if k == |part| then
      match PyInt(part)
      case Err(e) => Err(e)
      case Ok(n) => Ok({n})
    else if '-' in part[k + 1..] then Err(InvalidDigit)
    else
      match PyInt(part[..k])
      case Err(e) => Err(e)
      case Ok(lo) =>
        match PyInt(part[k + 1..])
        case Err(e) => Err(e)
        case Ok(hi) => Ok(Span(lo, hi))
  }

  function PyParts(parts: seq<string>): Result<set<nat>> {
    if parts == [] then Ok({})
    else
      match PyParts(parts[..|parts| - 1])
      case Err(e) => Err(e)
      case Ok(out) =>
        var part := Trim(parts[|parts| - 1]);
        if part == "" then Ok(out)
        else
          match PyPart(part)
          case Err(e) => Err(e)
          case Ok(more) => Ok(out + more)
  }

  function PyExpand(s: string): Result<set<nat>> {
    if s == "" then Ok({}) else PyParts(Split(s))
  }

  lemma {:induction false} PyReadsDecimal(n: nat)
    ensures PyDigits(Decimal(n)) == Ok(n)
    ensures PyInt(Decimal(n)) == Ok(n)
  {
    var s := Decimal(n);
    if n < 10 {
      assert s[..0] == [];
      assert PyDigits(s[..0]) == Ok(0);
    } else {
      PyReadsDecimal(n / 10);
      assert s[..|s| - 1] == Decimal(n / 10);
    }
    DecimalIsPlain(n);
    assert IsDigit(s[0]);
  }

  lemma PyReadsRange(range: Range)
    ensures PyPart(RangeText(range)) == Ok(Span(range.lo, range.hi))
  {
    var text, a, b := RangeText(range), Decimal(range.lo), Decimal(range.hi);
    DecimalIsPlain(range.lo);
    DecimalIsPlain(range.hi);
    PyReadsDecimal(range.lo);
    PyReadsDecimal(range.hi);
    if range.lo == range.hi {
      assert text[..|text|] == a;
      FindIs(text, '-', |text|);
      assert Span(range.lo, range.hi) == {range.lo};
    } else {
      assert text[..|a|] == a && text[|a|] == '-' && text[|a| + 1..] == b;
      FindIs(text, '-', |a|);
    }
  }

  lemma {:induction false} PyReadsTexts(ranges: seq<Range>)
    ensures PyParts(Texts(ranges)).Ok?
    ensures forall x: nat :: x in PyParts(Texts(ranges)).value <==> Covers(ranges, x)
  {
    if ranges != [] {
      var init, last := ranges[..|ranges| - 1], ranges[|ranges| - 1];
      assert Texts(ranges)[..|ranges| - 1] == Texts(init);
      assert Texts(ranges)[|ranges| - 1] == RangeText(last);
      PyReadsTexts(init);
      RangeTextIsPart(last);
      PyReadsRange(last);
      assert PyParts(Texts(ranges)) == Ok(PyParts(Texts(init)).value + Span(last.lo, last.hi));
      forall x: nat
        ensures Covers(ranges, x) <==> Covers(init, x) || last.lo <= x <= last.hi
      {
        CoversLast(ranges, x);
      }
    }
  }

  /** On a list written the canonical way, as the kernel does, the script's reader finds exactly the
      CPUs of the list. */
  lemma {:induction false} CanonicalListExpands(cpus: seq<nat>)
    ensures PyExpand(Format(cpus)).Ok?
    ensures forall x: nat :: x in PyExpand(Format(cpus)).value <==> x in cpus
  {
    var runs := Runs(Normal(cpus));
    ExpandOfRuns(Normal(cpus));
    forall x: nat
      ensures Covers(runs, x) <==> x in cpus
    {
      ExpandCovers(runs, x);
    }
    if runs != [] {
      JoinedTexts(runs);
      PyReadsTexts(runs);
    }
  }

  lemma {:induction false} FirstErrorStays(parts: seq<string>, k: nat)
    requires k <= |parts| && PyParts(parts[..k]).Err?
    ensures PyParts(parts) == PyParts(parts[..k])
    decreases |parts| - k
  {
    if k < |parts| {
      assert parts[..k + 1][..k] == parts[..k];
      FirstErrorStays(parts, k + 1);
    } else {
      assert parts[..k] == parts;
    }
  }

  method ExpandCpus(s: string) returns (r: Result<set<nat>>)
    ensures r == PyExpand(s)
  {
    var out: set<nat> := {};
    if s == "" {
      return Ok(out);
    }
    var parts := Split(s);
    for i := 0 to |parts|
      invariant PyParts(parts[..i]) == Ok(out)
    {
      assert parts[..i + 1][..i] == parts[..i];
      var part := Trim(parts[i]);
      if part == "" {
        continue;
      }
      var more := PyPart(part);
      if more.Err? {
        FirstErrorStays(parts, i + 1);
        return Err(more.error);
      }
      out := out + more.value;
    }
    assert parts[..|parts|] == parts;
    r := Ok(out);
  }

  /** The script: the emitted text is well written, and the kernel reads it as the one number whose bit c is
      set exactly when CPU c is online and not isolated, for any two lists and any number of CPUs. */
  method EmitMask(online: string, isolated: string) returns (text: Result<string>)
    ensures text.Ok? <==> PyExpand(online).Ok? && PyExpand(isolated).Ok?
    ensures text.Ok? ==> KernelText(text.value) && ReadMask(text.value).Some?
    ensures text.Ok? ==> forall c: nat ::
              Bit(ReadMask(text.value).value, c) <==> c in PyExpand(online).value && c !in PyExpand(isolated).value
    ensures text.Ok? ==> forall m: nat ::
              IsMaskOf(m, PyExpand(online).value - PyExpand(isolated).value) ==> Some(m) == ReadMask(text.value)
  {
    var onlineCpus := ExpandCpus(online);
    if onlineCpus.Err? {
      return Err(onlineCpus.error);
    }
    var isolatedCpus := ExpandCpus(isolated);
    if isolatedCpus.Err? {
      return Err(isolatedCpus.error);
    }
    var m := BuildMask(onlineCpus.value - isolatedCpus.value);
    MaskReadsBack(m);
    MaskIsWritten(m);
    text := Ok(MaskText(m));
  }
}
