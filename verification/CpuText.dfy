/** The text side of CPU lists: decimal numbers, comma parts, trimming. */
module CpuText {

  const USIZE: nat := 0x1_0000_0000_0000_0000

  datatype ParseError = Empty | InvalidDigit | PosOverflow | InvalidRange(lo: nat, hi: nat)

  datatype Result<+T> = Ok(value: T) | Err(error: ParseError)

  predicate IsDigit(c: char) {
    '0' <= c <= '9'
  }

  predicate IsSpace(c: char) {
    || '\t' <= c <= '\r' || c == ' ' || c == '\U{85}' || c == '\U{A0}' || c == '\U{1680}'
    || '\U{2000}' <= c <= '\U{200A}' || c == '\U{2028}' || c == '\U{2029}' || c == '\U{202F}'
    || c == '\U{205F}' || c == '\U{3000}'
  }

  /** The first place of `c`, or the length. */
  function Find(s: string, c: char): (k: nat)
    ensures k <= |s|
    ensures c !in s[..k]
    ensures k < |s| ==> s[k] == c
  {
    if s == [] || s[0] == c then 0
    else
      var k := Find(s[1..], c);
      assert s[..k + 1] == [s[0]] + s[1..][..k];
      k + 1
  }

  lemma FindIs(s: string, c: char, k: nat)
    requires k <= |s| && c !in s[..k] && (k < |s| ==> s[k] == c)
    ensures Find(s, c) == k
  {
  }

  function TrimStart(s: string): string {
    if s != [] && IsSpace(s[0]) then TrimStart(s[1..]) else s
  }

  function TrimEnd(s: string): string {
    if s != [] && IsSpace(s[|s| - 1]) then TrimEnd(s[..|s| - 1]) else s
  }

  function Trim(s: string): string {
    TrimEnd(TrimStart(s))
  }

  function Split(s: string): (parts: seq<string>)
    ensures parts != []
    decreases |s|
  {
    var k := Find(s, ',');
    if k == |s| then [s] else [s[..k]] + Split(s[k + 1..])
  }

  function Join(parts: seq<string>): string {
    if parts == [] then ""
    else if |parts| == 1 then parts[0]
    else parts[0] + "," + Join(parts[1..])
  }

  lemma SplitPlain(part: string)
    requires ',' !in part
    ensures Split(part) == [part]
  {
    FindIs(part, ',', |part|);
    assert part[..|part|] == part;
  }

  lemma SplitPrepend(part: string, rest: string, text: string)
    requires ',' !in part && text == part + "," + rest
    ensures Split(text) == [part] + Split(rest)
  {
    var k := |part|;
    assert text[..k] == part && text[k] == ',' && text[k + 1..] == rest;
    FindIs(text, ',', k);
  }

  lemma SplitOfJoinStep(first: string, rest: seq<string>)
    requires ',' !in first && rest != [] && Split(Join(rest)) == rest
    ensures Split(Join([first] + rest)) == [first] + rest
  {
    assert ([first] + rest)[1..] == rest;
    SplitPrepend(first, Join(rest), Join([first] + rest));
  }

  lemma {:induction false} SplitOfJoin(parts: seq<string>)
    requires parts != [] && forall i :: 0 <= i < |parts| ==> ',' !in parts[i]
    ensures Split(Join(parts)) == parts
  {
    assert parts == [parts[0]] + parts[1..];
    if |parts| == 1 {
      SplitPlain(parts[0]);
    } else {
      SplitOfJoin(parts[1..]);
      SplitOfJoinStep(parts[0], parts[1..]);
    }
  }

  lemma {:induction false} JoinAppend(parts: seq<string>, part: string)
    requires parts != []
    ensures Join(parts + [part]) == Join(parts) + "," + part
  {
    if |parts| == 1 {
      assert (parts + [part])[1..] == [part];
    } else {
      assert (parts + [part])[1..] == parts[1..] + [part];
      JoinAppend(parts[1..], part);
    }
  }

  // ----- decimal numbers -----

  function DigitChar(d: nat): (c: char)
    requires d < 10
    ensures IsDigit(c) && DigitValue(c) == d
  {
    '0' + d as char
  }

  function DigitValue(c: char): (d: nat)
    requires IsDigit(c)
    ensures d < 10
  {
    c as nat - '0' as nat
  }

  function Decimal(n: nat): (s: string)
    ensures s != [] && forall i :: 0 <= i < |s| ==> IsDigit(s[i])
  {
    if n < 10 then [DigitChar(n)] else Decimal(n / 10) + [DigitChar(n % 10)]
  }

  /** Digits read left to right, stopping at the first that is not one or does not fit. */
  function ParseDigits(s: string): Result<nat> {
    if s == [] then Ok(0)
    else
      match ParseDigits(s[..|s| - 1])
      case Err(e) => Err(e)
      case Ok(v) =>
        var c := s[|s| - 1];
        if !IsDigit(c) then Err(InvalidDigit)
        else if v * 10 + DigitValue(c) >= USIZE then Err(PosOverflow)
        else Ok(v * 10 + DigitValue(c))
  }

  /** A machine-word number: one leading plus is allowed, an empty text is not. */
  function ParseUsize(s: string): Result<nat> {
    if s == [] then Err(Empty)
    else if s == "+" then Err(InvalidDigit)
    else if s[0] == '+' then ParseDigits(s[1..])
    else ParseDigits(s)
  }

  lemma {:induction false} ParseOfDecimal(n: nat)
    requires n < USIZE
    ensures ParseDigits(Decimal(n)) == Ok(n)
    ensures ParseUsize(Decimal(n)) == Ok(n)
  {
    var s := Decimal(n);
    if n < 10 {
      assert s[..0] == [];
      assert ParseDigits(s[..0]) == Ok(0);
    } else {
      ParseOfDecimal(n / 10);
      assert s[..|s| - 1] == Decimal(n / 10);
    }
    assert s[0] != '+' by { assert IsDigit(s[0]); }
  }

  lemma {:induction false} ParsedFits(s: string)
    ensures ParseDigits(s).Ok? ==> ParseDigits(s).value < USIZE
  {
  }

  lemma TrimKeeps(s: string)
    requires forall i :: 0 <= i < |s| ==> !IsSpace(s[i])
    ensures Trim(s) == s
  {
  }
}
