/** What the script's own list reader accepts, in terms of characters alone. */
module AffinityLists {
  import opened CpuText
  import opened CpuGrammar
  import opened AffinityMask

  lemma {:induction false} PyDigitsRead(s: string)
    ensures PyDigits(s).Ok? <==> Digits(s)
    ensures Digits(s) ==> PyDigits(s) == Ok(ValueOf(s))
  {
    if s != "" {
      var n := |s| - 1;
      PyDigitsRead(s[..n]);
      assert s == s[..n] + [s[n]];
    }
  }

  lemma PySpelledReads(s: string, n: nat)
    requires Bare(s)
    ensures PyInt(s) == Ok(n) <==> Spells(s, n)
  {
    TrimsAfter(s, "");
    assert s + "" == s;
    if s != "" {
      PyDigitsRead(s);
      PyDigitsRead(s[1..]);
    }
  }

  lemma PyIntTrims(s: string)
    ensures PyInt(s) == PyInt(Trim(s)) && Bare(Trim(s))
  {
    var w1, w2 := TrimSplits(s);
    TrimsAfter(Trim(s), "");
    assert Trim(s) + "" == Trim(s);
  }

  /** A range that runs backwards is empty here; the other reader refuses it. */
  ghost predicate PyHolds(shape: Shape, x: nat) {
    match shape
    case Nothing(_) => false
    case Single(_, _, _, n) => x == n
    case Dashed(_, _, _, _, _, _, lo, hi) => lo <= x <= hi
  }

  lemma PyOnePart(part: string)
    requires ',' !in part
    ensures PyExpand(part) == if Trim(part) == "" then Ok({}) else PyPart(Trim(part))
  {
    SplitPlain(part);
    var parts := [part];
    assert parts[..|parts| - 1] == [] && parts[|parts| - 1] == part;
    assert PyParts([]) == Ok({});
    if Trim(part) != "" && PyPart(Trim(part)).Ok? {
      assert {} + PyPart(Trim(part)).value == PyPart(Trim(part)).value;
    }
  }

  lemma PyDashed(l: string, r: string, t: string, lo: nat, hi: nat)
    requires '-' !in l && '-' !in r && t == l + "-" + r
    requires PyInt(l) == Ok(lo) && PyInt(r) == Ok(hi)
    ensures PyPart(t) == Ok(Span(lo, hi))
  {
    DashCuts(l, r, t);
  }

  lemma PyReadsAfter(w: string, a: string, n: nat)
    requires Blank(w) && Spells(a, n)
    ensures PyInt(w + a) == Ok(n)
  {
    SpelledIsPlain(a, n);
    TrimsBefore(w, a);
    PyIntTrims(w + a);
    PySpelledReads(a, n);
  }

  lemma PyReadsBefore(a: string, w: string, n: nat)
    requires Blank(w) && Spells(a, n)
    ensures PyInt(a + w) == Ok(n)
  {
    SpelledIsPlain(a, n);
    TrimsAfter(a, w);
    PyIntTrims(a + w);
    PySpelledReads(a, n);
  }

  lemma PySingleReads(a: string, n: nat)
    requires Spells(a, n)
    ensures PyPart(a) == Ok({n})
  {
    SpelledIsPlain(a, n);
    PySpelledReads(a, n);
    assert a[..|a|] == a;
    FindIs(a, '-', |a|);
  }

  lemma PyDashedReads(a: string, w2: string, w3: string, b: string, lo: nat, hi: nat)
    requires Blank(w2) && Blank(w3) && Spells(a, lo) && Spells(b, hi)
    ensures PyPart((a + w2) + "-" + (w3 + b)) == Ok(Span(lo, hi))
  {
    PyReadsBefore(a, w2, lo);
    PyReadsAfter(w3, b, hi);
    SpelledIsPlain(a, lo);
    SpelledIsPlain(b, hi);
    BlankIsPlain(w2);
    BlankIsPlain(w3);
    PyDashed(a + w2, w3 + b, (a + w2) + "-" + (w3 + b), lo, hi);
  }

  /** Every part written properly is read as the CPUs it names, of any size. */
  lemma PyShapeReads(shape: Shape)
    requires Proper(shape)
    ensures PyExpand(Written(shape)).Ok?
    ensures forall x: nat :: x in PyExpand(Written(shape)).value <==> PyHolds(shape, x)
  {
    ShapeIsOnePart(shape);
    ShapeTrims(shape);
    PyOnePart(Written(shape));
    match shape
    case Nothing(_) =>
    case Single(_, a, _, n) => PySingleReads(a, n);
    case Dashed(_, a, w2, w3, b, _, lo, hi) => PyDashedReads(a, w2, w3, b, lo, hi);
  }

  lemma PyAcceptedSpells(s: string) returns (n: nat)
    requires PyInt(s).Ok?
    ensures n == PyInt(s).value && Spells(Trim(s), n)
  {
    n := PyInt(s).value;
    PyIntTrims(s);
    PySpelledReads(Trim(s), n);
  }

  /** And no other part is accepted: a second dash, a stray character or a missing number ends the script. */
  lemma PyAcceptedHasShape(part: string) returns (shape: Shape)
    requires ',' !in part && PyExpand(part).Ok?
    ensures Proper(shape) && Written(shape) == part
  {
    PyOnePart(part);
    var t := Trim(part);
    var w1, w2 := TrimSplits(part);
    var k := Find(t, '-');
    if t == "" {
      shape := Nothing(part);
      assert part == w1 + w2;
    } else if k == |t| {
      var n := PyAcceptedSpells(t);
      PyIntTrims(t);
      TrimsAfter(t, "");
      assert t + "" == t;
      shape := Single(w1, t, w2, n);
    } else {
      shape := PyDashedShape(part, w1, t, w2, k);
    }
  }

  lemma PyDashedShape(part: string, w1: string, t: string, w2: string, k: nat) returns (shape: Shape)
    requires part == w1 + t + w2 && Blank(w1) && Blank(w2)
    requires k == Find(t, '-') < |t| && PyPart(t).Ok?
    ensures Proper(shape) && Written(shape) == part
  {
    var l, r := t[..k], t[k + 1..];
    var lo := PyAcceptedSpells(l);
    var hi := PyAcceptedSpells(r);
    assert t == l + "-" + r;
    shape := Assembled(part, w1, l, r, w2, lo, hi);
  }

  lemma {:induction false} PyPartsConcat(p: seq<string>, q: seq<string>)
    ensures
      var x, y := PyParts(p), PyParts(q);
      PyParts(p + q) == if x.Err? then x else if y.Err? then y else Ok(x.value + y.value)
  {
    if q == [] {
      assert p + q == p;
      if PyParts(p).Ok? { assert PyParts(p).value + {} == PyParts(p).value; }
    } else {
      var init, last := q[..|q| - 1], Trim(q[|q| - 1]);
      assert (p + q)[..|p + q| - 1] == p + init;
      PyPartsConcat(p, init);
      if PyParts(p).Ok? && PyParts(init).Ok? && last != "" && PyPart(last).Ok? {
        var x, y, z := PyParts(p).value, PyParts(init).value, PyPart(last).value;
        assert (x + y) + z == x + (y + z);
      }
    }
  }

  lemma PyEmptyIsBlank(s: string)
    ensures PyExpand(s) == PyParts(Split(s))
  {
    if s == "" {
      PyOnePart(" ");
      var parts := Split("");
      assert parts == [""] && parts[..|parts| - 1] == [];
      assert PyParts([]) == Ok({});
      assert Trim("") == "";
    }
  }

  /** A comma joins two texts: the first error of the two, or the CPUs of both. */
  lemma PyCommaReads(a: string, b: string)
    ensures PyExpand(a + "," + b) ==
            if PyExpand(a).Err? then PyExpand(a) else if PyExpand(b).Err? then PyExpand(b)
            else Ok(PyExpand(a).value + PyExpand(b).value)
  {
    PyEmptyIsBlank(a);
    PyEmptyIsBlank(b);
    PyEmptyIsBlank(a + "," + b);
    SplitConcat(a, b);
    PyPartsConcat(Split(a), Split(b));
  }
}
