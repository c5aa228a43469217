/** The QEMU version probe: the dotted version from `qemu-system-x86_64 -version`
    as a tuple of naturals, and Python's ordering of such tuples. */
module Version {
  import opened Wrappers
  import Decimal

  /** A version tuple such as (5, 0, 1). */
  type Version = seq<nat>

  /** Python's `<` on tuples of integers: the first differing position decides, and a
      proper prefix sorts before the longer tuple. */
  predicate Less(a: Version, b: Version)
    decreases |a|
  {
    if |b| == 0 then false
    else if |a| == 0 then true
    else a[0] < b[0] || (a[0] == b[0] && Less(a[1..], b[1..]))
  }

  /** The textbook definition of the lexicographic order, stated without recursion. */
  ghost predicate LexLess(a: Version, b: Version) {
    || (exists k :: 0 <= k < |a| && k < |b| && a[..k] == b[..k] && a[k] < b[k])
    || (|a| < |b| && a == b[..|a|])
  }

  /** The recursive comparison is exactly the lexicographic order. */
  lemma {:induction false} LessIsLexicographic(a: Version, b: Version)
    ensures Less(a, b) <==> LexLess(a, b)
    decreases |a|
  {
    if |b| == 0 {
    } else if |a| == 0 {
      assert a == b[..|a|];
    } else if a[0] < b[0] {
      assert a[..0] == b[..0];
    } else if a[0] > b[0] {
    } else {
      var a', b' := a[1..], b[1..];
      LessIsLexicographic(a', b');
      if LexLess(a, b) {
        if exists k :: 0 <= k < |a| && k < |b| && a[..k] == b[..k] && a[k] < b[k] {
          var k :| 0 <= k < |a| && k < |b| && a[..k] == b[..k] && a[k] < b[k];
          assert k > 0;
          assert a'[..k - 1] == a[..k][1..] && b'[..k - 1] == b[..k][1..];
          assert a'[k - 1] < b'[k - 1];
        } else {
          assert a' == b[..|a|][1..] == b'[..|a'|];
        }
      }
      if LexLess(a', b') {
        if exists k :: 0 <= k < |a'| && k < |b'| && a'[..k] == b'[..k] && a'[k] < b'[k] {
          var k :| 0 <= k < |a'| && k < |b'| && a'[..k] == b'[..k] && a'[k] < b'[k];
          assert a[..k + 1] == [a[0]] + a'[..k] && b[..k + 1] == [b[0]] + b'[..k];
          assert a[k + 1] < b[k + 1];
        } else {
          assert a == [a[0]] + a' && b[..|a|] == [b[0]] + b'[..|a'|];
        }
      }
    }
  }

  lemma {:induction false} LessIrreflexive(a: Version)
    ensures !Less(a, a)
    decreases |a|
  {
    if |a| > 0 { LessIrreflexive(a[1..]); }
  }

  lemma {:induction false} LessTransitive(a: Version, b: Version, c: Version)
    requires Less(a, b) && Less(b, c)
    ensures Less(a, c)
    decreases |a|
  {
    if |a| > 0 && a[0] == b[0] && b[0] == c[0] {
      LessTransitive(a[1..], b[1..], c[1..]);
    }
  }

  /** Any two distinct versions are ordered one way or the other. */
  lemma {:induction false} LessTotal(a: Version, b: Version)
    requires a != b
    ensures Less(a, b) || Less(b, a)
    decreases |a|
  {
    if |a| > 0 && |b| > 0 && a[0] == b[0] {
      assert a == [a[0]] + a[1..] && b == [b[0]] + b[1..];
      LessTotal(a[1..], b[1..]);
    }
  }

  // ---------------------------------------------------------------------------
  // Parsing `QEMU emulator version ([0-9]+(?:\.[0-9]+)*)` out of the version output.

  const Banner: string := "QEMU emulator version "

  predicate IsDigitChar(c: char) {
    Decimal.IsDigit(c as int)
  }

  predicate AllDigitChars(s: string) {
    forall i :: 0 <= i < |s| ==> IsDigitChar(s[i])
  }

  /** The character codes of a text. */
  function Codes(s: string): (r: seq<int>)
    ensures |r| == |s|
    ensures forall i :: 0 <= i < |s| ==> r[i] == s[i] as int
    ensures AllDigitChars(s) ==> Decimal.AllDigits(r)
  {
    seq(|s|, i requires 0 <= i < |s| => s[i] as int)
  }

  /** The text of a sequence of digit codes. */
  function Text(ds: seq<int>): (t: string)
    requires Decimal.AllDigits(ds)
    ensures Codes(t) == ds
  {
    var t := seq(|ds|, i requires 0 <= i < |ds| => ds[i] as char);
    assert Codes(t) == ds;
    t
  }

  /** The length of the longest run of digits at the start of `t` (the greedy `[0-9]+`). */
  function DigitRun(t: string): (n: nat)
    ensures n <= |t|
    ensures forall i :: 0 <= i < n ==> IsDigitChar(t[i])
    ensures n < |t| ==> !IsDigitChar(t[n])
  {
    if |t| > 0 && IsDigitChar(t[0]) then 1 + DigitRun(t[1..]) else 0
  }

  /** The dotted integers at the start of `t`, matched greedily: after each run of digits
      the match continues only over a `.` that is followed by another digit. */
  function Dotted(t: string): (v: Version)
    requires |t| > 0 && IsDigitChar(t[0])
    ensures |v| > 0
    decreases |t|
  {
    var n := DigitRun(t);
    var head := Decimal.Value(Codes(t[..n]));
    var rest := t[n..];
    if |rest| >= 2 && rest[0] == '.' && IsDigitChar(rest[1]) then [head] + Dotted(rest[1..])
    else [head]
  }

  /** The pattern matches at position `i`: the banner followed by at least one digit. */
  predicate MatchAt(s: string, i: nat) {
    i + |Banner| < |s| && s[i..i + |Banner|] == Banner && IsDigitChar(s[i + |Banner|])
  }

  function SearchFrom(s: string, i: nat): Option<Version>
    decreases |s| - i
  {
    if i + |Banner| >= |s| then None
    else if MatchAt(s, i) then Some(Dotted(s[i + |Banner|..]))
    else SearchFrom(s, i + 1)
  }

  /** `re.search` followed by `tuple(int(x) for x in ....split("."))`; None when the
      output holds no version. */
  function ParseVersion(output: string): Option<Version> {
    SearchFrom(output, 0)
  }

  /** The search fails exactly when the pattern matches nowhere, and otherwise reads the
      version at the leftmost match. */
  lemma ParseVersionIsLeftmostMatch(s: string)
    ensures ParseVersion(s).None? <==> forall i: nat :: !MatchAt(s, i)
    ensures ParseVersion(s).Some? ==>
      exists i: nat :: MatchAt(s, i) && (forall j: nat :: j < i ==> !MatchAt(s, j))
        && ParseVersion(s).value == Dotted(s[i + |Banner|..])
  {
    SearchFromIsLeftmostMatch(s, 0);
  }

  lemma {:induction false} SearchFromIsLeftmostMatch(s: string, i: nat)
    requires forall j: nat :: j < i ==> !MatchAt(s, j)
    ensures SearchFrom(s, i).None? <==> forall j: nat :: !MatchAt(s, j)
    ensures SearchFrom(s, i).Some? ==>
      exists k: nat :: MatchAt(s, k) && (forall j: nat :: j < k ==> !MatchAt(s, j))
        && SearchFrom(s, i).value == Dotted(s[k + |Banner|..])
    decreases |s| - i
  {
    if i + |Banner| >= |s| {
      forall j: nat ensures !MatchAt(s, j) {
        if j >= i { assert j + |Banner| >= |s|; }
      }
    } else if MatchAt(s, i) {
    } else {
      SearchFromIsLeftmostMatch(s, i + 1);
    }
  }

  // ---------------------------------------------------------------------------
  // Rendering, for the round trip.

  /** `str(n)` as text. */
  function NatText(n: nat): (t: string)
    ensures |t| > 0 && IsDigitChar(t[0])
    ensures AllDigitChars(t)
  {
    Text(Decimal.Digits(n))
  }

  lemma NatTextValue(n: nat)
    ensures Decimal.Value(Codes(NatText(n))) == n
  {
    Decimal.ValueOfDigits(n);
  }

  /** `".".join(str(x) for x in v)`. */
  function Render(v: Version): (t: string)
    requires |v| > 0
    ensures |t| > 0 && IsDigitChar(t[0])
  {
    NatText(v[0]) + if |v| == 1 then "" else "." + Render(v[1..])
  }

  lemma {:induction false} DigitRunOfDigitsThen(a: string, b: string)
    requires AllDigitChars(a)
    requires b == [] || !IsDigitChar(b[0])
    ensures DigitRun(a + b) == |a|
  {
    if a == [] {
      assert a + b == b;
    } else {
      assert (a + b)[1..] == a[1..] + b;
      DigitRunOfDigitsThen(a[1..], b);
    }
  }

  /** One step of the greedy match: a digit run, then whatever follows it. */
  lemma DottedStep(head: string, tail: string)
    requires |head| > 0 && AllDigitChars(head)
    requires tail == [] || !IsDigitChar(tail[0])
    ensures Dotted(head + tail) ==
      [Decimal.Value(Codes(head))]
      + if |tail| >= 2 && tail[0] == '.' && IsDigitChar(tail[1]) then Dotted(tail[1..]) else []
  {
    var t := head + tail;
    DigitRunOfDigitsThen(head, tail);
    assert t[..|head|] == head && t[|head|..] == tail;
  }

  /** The greedy match continues over a `.` followed by a digit. */
  lemma DottedContinues(head: string, rest: string)
    requires |head| > 0 && AllDigitChars(head)
    requires |rest| > 0 && IsDigitChar(rest[0])
    ensures Dotted(head + (['.'] + rest)) == [Decimal.Value(Codes(head))] + Dotted(rest)
  {
    var tail := ['.'] + rest;
    DottedStep(head, tail);
    assert tail[1..] == rest;
  }

  lemma RenderCons(v: Version, suffix: string)
    requires |v| > 1
    ensures Render(v) + suffix == NatText(v[0]) + (['.'] + (Render(v[1..]) + suffix))
  {
    RenderUnfold(v);
    DotAssociates(NatText(v[0]), Render(v[1..]), suffix);
  }

  lemma RenderUnfold(v: Version)
    requires |v| > 1
    ensures Render(v) == NatText(v[0]) + (['.'] + Render(v[1..]))
  {
  }

  lemma DotAssociates(a: string, b: string, c: string)
    ensures (a + (['.'] + b)) + c == a + (['.'] + (b + c))
  {
  }

  /** Reading a rendered version back gives the same tuple, whatever non-numeric text
      follows it. */
  lemma {:induction false} DottedOfRender(v: Version, suffix: string)
    requires |v| > 0
    requires suffix == [] || (!IsDigitChar(suffix[0]) && suffix[0] != '.')
    ensures Dotted(Render(v) + suffix) == v
    decreases |v|
  {
    var head := NatText(v[0]);
    if |v| == 1 {
      assert Render(v) == head;
      DottedStep(head, suffix);
      NatTextValue(v[0]);
    } else {
      var rest := Render(v[1..]) + suffix;
      RenderCons(v, suffix);
      DottedContinues(head, rest);
      NatTextValue(v[0]);
      DottedOfRender(v[1..], suffix);
      assert v == [v[0]] + v[1..];
    }
  }

  /** Round trip through the probe: for every version tuple and every ordinary trailer,
      the banner line parses back to the same tuple. */
  lemma ParseRenderedVersion(v: Version, suffix: string)
    requires |v| > 0
    requires suffix == [] || (!IsDigitChar(suffix[0]) && suffix[0] != '.')
    ensures ParseVersion(Banner + (Render(v) + suffix)) == Some(v)
  {
    var t := Render(v) + suffix;
    var s := Banner + t;
    Halves(Banner, t);
    assert MatchAt(s, 0);
    DottedOfRender(v, suffix);
  }

  /** Text `Render` never produces: leading zeros are read as `int` reads them, and a
      trailing dot without a digit after it ends the match. */
  /** A digit run followed by anything but a digit, or a dot and a digit, is the last
      component. */
  lemma DottedLast(head: string, tail: string)
    requires |head| > 0 && AllDigitChars(head)
    requires tail == [] || !IsDigitChar(tail[0])
    requires !(|tail| >= 2 && tail[0] == '.' && IsDigitChar(tail[1]))
    ensures |head + tail| > 0 && IsDigitChar((head + tail)[0])
    ensures Dotted(head + tail) == [Decimal.Value(Codes(head))]
  {
    DottedStep(head, tail);
  }

  /** Two digit runs joined by a dot, followed by anything but a digit or a dot and a
      digit, read as two components: the value of each run, leading zeros included. */
  lemma DottedTwoComponents(h1: string, h2: string, tail: string)
    requires |h1| > 0 && AllDigitChars(h1) && |h2| > 0 && AllDigitChars(h2)
    requires tail == [] || !IsDigitChar(tail[0])
    requires !(|tail| >= 2 && tail[0] == '.' && IsDigitChar(tail[1]))
    ensures Dotted(h1 + (['.'] + (h2 + tail))) == [Decimal.Value(Codes(h1)), Decimal.Value(Codes(h2))]
  {
    DottedLast(h2, tail);
    DottedContinues(h1, h2 + tail);
  }

  lemma Halves(a: string, b: string)
    requires |b| > 0
    ensures (a + b)[..|a|] == a && (a + b)[|a|..] == b && (a + b)[|a|] == b[0]
  {
  }
}
