/**
  The two version orders of the repository: the raw tuples that the dataset builder compares when
  it merges advisories, and the release segments, padded with zeros, that the scanner compares
  when it matches a detected version (PEP 440, restricted to plain release segments).
 */
module Versions {
  import opened Strings

  /** Python's `<` on tuples: a proper prefix is smaller. */
  predicate LexLess(a: seq<nat>, b: seq<nat>) {
    b != [] && (a == [] || a[0] < b[0] || (a[0] == b[0] && LexLess(a[1..], b[1..])))
  }

  function Head(a: seq<nat>): nat { if a == [] then 0 else a[0] }
  function Tail(a: seq<nat>): seq<nat> { if a == [] then [] else a[1..] }

  /** `<` on release segments: the shorter one is padded with zeros. */
  predicate PadLess(a: seq<nat>, b: seq<nat>)
    decreases |a| + |b|
  {
    (a != [] || b != []) && (Head(a) < Head(b) || (Head(a) == Head(b) && PadLess(Tail(a), Tail(b))))
  }

  lemma {:induction false} LexTotal(a: seq<nat>, b: seq<nat>)
    ensures !(LexLess(a, b) && LexLess(b, a)) && (LexLess(a, b) || LexLess(b, a) || a == b)
  {
    if a != [] && b != [] {
      LexTotal(a[1..], b[1..]);
      assert a == [a[0]] + a[1..] && b == [b[0]] + b[1..];
    }
  }

  lemma {:induction false} LexTransitive(a: seq<nat>, b: seq<nat>, c: seq<nat>)
    requires !LexLess(b, a) && !LexLess(c, b)
    ensures !LexLess(c, a)
  {
    if a != [] && b != [] && c != [] {
      if a[0] == b[0] == c[0] { LexTransitive(a[1..], b[1..], c[1..]); }
    }
  }

  lemma {:induction false} PadTotal(a: seq<nat>, b: seq<nat>)
    ensures !(PadLess(a, b) && PadLess(b, a))
    decreases |a| + |b|
  {
    if a != [] || b != [] { PadTotal(Tail(a), Tail(b)); }
  }

  lemma {:induction false} PadTransitive(a: seq<nat>, b: seq<nat>, c: seq<nat>)
    requires !PadLess(b, a) && !PadLess(c, b)
    ensures !PadLess(c, a)
    decreases |a| + |b| + |c|
  {
    if a != [] || b != [] || c != [] {
      if Head(a) == Head(b) == Head(c) { PadTransitive(Tail(a), Tail(b), Tail(c)); }
    }
  }

  lemma {:induction false} PadLeast(a: seq<nat>)
    ensures !PadLess(a, [])
  {
    if a != [] { PadLeast(a[1..]); }
  }

  /** The raw order is a refinement of the padded one: whatever is raw-smallest is padded-smallest. */
  lemma {:induction false} LexImpliesPad(a: seq<nat>, b: seq<nat>)
    requires !LexLess(b, a)
    ensures !PadLess(b, a)
  {
    if a == [] {
      PadLeast(b);
    } else {
      assert b != [];
      if a[0] == b[0] { LexImpliesPad(a[1..], b[1..]); }
    }
  }

  // ---------------------------------------------------------------- parsing

  /** The parts as integers; `None` when any of them is not one. */
  function PyInts(parts: seq<string>): (r: Option<seq<nat>>)
    ensures r.Some? ==> |r.value| == |parts|
  {
    if parts == [] then Some([])
    else
      var front, last := PyInts(parts[..|parts| - 1]), PyInt(parts[|parts| - 1]);
      if front.Some? && last.Some? then Some(front.value + [last.value]) else None
  }

  lemma {:induction false} PyIntsPrefix(parts: seq<string>, n: nat)
    requires n <= |parts| && PyInts(parts[..n]).None?
    ensures PyInts(parts).None?
  {
    if n == |parts| {
      assert parts[..n] == parts;
    } else {
      assert parts[..|parts| - 1][..n] == parts[..n];
      PyIntsPrefix(parts[..|parts| - 1], n);
    }
  }

  /** The sort key of a version bound: the integers before the first hyphen, or (0,) if one is not an integer. */
  function VersionKey(v: string): seq<nat> {
    var parts := PyInts(Split(Split(v, '-')[0], '.'));
    if parts.Some? then parts.value else [0]
  }

  /** What follows the first hyphen is dropped: "3.0.0-rc.1" sorts as 3.0.0. */
  lemma {:induction false} SuffixIgnored(core: string, rest: string)
    requires '-' !in core
    ensures VersionKey(core + ['-'] + rest) == VersionKey(core)
  {
    SplitAt(core, '-', rest);
    SplitNone(core, '-');
    assert ([core] + Split(rest, '-'))[0] == core;
  }

  method ParseVersionTuple(v: string) returns (key: seq<nat>)
    ensures key == VersionKey(v)
  {
    var core := Split(Split(v, '-')[0], '.');
    var parts: seq<nat> := [];
    for i := 0 to |core|
      invariant PyInts(core[..i]) == Some(parts)
    {
      assert core[..i + 1][..i] == core[..i];
      var p := PyInt(core[i]);
      if p.None? {
        PyIntsPrefix(core, i + 1);
        return [0];
      }
      parts := parts + [p.value];
    }
    assert core[..|core|] == core;
    return parts;
  }

  /** A plain release number such as 3.4.1. */
  predicate Plain(s: string) {
    forall p :: p in Split(s, '.') ==> AllDigits(p)
  }

  predicate Blank(s: string) { Strip(s) == "" }

  /** The release segments of a version string; `None` is `InvalidVersion`. */
  function Release(s: string): Option<seq<nat>> {
    if Plain(Strip(s)) then PyInts(Split(Strip(s), '.')) else None
  }

  lemma {:induction false} PyIntsPlain(parts: seq<string>)
    requires forall p :: p in parts ==> AllDigits(p)
    ensures PyInts(parts).Some?
  {
    if parts != [] {
      PyIntsPlain(parts[..|parts| - 1]);
      assert parts[|parts| - 1] in parts;
      PyIntDigits(parts[|parts| - 1]);
    }
  }

  lemma PlainCharacters(s: string)
    requires Plain(s)
    ensures s != "" && forall c :: c in s ==> c == '.' || IsDigit(c)
  {
    assert !Plain("") by { assert "" in Split("", '.'); }
    SplitCovers(s, '.');
    forall c | c in s ensures c == '.' || IsDigit(c) {
      if c != '.' {
        var p :| p in Split(s, '.') && c in p;
      }
    }
  }

  /** On plain release numbers the two parsers read the same integers. */
  lemma {:induction false} PlainRelease(s: string)
    requires Plain(s)
    ensures Strip(s) == s && !Blank(s) && Release(s) == Some(VersionKey(s))
  {
    PlainCharacters(s);
    assert s[0] in s && s[|s| - 1] in s;
    StripClean(s);
    SplitNone(s, '-');
    PyIntsPlain(Split(s, '.'));
  }

  /** `re.sub(r'^[\^~>=<]', '', s)` */
  function DropOperator(s: string): string {
    if s != "" && s[0] in "^~>=<" then s[1..] else s
  }

  /** Whether the scanner takes the detected version to lie in [minAffected, fixedIn). */
  predicate InCveRange(detected: string, minAffected: string, fixedIn: string) {
    var d := Release(DropOperator(Strip(detected)));
    var floor, ceiling := Release(minAffected), Release(fixedIn);
    && d.Some?
    && (!Blank(minAffected) ==> floor.Some? && !PadLess(d.value, floor.value))
    && (!Blank(fixedIn) ==> ceiling.Some? && PadLess(d.value, ceiling.value))
  }

  lemma {:induction false} InRangePlain(v: string, minAffected: string, fixedIn: string)
    requires Plain(v)
    requires Plain(minAffected) || Blank(minAffected)
    requires Plain(fixedIn) || Blank(fixedIn)
    ensures InCveRange(v, minAffected, fixedIn) <==>
      && (!Blank(minAffected) ==> !PadLess(VersionKey(v), VersionKey(minAffected)))
      && (!Blank(fixedIn) ==> PadLess(VersionKey(v), VersionKey(fixedIn)))
  {
    PlainRelease(v);
    PlainCharacters(v);
    assert DropOperator(v) == v by { assert v[0] in v; }
    if Plain(minAffected) { PlainRelease(minAffected); }
    if Plain(fixedIn) { PlainRelease(fixedIn); }
  }

  lemma BlankKey(s: string)
    requires Blank(s)
    ensures VersionKey(s) == [0]
  {
    if s == "" {
      assert Split(s, '-')[0] == "" && Split("", '.') == [""];
      assert [""][..0] == [];
    } else {
      BlankSpaces(s);
      assert '-' !in s && '.' !in s;
      SplitNone(s, '-');
      SplitNone(s, '.');
      assert [s][..0] == [];
      assert PyInt(s).None?;
    }
  }

  /** A bound the scanner can read: a plain release number or nothing. */
  predicate Bound(s: string) { Plain(s) || Blank(s) }

  lemma PadZero(d: seq<nat>)
    ensures !PadLess(d, [0])
  {
    PadLeast(Tail(d));
  }

  /** The release segments that the scanner compares for a detected version. */
  function Detected(v: string): Option<seq<nat>> { Release(DropOperator(Strip(v))) }

  /**
    On readable bounds the range check is the half-open interval between the bounds' keys; a blank
    floor counts as zero.
  */
  lemma {:induction false} InRangeReadable(v: string, minAffected: string, fixedIn: string)
    requires Bound(minAffected) && Bound(fixedIn)
    ensures InCveRange(v, minAffected, fixedIn) <==>
      && Detected(v).Some? && !PadLess(Detected(v).value, VersionKey(minAffected))
      && (!Blank(fixedIn) ==> PadLess(Detected(v).value, VersionKey(fixedIn)))
  {
    hide VersionKey, Plain, PadLess;
    if Plain(minAffected) { PlainRelease(minAffected); } else { BlankKey(minAffected); }
    if Plain(fixedIn) { PlainRelease(fixedIn); }
    if Detected(v).Some? { PadZero(Detected(v).value); }
  }

  lemma DetectedPlain(v: string)
    requires Plain(v)
    ensures Detected(v) == Some(VersionKey(v))
  {
    hide VersionKey;
    PlainRelease(v);
    PlainCharacters(v);
    assert DropOperator(v) == v by { assert v[0] in v; }
  }

  lemma {:induction false} BlankSpaces(s: string)
    requires Blank(s)
    ensures forall c :: c in s ==> IsSpace(c)
  {
    if s != "" {
      if IsSpace(s[0]) {
        BlankSpaces(s[1..]);
        assert s == [s[0]] + s[1..];
      } else {
        RStripKeepsHead(s);
      }
    }
  }

  lemma {:induction false} RStripKeepsHead(s: string)
    requires s != "" && !IsSpace(s[0])
    ensures RStrip(s) != ""
  {
    if IsSpace(s[|s| - 1]) { RStripKeepsHead(s[..|s| - 1]); }
  }

  // ---------------------------------------------------------------- printed versions

  function Numerals(ns: seq<nat>): (r: seq<string>)
    ensures |r| == |ns| && forall i :: 0 <= i < |r| ==> r[i] == Decimal(ns[i])
  {
    seq(|ns|, i requires 0 <= i < |ns| => Decimal(ns[i]))
  }

  /** The usual spelling: "1.9.2" for (1, 9, 2). */
  function Print(ns: seq<nat>): string { Join(Numerals(ns), ".") }

  lemma {:induction false} NumeralsRead(ns: seq<nat>)
    ensures PyInts(Numerals(ns)) == Some(ns)
    ensures forall p :: p in Numerals(ns) ==> AllDigits(p)
  {
    if ns != [] {
      var n := |ns| - 1;
      NumeralsRead(ns[..n]);
      DecimalValue(ns[n]);
      PyIntDigits(Decimal(ns[n]));
      assert Numerals(ns)[..n] == Numerals(ns[..n]) && ns == ns[..n] + [ns[n]];
      forall p | p in Numerals(ns) ensures AllDigits(p) {
        var i :| 0 <= i < |ns| && p == Numerals(ns)[i];
        DecimalValue(ns[i]);
      }
    }
  }

  /** Both parsers read a printed version number by number, in order. */
  lemma {:induction false} PrintThenRead(ns: seq<nat>)
    requires ns != []
    ensures Plain(Print(ns)) && VersionKey(Print(ns)) == ns && Release(Print(ns)) == Some(ns)
  {
    NumeralsRead(ns);
    forall p | p in Numerals(ns) ensures '.' !in p { assert forall c :: c in p ==> IsDigit(c); }
    SplitJoin(Numerals(ns), '.');
    PlainRelease(Print(ns));
    PlainCharacters(Print(ns));
    SplitNone(Print(ns), '-');
  }

  /** On printed versions the range check compares the numbers; an operator in front of the detected one is dropped. */
  lemma {:induction false} PrintedRange(pad: string, op: string, d: seq<nat>, lo: seq<nat>, hi: seq<nat>)
    requires d != [] && lo != [] && hi != [] && Blanks(pad) && op in {"", "^", "~", ">", "=", "<"}
    ensures InCveRange(pad + (op + Print(d)), Print(lo), Print(hi)) <==> !PadLess(d, lo) && PadLess(d, hi)
    ensures InCveRange(pad + (op + Print(d)), "", Print(hi)) <==> PadLess(d, hi)
    ensures InCveRange(pad + (op + Print(d)), Print(lo), "") <==> !PadLess(d, lo)
  {
    hide Release, VersionKey, PadLess, Print, Strip;
    PrintThenRead(lo);
    PrintThenRead(hi);
    PrintThenRead(d);
    PlainRelease(Print(lo));
    PlainRelease(Print(hi));
    OperatorDropped(pad, op, Print(d));
    StripClean("");
  }

  lemma OperatorDropped(pad: string, op: string, v: string)
    requires Plain(v) && Blanks(pad) && op in {"", "^", "~", ">", "=", "<"}
    ensures DropOperator(Strip(pad + (op + v))) == v
  {
    PlainCharacters(v);
    assert v[0] in v && v[|v| - 1] in v;
    assert (op + v)[|op + v| - 1] == v[|v| - 1] && (op + v)[0] == if op == "" then v[0] else op[0];
    StripPadded(pad, op + v);
    assert op != "" ==> (op + v)[1..] == v;
  }

  /** A value that is no version is never matched, and nothing is matched against a bound that is none. */
  lemma {:induction false} UnreadableNeverMatches(v: string, minAffected: string, fixedIn: string)
    ensures Detected(v).None? ==> !InCveRange(v, minAffected, fixedIn)
    ensures !Blank(minAffected) && !Plain(Strip(minAffected)) ==> !InCveRange(v, minAffected, fixedIn)
    ensures !Blank(fixedIn) && !Plain(Strip(fixedIn)) ==> !InCveRange(v, minAffected, fixedIn)
  {}

  /** A version key with a component that is no integer is (0,). */
  lemma {:induction false} BadComponentSortsFirst(v: string, i: nat)
    requires var parts := Split(Split(v, '-')[0], '.'); i < |parts| && PyInt(parts[i]).None?
    ensures VersionKey(v) == [0]
  {
    var parts := Split(Split(v, '-')[0], '.');
    assert parts[..i + 1][..i] == parts[..i] && parts[..i + 1][i] == parts[i];
    PyIntsPrefix(parts, i + 1);
  }

  // ---------------------------------------------------------------- what the two orders mean

  function At(a: seq<nat>, i: nat): nat { if i < |a| then a[i] else 0 }

  /** The first place where the padded numbers differ, where that of `a` is smaller. */
  predicate DiffersAt(a: seq<nat>, b: seq<nat>, k: nat) {
    At(a, k) < At(b, k) && forall i: nat :: i < k ==> At(a, i) == At(b, i)
  }

  lemma {:induction false} PadLessExactly(a: seq<nat>, b: seq<nat>)
    ensures PadLess(a, b) <==> exists k: nat :: DiffersAt(a, b, k)
    decreases |a| + |b|
  {
    if a != [] || b != [] {
      PadLessExactly(Tail(a), Tail(b));
      forall i: nat ensures At(Tail(a), i) == At(a, i + 1) && At(Tail(b), i) == At(b, i + 1) {}
      if Head(a) == Head(b) && PadLess(Tail(a), Tail(b)) {
        var k: nat :| DiffersAt(Tail(a), Tail(b), k);
        forall i: nat | i < k + 1 ensures At(a, i) == At(b, i) {
          assert i > 0 ==> At(Tail(a), i - 1) == At(Tail(b), i - 1);
        }
        assert DiffersAt(a, b, k + 1);
      }
      if Head(a) < Head(b) { assert DiffersAt(a, b, 0); }
      if k: nat :| DiffersAt(a, b, k) {
        if k > 0 {
          assert At(a, 0) == At(b, 0);
          forall i: nat | i < k - 1 ensures At(Tail(a), i) == At(Tail(b), i) { assert At(a, i + 1) == At(b, i + 1); }
          assert DiffersAt(Tail(a), Tail(b), k - 1);
        }
      }
    }
  }

  /** After a common beginning of `k` numbers `a` ends or has the smaller number. */
  predicate PrecedesAt(a: seq<nat>, b: seq<nat>, k: nat) {
    k <= |a| && k < |b| && a[..k] == b[..k] && (k == |a| || a[k] < b[k])
  }

  lemma {:induction false} LexLessExactly(a: seq<nat>, b: seq<nat>)
    ensures LexLess(a, b) <==> exists k: nat :: PrecedesAt(a, b, k)
  {
    if b != [] {
      if a == [] || a[0] < b[0] {
        assert PrecedesAt(a, b, 0);
      } else {
        LexLessExactly(a[1..], b[1..]);
        if LexLess(a, b) {
          var k: nat :| PrecedesAt(a[1..], b[1..], k);
          assert a[..k + 1] == [a[0]] + a[1..][..k] && b[..k + 1] == [b[0]] + b[1..][..k];
          assert PrecedesAt(a, b, k + 1);
        }
        if k: nat :| PrecedesAt(a, b, k) {
          assert k > 0 && a[0] == a[..k][0] == b[..k][0] == b[0];
          assert a[1..][..k - 1] == a[..k][1..] && b[1..][..k - 1] == b[..k][1..];
          assert PrecedesAt(a[1..], b[1..], k - 1);
        }
      }
    }
  }
}
