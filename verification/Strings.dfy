/** The string operations of the sources: strip, split, lower, and decimal parsing, on ASCII text. */
module Strings {

  datatype Option<+T> = None | Some(value: T)

  /** The ASCII characters that `str.strip()` and `\s` treat as white space. */
  predicate IsSpace(c: char) {
    c == ' ' || '\t' <= c <= '\r' || '\U{1C}' <= c <= '\U{1F}'
  }

  predicate IsDigit(c: char) { '0' <= c <= '9' }

  /** Tab, line feed, vertical tab, form feed, carriage return, the four separators and the blank. */
  lemma {:induction false} SpacesExactly(c: char)
    ensures IsSpace(c) <==> c as int in {9, 10, 11, 12, 13, 28, 29, 30, 31, 32}
  {}

  function LStrip(s: string): string {
    if s != "" && IsSpace(s[0]) then LStrip(s[1..]) else s
  }

  function RStrip(s: string): string {
    if s != "" && IsSpace(s[|s| - 1]) then RStrip(s[..|s| - 1]) else s
  }

  function Strip(s: string): string { RStrip(LStrip(s)) }

  /** No white space at either end. */
  predicate Clean(s: string) {
    s != "" ==> !IsSpace(s[0]) && !IsSpace(s[|s| - 1])
  }

  lemma StripClean(s: string)
    requires Clean(s)
    ensures Strip(s) == s
  {}

  predicate Blanks(s: string) { forall c :: c in s ==> IsSpace(c) }

  lemma {:induction false} LStripBlanks(a: string, x: string)
    requires Blanks(a)
    ensures LStrip(a + x) == LStrip(x)
  {
    if a == "" {
      assert a + x == x;
    } else {
      assert a[0] in a && (a + x)[0] == a[0] && (a + x)[1..] == a[1..] + x;
      LStripBlanks(a[1..], x);
    }
  }

  lemma {:induction false} RStripBlanks(x: string, b: string)
    requires Blanks(b)
    ensures RStrip(x + b) == RStrip(x)
  {
    if b == "" {
      assert x + b == x;
    } else {
      var s, n := x + b, |b| - 1;
      assert b[n] in b && s[|s| - 1] == b[n] && s[..|s| - 1] == x + b[..n];
      RStripBlanks(x, b[..n]);
    }
  }

  lemma StripPadded(pad: string, s: string)
    requires Clean(s) && s != "" && Blanks(pad)
    ensures Strip(pad + s) == s
  {
    LStripBlanks(pad, s);
  }

  lemma {:induction false} StripIsClean(s: string)
    ensures Clean(Strip(s)) && |Strip(s)| <= |s|
    ensures forall c :: c in Strip(s) ==> c in s
  {
    LStripFacts(s);
    RStripFacts(LStrip(s));
  }

  lemma {:induction false} LStripFacts(s: string)
    ensures LStrip(s) != "" ==> !IsSpace(LStrip(s)[0])
    ensures |LStrip(s)| <= |s| && forall c :: c in LStrip(s) ==> c in s
  {
    if s != "" && IsSpace(s[0]) { LStripFacts(s[1..]); }
  }

  lemma {:induction false} RStripFacts(s: string)
    ensures RStrip(s) <= s
    ensures RStrip(s) != "" ==> !IsSpace(RStrip(s)[|RStrip(s)| - 1])
  {
    if s != "" && IsSpace(s[|s| - 1]) { RStripFacts(s[..|s| - 1]); }
  }

  /** Stripping drops white space only. */
  lemma {:induction false} StripKeeps(s: string)
    ensures forall c :: c in s && !IsSpace(c) ==> c in Strip(s)
  {
    StrippedChars(s);
    RStrippedChars(LStrip(s));
  }

  lemma {:induction false} RStrippedChars(s: string)
    ensures forall c :: c in s ==> c in RStrip(s) || IsSpace(c)
  {
    if s != "" && IsSpace(s[|s| - 1]) {
      RStrippedChars(s[..|s| - 1]);
      assert s == s[..|s| - 1] + [s[|s| - 1]];
    }
  }

  lemma {:induction false} StrippedChars(s: string)
    ensures forall c :: c in s ==> c in LStrip(s) || IsSpace(c)
  {
    if s != "" && IsSpace(s[0]) {
      StrippedChars(s[1..]);
      assert s == [s[0]] + s[1..];
    }
  }

  /** `s.split(sep)` for a one-character separator. */
  function Split(s: string, sep: char): (parts: seq<string>)
    ensures |parts| >= 1
  {
    if s == "" then [""]
    else if s[0] == sep then [""] + Split(s[1..], sep)
    else var rest := Split(s[1..], sep); [[s[0]] + rest[0]] + rest[1..]
  }

  lemma {:induction false} SplitNone(s: string, sep: char)
    requires sep !in s
    ensures Split(s, sep) == [s]
  {
    if s != "" {
      assert s == [s[0]] + s[1..] && s[0] in s;
      SplitNone(s[1..], sep);
      assert s[0] != sep && Split(s, sep) == [[s[0]] + s[1..]];
    }
  }

  lemma {:induction false} SplitAt(a: string, sep: char, b: string)
    requires sep !in a
    ensures Split(a + [sep] + b, sep) == [a] + Split(b, sep)
  {
    if a == "" {
      assert (a + [sep] + b)[1..] == b;
    } else {
      assert a[0] in a && (a + [sep] + b)[0] == a[0];
      assert (a + [sep] + b)[1..] == a[1..] + [sep] + b;
      SplitAt(a[1..], sep, b);
      assert [a[0]] + a[1..] == a && ([a[1..]] + Split(b, sep))[1..] == Split(b, sep);
    }
  }

  /** `sep.join(parts)`. */
  function Join(parts: seq<string>, sep: string): string {
    if parts == [] then "" else if |parts| == 1 then parts[0] else parts[0] + sep + Join(parts[1..], sep)
  }

  /** Splitting what was joined gives the parts back when no part contains the separator. */
  lemma {:induction false} SplitJoin(parts: seq<string>, sep: char)
    requires parts != [] && forall p :: p in parts ==> sep !in p
    ensures Split(Join(parts, [sep]), sep) == parts
  {
    if |parts| == 1 {
      SplitNone(parts[0], sep);
    } else {
      SplitJoin(parts[1..], sep);
      SplitAt(parts[0], sep, Join(parts[1..], [sep]));
      assert [parts[0]] + parts[1..] == parts;
    }
  }

  /** A character of the text is the separator or lies in one of the parts. */
  lemma {:induction false} SplitCovers(s: string, sep: char)
    ensures forall c :: c in s && c != sep ==> exists p :: p in Split(s, sep) && c in p
  {
    if s != "" {
      SplitCovers(s[1..], sep);
      var parts, rest := Split(s, sep), Split(s[1..], sep);
      forall c | c in s && c != sep ensures exists p :: p in parts && c in p {
        if c == s[0] {
          assert parts[0] in parts && c in parts[0];
        } else {
          assert s == [s[0]] + s[1..] && c in s[1..];
          var p :| p in rest && c in p;
          if s[0] == sep {
            assert p in parts;
          } else if p == rest[0] {
            assert parts[0] in parts && c in parts[0];
          } else {
            assert p in rest[1..] && p in parts;
          }
        }
      }
    }
  }

  /** `needle in hay`. */
  predicate Contains(hay: string, needle: string) {
    exists i :: 0 <= i <= |hay| && needle <= hay[i..]
  }

  function LowerChar(c: char): char {
    if 'A' <= c <= 'Z' then (c as int + 32) as char else c
  }

  const CAPITALS := "ABCDEFGHIJKLMNOPQRSTUVWXYZ"
  const SMALL_LETTERS := "abcdefghijklmnopqrstuvwxyz"

  /** The capital letters become small ones, every other character stays. */
  lemma {:induction false} LowerCharExactly(c: char)
    ensures forall i :: 0 <= i < 26 ==> LowerChar(CAPITALS[i]) == SMALL_LETTERS[i]
    ensures c !in CAPITALS ==> LowerChar(c) == c
  {
    if 'A' <= c <= 'Z' { assert CAPITALS[c as int - 65] == c; }
  }

  function Lower(s: string): (r: string)
    ensures |r| == |s|
  {
    if s == "" then "" else [LowerChar(s[0])] + Lower(s[1..])
  }

  lemma {:induction false} LowerPlain(s: string)
    requires forall c :: c in s ==> LowerChar(c) == c
    ensures Lower(s) == s
  {
    if s != "" {
      assert s[0] in s && s == [s[0]] + s[1..];
      LowerPlain(s[1..]);
    }
  }

  lemma {:induction false} LowerIdempotent(s: string)
    ensures Lower(Lower(s)) == Lower(s)
  {
    if s != "" {
      LowerIdempotent(s[1..]);
      assert Lower(s)[1..] == Lower(s[1..]);
    }
  }

  predicate AllDigits(s: string) {
    s != "" && forall c :: c in s ==> IsDigit(c)
  }

  function DigitsValue(s: string): nat
    requires forall c :: c in s ==> IsDigit(c)
  {
    if s == "" then 0
    else
      assert s[|s| - 1] in s && IsDigit(s[|s| - 1]);
      DigitsValue(s[..|s| - 1]) * 10 + (s[|s| - 1] as int - '0' as int)
  }

  /** The digits of a numeral in which single underscores may separate digits. */
  function Ungroup(s: string): Option<string> {
    if s == "" then None
    else if !IsDigit(s[0]) then None
    else if |s| == 1 then Some(s)
    else
      var tail := if s[1] == '_' then Ungroup(s[2..]) else Ungroup(s[1..]);
      if tail.Some? then Some([s[0]] + tail.value) else None
  }

  lemma {:induction false} UngroupDigits(s: string)
    ensures Ungroup(s).Some? ==> AllDigits(Ungroup(s).value)
    ensures AllDigits(s) ==> Ungroup(s) == Some(s)
  {
    if |s| > 1 {
      UngroupDigits(s[1..]);
      UngroupDigits(s[2..]);
      assert s == [s[0]] + s[1..];
    }
  }

  /** Python's `int(s)` for a string without a minus sign; `None` is `ValueError`. */
  function PyInt(s: string): Option<nat> {
    var t := Strip(s);
    var u := Ungroup(if t != "" && t[0] == '+' then t[1..] else t);
    UngroupDigits(if t != "" && t[0] == '+' then t[1..] else t);
    if u.Some? then Some(DigitsValue(u.value)) else None
  }

  lemma PyIntDigits(s: string)
    requires AllDigits(s)
    ensures PyInt(s) == Some(DigitsValue(s))
  {
    assert s[0] in s && s[|s| - 1] in s;
    StripClean(s);
    UngroupDigits(s);
  }

  function Digit(n: nat): char
    requires n < 10
  {
    (n + '0' as int) as char
  }

  /** `str(n)` */
  function Decimal(n: nat): string {
    if n < 10 then [Digit(n)] else Decimal(n / 10) + [Digit(n % 10)]
  }

  lemma {:induction false} DecimalValue(n: nat)
    ensures AllDigits(Decimal(n)) && DigitsValue(Decimal(n)) == n && ',' !in Decimal(n) && '-' !in Decimal(n)
  {
    var s := Decimal(n);
    if n >= 10 {
      DecimalValue(n / 10);
      assert s[..|s| - 1] == Decimal(n / 10);
    } else {
      assert s[..0] == "";
    }
  }

  /** The two sides of `s.split(sep, 1)`. */
  function Before(s: string, sep: char): string {
    if s == "" || s[0] == sep then "" else [s[0]] + Before(s[1..], sep)
  }

  function After(s: string, sep: char): string {
    if s == "" then "" else if s[0] == sep then s[1..] else After(s[1..], sep)
  }

  lemma {:induction false} BeforeAfter(a: string, sep: char, b: string)
    requires sep !in a
    ensures Before(a + [sep] + b, sep) == a && After(a + [sep] + b, sep) == b
  {
    if a == "" {
      assert (a + [sep] + b)[1..] == b;
    } else {
      assert a[0] in a && (a + [sep] + b)[0] == a[0] && (a + [sep] + b)[1..] == a[1..] + [sep] + b;
      BeforeAfter(a[1..], sep, b);
    }
  }

  lemma {:induction false} LowerAt(s: string, i: nat)
    requires i < |s|
    ensures Lower(s)[i] == LowerChar(s[i])
  {
    if i > 0 { LowerAt(s[1..], i - 1); }
  }

  lemma LowerIsClean(s: string)
    requires Clean(s)
    ensures Clean(Lower(s))
  {
    if s != "" {
      LowerAt(s, 0);
      LowerAt(s, |s| - 1);
    }
  }

  lemma {:induction false} BeforeAfterJoin(s: string, sep: char)
    requires sep in s
    ensures s == Before(s, sep) + ([sep] + After(s, sep)) && sep !in Before(s, sep)
  {
    if s[0] != sep { BeforeAfterJoin(s[1..], sep); }
  }
}
