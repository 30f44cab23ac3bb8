/**
  Which host a url names: `urlparse` as the gateway applies it to the submitted url, and the url that
  the worker scans for it.
 */
module Hosts {
  import opened Strings
  import opened Blocklist

  // ---------------------------------------------------------------- urlparse

  /** The C0 controls and the space, which `urlparse` drops in front. */
  predicate IsControl(c: char) { c <= ' ' }

  function DropLead(s: string): string {
    if s != "" && IsControl(s[0]) then DropLead(s[1..]) else s
  }

  predicate IsBreak(c: char) { c == '\t' || c == '\r' || c == '\n' }

  function DropBreaks(s: string): string {
    if s == "" then "" else if IsBreak(s[0]) then DropBreaks(s[1..]) else [s[0]] + DropBreaks(s[1..])
  }

  /** Tabs and line breaks are taken out of a url wherever they stand, and nothing else is. */
  lemma {:induction false} DropBreaksExactly(a: string, c: char, b: string)
    ensures DropBreaks(a + ([c] + b)) ==
      DropBreaks(a) + (if c as int in {9, 10, 13} then "" else [c]) + DropBreaks(b)
  {
    DropBreaksAppend(a, [c] + b);
    assert ([c] + b)[1..] == b;
  }

  predicate IsLetter(c: char) { 'a' <= c <= 'z' || 'A' <= c <= 'Z' }

  predicate IsScheme(s: string) {
    s != "" && IsLetter(s[0]) && forall c :: c in s ==> IsLetter(c) || IsDigit(c) || c in "+-."
  }

  /** What follows the scheme, if there is one. */
  function Rest(u: string): string {
    if ':' in u && IsScheme(Before(u, ':')) then After(u, ':') else u
  }

  predicate EndsAuthority(c: char) { c == '/' || c == '?' || c == '#' }

  function Cut(s: string): string {
    if s == "" || EndsAuthority(s[0]) then "" else [s[0]] + Cut(s[1..])
  }

  /** The text that is parsed. */
  function Text(url: string): string { DropBreaks(DropLead(url)) }

  function Netloc(url: string): string {
    var rest := Rest(Text(url));
    if "//" <= rest then Cut(rest[2..]) else ""
  }

  /** `urlparse` raises on these. */
  predicate Malformed(netloc: string) { ('[' in netloc) != (']' in netloc) }

  function AfterLast(s: string, sep: char): string
    decreases |s|
  {
    if sep !in s then s else AfterShorter(s, sep); AfterLast(After(s, sep), sep)
  }

  lemma {:induction false} AfterShorter(s: string, sep: char)
    requires sep in s
    ensures |After(s, sep)| < |s|
  {
    if s[0] != sep { AfterShorter(s[1..], sep); }
  }

  /** The host as it is written: without user information, brackets and port. */
  function Written(netloc: string): string { Unwrapped(AfterLast(netloc, '@')) }

  function Unwrapped(info: string): string {
    if '[' in info then Before(After(info, '['), ']') else Before(info, ':')
  }

  /** `.hostname`: lower case up to a zone; empty when there is none. */
  function HostOf(netloc: string): string {
    var name := Written(netloc);
    if '%' in name then Lower(Before(name, '%')) + (['%'] + After(name, '%')) else Lower(name)
  }

  // ---------------------------------------------------------------- the two readings of a submitted url

  predicate HasSeparator(url: string) { Contains(url, "://") }

  /** The host that the gateway checks; `None` when parsing raises. */
  function CheckedHost(url: string): Option<string> {
    var netloc := Netloc(if HasSeparator(url) then url else "https://" + url);
    if Malformed(netloc) then None
    else Some(if HostOf(netloc) != "" then HostOf(netloc) else url)
  }

  predicate StartsWith(s: string, prefix: string) { prefix <= s }

  predicate HttpForm(url: string) { StartsWith(Strip(url), "http://") || StartsWith(Strip(url), "https://") }

  /** The url that is scanned and reported for a submitted url. */
  function TargetUrl(url: string): string { if HttpForm(url) then Strip(url) else "https://" + Strip(url) }

  /** Without white space, a url with a web scheme is scanned as it stands, any other with "https://" in front. */
  lemma {:induction false} TargetUrlExactly(a: string, x: string, b: string)
    requires Blanks(a) && Blanks(b) && x != "" && Clean(x)
    ensures TargetUrl(a + ("http://" + x) + b) == "http://" + x
    ensures TargetUrl(a + ("https://" + x) + b) == "https://" + x
    ensures !("http://" <= x) && !("https://" <= x) ==> TargetUrl(a + x + b) == "https://" + x
  {
    hide Strip, Clean;
    PaddedTarget(a, "http://" + x, b, x);
    PaddedTarget(a, "https://" + x, b, x);
    PaddedTarget(a, x, b, x);
  }

  lemma PaddedTarget(a: string, s: string, b: string, x: string)
    requires Blanks(a) && Blanks(b) && x != "" && Clean(x)
    requires s == x || s == "http://" + x || s == "https://" + x
    ensures Strip(a + s + b) == s
  {
    assert Around(a + s + b, s);
    StripAround(a + s + b, s);
    assert s[|s| - 1] == x[|x| - 1] && (s[0] == x[0] || s[0] == 'h');
    StripClean(s);
  }

  lemma {:induction false} LettersExactly(c: char)
    ensures IsLetter(c) <==> 65 <= c as int < 65 + 26 || 97 <= c as int < 97 + 26
  {}

  /** The host of the scanned url; `None` when it names none, so that nothing can be scanned. */
  function TargetHost(url: string): Option<string> {
    var netloc := Netloc(TargetUrl(url));
    if Malformed(netloc) || HostOf(netloc) == "" then None else Some(HostOf(netloc))
  }

  /** The blocklist sees the same host in both readings, unless parsing raises or there is no target. */
  predicate ChecksTarget(url: string) {
    CheckedHost(url).Some? && TargetHost(url).Some? ==>
      NormalizeHost(CheckedHost(url).value) == NormalizeHost(TargetHost(url).value)
  }

  predicate TargetBlocked(url: string) { TargetHost(url).Some? && IsBlocklisted(TargetHost(url).value) }

  // ---------------------------------------------------------------- white space around a host

  /** The text between white space. */
  ghost predicate Around(s: string, x: string) { exists a, b :: Blanks(a) && Blanks(b) && s == a + x + b }

  /** Trailing white space does not matter for what is dropped in front, unless nothing else is left. */
  lemma {:induction false} LStripThenBlanks(x: string, b: string)
    requires Blanks(b)
    ensures RStrip(LStrip(x + b)) == RStrip(LStrip(x))
  {
    if x == "" {
      assert x + b == b + "" == b;
      LStripBlanks(b, "");
    } else if IsSpace(x[0]) {
      assert (x + b)[0] == x[0] && (x + b)[1..] == x[1..] + b;
      LStripThenBlanks(x[1..], b);
    } else {
      assert (x + b)[0] == x[0];
      RStripBlanks(x, b);
    }
  }

  lemma StripAround(s: string, x: string)
    requires Around(s, x)
    ensures Strip(s) == Strip(x)
  {
    var a, b :| Blanks(a) && Blanks(b) && s == a + x + b;
    assert s == a + (x + b);
    LStripBlanks(a, x + b);
    LStripThenBlanks(x, b);
  }

  lemma {:induction false} LStripDecompose(s: string) returns (a: string)
    ensures Blanks(a) && s == a + LStrip(s)
  {
    if s != "" && IsSpace(s[0]) {
      var rest := LStripDecompose(s[1..]);
      a := [s[0]] + rest;
    } else {
      a := "";
    }
  }

  lemma {:induction false} RStripDecompose(s: string) returns (b: string)
    ensures Blanks(b) && s == RStrip(s) + b
  {
    if s != "" && IsSpace(s[|s| - 1]) {
      var rest := RStripDecompose(s[..|s| - 1]);
      b := rest + [s[|s| - 1]];
    } else {
      b := "";
    }
  }

  lemma AroundStrip(s: string) returns (a: string, b: string)
    ensures Blanks(a) && Blanks(b) && s == a + Strip(s) + b
  {
    a := LStripDecompose(s);
    b := RStripDecompose(LStrip(s));
  }

  lemma {:induction false} LowerAppend(a: string, b: string)
    ensures Lower(a + b) == Lower(a) + Lower(b)
  {
    if a == "" {
      assert a + b == b;
    } else {
      assert (a + b)[0] == a[0] && (a + b)[1..] == a[1..] + b;
      LowerAppend(a[1..], b);
    }
  }

  lemma {:induction false} LStripLower(s: string)
    ensures LStrip(Lower(s)) == Lower(LStrip(s))
  {
    if s != "" {
      assert Lower(s)[1..] == Lower(s[1..]);
      LStripLower(s[1..]);
    }
  }

  lemma {:induction false} RStripLower(s: string)
    ensures RStrip(Lower(s)) == Lower(RStrip(s))
  {
    if s != "" {
      var n := |s| - 1;
      assert s == s[..n] + [s[n]];
      LowerAppend(s[..n], [s[n]]);
      assert Lower([s[n]]) == [LowerChar(s[n])] by { assert [s[n]][1..] == ""; }
      assert Lower(s)[..n] == Lower(s[..n]) && Lower(s)[n] == LowerChar(s[n]);
      RStripLower(s[..n]);
    }
  }

  /** The blocklist's normal form does not depend on the letter case. */
  lemma NormalizeLower(s: string, t: string)
    requires Lower(s) == Lower(t)
    ensures NormalizeHost(s) == NormalizeHost(t)
  {
    LStripLower(s);
    RStripLower(LStrip(s));
    LStripLower(t);
    RStripLower(LStrip(t));
  }

  lemma NormalizeAround(s: string, x: string)
    requires Around(s, x)
    ensures NormalizeHost(s) == NormalizeHost(x)
  {
    StripAround(s, x);
  }

  lemma {:induction false} BeforeNone(s: string, sep: char)
    requires sep !in s
    ensures Before(s, sep) == s
  {
    if s != "" {
      assert s[0] in s;
      BeforeNone(s[1..], sep);
    }
  }

  /** Lowering the host changes only its letter case. */
  lemma HostOfWritten(netloc: string)
    ensures NormalizeHost(HostOf(netloc)) == NormalizeHost(Written(netloc))
    ensures HostOf(netloc) == "" <==> Written(netloc) == ""
  {
    hide NormalizeHost, Written, Lower;
    var name := Written(netloc);
    if '%' in name {
      var front, zone := Before(name, '%'), ['%'] + After(name, '%');
      BeforeAfterJoin(name, '%');
      LowerAppend(front, zone);
      LowerAppend(Lower(front), zone);
      LowerIdempotent(front);
    } else {
      LowerIdempotent(name);
      assert |Lower(name)| == |name|;
    }
    NormalizeLower(HostOf(netloc), name);
  }

  // ---------------------------------------------------------------- the authority of a padded url

  lemma {:induction false} DropBreaksAppend(a: string, b: string)
    ensures DropBreaks(a + b) == DropBreaks(a) + DropBreaks(b)
  {
    if a == "" {
      assert a + b == b;
    } else {
      assert (a + b)[0] == a[0] && (a + b)[1..] == a[1..] + b;
      DropBreaksAppend(a[1..], b);
    }
  }

  lemma {:induction false} DropBreaksMembers(s: string)
    ensures forall c :: c in DropBreaks(s) ==> c in s
  {
    if s != "" { DropBreaksMembers(s[1..]); }
  }

  lemma {:induction false} CutAppend(a: string, b: string)
    ensures Cut(a + b) == if Cut(a) == a then a + Cut(b) else Cut(a)
  {
    if a == "" {
      assert a + b == b;
    } else {
      assert (a + b)[0] == a[0] && (a + b)[1..] == a[1..] + b && a == [a[0]] + a[1..];
      CutAppend(a[1..], b);
    }
  }

  lemma {:induction false} CutWhole(s: string)
    requires forall c :: c in s ==> !EndsAuthority(c)
    ensures Cut(s) == s
  {
    if s != "" {
      assert s[0] in s && s == [s[0]] + s[1..];
      CutWhole(s[1..]);
    }
  }

  lemma {:induction false} CutMembers(s: string)
    ensures forall c :: c in Cut(s) ==> c in s && !EndsAuthority(c)
  {
    if s != "" { CutMembers(s[1..]); }
  }

  lemma MakeAround(a: string, x: string, b: string)
    requires Blanks(a) && Blanks(b)
    ensures Around(a + x + b, x) && Around(a + (x + b), x)
  {
    assert a + x + b == a + (x + b);
  }

  lemma BlanksStay(a: string)
    requires Blanks(a)
    ensures Blanks(DropBreaks(a)) && Cut(DropBreaks(a)) == DropBreaks(a)
  {
    DropBreaksMembers(a);
    assert forall c :: IsSpace(c) ==> !EndsAuthority(c);
    CutWhole(DropBreaks(a));
  }

  lemma CutBetween(a: string, x: string, b: string)
    requires Blanks(a) && Blanks(b) && Cut(a) == a && Cut(b) == b
    ensures Around(Cut(a + (x + b)), Cut(x))
  {
    hide Around, Blanks, Cut;
    CutAppend(a, x + b);
    CutAppend(x, b);
    NoBlanks();
    if Cut(x) == x {
      MakeAround(a, x, b);
    } else {
      MakeAround(a, Cut(x), "");
      assert Cut(x) + "" == Cut(x);
    }
  }

  /** White space around the text stays around its authority. */
  lemma CutAround(a: string, x: string, b: string)
    requires Blanks(a) && Blanks(b)
    ensures Around(Cut(DropBreaks(a + x + b)), Cut(DropBreaks(x)))
  {
    hide Around, Blanks, Cut, DropBreaks;
    var da, dx, db := DropBreaks(a), DropBreaks(x), DropBreaks(b);
    BlanksStay(a);
    BlanksStay(b);
    DropBreaksAppend(a + x, b);
    DropBreaksAppend(a, x);
    assert da + dx + db == da + (dx + db);
    CutBetween(da, dx, db);
  }

  lemma NoBlanks()
    ensures Blanks("")
  {}

  lemma {:induction false} BeforeAppend(s: string, b: string, sep: char)
    ensures Before(s + b, sep) == if sep in s then Before(s, sep) else s + Before(b, sep)
    ensures sep in s ==> After(s + b, sep) == After(s, sep) + b
  {
    if s == "" {
      assert s + b == b;
    } else {
      assert (s + b)[0] == s[0] && (s + b)[1..] == s[1..] + b && s == [s[0]] + s[1..];
      BeforeAppend(s[1..], b, sep);
    }
  }

  lemma {:induction false} AfterSkips(a: string, s: string, sep: char)
    requires sep !in a
    ensures Before(a + s, sep) == a + Before(s, sep) && (sep in s ==> After(a + s, sep) == After(s, sep))
  {
    if a == "" {
      assert a + s == s;
    } else {
      assert a[0] in a && (a + s)[0] == a[0] && (a + s)[1..] == a[1..] + s;
      AfterSkips(a[1..], s, sep);
    }
  }

  lemma {:induction false} AfterLastAppend(s: string, b: string, sep: char)
    requires sep !in b
    ensures AfterLast(s + b, sep) == AfterLast(s, sep) + b
    decreases |s|
  {
    if sep in s {
      BeforeAppend(s, b, sep);
      AfterShorter(s, sep);
      AfterLastAppend(After(s, sep), b, sep);
    }
  }

  lemma AfterLastSkips(a: string, s: string, sep: char)
    requires sep !in a
    ensures AfterLast(a + s, sep) == if sep in s then AfterLast(s, sep) else a + s
  {
    if sep in s { AfterSkips(a, s, sep); }
  }

  lemma InfoAround(a: string, n: string, b: string)
    requires Blanks(a) && Blanks(b)
    ensures AfterLast(a + n + b, '@') == (if '@' in n then "" else a) + (AfterLast(n, '@') + b)
  {
    hide AfterLast, Blanks;
    NoMarks(a);
    NoMarks(b);
    AfterLastAppend(a + n, b, '@');
    AfterLastSkips(a, n, '@');
    if '@' in n {
      assert AfterLast(a + n + b, '@') == "" + (AfterLast(n, '@') + b);
    } else {
      AfterLastNone(n, '@');
      assert a + n + b == a + (n + b);
    }
  }

  lemma AfterLastNone(s: string, sep: char)
    requires sep !in s
    ensures AfterLast(s, sep) == s
  {}

  lemma UnwrappedAround(a: string, info: string, b: string)
    requires Blanks(a) && Blanks(b)
    ensures Around(Unwrapped(a + (info + b)), Unwrapped(info))
  {
    hide Around, Blanks, Before, After;
    NoMarks(a);
    NoMarks(b);
    NoBlanks();
    if '[' in info {
      AfterSkips(a, info + b, '[');
      BeforeAppend(info, b, '[');
      BeforeAround("", After(info, '['), b, ']');
      assert "" + (After(info, '[') + b) == After(info, '[') + b;
    } else {
      BeforeAround(a, info, b, ':');
    }
  }

  lemma MarksAround(a: string, n: string, b: string)
    requires Blanks(a) && Blanks(b)
    ensures Malformed(a + n + b) <==> Malformed(n)
  {
    hide Blanks;
    NoMarks(a);
    NoMarks(b);
  }

  /** White space around the authority stays around the host. */
  lemma WrittenAround(s: string, n: string)
    requires Around(s, n)
    ensures Around(Written(s), Written(n)) && (Malformed(s) <==> Malformed(n))
  {
    var a, b :| Blanks(a) && Blanks(b) && s == a + n + b;
    hide Around, Blanks, Unwrapped, AfterLast, Malformed;
    NoBlanks();
    MarksAround(a, n, b);
    InfoAround(a, n, b);
    UnwrappedAround(if '@' in n then "" else a, AfterLast(n, '@'), b);
  }

  lemma BeforeAround(a: string, s: string, b: string, sep: char)
    requires Blanks(a) && Blanks(b) && sep !in a && sep !in b
    ensures Around(Before(a + (s + b), sep), Before(s, sep))
  {
    hide Around, Blanks, Before, After;
    AfterSkips(a, s + b, sep);
    BeforeAppend(s, b, sep);
    BeforeNone(b, sep);
    NoBlanks();
    if sep in s {
      MakeAround(a, Before(s, sep), "");
      assert Before(s, sep) + "" == Before(s, sep);
    } else {
      BeforeNone(s, sep);
      MakeAround(a, s, b);
    }
  }

  lemma NoMarks(a: string)
    requires Blanks(a)
    ensures '@' !in a && '[' !in a && ']' !in a && ':' !in a
  {
    assert !IsSpace('@') && !IsSpace('[') && !IsSpace(']') && !IsSpace(':');
  }

  // ---------------------------------------------------------------- when the gateway checks the scanned host

  lemma {:induction false} DropLeadBlanks(a: string, s: string)
    requires Blanks(a)
    ensures DropLead(a + s) == DropLead(s)
  {
    if a == "" {
      assert a + s == s;
    } else {
      assert a[0] in a && (a + s)[0] == a[0] && (a + s)[1..] == a[1..] + s;
      DropLeadBlanks(a[1..], s);
    }
  }

  predicate IsWebScheme(p: string) { p == "http" || p == "https" }

  lemma SchemeOf(p: string, rest: string)
    requires IsScheme(p)
    ensures Text(p + (":" + rest)) == p + (":" + DropBreaks(rest)) && Rest(Text(p + (":" + rest))) == DropBreaks(rest)
  {
    hide DropBreaks;
    var s, d := p + (":" + rest), DropBreaks(rest);
    assert s[0] == p[0] && !IsControl(s[0]);
    NoBreaks(p);
    NoBreaks(":");
    DropBreaksAppend(p, ":" + rest);
    DropBreaksAppend(":", rest);
    SchemeMarks(p);
    assert p + (":" + d) == p + [':'] + d;
    BeforeAfter(p, ':', d);
  }

  lemma SchemeMarks(p: string)
    requires IsScheme(p)
    ensures forall c :: c in p ==> !EndsAuthority(c) && c !in ":@[]%" && !IsSpace(c)
  {}

  lemma {:induction false} NoBreaks(s: string)
    requires forall c :: c in s ==> !IsBreak(c)
    ensures DropBreaks(s) == s
  {
    if s != "" {
      assert s[0] in s && s == [s[0]] + s[1..];
      NoBreaks(s[1..]);
    }
  }

  /** The authority of a url that starts with a web scheme. */
  lemma WebNetloc(p: string, rest: string)
    requires IsWebScheme(p)
    ensures Netloc(p + ("://" + rest)) == Cut(DropBreaks(rest))
  {
    hide DropBreaks, Cut;
    assert IsScheme(p);
    assert p + ("://" + rest) == p + (":" + ("//" + rest));
    SchemeOf(p, "//" + rest);
    NoBreaks("//");
    DropBreaksAppend("//", rest);
    assert ("//" + DropBreaks(rest))[2..] == DropBreaks(rest);
  }

  /** Both readings agree when the checked authority is the target's with white space around it. */
  lemma AroundAgrees(url: string)
    requires Around(Netloc(if HasSeparator(url) then url else "https://" + url), Netloc(TargetUrl(url)))
    ensures ChecksTarget(url)
  {
    hide Around, Written, HostOf, Malformed, NormalizeHost, Netloc, TargetUrl, HasSeparator;
    var n, t := Netloc(if HasSeparator(url) then url else "https://" + url), Netloc(TargetUrl(url));
    WrittenAround(n, t);
    HostOfWritten(n);
    HostOfWritten(t);
    NormalizeAround(Written(n), Written(t));
    if HostOf(n) == "" { AroundEmpty(Written(t)); }
  }

  lemma AroundEmpty(x: string)
    ensures Around("", x) ==> x == ""
  {}

  lemma HttpFormSeparated(url: string)
    ensures HttpForm(url) ==> HasSeparator(url)
  {
    hide Strip;
    var a, b := AroundStrip(url);
    var p := if "http://" <= Strip(url) then "http" else "https";
    if HttpForm(url) {
      var x := Strip(url)[|p| + 3..];
      assert Strip(url) == p + ("://" + x);
      HttpHasSeparator(url, a, p, x, b);
    }
  }

  /** A url without "://" is read alike by the gateway and by the worker. */
  lemma {:induction false} PlainFormAgrees(url: string)
    requires !HasSeparator(url)
    ensures ChecksTarget(url)
  {
    hide Around, Cut, DropBreaks, Blanks, ChecksTarget, Netloc;
    var a, b := AroundStrip(url);
    HttpFormSeparated(url);
    var x := Strip(url);
    assert "https://" + url == "https" + ("://" + url) && "https://" + x == "https" + ("://" + x);
    WebNetloc("https", url);
    WebNetloc("https", x);
    CutAround(a, x, b);
    AroundAgrees(url);
  }

  /** So is a url that starts with a web scheme after its leading white space. */
  lemma {:induction false} HttpFormAgrees(url: string)
    requires HttpForm(url)
    ensures ChecksTarget(url)
  {
    hide Around, Cut, DropBreaks, Blanks, ChecksTarget, Netloc, DropLead;
    var a, b := AroundStrip(url);
    var p := if "http://" <= Strip(url) then "http" else "https";
    var x := Strip(url)[|p| + 3..];
    assert Strip(url) == p + ("://" + x);
    HttpFormSeparated(url);
    WebNetloc(p, x);
    WebNetloc(p, x + b);
    assert url == a + (p + ("://" + (x + b)));
    LeadingBlanks(a, p + ("://" + (x + b)));
    NoBlanks();
    CutAround("", x, b);
    assert "" + x + b == x + b;
    AroundAgrees(url);
  }

  lemma LeadingBlanks(a: string, s: string)
    requires Blanks(a)
    ensures Netloc(a + s) == Netloc(s)
  {
    DropLeadBlanks(a, s);
  }

  lemma HttpHasSeparator(url: string, a: string, p: string, x: string, b: string)
    requires url == a + (p + ("://" + x)) + b
    ensures HasSeparator(url)
  {
    assert "://" <= url[|a| + |p|..];
  }

  // ---------------------------------------------------------------- the exact condition

  lemma {:induction false} BeforeAfterMembers(s: string, sep: char)
    ensures forall c :: c in Before(s, sep) || c in After(s, sep) ==> c in s
  {
    if s != "" {
      BeforeAfterMembers(s[1..], sep);
      assert s == [s[0]] + s[1..];
    }
  }

  lemma {:induction false} AfterLastMembers(s: string, sep: char)
    ensures forall c :: c in AfterLast(s, sep) ==> c in s
    decreases |s|
  {
    if sep in s {
      AfterShorter(s, sep);
      BeforeAfterMembers(s, sep);
      AfterLastMembers(After(s, sep), sep);
    }
  }

  lemma WrittenMembers(netloc: string)
    ensures forall c :: c in Written(netloc) ==> c in netloc
  {
    var info := AfterLast(netloc, '@');
    AfterLastMembers(netloc, '@');
    BeforeAfterMembers(info, '[');
    BeforeAfterMembers(After(info, '['), ']');
    BeforeAfterMembers(info, ':');
  }

  lemma {:induction false} DropDotsMembers(s: string, c: char)
    ensures c in DropDots(s) ==> c in s
    ensures c != '.' && c in s ==> c in DropDots(s)
  {
    if s != "" && s[|s| - 1] == '.' {
      DropDotsMembers(s[..|s| - 1], c);
      assert s == s[..|s| - 1] + ['.'];
    }
  }

  lemma {:induction false} LowerSlash(s: string)
    ensures '/' in Lower(s) <==> '/' in s
  {
    if s != "" {
      LowerSlash(s[1..]);
      assert s == [s[0]] + s[1..];
    }
  }

  /** A slash stays in a host's normal form. */
  lemma NormalizeSlash(s: string)
    ensures '/' in NormalizeHost(s) <==> '/' in s
  {
    hide Strip, Lower, DropDots;
    var a, b := AroundStrip(s);
    assert !IsSpace('/');
    LowerSlash(Strip(s));
    DropDotsMembers(Lower(Strip(s)), '/');
  }

  /** A url with "://" is no host. */
  lemma UrlIsNoHost(url: string, x: string)
    requires HasSeparator(url)
    ensures NormalizeHost(url) != NormalizeHost(HostOf(Cut(x)))
  {
    hide Cut, Written, HostOf, NormalizeHost;
    var i :| 0 <= i <= |url| && "://" <= url[i..];
    assert url[i + 1] == url[i..][1] == '/';
    NormalizeSlash(url);
    HostOfWritten(Cut(x));
    CutMembers(x);
    WrittenMembers(Cut(x));
    NormalizeSlash(Written(Cut(x)));
  }

  /** The host after the url's own "//" is also what stands before the first slash, as in "ftp://ftp/". */
  predicate RepeatsHost(url: string) {
    var rest := Rest(Text(url));
    && "//" <= rest && HostOf(Cut(rest[2..])) != ""
    && NormalizeHost(HostOf(Cut(rest[2..]))) == NormalizeHost(HostOf(Cut(DropBreaks(Strip(url)))))
  }

  /**
    The gateway checks the host that is scanned exactly for urls without "://", urls that start with
    a web scheme, and the freak case of a url that repeats its host, unless parsing raises or there is
    no target at all.
   */
  lemma {:induction false} ChecksTargetExactly(url: string)
    ensures ChecksTarget(url) <==>
      !HasSeparator(url) || HttpForm(url) || RepeatsHost(url) || CheckedHost(url).None? || TargetHost(url).None?
  {
    if !HasSeparator(url) {
      PlainFormAgrees(url);
    } else if HttpForm(url) {
      HttpFormAgrees(url);
    } else {
      hide NormalizeHost, HostOf, Cut, DropBreaks, Strip, Rest, Text, HasSeparator;
      var x, rest := Strip(url), Rest(Text(url));
      assert "https://" + x == "https" + ("://" + x);
      WebNetloc("https", x);
      UrlIsNoHost(url, DropBreaks(x));
    }
  }

  lemma SchemeIsHost(scheme: string)
    requires IsScheme(scheme)
    ensures HostOf(scheme + ":") == Lower(scheme) && NormalizeHost(Lower(scheme)) == NormalizeHost(scheme) != ""
  {
    SchemeMarks(scheme);
    assert scheme[0] in scheme && scheme[|scheme| - 1] in scheme;
    assert scheme + ":" == scheme + [':'] + "";
    BeforeAfter(scheme, ':', "");
    assert '@' !in scheme + ":" && '[' !in scheme + ":";
    StripClean(scheme);
    LowerIdempotent(scheme);
    NormalizeLower(Lower(scheme), scheme);
    LowerAt(scheme, 0);
    assert Lower(scheme)[0] in Lower(scheme);
    DropDotsMembers(Lower(scheme), Lower(scheme)[0]);
  }

  /** The worker takes another scheme for the host. */
  lemma ForeignTarget(scheme: string, rest: string)
    requires IsScheme(scheme) && !IsWebScheme(scheme) && Clean(scheme + ("://" + rest))
    ensures var url := scheme + ("://" + rest);
      && HasSeparator(url) && !HttpForm(url) && HostOf(Cut(DropBreaks(Strip(url)))) == Lower(scheme)
      && TargetHost(url) == Some(Lower(scheme))
  {
    hide NormalizeHost, HostOf, Strip, Netloc, Cut, DropBreaks, Lower, HasSeparator;
    var url := scheme + ("://" + rest);
    StripClean(url);
    assert url == "" + (scheme + ("://" + rest)) + "";
    HttpHasSeparator(url, "", scheme, rest, "");
    NotWeb(scheme, rest);
    ForeignNetloc(scheme, rest);
    SchemeIsHost(scheme);
    assert "https://" + url == "https" + ("://" + url);
    WebNetloc("https", url);
    SchemeMarks(scheme);
    assert '[' !in scheme + ":" && ']' !in scheme + ":" && |Lower(scheme)| > 0;
  }

  lemma ForeignNetloc(scheme: string, rest: string)
    requires IsScheme(scheme)
    ensures Cut(DropBreaks(scheme + ("://" + rest))) == scheme + ":"
  {
    SchemeMarks(scheme);
    var front, back := scheme + ":", "//" + rest;
    assert scheme + ("://" + rest) == front + back;
    NoBreaks(front);
    DropBreaksAppend(front, back);
    CutWhole(front);
    CutAppend(front, DropBreaks(back));
    assert DropBreaks(back)[0] == '/';
    assert front + "" == front;
  }

  lemma NotWeb(scheme: string, rest: string)
    requires IsScheme(scheme) && !IsWebScheme(scheme)
    ensures !("http://" <= scheme + ("://" + rest)) && !("https://" <= scheme + ("://" + rest))
  {
    SchemeMarks(scheme);
    var url := scheme + ("://" + rest);
    forall p | IsWebScheme(p) ensures !(p + "://" <= url) {
      if |scheme| <= |p| && |scheme| != |p| {
        assert url[|scheme|] == ':' && (p + "://")[|scheme|] != ':';
      } else if |scheme| > |p| {
        assert url[|p|] == scheme[|p|] && scheme[|p|] in scheme && (p + "://")[|p|] == ':';
      } else {
        assert url[..|p|] == scheme && (p + "://")[..|p|] == p;
      }
    }
    assert "http" + "://" == "http://" && "https" + "://" == "https://";
  }

  lemma OwnAuthority(scheme: string, rest: string)
    requires IsScheme(scheme)
    ensures var r := Rest(Text(scheme + ("://" + rest)));
      "//" <= r && r[2..] == DropBreaks(rest)
  {
    hide DropBreaks, Rest, Text;
    SchemeOf(scheme, "//" + rest);
    assert scheme + (":" + ("//" + rest)) == scheme + ("://" + rest);
    NoBreaks("//");
    DropBreaksAppend("//", rest);
    assert ("//" + DropBreaks(rest))[2..] == DropBreaks(rest);
  }

  /** For a url with another scheme: only if its host is named like the scheme, or parsing raises. */
  lemma {:induction false} ForeignSchemeExactly(scheme: string, rest: string)
    requires IsScheme(scheme) && !IsWebScheme(scheme) && Clean(scheme + ("://" + rest))
    ensures var n := Cut(DropBreaks(rest));
      ChecksTarget(scheme + ("://" + rest)) <==> Malformed(n) || NormalizeHost(HostOf(n)) == NormalizeHost(scheme)
  {
    hide NormalizeHost, DropBreaks, Cut, HostOf, Strip, Rest, Text, Lower, HasSeparator, Clean, IsScheme, TargetHost;
    var url := scheme + ("://" + rest);
    OwnAuthority(scheme, rest);
    ForeignTarget(scheme, rest);
    SchemeIsHost(scheme);
    ChecksTargetExactly(url);
    NormalizeEmpty();
  }

  lemma NormalizeEmpty()
    ensures NormalizeHost("") == ""
  {}

  // ---------------------------------------------------------------- blocked targets that pass

  /** A host in its usual spelling. */
  predicate PlainHost(h: string) {
    h != "" && forall c :: c in h ==> 'a' <= c <= 'z' || IsDigit(c) || c == '.' || c == '-'
  }

  function UrlInQuery(h: string): string { h + "/?next=https://z" }

  /** For every blocked host some url is checked as a whole, is not blocked, and has the host scanned. */
  lemma {:induction false} UrlInQueryPasses(h: string)
    requires PlainHost(h) && IsBlocklisted(h)
    ensures var url := UrlInQuery(h);
      && TargetHost(url) == Some(h) && TargetBlocked(url)
      && CheckedHost(url) == Some(url) && !IsBlocklisted(url)
  {
    hide NormalizeHost, IsBlocklisted;
    UrlInQueryTarget(h);
    UrlInQueryChecked(h);
    NeverBlocked(h + "/?next=https://");
    assert UrlInQuery(h) == h + "/?next=https://" + "z";
  }

  lemma PlainHostOf(h: string)
    requires PlainHost(h)
    ensures HostOf(h) == h && !Malformed(h) && Cut(h) == h && DropBreaks(h) == h
  {
    assert '@' !in h && '[' !in h && ']' !in h && ':' !in h && '%' !in h;
    BeforeNone(h, ':');
    LowerPlain(h);
    CutWhole(h);
    NoBreaks(h);
  }

  lemma UrlInQueryTarget(h: string)
    requires PlainHost(h)
    ensures HasSeparator(UrlInQuery(h)) && TargetHost(UrlInQuery(h)) == Some(h)
  {
    hide HostOf, Cut, DropBreaks, Netloc;
    var url, tail := UrlInQuery(h), "/?next=https://z";
    PlainHostOf(h);
    assert url[0] in h && url[|url| - 1] == 'z';
    StripClean(url);
    assert url == (h + "/?next=") + ("https" + ("://" + "z")) + "";
    HttpHasSeparator(url, h + "/?next=", "https", "z", "");
    HostNotWeb(h);
    assert "https://" + url == "https" + ("://" + url);
    WebNetloc("https", url);
    NoBreaks(tail);
    DropBreaksAppend(h, tail);
    CutAppend(h, tail);
    CutTail();
    assert h + "" == h;
  }

  lemma CutTail()
    ensures Cut("/?next=https://z") == ""
  {}

  lemma HostNotWeb(h: string)
    requires PlainHost(h)
    ensures !("http://" <= UrlInQuery(h)) && !("https://" <= UrlInQuery(h))
  {
    var url := UrlInQuery(h);
    assert url[|h|] == '/';
    if |h| > 4 { assert url[4] in h; }
    if |h| > 5 { assert url[5] in h; }
    assert |h| == 4 ==> url[4] == '/';
    assert |h| == 5 ==> url[5] == '/';
    assert "http://"[4] == ':' && "https://"[5] == ':';
    assert |h| < 4 ==> url[|h|] == '/' && "http://"[|h|] != '/' && "https://"[|h|] != '/';
  }

  lemma UrlInQueryText(h: string)
    requires PlainHost(h)
    ensures Text(UrlInQuery(h)) == UrlInQuery(h)
  {
    hide DropBreaks, HostOf, Malformed, Cut;
    var tail := "/?next=https://z";
    assert UrlInQuery(h) == h + tail && UrlInQuery(h)[0] == h[0] && h[0] in h;
    PlainHostOf(h);
    NoBreaks(tail);
    DropBreaksAppend(h, tail);
  }

  lemma UrlInQueryRest(h: string)
    requires PlainHost(h)
    ensures Rest(UrlInQuery(h)) == UrlInQuery(h)
  {
    hide After;
    var front := h + "/?next=https";
    assert UrlInQuery(h) == front + [':'] + "//z";
    assert ':' !in h && ':' !in front;
    BeforeAfter(front, ':', "//z");
    assert front[|h|] == '/' && '/' in front;
  }

  lemma UrlInQueryChecked(h: string)
    requires PlainHost(h) && HasSeparator(UrlInQuery(h))
    ensures CheckedHost(UrlInQuery(h)) == Some(UrlInQuery(h))
  {
    hide HasSeparator, Cut, Rest, Text, HostOf;
    UrlInQueryText(h);
    UrlInQueryRest(h);
    assert UrlInQuery(h)[0] == h[0] && h[0] in h && h[0] != '/';
    NoHost();
  }

  lemma NoHost()
    ensures HostOf("") == ""
  {}

  /** No blocked domain ends in "z". */
  lemma NeverBlocked(s: string)
    ensures !IsBlocklisted(s + "z")
  {
    hide NormalizeHost;
    EndsInZ(s + "z");
    var host := NormalizeHost(s + "z");
    forall d | d in BLOCKED_DOMAINS + BLOCKED_SUFFIXES ensures !Under(host, d) {
      assert d != "" && d[|d| - 1] != 'z';
    }
  }

  lemma EndsInZ(url: string)
    requires url != "" && url[|url| - 1] == 'z'
    ensures NormalizeHost(url) != "" && NormalizeHost(url)[|NormalizeHost(url)| - 1] == 'z'
  {
    LStripKeepsLast(url);
    var x := LStrip(url);
    LowerAt(x, |x| - 1);
  }

  lemma {:induction false} LStripKeepsLast(s: string)
    requires s != "" && !IsSpace(s[|s| - 1])
    ensures LStrip(s) != "" && LStrip(s)[|LStrip(s)| - 1] == s[|s| - 1]
  {
    if IsSpace(s[0]) { LStripKeepsLast(s[1..]); }
  }
}
