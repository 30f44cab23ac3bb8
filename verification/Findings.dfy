/** Normalized findings and their deduplication. */
module Findings {
  import opened Strings
  import opened KeyedFold

  /** A scout's finding before normalization; `None` is a key the dictionary lacks. */
  datatype RawFinding = RawFinding(
    title: Option<string>, kind: Option<string>, cve: Option<string>, severity: Option<string>,
    confidence: RawConfidence, cwe: Option<string>, owasp: Option<string>, location: Option<string>,
    header: Option<string>, jsFile: Option<string>, evidence: string, tier: Option<string>, nestedTier: Option<string>)

  datatype RawConfidence = Missing | Number(n: int) | Text(s: string)

  datatype Finding = Finding(
    mod: string, title: string, severity: string, confidence: string, cwe: string, owasp: string, location: string,
    evidence: string, tier: string)

  const SEVERITIES := ["critical", "high", "medium", "low", "info"]
  const CONFIDENCES := ["verified-live", "verified-static", "plausible-unconfirmed", "informational"]

  /** `a or b`: a missing or empty string counts as false. */
  function Or(a: Option<string>, b: string): string {
    if a.Some? && a.value != "" then a.value else b
  }

  function Truncate(s: string, n: nat): string { if |s| <= n then s else s[..n] }

  function ConfidenceTier(c: RawConfidence): (r: string)
    ensures r in CONFIDENCES
  {
    var number := match c
      case Missing => Some(50)
      case Number(n) => Some(n)
      case Text(s) => PyInt(s);
    if c.Text? && c.s in CONFIDENCES then c.s
    else if number.None? then "informational"
    else if number.value >= 90 then "verified-live"
    else if number.value >= 70 then "verified-static"
    else if number.value >= 30 then "plausible-unconfirmed"
    else "informational"
  }

  function Normalize(raw: RawFinding, mod: string): (f: Finding)
    ensures f.severity in SEVERITIES && f.confidence in CONFIDENCES && f.mod == mod && f.title != ""
  {
    var severity := Lower(Or(raw.severity, "info"));
    Finding(
      mod,
      Truncate(Or(raw.title, Or(raw.kind, Or(raw.cve, "Unknown Finding"))), 200),
      if severity in SEVERITIES then severity else "info",
      ConfidenceTier(raw.confidence),
      Or(raw.cwe, ""), Or(raw.owasp, ""),
      Truncate(Or(raw.location, Or(raw.header, Or(raw.jsFile, ""))), 500),
      Truncate(raw.evidence, 1000),
      Truncate(Or(raw.tier, Or(raw.nestedTier, "")), 50))
  }

  /** A normalized finding as a dictionary again. */
  function AsRaw(f: Finding): RawFinding {
    RawFinding(Some(f.title), None, None, Some(f.severity), Text(f.confidence), Some(f.cwe), Some(f.owasp),
      Some(f.location), None, None, f.evidence, Some(f.tier), None)
  }

  lemma LowerInfo()
    ensures Lower("info") == "info"
  {
    assert "info"[1..] == "nfo" && "nfo"[1..] == "fo" && "fo"[1..] == "o" && "o"[1..] == "";
    assert Lower("fo") == "fo";
  }

  /** Normalizing a normalized finding changes nothing. */
  lemma {:induction false} NormalizeTwice(raw: RawFinding, mod: string)
    ensures Normalize(AsRaw(Normalize(raw, mod)), mod) == Normalize(raw, mod)
  {
    hide Lower;
    LowerIdempotent(Or(raw.severity, "info"));
    LowerInfo();
  }

  /** `r` is the first text given that is not empty, or else the default. */
  ghost predicate FirstGiven(texts: seq<Option<string>>, default: string, r: string) {
    || (exists i :: 0 <= i < |texts| && texts[i] == Some(r) && r != ""
          && forall j :: 0 <= j < i ==> texts[j] in {None, Some("")})
    || (r == default && forall j :: 0 <= j < |texts| ==> texts[j] in {None, Some("")})
  }

  /** `r` is the text, or the first `n` characters of a longer one. */
  predicate CutTo(text: string, n: nat, r: string) { r <= text && |r| <= n && (|r| == n || r == text) }

  /** A permitted severity is kept in any letter case, any other becomes "info". */
  lemma {:induction false} SeverityKept(raw: RawFinding, mod: string, s: string)
    requires s in SEVERITIES
    ensures Normalize(raw, mod).severity == s <==>
      || (raw.severity.Some? && Lower(raw.severity.value) == s)
      || (s == "info" && (raw.severity.None? || Lower(raw.severity.value) !in SEVERITIES))
  {
    hide Lower;
    LowerInfo();
    LowerNothing();
  }

  lemma LowerNothing()
    ensures Lower("") == ""
  {}

  /** Each text is the first one given for it, cut to its length. */
  lemma {:induction false} FieldsKept(raw: RawFinding, mod: string) returns (title: string, place: string, tier: string)
    ensures FirstGiven([raw.title, raw.kind, raw.cve], "Unknown Finding", title)
    ensures FirstGiven([raw.location, raw.header, raw.jsFile], "", place)
    ensures FirstGiven([raw.tier, raw.nestedTier], "", tier)
    ensures var f := Normalize(raw, mod);
      && CutTo(title, 200, f.title) && CutTo(place, 500, f.location) && CutTo(tier, 50, f.tier)
      && CutTo(raw.evidence, 1000, f.evidence)
      && FirstGiven([raw.cwe], "", f.cwe) && FirstGiven([raw.owasp], "", f.owasp)
  {
    title := Or(raw.title, Or(raw.kind, Or(raw.cve, "Unknown Finding")));
    place := Or(raw.location, Or(raw.header, Or(raw.jsFile, "")));
    tier := Or(raw.tier, Or(raw.nestedTier, ""));
    FirstOfThree(raw.title, raw.kind, raw.cve, "Unknown Finding");
    FirstOfThree(raw.location, raw.header, raw.jsFile, "");
    FirstOfTwo(raw.tier, raw.nestedTier, "");
    FirstOfOne(raw.cwe);
    FirstOfOne(raw.owasp);
  }

  lemma FirstOfThree(a: Option<string>, b: Option<string>, c: Option<string>, d: string)
    ensures FirstGiven([a, b, c], d, Or(a, Or(b, Or(c, d))))
  {
    var texts := [a, b, c];
    assert texts[0] == a && texts[1] == b && texts[2] == c;
  }

  lemma FirstOfTwo(a: Option<string>, b: Option<string>, d: string)
    ensures FirstGiven([a, b], d, Or(a, Or(b, d)))
  {
    var texts := [a, b];
    assert texts[0] == a && texts[1] == b;
  }

  lemma FirstOfOne(a: Option<string>)
    ensures FirstGiven([a], "", Or(a, ""))
  {
    var texts := [a];
    assert texts[0] == a;
  }

  const THRESHOLDS: set<int> := {30, 70, 90}

  /** A number passes one tier at 30, at 70 and at 90. */
  lemma {:induction false} ThresholdsPassed(n: int)
    ensures ConfidenceRank(ConfidenceTier(Number(n))) == 1 + |set t | t in THRESHOLDS && t <= n|
  {
    var passed := set t | t in THRESHOLDS && t <= n;
    if n < 30 { assert passed == {}; }
    else if n < 70 { assert passed == {30}; }
    else if n < 90 { assert passed == {30, 70}; }
    else { assert passed == {30, 70, 90}; }
  }

  /** A permitted tier is kept, a numeral counts as its number, a missing one as 50, anything else as informational. */
  lemma {:induction false} ConfidenceRead(n: nat, s: string)
    ensures s in CONFIDENCES ==> ConfidenceTier(Text(s)) == s
    ensures ConfidenceTier(Text(Decimal(n))) == ConfidenceTier(Number(n))
    ensures ConfidenceTier(Missing) == ConfidenceTier(Number(50))
    ensures s !in CONFIDENCES && PyInt(s).None? ==> ConfidenceTier(Text(s)) == "informational"
  {
    hide PyInt, Decimal;
    NumeralRead(n);
  }

  lemma NumeralRead(n: nat)
    ensures PyInt(Decimal(n)) == Some(n) && Decimal(n) !in CONFIDENCES
  {
    hide PyInt;
    DecimalValue(n);
    PyIntDigits(Decimal(n));
    assert IsDigit(Decimal(n)[0]) by { assert Decimal(n)[0] in Decimal(n); }
    assert forall c :: c in CONFIDENCES ==> !IsDigit(c[0]);
  }

  // ---------------------------------------------------------------- deduplication

  function ConfidenceRank(c: string): nat {
    if c == "verified-live" then 4 else if c == "verified-static" then 3
    else if c == "plausible-unconfirmed" then 2 else if c == "informational" then 1 else 0
  }

  function SeverityRank(s: string): nat {
    if s == "critical" then 4 else if s == "high" then 3 else if s == "medium" then 2 else if s == "low" then 1 else 0
  }

  function Place(f: Finding): string { Lower(Strip(f.location)) }

  /** The deduplication key: five fields joined by bars. */
  function Key(f: Finding): string {
    f.mod + ['|'] + (f.title + ['|'] + (f.cwe + ['|'] + (f.owasp + ['|'] + Place(f))))
  }

  /** `f` is more confident than `g`, or as confident and more severe. */
  predicate Better(f: Finding, g: Finding) {
    var cf, cg := ConfidenceRank(f.confidence), ConfidenceRank(g.confidence);
    cf > cg || (cf == cg && SeverityRank(f.severity) > SeverityRank(g.severity))
  }

  /** The place of a value in its list, the most severe or most confident first; unknown values stand last. */
  function PlaceIn(list: seq<string>, s: string): nat {
    if list == [] || list[0] == s then 0 else 1 + PlaceIn(list[1..], s)
  }

  /** Of two normalized findings the better one is more confident, or as confident and more severe. */
  lemma {:induction false} BetterExactly(f: Finding, g: Finding)
    requires f.confidence in CONFIDENCES && g.confidence in CONFIDENCES
    requires f.severity in SEVERITIES && g.severity in SEVERITIES
    ensures var cf, cg := PlaceIn(CONFIDENCES, f.confidence), PlaceIn(CONFIDENCES, g.confidence);
      Better(f, g) <==>
        cf < cg || (cf == cg && PlaceIn(SEVERITIES, f.severity) < PlaceIn(SEVERITIES, g.severity))
  {
    ConfidencePlaces(f.confidence);
    ConfidencePlaces(g.confidence);
    SeverityPlaces(f.severity);
    SeverityPlaces(g.severity);
  }

  /** Anything unknown ranks below or with the last. */
  lemma {:induction false} UnknownRanksLast(s: string)
    ensures ConfidenceRank(s) == 0 <==> s !in CONFIDENCES
    ensures s !in SEVERITIES ==> SeverityRank(s) == 0
  {}

  lemma ConfidencePlaces(c: string)
    requires c in CONFIDENCES
    ensures ConfidenceRank(c) + PlaceIn(CONFIDENCES, c) == 4
  {
    var list := CONFIDENCES;
    assert list[1..][1..] == list[2..] && list[2..][1..] == list[3..];
  }

  lemma SeverityPlaces(s: string)
    requires s in SEVERITIES
    ensures SeverityRank(s) + PlaceIn(SEVERITIES, s) == 4
  {
    var list := SEVERITIES;
    assert list[1..][1..] == list[2..] && list[2..][1..] == list[3..] && list[3..][1..] == list[4..];
  }

  function Keep(g: Finding, f: Finding): Finding { if Better(f, g) then f else g }

  function Dedup(findings: seq<Finding>): seq<Finding> { Merge(findings, Key, Keep) }

  method DeduplicateFindings(findings: seq<Finding>) returns (out: seq<Finding>)
    ensures out == Dedup(findings)
  {
    hide Key, Better, FirstKeys, Dict, Merge;
    var best: map<string, Finding> := map[];
    var order: seq<string> := [];
    DictEmpty(findings[..0], Key, Keep);
    for i := 0 to |findings|
      invariant order == FirstKeys(findings[..i], Key)
      invariant best == Dict(findings[..i], Key, Keep)
    {
      var f := findings[i];
      var key := Key(f);
      DictStep(findings, i, Key, Keep);
      if key !in best {
        best := best[key := f];
        order := order + [key];
      } else if Better(f, best[key]) {
        best := best[key := f];
      }
    }
    assert findings[..|findings|] == findings;
    forall i | 0 <= i < |order| ensures order[i] in best && Dedup(findings)[i] == best[order[i]] {
      MergeIsDict(findings, Key, Keep, i);
    }
    out := seq(|order|, i requires 0 <= i < |order| && order[i] in best => best[order[i]]);
  }

  lemma KeepFacts()
    ensures KeepsKey(Key, Keep) && StrictWeakOrder(Better)
  {
    hide Key;
  }

  /**
    For each key, in the order the keys first occur, the output has the first finding of that key
    that no finding of that key betters; deduplicating again changes nothing.
   */
  lemma {:induction false} DedupExactly(findings: seq<Finding>)
    ensures var out, keys := Dedup(findings), FirstKeys(findings, Key);
      && |out| == |keys|
      && (forall i :: 0 <= i < |out| ==>
        Key(out[i]) == keys[i] && FirstBest(Group(findings, Key, keys[i]), Better, out[i]))
      && (forall i, j :: 0 <= i < j < |out| ==> Key(out[i]) != Key(out[j]))
      && Dedup(out) == out
  {
    hide Key, Better;
    KeepFacts();
    forall i | 0 <= i < |Dedup(findings)|
      ensures var k := FirstKeys(findings, Key)[i];
        Key(Dedup(findings)[i]) == k && FirstBest(Group(findings, Key, k), Better, Dedup(findings)[i])
    {
      MergeAt(findings, Key, Keep, i);
      FoldFirstBest(Group(findings, Key, FirstKeys(findings, Key)[i]), Better, Keep);
    }
    MergeIdempotent(findings, Key, Keep);
  }

  /** Nothing is invented, and every finding is kept or stands behind one of its key that it does not better. */
  lemma {:induction false} DedupDominates(findings: seq<Finding>)
    ensures forall g :: g in Dedup(findings) ==> g in findings
    ensures forall f :: f in findings ==> exists g :: g in Dedup(findings) && Key(g) == Key(f) && !Better(f, g)
  {
    hide Key, Better;
    KeepFacts();
    var out := Dedup(findings);
    DedupExactly(findings);
    forall i | 0 <= i < |out| ensures out[i] in findings {
      var g := Group(findings, Key, FirstKeys(findings, Key)[i]);
      GroupMembers(findings, Key, FirstKeys(findings, Key)[i]);
      var j :| BestAt(g, Better, j) && g[j] == out[i];
      assert g[j] in g;
    }
    forall f | f in findings ensures exists g :: g in out && Key(g) == Key(f) && !Better(f, g) {
      var n := MergeHas(findings, Key, Keep, f);
      var j :| 0 <= j < |Group(findings, Key, Key(f))| && Group(findings, Key, Key(f))[j] == f;
      assert out[n] in out;
    }
  }

  /** When the first four fields have no bar, equal keys mean equal fields. */
  lemma {:induction false} KeySeparates(f: Finding, g: Finding)
    requires '|' !in f.mod && '|' !in f.title && '|' !in f.cwe && '|' !in f.owasp
    requires '|' !in g.mod && '|' !in g.title && '|' !in g.cwe && '|' !in g.owasp
    ensures Key(f) == Key(g) <==>
      f.mod == g.mod && f.title == g.title && f.cwe == g.cwe && f.owasp == g.owasp && Place(f) == Place(g)
  {
    hide Place;
    if Key(f) == Key(g) {
      BarSeparates(f.mod, f.title + ['|'] + (f.cwe + ['|'] + (f.owasp + ['|'] + Place(f))),
                   g.mod, g.title + ['|'] + (g.cwe + ['|'] + (g.owasp + ['|'] + Place(g))));
      BarSeparates(f.title, f.cwe + ['|'] + (f.owasp + ['|'] + Place(f)), g.title,
        g.cwe + ['|'] + (g.owasp + ['|'] + Place(g)));
      BarSeparates(f.cwe, f.owasp + ['|'] + Place(f), g.cwe, g.owasp + ['|'] + Place(g));
      BarSeparates(f.owasp, Place(f), g.owasp, Place(g));
    }
  }

  lemma BarSeparates(a: string, x: string, b: string, y: string)
    requires '|' !in a && '|' !in b && a + ['|'] + x == b + ['|'] + y
    ensures a == b && x == y
  {
    SplitAt(a, '|', x);
    SplitAt(b, '|', y);
    assert ([a] + Split(x, '|'))[0] == a && ([b] + Split(y, '|'))[0] == b;
    assert (a + ['|'] + x)[|a| + 1..] == x && (b + ['|'] + y)[|b| + 1..] == y;
  }

  // ---------------------------------------------------------------- which keys are unique

  predicate SameFields(f: Finding, g: Finding) {
    f.mod == g.mod && f.title == g.title && f.cwe == g.cwe && f.owasp == g.owasp && Place(f) == Place(g)
  }

  /** No finding with other fields has the key of `f`. */
  ghost predicate KeyIdentifies(f: Finding) {
    forall g :: Key(g) == Key(f) ==> SameFields(f, g)
  }

  /** No bar in the first four fields, and every bar in the place is followed by white space. */
  predicate BarsHarmless(f: Finding) {
    && '|' !in f.mod && '|' !in f.title && '|' !in f.cwe && '|' !in f.owasp
    && forall i :: 0 <= i < |Place(f)| && Place(f)[i] == '|' ==> i + 1 < |Place(f)| && IsSpace(Place(f)[i + 1])
  }

  function Front(f: Finding): string { f.mod + ['|'] + (f.title + ['|'] + (f.cwe + ['|'] + f.owasp)) }

  lemma KeyOfFront(f: Finding)
    ensures Key(f) == Front(f) + ['|'] + Place(f)
  {
    hide Place;
    var p := ['|'] + Place(f);
    assert f.owasp + ['|'] + Place(f) == f.owasp + p;
    assert f.cwe + ['|'] + (f.owasp + p) == (f.cwe + ['|'] + f.owasp) + p;
    assert f.title + ['|'] + ((f.cwe + ['|'] + f.owasp) + p) == (f.title + ['|'] + (f.cwe + ['|'] + f.owasp)) + p;
    assert Front(f) + ['|'] + Place(f) == Front(f) + p;
  }

  function Bars(s: string): nat { if s == "" then 0 else (if s[0] == '|' then 1 else 0) + Bars(s[1..]) }

  lemma {:induction false} BarsAppend(a: string, b: string)
    ensures Bars(a + b) == Bars(a) + Bars(b)
  {
    if a == "" {
      assert a + b == b;
    } else {
      assert (a + b)[0] == a[0] && (a + b)[1..] == a[1..] + b;
      BarsAppend(a[1..], b);
    }
  }

  lemma {:induction false} NoBars(s: string)
    ensures Bars(s) == 0 <==> '|' !in s
  {
    if s != "" {
      NoBars(s[1..]);
      assert s == [s[0]] + s[1..];
    }
  }

  lemma BarJoin(a: string, b: string)
    ensures Bars(a + ['|'] + b) == Bars(a) + 1 + Bars(b)
  {
    BarsAppend(a + ['|'], b);
    BarsAppend(a, ['|']);
    assert ['|'][1..] == "";
  }

  lemma BarsOfFront(f: Finding)
    ensures Bars(Front(f)) >= 3
    ensures Bars(Front(f)) == 3 <==> '|' !in f.mod && '|' !in f.title && '|' !in f.cwe && '|' !in f.owasp
  {
    hide Bars;
    BarJoin(f.cwe, f.owasp);
    BarJoin(f.title, f.cwe + ['|'] + f.owasp);
    BarJoin(f.mod, f.title + ['|'] + (f.cwe + ['|'] + f.owasp));
    NoBars(f.mod);
    NoBars(f.title);
    NoBars(f.cwe);
    NoBars(f.owasp);
  }

  lemma PlaceIsClean(f: Finding)
    ensures Clean(Place(f)) && Lower(Place(f)) == Place(f)
  {
    var x := Strip(f.location);
    StripIsClean(f.location);
    LowerIdempotent(x);
    if x != "" {
      LowerAt(x, 0);
      LowerAt(x, |x| - 1);
    }
  }

  /** The front part of another finding with the same key is as long as this one's. */
  lemma SameFront(f: Finding, g: Finding)
    requires BarsHarmless(f) && Key(g) == Key(f)
    ensures Front(g) == Front(f) && Place(g) == Place(f)
  {
    hide Key, Front, Place, Bars;
    KeyOfFront(f);
    KeyOfFront(g);
    BarsOfFront(f);
    BarsOfFront(g);
    var a, p, b, q := Front(f), Place(f), Front(g), Place(g);
    if |a| < |b| {
      LaterBar(a, p, b, q);
      PlaceIsClean(g);
    } else if |b| < |a| {
      EarlierBar(a, p, b, q);
    } else {
      assert (a + ['|'] + p)[..|a|] == a && (b + ['|'] + q)[..|b|] == b;
      assert (a + ['|'] + p)[|a| + 1..] == p && (b + ['|'] + q)[|b| + 1..] == q;
    }
  }

  lemma LaterBar(a: string, p: string, b: string, q: string)
    requires a + ['|'] + p == b + ['|'] + q && |a| < |b|
    ensures var i := |b| - |a| - 1;
      i < |p| && p[i] == '|' && q == p[i + 1..]
  {
    var k := a + ['|'] + p;
    assert k[|b|] == '|' && k[|b|] == p[|b| - |a| - 1];
    assert k[|b| + 1..] == q && k[|b| + 1..] == p[|b| - |a|..];
  }

  lemma EarlierBar(a: string, p: string, b: string, q: string)
    requires a + ['|'] + p == b + ['|'] + q && |b| < |a|
    ensures Bars(a) > Bars(b)
  {
    hide Bars;
    var k := a + ['|'] + p;
    assert a == k[..|a|] && k[..|b|] == b && k[|b|] == '|';
    assert a == b + ['|'] + a[|b| + 1..];
    BarJoin(b, a[|b| + 1..]);
  }

  lemma Shift(a: string, x: string, y: string, rest: string)
    ensures a + ['|'] + ((x + ['|'] + y) + ['|'] + rest) == (a + ['|'] + x) + ['|'] + (y + ['|'] + rest)
    ensures a + ['|'] + (x + ['|'] + y) == (a + ['|'] + x) + ['|'] + y
  {
    assert (x + ['|'] + y) + ['|'] + rest == x + ['|'] + (y + ['|'] + rest);
  }

  /** A harmful bar gives a finding with other fields and the same key. */
  lemma HarmfulBar(f: Finding) returns (g: Finding)
    requires !BarsHarmless(f)
    ensures Key(g) == Key(f) && !SameFields(f, g)
    ensures '|' !in f.mod ==> g.mod == f.mod
  {
    var p := Place(f);
    var afterTitle := f.cwe + ['|'] + (f.owasp + ['|'] + p);
    if '|' in f.mod {
      var x, y := Before(f.mod, '|'), After(f.mod, '|');
      BeforeAfterJoin(f.mod, '|');
      assert f.mod == x + ['|'] + y;
      g := f.(mod := x, title := y + ['|'] + f.title);
      Shift(x, y, f.title, afterTitle);
    } else if '|' in f.title {
      var x, y := Before(f.title, '|'), After(f.title, '|');
      BeforeAfterJoin(f.title, '|');
      assert f.title == x + ['|'] + y;
      g := f.(title := x, cwe := y + ['|'] + f.cwe);
      Shift(x, y, f.cwe, f.owasp + ['|'] + p);
    } else if '|' in f.cwe {
      var x, y := Before(f.cwe, '|'), After(f.cwe, '|');
      BeforeAfterJoin(f.cwe, '|');
      assert f.cwe == x + ['|'] + y;
      g := f.(title := f.title + ['|'] + x, cwe := y);
      Shift(f.title, x, y, f.owasp + ['|'] + p);
    } else if '|' in f.owasp {
      var x, y := Before(f.owasp, '|'), After(f.owasp, '|');
      BeforeAfterJoin(f.owasp, '|');
      assert f.owasp == x + ['|'] + y;
      g := f.(cwe := f.cwe + ['|'] + x, owasp := y);
      Shift(f.cwe, x, y, p);
    } else {
      var i :| 0 <= i < |p| && p[i] == '|' && !(i + 1 < |p| && IsSpace(p[i + 1]));
      g := PlaceBar(f, i);
    }
  }

  lemma PlaceBar(f: Finding, i: nat) returns (g: Finding)
    requires i < |Place(f)| && Place(f)[i] == '|' && !(i + 1 < |Place(f)| && IsSpace(Place(f)[i + 1]))
    ensures Key(g) == Key(f) && !SameFields(f, g) && g.mod == f.mod
  {
    hide Strip, Lower;
    var p := Place(f);
    var x, y := p[..i], p[i + 1..];
    PlaceIsClean(f);
    assert p == x + ['|'] + y;
    assert y != "" ==> y[0] == p[i + 1] && y[|y| - 1] == p[|p| - 1];
    StripClean(y);
    LowerTail(x + ['|'], y);
    g := f.(owasp := f.owasp + ['|'] + x, location := y);
    assert Place(g) == y;
    Shift(f.owasp, x, y, "");
  }

  lemma {:induction false} LowerTail(a: string, b: string)
    requires Lower(a + b) == a + b
    ensures Lower(b) == b
  {
    forall i | 0 <= i < |b| ensures Lower(b)[i] == b[i] {
      LowerAt(b, i);
      LowerAt(a + b, |a| + i);
      assert (a + b)[|a| + i] == b[i];
    }
  }

  /** The key of a finding is its own exactly when its bars are harmless. */
  lemma {:induction false} KeyIdentifiesExactly(f: Finding)
    ensures KeyIdentifies(f) <==> BarsHarmless(f)
  {
    hide Key, Place, Front, Bars, SameFields;
    if BarsHarmless(f) {
      forall g | Key(g) == Key(f) ensures SameFields(f, g) { HarmlessSeparates(f, g); }
    } else {
      var g := HarmfulBar(f);
    }
  }

  lemma HarmlessSeparates(f: Finding, g: Finding)
    requires BarsHarmless(f) && Key(g) == Key(f)
    ensures SameFields(f, g)
  {
    hide Key, Place, Front, Bars;
    SameFront(f, g);
    BarsOfFront(f);
    BarsOfFront(g);
    KeySeparates(f, g);
  }

  /** With a bar inside a title two different findings, of one module, collapse into one. */
  lemma {:induction false} BarInTitleCollides(f: Finding)
    requires '|' in f.title
    ensures exists g :: !SameFields(f, g) && ('|' !in f.mod ==> g.mod == f.mod) && |Dedup([f, g])| == 1
  {
    hide Key, Place, SameFields;
    var g := HarmfulBar(f);
    assert FirstKeys([f], Key) == [Key(f)] by { assert [f][..0] == []; }
    assert [f, g][..1] == [f];
    assert |Dedup([f, g])| == 1;
  }
}
