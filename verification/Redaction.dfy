/**
  Masking the secrets of a text: the matched spans of all patterns are sorted and swept once, and
  the text is rebuilt from what lies between the spans chosen by the sweep and their masks.
 */
module Redaction {

  datatype Span = Span(s: nat, e: nat)

  predicate Within(a: Span, n: nat) { a.s <= a.e <= n }
  predicate Covers(a: Span, x: int) { a.s <= x < a.e }

  function Mask(v: string): string {
    if |v| <= 8 then seq(|v|, i => '*') else v[..4] + "..." + v[|v| - 4..]
  }

  // ---------------------------------------------------------------- sorting the spans

  predicate Before(a: Span, b: Span) { a.s < b.s || (a.s == b.s && a.e <= b.e) }

  ghost predicate Sorted(spans: seq<Span>) {
    forall i, j :: 0 <= i < j < |spans| ==> Before(spans[i], spans[j])
  }

  function Insert(a: Span, spans: seq<Span>): seq<Span> {
    if spans == [] || Before(a, spans[0]) then [a] + spans else [spans[0]] + Insert(a, spans[1..])
  }

  function Sort(spans: seq<Span>): seq<Span> {
    if spans == [] then [] else Insert(spans[0], Sort(spans[1..]))
  }

  lemma {:induction false} InsertPermutes(a: Span, spans: seq<Span>)
    ensures multiset(Insert(a, spans)) == multiset{a} + multiset(spans)
  {
    if !(spans == [] || Before(a, spans[0])) {
      InsertPermutes(a, spans[1..]);
      assert spans == [spans[0]] + spans[1..];
    }
  }

  lemma {:induction false} InsertSorts(a: Span, spans: seq<Span>)
    requires Sorted(spans)
    ensures Sorted(Insert(a, spans))
  {
    if !(spans == [] || Before(a, spans[0])) {
      InsertSorts(a, spans[1..]);
      InsertPermutes(a, spans[1..]);
      var rest := Insert(a, spans[1..]);
      forall i | 0 <= i < |rest| ensures Before(spans[0], rest[i]) {
        assert rest[i] in multiset(rest);
      }
    }
  }

  lemma {:induction false} SortSorts(spans: seq<Span>)
    ensures Sorted(Sort(spans)) && multiset(Sort(spans)) == multiset(spans)
  {
    if spans != [] {
      SortSorts(spans[1..]);
      InsertSorts(spans[0], Sort(spans[1..]));
      InsertPermutes(spans[0], Sort(spans[1..]));
      assert spans == [spans[0]] + spans[1..];
    }
  }

  lemma SortMembers(spans: seq<Span>)
    ensures Sorted(Sort(spans)) && forall a :: a in Sort(spans) <==> a in spans
  {
    SortSorts(spans);
    forall a ensures a in Sort(spans) <==> a in spans {
      assert a in multiset(Sort(spans)) <==> a in multiset(spans);
    }
  }

  // ---------------------------------------------------------------- the sweep

  function Proper(matches: seq<Span>): seq<Span> {
    if matches == [] then []
    else
      var front, last := matches[..|matches| - 1], matches[|matches| - 1];
      if last.e > last.s then Proper(front) + [last] else Proper(front)
  }

  /** The spans that are masked, of the sorted spans from a cursor on. */
  function Chosen(spans: seq<Span>, cursor: nat): seq<Span> {
    if spans == [] then []
    else if spans[0].s < cursor then Chosen(spans[1..], cursor)
    else [spans[0]] + Chosen(spans[1..], spans[0].e)
  }

  /** Ascending spans that do not overlap, from a cursor on. */
  ghost predicate Apart(chosen: seq<Span>, cursor: nat, n: nat)
    decreases |chosen|
  {
    cursor <= n && (chosen != [] ==> cursor <= chosen[0].s < chosen[0].e && Apart(chosen[1..], chosen[0].e, n))
  }

  /** The gaps of the text in order, interleaved with the masks of the chosen spans. */
  function Render(text: string, cursor: nat, chosen: seq<Span>): string
    requires Apart(chosen, cursor, |text|)
    decreases |chosen|
  {
    if chosen == [] then text[cursor..]
    else
      var c := chosen[0];
      assert Apart(chosen[1..], c.e, |text|);
      text[cursor..c.s] + Mask(text[c.s..c.e]) + Render(text, c.e, chosen[1..])
  }

  predicate AllProper(spans: seq<Span>, n: nat) { forall a :: a in spans ==> a.s < a.e <= n }

  lemma {:induction false} ChosenApart(spans: seq<Span>, cursor: nat, n: nat)
    requires AllProper(spans, n) && cursor <= n
    ensures Apart(Chosen(spans, cursor), cursor, n)
    ensures forall a :: a in Chosen(spans, cursor) ==> a in spans && a.s >= cursor
  {
    if spans != [] {
      assert spans[0] in spans;
      ChosenApart(spans[1..], if spans[0].s < cursor then cursor else spans[0].e, n);
      assert spans == [spans[0]] + spans[1..];
    }
  }

  lemma {:induction false} ProperSpans(matches: seq<Span>)
    ensures forall a :: a in Proper(matches) <==> a in matches && a.e > a.s
  {
    if matches != [] {
      ProperSpans(matches[..|matches| - 1]);
      assert matches == matches[..|matches| - 1] + [matches[|matches| - 1]];
    }
  }

  /** What the sweep masks of a text for the matches of all patterns. */
  function Masked(matches: seq<Span>): seq<Span> { Chosen(Sort(Proper(matches)), 0) }

  lemma MaskedApart(matches: seq<Span>, n: nat)
    requires forall a :: a in matches ==> Within(a, n)
    ensures AllProper(Sort(Proper(matches)), n) && Apart(Masked(matches), 0, n)
    ensures forall a :: a in Masked(matches) ==> a in matches
  {
    ProperSpans(matches);
    SortMembers(Proper(matches));
    ChosenApart(Sort(Proper(matches)), 0, n);
  }

  method RedactSecrets(text: string, matches: seq<Span>) returns (redacted: string)
    requires forall a :: a in matches ==> Within(a, |text|)
    ensures Apart(Masked(matches), 0, |text|)
    ensures redacted == Render(text, 0, Masked(matches))
  {
    MaskedApart(matches, |text|);
    var spans: seq<Span> := [];
    for i := 0 to |matches|
      invariant spans == Proper(matches[..i])
    {
      assert matches[..i + 1][..i] == matches[..i];
      if matches[i].e > matches[i].s { spans := spans + [matches[i]]; }
    }
    assert matches[..|matches|] == matches;
    if spans == [] { return text; }
    redacted := Sweep(text, Sort(spans));
  }

  method Sweep(text: string, spans: seq<Span>) returns (redacted: string)
    requires AllProper(spans, |text|) && Apart(Chosen(spans, 0), 0, |text|)
    ensures redacted == Render(text, 0, Chosen(spans, 0))
  {
    hide Mask;
    ghost var chosen := Chosen(spans, 0);
    var out, cursor: nat := "", 0;
    for i := 0 to |spans|
      invariant cursor <= |text|
      invariant Apart(Chosen(spans[i..], cursor), cursor, |text|)
      invariant out + Render(text, cursor, Chosen(spans[i..], cursor)) == Render(text, 0, chosen)
    {
      var a := spans[i];
      assert a in spans && spans[i..][1..] == spans[i + 1..];
      if a.s >= cursor {
        SweepStep(text, cursor, spans[i..], out);
        out := out + text[cursor..a.s] + Mask(text[a.s..a.e]);
        cursor := a.e;
      }
    }
    assert spans[|spans|..] == [];
    redacted := out + text[cursor..];
  }

  lemma RenderHead(text: string, cursor: nat, chosen: seq<Span>)
    requires chosen != [] && Apart(chosen, cursor, |text|)
    ensures var c := chosen[0];
      && Apart(chosen[1..], c.e, |text|) && cursor <= c.s < c.e <= |text|
      && Render(text, cursor, chosen) == text[cursor..c.s] + (Mask(text[c.s..c.e]) + Render(text, c.e, chosen[1..]))
  {
    hide Mask;
    EndWithin(chosen[1..], chosen[0].e, |text|);
  }

  lemma EndWithin(chosen: seq<Span>, cursor: nat, n: nat)
    requires Apart(chosen, cursor, n)
    ensures cursor <= n
  {}

  lemma SweepStep(text: string, cursor: nat, spans: seq<Span>, out: string)
    requires spans != [] && cursor <= spans[0].s < spans[0].e <= |text| && Apart(Chosen(spans, cursor), cursor, |text|)
    ensures var a := spans[0];
      Apart(Chosen(spans[1..], a.e), a.e, |text|)
      && out + Render(text, cursor, Chosen(spans, cursor))
      == out + text[cursor..a.s] + Mask(text[a.s..a.e]) + Render(text, a.e, Chosen(spans[1..], a.e))
  {
    hide Mask, Render, Apart;
    var a, rest := spans[0], Chosen(spans[1..], spans[0].e);
    RenderHead(text, cursor, Chosen(spans, cursor));
    assert Chosen(spans, cursor)[0] == a && Chosen(spans, cursor)[1..] == rest;
    Associate(out, text[cursor..a.s], Mask(text[a.s..a.e]), Render(text, a.e, rest));
  }

  lemma Associate(a: string, b: string, c: string, d: string)
    ensures a + (b + (c + d)) == a + b + c + d
  {}

  // ---------------------------------------------------------------- what the sweep leaves out

  /** A span that is not masked starts inside one that is. */
  lemma {:induction false} SkippedStartsInside(spans: seq<Span>, cursor: nat, n: nat, b: Span)
    requires Sorted(spans) && AllProper(spans, n) && cursor <= n && b in spans && b !in Chosen(spans, cursor) &&
      b.s >= cursor
    ensures exists a :: a in Chosen(spans, cursor) && Covers(a, b.s)
  {
    var a, rest := spans[0], spans[1..];
    assert spans == [a] + rest && a in spans;
    if a.s < cursor {
      SkippedStartsInside(rest, cursor, n, b);
    } else {
      assert b in rest;
      assert Before(a, b) by {
        var j :| 0 <= j < |rest| && rest[j] == b;
        assert spans[j + 1] == b;
      }
      if b.s < a.e {
        assert a in Chosen(spans, cursor) && Covers(a, b.s);
      } else {
        SkippedStartsInside(rest, a.e, n, b);
        var c :| c in Chosen(rest, a.e) && Covers(c, b.s);
        assert c in Chosen(spans, cursor);
      }
    }
  }

  ghost predicate AnyCovers(spans: seq<Span>, x: int) { exists a :: a in spans && Covers(a, x) }

  /** The sweep left the span `b` at the end of a masked span, and nothing takes over there. */
  predicate TailAt(spans: seq<Span>, a: Span, b: Span) {
    b in spans && b.s < a.e < b.e && forall c :: c in spans ==> c.s != a.e
  }

  ghost predicate HasTail(spans: seq<Span>, chosen: seq<Span>) {
    exists a, b :: a in chosen && TailAt(spans, a, b)
  }

  lemma {:induction false} ApartOrder(chosen: seq<Span>, cursor: nat, n: nat)
    requires Apart(chosen, cursor, n)
    ensures forall i, j :: 0 <= i < j < |chosen| ==> chosen[i].s < chosen[i].e <= chosen[j].s < chosen[j].e
    ensures forall i :: 0 <= i < |chosen| ==> cursor <= chosen[i].s < chosen[i].e
  {
    if chosen != [] {
      ApartOrder(chosen[1..], chosen[0].e, n);
      assert chosen == [chosen[0]] + chosen[1..];
    }
  }

  /** A span that starts at the end of a masked span is taken up there. */
  lemma TakenUp(spans: seq<Span>, n: nat, a: Span, c: Span)
    requires Sorted(spans) && AllProper(spans, n) && a in Chosen(spans, 0) && c in spans && c.s == a.e
    ensures AnyCovers(Chosen(spans, 0), a.e)
  {
    if c in Chosen(spans, 0) {
      assert Covers(c, a.e);
    } else {
      SkippedStartsInside(spans, 0, n, c);
    }
  }

  /** At the end of a masked span that left a tail, the text stays in clear. */
  lemma TailIsClear(spans: seq<Span>, n: nat, a: Span, b: Span)
    requires Sorted(spans) && AllProper(spans, n) && a in Chosen(spans, 0) && TailAt(spans, a, b)
    ensures AnyCovers(spans, a.e) && !AnyCovers(Chosen(spans, 0), a.e)
  {
    var chosen := Chosen(spans, 0);
    ChosenApart(spans, 0, n);
    ApartOrder(chosen, 0, n);
    assert Covers(b, a.e);
    forall c | c in chosen ensures !Covers(c, a.e) {
      assert c in spans;
    }
  }

  /** The last masked span that ends at or before `x`. */
  lemma {:induction false} LastBefore(chosen: seq<Span>, cursor: nat, n: nat, x: nat, first: Span) returns (a: Span)
    requires Apart(chosen, cursor, n) && first in chosen && first.e <= x && !AnyCovers(chosen, x)
    ensures a in chosen && first.e <= a.e <= x && forall y :: a.e <= y <= x ==> !AnyCovers(chosen, y)
  {
    ApartOrder(chosen, cursor, n);
    var last := chosen[|chosen| - 1];
    if last.e <= x {
      a := last;
    } else {
      var k :| 0 <= k < |chosen| && chosen[k] == first;
      while k + 1 < |chosen| && chosen[k + 1].e <= x
        invariant 0 <= k < |chosen| && first.e <= chosen[k].e <= x
        decreases |chosen| - k
      {
        k := k + 1;
      }
      a := chosen[k];
      assert !Covers(chosen[k + 1], x);
    }
  }

  /** Every matched character is masked exactly when the sweep leaves no tail. */
  lemma {:induction false} AllMaskedExactly(matches: seq<Span>, n: nat)
    requires forall a :: a in matches ==> Within(a, n)
    ensures (forall x :: AnyCovers(matches, x) ==> AnyCovers(Masked(matches), x)) <==>
      !HasTail(Sort(Proper(matches)), Masked(matches))
  {
    var spans, chosen := Sort(Proper(matches)), Masked(matches);
    MaskedApart(matches, n);
    ProperSpans(matches);
    SortMembers(Proper(matches));
    forall x ensures AnyCovers(matches, x) <==> AnyCovers(spans, x) {
      if AnyCovers(matches, x) {
        var a :| a in matches && Covers(a, x);
        assert a in spans;
      }
    }
    if HasTail(spans, chosen) {
      var a, b :| a in chosen && TailAt(spans, a, b);
      TailIsClear(spans, n, a, b);
    }
    if x :| AnyCovers(spans, x) && !AnyCovers(chosen, x) {
      ClearHasTail(spans, n, x);
    }
  }

  /** A matched position that is not masked lies behind such a tail. */
  lemma ClearHasTail(spans: seq<Span>, n: nat, x: nat)
    requires Sorted(spans) && AllProper(spans, n) && AnyCovers(spans, x) && !AnyCovers(Chosen(spans, 0), x)
    ensures HasTail(spans, Chosen(spans, 0))
  {
    var chosen := Chosen(spans, 0);
    ChosenApart(spans, 0, n);
    var b :| b in spans && Covers(b, x);
    SkippedStartsInside(spans, 0, n, b);
    var first :| first in chosen && Covers(first, b.s);
    assert !Covers(first, x);
    var a := LastBefore(chosen, 0, n, x, first);
    forall c | c in spans ensures c.s != a.e {
      if c.s == a.e { TakenUp(spans, n, a, c); }
    }
    assert TailAt(spans, a, b);
  }

  /** A later span (in sorted order) that overlaps an earlier one ends no later. */
  ghost predicate Nested(spans: seq<Span>) {
    forall a, b :: a in spans && b in spans && Before(a, b) && b.s < a.e ==> b.e <= a.e
  }

  lemma NestedEnd(spans: seq<Span>, n: nat, a: Span, b: Span)
    requires Sorted(spans) && AllProper(spans, n) && Nested(spans)
    requires a in Chosen(spans, 0) && b in spans && b.s < a.e
    ensures b.e <= a.e
  {
    hide Chosen, Apart, Sorted;
    var chosen := Chosen(spans, 0);
    ChosenApart(spans, 0, n);
    ApartOrder(chosen, 0, n);
    var i :| 0 <= i < |chosen| && chosen[i] == a;
    if !Before(a, b) {
      if b in chosen {
        var j :| 0 <= j < |chosen| && chosen[j] == b;
      } else {
        SkippedStartsInside(spans, 0, n, b);
        var c :| c in chosen && Covers(c, b.s);
        var j :| 0 <= j < |chosen| && chosen[j] == c;
        assert Before(c, b) ==> b.e <= c.e;
      }
    }
  }

  /**
    In particular every matched character is masked when of two overlapping matches the later one in
    sorted order ends no later; two different matches with one start do not meet that.
   */
  lemma {:induction false} NestedAllMasked(matches: seq<Span>, n: nat)
    requires (forall a :: a in matches ==> Within(a, n)) && Nested(Proper(matches))
    ensures forall x :: AnyCovers(matches, x) ==> AnyCovers(Masked(matches), x)
  {
    var spans, chosen := Sort(Proper(matches)), Masked(matches);
    MaskedApart(matches, n);
    SortMembers(Proper(matches));
    AllMaskedExactly(matches, n);
    forall a, b | a in chosen && b in spans && b.s < a.e ensures b.e <= a.e {
      NestedEnd(spans, n, a, b);
    }
  }

  /** Two matches with one start: the shorter is masked and the rest of the longer one stays in clear. */
  lemma {:induction false} SharedStartLeavesTail(s: nat, e1: nat, e2: nat)
    requires s < e1 < e2
    ensures Masked([Span(s, e2), Span(s, e1)]) == [Span(s, e1)]
    ensures forall x :: e1 <= x < e2 ==> AnyCovers([Span(s, e2), Span(s, e1)], x) && !AnyCovers([Span(s, e1)], x)
  {
    var long, short := Span(s, e2), Span(s, e1);
    var both := [long, short];
    assert both[..1] == [long] && [long][..0] == [] && Proper([long]) == [long];
    assert Proper(both) == both;
    assert both[1..] == [short] && [short][1..] == [] && Sort([short]) == [short];
    assert Sort(both) == Insert(long, [short]) && Insert(long, []) == [long];
    assert [short, long][1..] == [long] && [long][1..] == [] && Chosen([long], e1) == [];
    forall x | e1 <= x < e2 ensures AnyCovers(both, x) { assert long in both; }
  }

  // ---------------------------------------------------------------- what survives

  /** Where a character that is not masked ends up: every mask before it changes the length. */
  function Place(chosen: seq<Span>, text: string, x: int): int
    requires forall a :: a in chosen ==> Within(a, |text|)
  {
    if chosen == [] || x < chosen[0].s then x
    else
      var c := chosen[0];
      assert c in chosen && Within(c, |text|);
      Place(chosen[1..], text, x) + |Mask(text[c.s..c.e])| - (c.e - c.s)
  }

  /** A character outside all masked spans appears in the result, at its place. */
  lemma {:induction false} OutsideSurvives(text: string, cursor: nat, chosen: seq<Span>, x: nat)
    requires Apart(chosen, cursor, |text|) && (forall a :: a in chosen ==> Within(a, |text|))
    requires cursor <= x < |text| && !AnyCovers(chosen, x)
    ensures var at := Place(chosen, text, x) - cursor;
      0 <= at < |Render(text, cursor, chosen)| && Render(text, cursor, chosen)[at] == text[x]
    decreases |chosen|
  {
    hide Mask;
    if chosen != [] {
      var c, rest := chosen[0], chosen[1..];
      assert chosen == [c] + rest;
      assert !Covers(c, x);
      if x >= c.e {
        forall a | a in rest ensures !Covers(a, x) { assert a in chosen; }
        OutsideSurvives(text, c.e, rest, x);
        RenderHead(text, cursor, chosen);
      } else {
        RenderHead(text, cursor, chosen);
      }
    }
  }

  /** Characters that survive keep their order. */
  lemma {:induction false} PlaceOrder(chosen: seq<Span>, cursor: nat, text: string, x: nat, y: nat)
    requires Apart(chosen, cursor, |text|) && (forall a :: a in chosen ==> Within(a, |text|))
    requires cursor <= x < y < |text| && !AnyCovers(chosen, x) && !AnyCovers(chosen, y)
    ensures Place(chosen, text, x) < Place(chosen, text, y)
    decreases |chosen|
  {
    hide Mask;
    if chosen != [] {
      var c, rest := chosen[0], chosen[1..];
      assert chosen == [c] + rest;
      assert !Covers(c, x) && !Covers(c, y);
      forall a | a in rest ensures !Covers(a, x) && !Covers(a, y) { assert a in chosen; }
      if x >= c.e {
        PlaceOrder(rest, c.e, text, x, y);
      } else if y >= c.e {
        PlaceFrom(rest, c.e, text, y);
      }
    }
  }

  lemma {:induction false} PlaceFrom(chosen: seq<Span>, cursor: nat, text: string, y: nat)
    requires Apart(chosen, cursor, |text|) && (forall a :: a in chosen ==> Within(a, |text|))
    requires cursor <= y < |text| && !AnyCovers(chosen, y)
    ensures Place(chosen, text, y) >= cursor
    decreases |chosen|
  {
    hide Mask;
    if chosen != [] && y >= chosen[0].s {
      var c, rest := chosen[0], chosen[1..];
      assert chosen == [c] + rest;
      assert !Covers(c, y);
      forall a | a in rest ensures !Covers(a, y) { assert a in chosen; }
      PlaceFrom(rest, c.e, text, y);
    }
  }

  // ---------------------------------------------------------------- what does not show

  /** The position shows through the mask of the span: it is one of the four first or last of a long one. */
  predicate ShowsIn(a: Span, x: int) { a.s + 8 < a.e && (a.s <= x < a.s + 4 || a.e - 4 <= x < a.e) }

  lemma ShowsInExactly(a: Span, x: int)
    ensures ShowsIn(a, x) <==> Covers(a, x) && a.e - a.s > 8 && (x - a.s < 4 || a.e - 1 - x < 4)
  {}

  /** The texts agree wherever no span masks them and at the ends that the masks show. */
  ghost predicate SameOutside(text: string, other: string, cursor: nat, chosen: seq<Span>) {
    && |text| == |other|
    && (forall x :: cursor <= x < |text| && !AnyCovers(chosen, x) ==> text[x] == other[x])
    && (forall a, x :: a in chosen && 0 <= x < |text| && ShowsIn(a, x) ==> text[x] == other[x])
  }

  lemma MaskOfEnds(v: string, w: string)
    requires |v| == |w| && (|v| > 8 ==> v[..4] == w[..4] && v[|v| - 4..] == w[|w| - 4..])
    ensures Mask(v) == Mask(w)
  {}

  /** What a mask covers does not show: two texts that differ only inside masked spans are redacted to the same text. */
  lemma {:induction false} MaskedDoesNotShow(text: string, other: string, cursor: nat, chosen: seq<Span>)
    requires Apart(chosen, cursor, |text|) && SameOutside(text, other, cursor, chosen)
    ensures Render(text, cursor, chosen) == Render(other, cursor, chosen)
    decreases |chosen|
  {
    hide Mask;
    ApartOrder(chosen, cursor, |text|);
    if chosen == [] {
      assert text[cursor..] == other[cursor..];
    } else {
      var c, rest := chosen[0], chosen[1..];
      assert chosen == [c] + rest;
      RenderHead(text, cursor, chosen);
      RenderHead(other, cursor, chosen);
      forall x | cursor <= x < c.s ensures text[x] == other[x] {
        assert !AnyCovers(chosen, x);
      }
      assert text[cursor..c.s] == other[cursor..c.s];
      forall x | 0 <= x < |text| && ShowsIn(c, x) ensures text[x] == other[x] { assert c in chosen; }
      SameMask(text, other, c);
      forall x | c.e <= x < |text| && !AnyCovers(rest, x) ensures text[x] == other[x] {
        assert !AnyCovers(chosen, x);
      }
      MaskedDoesNotShow(text, other, c.e, rest);
    }
  }

  lemma SameMask(text: string, other: string, c: Span)
    requires c.s < c.e <= |text| == |other| && forall x :: 0 <= x < |text| && ShowsIn(c, x) ==> text[x] == other[x]
    ensures Mask(text[c.s..c.e]) == Mask(other[c.s..c.e])
  {
    hide Mask;
    var v, w := text[c.s..c.e], other[c.s..c.e];
    if |v| > 8 {
      forall k | 0 <= k < |v| && (k < 4 || k >= |v| - 4) ensures v[k] == w[k] { assert ShowsIn(c, c.s + k); }
      assert v[..4] == w[..4] && v[|v| - 4..] == w[|w| - 4..];
    }
    MaskOfEnds(v, w);
  }

  // ---------------------------------------------------------------- detection

  predicate Overlap(a: Span, b: Span) { a.s < b.e && a.e > b.s }

  predicate Clashes(a: Span, kept: seq<Span>) { exists b :: b in kept && Overlap(a, b) }

  /**
    The spans that detection reports, of the candidates of all patterns in turn; `passes(i)` says
    that the i-th passes the filters.
  */
  function Kept(candidates: seq<Span>, passes: nat -> bool): seq<Span> {
    if candidates == [] then []
    else
      var n := |candidates| - 1;
      var before := Kept(candidates[..n], passes);
      if Clashes(candidates[n], before) || !passes(n) then before else before + [candidates[n]]
  }

  method CollectSpans(candidates: seq<Span>, passes: nat -> bool) returns (kept: seq<Span>)
    ensures kept == Kept(candidates, passes)
  {
    kept := [];
    for i := 0 to |candidates|
      invariant kept == Kept(candidates[..i], passes)
    {
      assert candidates[..i + 1][..i] == candidates[..i];
      var clash := false;
      for j := 0 to |kept|
        invariant clash <==> Clashes(candidates[i], kept[..j])
      {
        assert kept[..j + 1] == kept[..j] + [kept[j]];
        if Overlap(candidates[i], kept[j]) { clash := true; }
      }
      assert kept[..|kept|] == kept;
      if !clash && passes(i) { kept := kept + [candidates[i]]; }
    }
    assert candidates[..|candidates|] == candidates;
  }

  /** Across all patterns the reported spans are pairwise disjoint. */
  lemma {:induction false} KeptDisjoint(candidates: seq<Span>, passes: nat -> bool)
    ensures forall i, j :: 0 <= i < j < |Kept(candidates, passes)| ==>
      !Overlap(Kept(candidates, passes)[i], Kept(candidates, passes)[j])
  {
    if candidates != [] {
      var n := |candidates| - 1;
      KeptDisjoint(candidates[..n], passes);
      var before := Kept(candidates[..n], passes);
      forall i | 0 <= i < |before| && !Clashes(candidates[n], before) ensures !Overlap(before[i], candidates[n]) {
        assert before[i] in before;
      }
    }
  }

  /** Every candidate that passes the filters is reported or overlaps one that is. */
  lemma {:induction false} KeptMaximal(candidates: seq<Span>, passes: nat -> bool, i: nat)
    requires i < |candidates| && passes(i)
    ensures candidates[i] in Kept(candidates, passes) || Clashes(candidates[i], Kept(candidates, passes))
  {
    var n := |candidates| - 1;
    var before := Kept(candidates[..n], passes);
    if i < n {
      KeptMaximal(candidates[..n], passes, i);
      if Clashes(candidates[i], before) {
        var b :| b in before && Overlap(candidates[i], b);
        assert b in Kept(candidates, passes);
      }
    }
  }

  /** Two spans overlap exactly when some position lies in both. */
  lemma {:induction false} OverlapExactly(a: Span, b: Span)
    requires a.s < a.e && b.s < b.e
    ensures Overlap(a, b) <==> exists x: int :: Covers(a, x) && Covers(b, x)
  {
    var first: int := if a.s <= b.s then b.s else a.s;
    if Overlap(a, b) { assert Covers(a, first) && Covers(b, first); }
  }

  predicate Increasing(at: seq<nat>) { forall j, k :: 0 <= j < k < |at| ==> at[j] < at[k] }

  /** The reported spans are the candidates at these places, which pass the filters. */
  predicate ReportedAt(candidates: seq<Span>, passes: nat -> bool, kept: seq<Span>, at: seq<nat>) {
    |at| == |kept| && forall k :: 0 <= k < |at| ==>
      at[k] < |candidates| && kept[k] == candidates[at[k]] && passes(at[k])
  }

  /** Every other candidate that passes overlaps a reported span of an earlier one. */
  predicate OthersGiveWay(candidates: seq<Span>, passes: nat -> bool, kept: seq<Span>, at: seq<nat>)
    requires |at| == |kept|
  {
    forall i: nat :: i < |candidates| && passes(i) && i !in at ==> GivesWay(candidates, i, kept, at)
  }

  /** The reported spans stand in the order of their candidates, and a candidate gives way only to an earlier one. */
  lemma {:induction false} KeptInOrder(candidates: seq<Span>, passes: nat -> bool) returns (at: seq<nat>)
    ensures var kept := Kept(candidates, passes);
      Increasing(at) && ReportedAt(candidates, passes, kept, at) && OthersGiveWay(candidates, passes, kept, at)
  {
    if candidates == [] {
      at := [];
    } else {
      hide GivesWay, Overlap, OthersGiveWay, Clashes, Increasing, ReportedAt;
      var n := |candidates| - 1;
      var before := Kept(candidates[..n], passes);
      var front := KeptInOrder(candidates[..n], passes);
      at := if Clashes(candidates[n], before) || !passes(n) then front else front + [n];
      PlacesGrow(candidates, passes, before, front);
      AllGiveWay(candidates, passes, before, front, Kept(candidates, passes), at);
    }
  }

  lemma PlacesGrow(candidates: seq<Span>, passes: nat -> bool, before: seq<Span>, front: seq<nat>)
    requires candidates != [] && Increasing(front)
    requires ReportedAt(candidates[..|candidates| - 1], passes, before, front)
    ensures var n := |candidates| - 1;
      && |front| == |before| && (forall k :: 0 <= k < |front| ==> front[k] < n)
      && ReportedAt(candidates, passes, before, front)
      && (passes(n) ==>
            Increasing(front + [n]) && ReportedAt(candidates, passes, before + [candidates[n]], front + [n]))
  {}

  lemma AllGiveWay(
    candidates: seq<Span>, passes: nat -> bool, before: seq<Span>, front: seq<nat>, kept: seq<Span>, at: seq<nat>)
    requires candidates != [] && |front| == |before| && |at| == |kept| && before <= kept && front <= at
    requires OthersGiveWay(candidates[..|candidates| - 1], passes, before, front)
    requires forall k :: 0 <= k < |front| ==> front[k] < |candidates| - 1
    requires passes(|candidates| - 1) && |candidates| - 1 !in at ==>
      at == front && kept == before && Clashes(candidates[|candidates| - 1], before)
    ensures OthersGiveWay(candidates, passes, kept, at)
  {
    hide GivesWay, Clashes;
    var n := |candidates| - 1;
    forall i: nat | i < |candidates| && passes(i) && i !in at ensures GivesWay(candidates, i, kept, at) {
      if i < n {
        assert i !in front;
        StillGivesWay(candidates, i, before, front, kept, at);
      } else {
        LastGivesWay(candidates, kept, at);
      }
    }
  }

  /** The candidate overlaps a reported span of an earlier one. */
  predicate GivesWay(candidates: seq<Span>, i: nat, kept: seq<Span>, at: seq<nat>)
    requires i < |candidates| && |at| == |kept|
  {
    exists k :: 0 <= k < |at| && at[k] < i && Overlap(candidates[i], kept[k])
  }

  lemma LastGivesWay(candidates: seq<Span>, kept: seq<Span>, at: seq<nat>)
    requires candidates != [] && |at| == |kept| && Clashes(candidates[|candidates| - 1], kept)
    requires forall k :: 0 <= k < |at| ==> at[k] < |candidates| - 1
    ensures GivesWay(candidates, |candidates| - 1, kept, at)
  {
    var b :| b in kept && Overlap(candidates[|candidates| - 1], b);
    var k :| 0 <= k < |kept| && kept[k] == b;
  }

  lemma StillGivesWay(
    candidates: seq<Span>, i: nat, before: seq<Span>, front: seq<nat>, kept: seq<Span>, at: seq<nat>)
    requires i < |candidates| - 1 && |front| == |before| && |at| == |kept| && before <= kept && front <= at
    requires GivesWay(candidates[..|candidates| - 1], i, before, front)
    ensures GivesWay(candidates, i, kept, at)
  {
    var k :| 0 <= k < |front| && front[k] < i && Overlap(candidates[..|candidates| - 1][i], before[k]);
    assert at[k] == front[k] && kept[k] == before[k];
  }

  /** Up to eight characters are all hidden; of a longer match the first and the last four show. */
  lemma {:induction false} MaskShows(v: string)
    ensures |v| <= 8 ==> |Mask(v)| == |v| && forall c :: c in Mask(v) ==> c == '*'
    ensures |v| > 8 ==>
      |Mask(v)| == 11 && Mask(v)[..4] == v[..4] && Mask(v)[4..7] == "..." && Mask(v)[7..] == v[|v| - 4..]
  {}
}
