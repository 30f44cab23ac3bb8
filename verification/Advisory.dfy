/**
  Building the advisory dataset: rows of the same library and CVE are merged in place into one
  row with the widest affected range, and the scanner later matches detected versions against the
  merged range.
 */
module Advisory {
  import opened Strings
  import opened KeyedFold
  import opened Versions

  datatype Row = Row(
    library: string, cve: string, minAffected: string, fixedIn: string, cvss: real, cwe: string,
    summary: string, signature: string, upgradeRec: string)

  function RowKey(r: Row): (string, string) { (r.library, r.cve) }

  /** One row joined into the entry of its key. */
  function Widen(a: Row, b: Row): Row {
    a.(cvss := if b.cvss > a.cvss then b.cvss else a.cvss,
       cwe := if a.cwe == "" && b.cwe != "" then b.cwe else a.cwe,
       summary := if |b.summary| > |a.summary| then b.summary else a.summary,
       minAffected :=
         if LexLess(VersionKey(b.minAffected), VersionKey(a.minAffected)) then b.minAffected else a.minAffected,
       fixedIn :=
         if b.fixedIn == "" || a.fixedIn == "" then ""
         else if LexLess(VersionKey(a.fixedIn), VersionKey(b.fixedIn)) then b.fixedIn else a.fixedIn,
       upgradeRec := if LexLess(VersionKey(a.upgradeRec), VersionKey(b.upgradeRec)) then b.upgradeRec else a.upgradeRec)
  }

  /** The dataset: one joined row per (library, CVE), in the order the keys first appear. */
  function Dedupe(rows: seq<Row>): seq<Row> { Merge(rows, RowKey, Widen) }

  // ---------------------------------------------------------------- what the join of a group is

  function FloorOf(r: Row): string { r.minAffected }
  function CeilingOf(r: Row): string { r.fixedIn }
  function CvssOf(r: Row): real { r.cvss }
  function CweOf(r: Row): string { r.cwe }
  function SummaryOf(r: Row): string { r.summary }
  function UpgradeOf(r: Row): string { r.upgradeRec }

  /** The orders in which a later row's field replaces the entry's. */
  function OlderFloor(): (string, string) -> bool { (b, a) => LexLess(VersionKey(b), VersionKey(a)) }
  function LaterCeiling(): (string, string) -> bool {
    (b, a) => a != "" && (b == "" || LexLess(VersionKey(a), VersionKey(b)))
  }
  function LaterUpgrade(): (string, string) -> bool { (b, a) => LexLess(VersionKey(a), VersionKey(b)) }
  function Higher(): (real, real) -> bool { (b, a) => b > a }
  function Given(): (string, string) -> bool { (b, a) => a == "" && b != "" }
  function Longer(): (string, string) -> bool { (b, a) => |b| > |a| }

  function Keep<V>(better: (V, V) -> bool): (V, V) -> V { (a, b) => if better(b, a) then b else a }

  lemma OrdersAreStrict()
    ensures StrictWeakOrder(OlderFloor()) && StrictWeakOrder(LaterCeiling()) && StrictWeakOrder(LaterUpgrade())
    ensures StrictWeakOrder(Higher()) && StrictWeakOrder(Given()) && StrictWeakOrder(Longer())
  {
    forall a: seq<nat>, b: seq<nat> ensures LexLess(a, b) ==> !LexLess(b, a) { LexTotal(a, b); }
    forall a: seq<nat>, b: seq<nat>, c: seq<nat> | LexLess(a, c) ensures LexLess(a, b) || LexLess(b, c) {
      if !LexLess(a, b) && !LexLess(b, c) { LexTransitive(c, b, a); }
    }
  }

  /** Every mutable field of `f` is the first best of that field over the group. */
  ghost predicate IsJoin(f: Row, g: seq<Row>) {
    && g != [] && f.library == g[0].library && f.cve == g[0].cve && f.signature == g[0].signature
    && FirstBest(Map(g, FloorOf), OlderFloor(), f.minAffected)
    && FirstBest(Map(g, CeilingOf), LaterCeiling(), f.fixedIn)
    && FirstBest(Map(g, CvssOf), Higher(), f.cvss)
    && FirstBest(Map(g, CweOf), Given(), f.cwe)
    && FirstBest(Map(g, SummaryOf), Longer(), f.summary)
    && FirstBest(Map(g, UpgradeOf), LaterUpgrade(), f.upgradeRec)
  }

  lemma {:induction false} FieldIsFirstBest<W(!new)>(g: seq<Row>, f: Row -> W, better: (W, W) -> bool)
    requires g != [] && StrictWeakOrder(better)
    requires forall a, b :: f(Widen(a, b)) == Keep(better)(f(a), f(b))
    ensures FirstBest(Map(g, f), better, f(Fold(g, Widen)))
  {
    FoldField(g, Widen, f, Keep(better));
    FoldFirstBest(Map(g, f), better, Keep(better));
  }

  lemma {:induction false} FoldFirst(g: seq<Row>)
    requires g != []
    ensures var f := Fold(g, Widen); f.library == g[0].library && f.cve == g[0].cve && f.signature == g[0].signature
  {
    if |g| > 1 { FoldFirst(g[..|g| - 1]); }
  }

  lemma FloorIsFirstBest(g: seq<Row>)
    requires g != []
    ensures FirstBest(Map(g, FloorOf), OlderFloor(), Fold(g, Widen).minAffected)
  {
    OrdersAreStrict();
    FieldIsFirstBest(g, FloorOf, OlderFloor());
  }

  lemma CeilingIsFirstBest(g: seq<Row>)
    requires g != []
    ensures FirstBest(Map(g, CeilingOf), LaterCeiling(), Fold(g, Widen).fixedIn)
  {
    OrdersAreStrict();
    FieldIsFirstBest(g, CeilingOf, LaterCeiling());
  }

  lemma CvssIsFirstBest(g: seq<Row>)
    requires g != []
    ensures FirstBest(Map(g, CvssOf), Higher(), Fold(g, Widen).cvss)
  {
    OrdersAreStrict();
    FieldIsFirstBest(g, CvssOf, Higher());
  }

  lemma CweIsFirstBest(g: seq<Row>)
    requires g != []
    ensures FirstBest(Map(g, CweOf), Given(), Fold(g, Widen).cwe)
  {
    OrdersAreStrict();
    FieldIsFirstBest(g, CweOf, Given());
  }

  lemma SummaryIsFirstBest(g: seq<Row>)
    requires g != []
    ensures FirstBest(Map(g, SummaryOf), Longer(), Fold(g, Widen).summary)
  {
    OrdersAreStrict();
    FieldIsFirstBest(g, SummaryOf, Longer());
  }

  lemma UpgradeIsFirstBest(g: seq<Row>)
    requires g != []
    ensures FirstBest(Map(g, UpgradeOf), LaterUpgrade(), Fold(g, Widen).upgradeRec)
  {
    OrdersAreStrict();
    FieldIsFirstBest(g, UpgradeOf, LaterUpgrade());
  }

  lemma FoldIsJoin(g: seq<Row>)
    requires g != []
    ensures IsJoin(Fold(g, Widen), g)
  {
    FoldFirst(g);
    FloorIsFirstBest(g);
    CeilingIsFirstBest(g);
    CvssIsFirstBest(g);
    CweIsFirstBest(g);
    SummaryIsFirstBest(g);
    UpgradeIsFirstBest(g);
  }

  /** The highest score, the first weakness given and a longest summary of the group. */
  ghost predicate FullestTexts(f: Row, g: seq<Row>) {
    && (forall i :: 0 <= i < |g| ==> f.cvss >= g[i].cvss && |f.summary| >= |g[i].summary|)
    && (exists i :: 0 <= i < |g| && g[i].cvss == f.cvss) && (exists i :: 0 <= i < |g| && g[i].summary == f.summary)
    && (f.cwe == "" ==> forall i :: 0 <= i < |g| ==> g[i].cwe == "")
    && (f.cwe != "" ==>
          exists i :: 0 <= i < |g| && g[i].cwe == f.cwe && forall j :: 0 <= j < i ==> g[j].cwe == "")
  }

  predicate KeyBelow(a: string, b: string) { LexLess(VersionKey(a), VersionKey(b)) }

  /** No floor of the group lies below, no ceiling or advice above; open exactly when a ceiling is the empty string. */
  ghost predicate WidestBounds(f: Row, g: seq<Row>) {
    && (forall i :: 0 <= i < |g| ==> !KeyBelow(g[i].minAffected, f.minAffected))
    && (f.fixedIn == "" <==> exists i :: 0 <= i < |g| && g[i].fixedIn == "")
    && (f.fixedIn != "" ==> forall i :: 0 <= i < |g| ==> !KeyBelow(f.fixedIn, g[i].fixedIn))
    && (forall i :: 0 <= i < |g| ==> !KeyBelow(f.upgradeRec, g[i].upgradeRec))
    && (exists i :: 0 <= i < |g| && g[i].minAffected == f.minAffected)
    && (exists i :: 0 <= i < |g| && g[i].fixedIn == f.fixedIn)
    && (exists i :: 0 <= i < |g| && g[i].upgradeRec == f.upgradeRec)
  }

  /** The bests of two fields: nothing in the group is better, and the value is one of the group's. */
  lemma BestOfField<W(!new)>(g: seq<Row>, f: Row -> W, better: (W, W) -> bool, v: W)
    requires FirstBest(Map(g, f), better, v)
    ensures forall i :: 0 <= i < |g| ==> !better(f(g[i]), v)
    ensures exists i :: 0 <= i < |g| && f(g[i]) == v && forall j :: 0 <= j < i ==> better(v, f(g[j]))
  {
    var b :| BestAt(Map(g, f), better, b) && Map(g, f)[b] == v;
    assert f(g[b]) == v;
    forall i | 0 <= i < |g| ensures !better(f(g[i]), v) { assert Map(g, f)[i] == f(g[i]); }
    forall j | 0 <= j < b ensures better(v, f(g[j])) { assert Map(g, f)[j] == f(g[j]); }
  }

  lemma WidestTexts(g: seq<Row>)
    requires g != []
    ensures FullestTexts(Fold(g, Widen), g)
  {
    var f := Fold(g, Widen);
    CvssIsFirstBest(g);
    BestOfField(g, CvssOf, Higher(), f.cvss);
    SummaryIsFirstBest(g);
    BestOfField(g, SummaryOf, Longer(), f.summary);
    CweIsFirstBest(g);
    BestOfField(g, CweOf, Given(), f.cwe);
  }

  lemma WidestRange(g: seq<Row>)
    requires g != []
    ensures WidestBounds(Fold(g, Widen), g)
  {
    hide VersionKey, LexLess;
    var f := Fold(g, Widen);
    FloorIsFirstBest(g);
    BestOfField(g, FloorOf, OlderFloor(), f.minAffected);
    CeilingIsFirstBest(g);
    BestOfField(g, CeilingOf, LaterCeiling(), f.fixedIn);
    UpgradeIsFirstBest(g);
    BestOfField(g, UpgradeOf, LaterUpgrade(), f.upgradeRec);
    forall i | 0 <= i < |g|
      ensures !KeyBelow(g[i].minAffected, f.minAffected) && !KeyBelow(f.upgradeRec, g[i].upgradeRec)
    {
      assert !OlderFloor()(FloorOf(g[i]), f.minAffected) && !LaterUpgrade()(UpgradeOf(g[i]), f.upgradeRec);
    }
    forall i | 0 <= i < |g| ensures f.fixedIn != "" ==> g[i].fixedIn != "" && !KeyBelow(f.fixedIn, g[i].fixedIn) {
      assert !LaterCeiling()(CeilingOf(g[i]), f.fixedIn);
    }
  }

  /** Each row of the dataset has the widest range, the highest score and the fullest texts of its key's rows. */
  lemma {:induction false} DatasetIsWidest(rows: seq<Row>, i: nat)
    requires i < |Dedupe(rows)|
    ensures var g, r := Group(rows, RowKey, FirstKeys(rows, RowKey)[i]), Dedupe(rows)[i];
      && g != [] && FullestTexts(r, g) && WidestBounds(r, g)
      && r.library == g[0].library && r.cve == g[0].cve && r.signature == g[0].signature
  {
    hide FullestTexts, WidestBounds;
    MergeAt(rows, RowKey, Widen, i);
    var g := Group(rows, RowKey, FirstKeys(rows, RowKey)[i]);
    FoldFirst(g);
    WidestTexts(g);
    WidestRange(g);
  }

  /**
    The dataset has one row per key, in first-occurrence order, each the join of its group; merging
    it again changes nothing.
  */
  lemma {:induction false} DatasetIsJoin(rows: seq<Row>)
    ensures var out, keys := Dedupe(rows), FirstKeys(rows, RowKey);
      && |out| == |keys|
      && (forall i :: 0 <= i < |out| ==> RowKey(out[i]) == keys[i] && IsJoin(out[i], Group(rows, RowKey, keys[i])))
      && (forall i, j :: 0 <= i < j < |out| ==> RowKey(out[i]) != RowKey(out[j]))
      && Dedupe(out) == out
  {
    hide IsJoin;
    forall i | 0 <= i < |Dedupe(rows)|
      ensures RowKey(Dedupe(rows)[i]) == FirstKeys(rows, RowKey)[i]
      ensures IsJoin(Dedupe(rows)[i], Group(rows, RowKey, FirstKeys(rows, RowKey)[i]))
    {
      MergeAt(rows, RowKey, Widen, i);
      FoldIsJoin(Group(rows, RowKey, FirstKeys(rows, RowKey)[i]));
    }
    MergeIdempotent(rows, RowKey, Widen);
  }

  // ---------------------------------------------------------------- the merged range covers its rows

  /** Bounds the scanner can read: plain release numbers or nothing. */
  ghost predicate Readable(g: seq<Row>) {
    forall i :: 0 <= i < |g| ==>
      (Plain(g[i].minAffected) || Blank(g[i].minAffected)) && (Plain(g[i].fixedIn) || Blank(g[i].fixedIn))
  }

  /** Every version the scanner matches against a row of the group it also matches against `f`. */
  ghost predicate Covers(f: Row, g: seq<Row>) {
    forall v, i :: 0 <= i < |g| && InCveRange(v, g[i].minAffected, g[i].fixedIn) ==>
      InCveRange(v, f.minAffected, f.fixedIn)
  }

  /**
    No ceiling is blank, or some ceiling is the empty string, or the first row's ceiling is blank and
    no ceiling lies above zero.
   */
  predicate CeilingSafe(g: seq<Row>) {
    || (forall i :: 0 <= i < |g| ==> !Blank(g[i].fixedIn))
    || (exists i :: 0 <= i < |g| && g[i].fixedIn == "")
    || (g != [] && Blank(g[0].fixedIn) && forall i :: 0 <= i < |g| ==> !LexLess([0], VersionKey(g[i].fixedIn)))
  }

  /** With a blank ceiling among the rows, this says when the merged ceiling is open. */
  lemma {:induction false} OpenCeilingExactly(g: seq<Row>)
    requires g != [] && exists i :: 0 <= i < |g| && Blank(g[i].fixedIn)
    ensures Blank(Fold(g, Widen).fixedIn) <==> CeilingSafe(g)
  {
    hide VersionKey, Blank, Plain;
    var f, cs := Fold(g, Widen).fixedIn, Map(g, CeilingOf);
    CeilingIsFirstBest(g);
    var b :| BestAt(cs, LaterCeiling(), b) && cs[b] == f;
    BlankEmpty();
    if exists i :: 0 <= i < |g| && g[i].fixedIn == "" {
      var i :| 0 <= i < |g| && g[i].fixedIn == "";
      assert cs[i] == "" && !LaterCeiling()(cs[i], cs[b]);
    } else {
      forall i | 0 <= i < |g| && Blank(g[i].fixedIn) ensures VersionKey(g[i].fixedIn) == [0] { BlankKey(g[i].fixedIn); }
      if Blank(f) {
        forall j | 0 <= j < |g| ensures !LexLess([0], VersionKey(g[j].fixedIn)) {
          assert cs[j] == g[j].fixedIn && !LaterCeiling()(cs[j], cs[b]);
        }
        NothingBelowZero(cs[0]);
        assert !LaterCeiling()(cs[b], cs[0]);
      } else if Blank(g[0].fixedIn) {
        assert b != 0 && LaterCeiling()(cs[b], cs[0]);
        assert LexLess([0], VersionKey(g[b].fixedIn));
      }
    }
  }

  lemma BlankEmpty()
    ensures Blank("")
  {}

  lemma NothingBelowZero(s: string)
    ensures !LexLess(VersionKey(s), [0])
  {}

  /** A version at or above a row's floor is at or above the merged floor, although the merge compared raw tuples. */
  lemma FloorCovers(d: seq<nat>, g: seq<Row>, i: nat, f: Row)
    requires i < |g| && Readable(g) && FirstBest(Map(g, FloorOf), OlderFloor(), f.minAffected)
    requires !Blank(g[i].minAffected) ==> !PadLess(d, VersionKey(g[i].minAffected))
    ensures !PadLess(d, VersionKey(f.minAffected))
  {
    assert Map(g, FloorOf)[i] == g[i].minAffected;
    var row, floor := VersionKey(g[i].minAffected), VersionKey(f.minAffected);
    assert !LexLess(row, floor);
    LexImpliesPad(floor, row);
    if Blank(g[i].minAffected) {
      BlankKey(g[i].minAffected);
      PadLeast(Tail(d));
      assert !PadLess(d, row);
    }
    PadTransitive(floor, row, d);
  }

  /** A version below a row's ceiling is below the merged ceiling. */
  lemma CeilingCovers(d: seq<nat>, g: seq<Row>, i: nat, f: Row)
    requires i < |g| && FirstBest(Map(g, CeilingOf), LaterCeiling(), f.fixedIn) && f.fixedIn != ""
    requires PadLess(d, VersionKey(g[i].fixedIn))
    ensures PadLess(d, VersionKey(f.fixedIn))
  {
    assert Map(g, CeilingOf)[i] == g[i].fixedIn;
    var row, ceiling := VersionKey(g[i].fixedIn), VersionKey(f.fixedIn);
    assert !LexLess(ceiling, row);
    LexImpliesPad(row, ceiling);
    if !PadLess(d, ceiling) { PadTransitive(row, ceiling, d); }
  }

  lemma BoundIsReadable(g: seq<Row>)
    requires g != [] && Readable(g)
    ensures var f := Fold(g, Widen);
      (Plain(f.minAffected) || Blank(f.minAffected)) && (Plain(f.fixedIn) || Blank(f.fixedIn))
  {
    FloorIsFirstBest(g);
    CeilingIsFirstBest(g);
    var i :| BestAt(Map(g, FloorOf), OlderFloor(), i) && Map(g, FloorOf)[i] == Fold(g, Widen).minAffected;
    var j :| BestAt(Map(g, CeilingOf), LaterCeiling(), j) && Map(g, CeilingOf)[j] == Fold(g, Widen).fixedIn;
  }

  lemma RowCovered(g: seq<Row>, i: nat, v: string)
    requires i < |g| && Readable(g) && InCveRange(v, g[i].minAffected, g[i].fixedIn)
    requires Blank(g[i].fixedIn) ==> Blank(Fold(g, Widen).fixedIn)
    ensures InCveRange(v, Fold(g, Widen).minAffected, Fold(g, Widen).fixedIn)
  {
    var f := Fold(g, Widen);
    var d := Release(DropOperator(Strip(v))).value;
    FloorIsFirstBest(g);
    CeilingIsFirstBest(g);
    BoundIsReadable(g);
    if Plain(g[i].minAffected) { PlainRelease(g[i].minAffected); }
    if Plain(g[i].fixedIn) { PlainRelease(g[i].fixedIn); }
    if Plain(f.minAffected) { PlainRelease(f.minAffected); }
    if Plain(f.fixedIn) { PlainRelease(f.fixedIn); }
    FloorCovers(d, g, i, f);
    if !Blank(f.fixedIn) { CeilingCovers(d, g, i, f); }
  }

  /** A row that is open at the top, merged under a closed ceiling, loses a version. */
  lemma RowLost(g: seq<Row>, i: nat) returns (v: string)
    requires i < |g| && Readable(g) && Blank(g[i].fixedIn) && !Blank(Fold(g, Widen).fixedIn)
    ensures InCveRange(v, g[i].minAffected, g[i].fixedIn)
    ensures !InCveRange(v, Fold(g, Widen).minAffected, Fold(g, Widen).fixedIn)
  {
    var f := Fold(g, Widen);
    var row, ceiling := VersionKey(g[i].minAffected), VersionKey(f.fixedIn);
    BoundIsReadable(g);
    v := if !Blank(g[i].minAffected) && PadLess(ceiling, row) then g[i].minAffected else f.fixedIn;
    PadTotal(row, row);
    PadTotal(ceiling, ceiling);
    PadTotal(row, ceiling);
    InRangePlain(v, g[i].minAffected, g[i].fixedIn);
    InRangePlain(v, f.minAffected, f.fixedIn);
  }

  /** The merged row covers its group exactly when an open row cannot end up under a closed ceiling. */
  lemma {:induction false} CoverageExactly(g: seq<Row>)
    requires g != [] && Readable(g)
    ensures Covers(Fold(g, Widen), g) <==> CeilingSafe(g)
  {
    hide VersionKey, Blank, Plain, InCveRange;
    var f := Fold(g, Widen);
    if exists i :: 0 <= i < |g| && Blank(g[i].fixedIn) { OpenCeilingExactly(g); }
    if CeilingSafe(g) {
      forall v, i | 0 <= i < |g| && InCveRange(v, g[i].minAffected, g[i].fixedIn)
        ensures InCveRange(v, f.minAffected, f.fixedIn)
      {
        RowCovered(g, i, v);
      }
    } else {
      var i :| 0 <= i < |g| && Blank(g[i].fixedIn);
      var v := RowLost(g, i);
    }
  }

  /**
    On the rows the dataset builder produces, where an open ceiling is the empty string, no match is
    lost: a version matched against any row is matched against the merged row of its library and CVE.
   */
  lemma {:induction false} MergedRangeCovers(rows: seq<Row>, row: Row, v: string) returns (merged: Row)
    requires Readable(rows) && row in rows
    requires forall i :: 0 <= i < |rows| && Blank(rows[i].fixedIn) ==> rows[i].fixedIn == ""
    requires InCveRange(v, row.minAffected, row.fixedIn)
    ensures merged in Dedupe(rows) && RowKey(merged) == RowKey(row)
    ensures InCveRange(v, merged.minAffected, merged.fixedIn)
  {
    var n := MergeHas(rows, RowKey, Widen, row);
    merged := Dedupe(rows)[n];
    MergeAt(rows, RowKey, Widen, n);
    var g := Group(rows, RowKey, RowKey(row));
    GroupMembers(rows, RowKey, RowKey(row));
    forall i | 0 <= i < |g| ensures g[i] in rows {
      assert g[i] in g;
    }
    var i :| 0 <= i < |g| && g[i] == row;
    CeilingIsFirstBest(g);
    assert Map(g, CeilingOf)[i] == row.fixedIn;
    RowCovered(g, i, v);
  }

  lemma KeyOfTwo()
    ensures Plain("2") && Blank(" ") && Blank("") && LexLess(VersionKey(" "), VersionKey("2"))
  {
    assert Plain("2") by { SplitNone("2", '.'); }
    PlainRelease("2");
    BlankKey(" ");
    SplitNone("2", '-');
    assert ["2"][..0] == [];
    PyIntDigits("2");
    assert "2"[..0] == "";
    assert VersionKey("2") == [2];
  }

  /** White space is not the empty ceiling: the builder ranks it lowest while the scanner reads it as open. */
  lemma {:induction false} WhiteSpaceCeilingLosesMatches(row: Row)
    requires row.minAffected == "" && row.fixedIn == " "
    ensures var g := [row, row.(fixedIn := "2")];
      Readable(g) && !CeilingSafe(g) && !Covers(Fold(g, Widen), g)
  {
    hide VersionKey;
    hide Plain;
    hide Blank;
    var g := [row, row.(fixedIn := "2")];
    KeyOfTwo();
    BlankKey(" ");
    assert !Blank("2") by { PlainRelease("2"); }
    assert g[0].fixedIn == " " && g[1].fixedIn == "2" && LexLess([0], VersionKey(g[1].fixedIn));
    CoverageExactly(g);
  }

  // ---------------------------------------------------------------- independence of the input order

  /** Same floor key, same ceiling key, same openness and same score. */
  ghost predicate SameRange(f: Row, h: Row) {
    && VersionKey(f.minAffected) == VersionKey(h.minAffected)
    && VersionKey(f.fixedIn) == VersionKey(h.fixedIn)
    && (f.fixedIn == "" <==> h.fixedIn == "")
    && f.cvss == h.cvss
  }

  /** A value no member of the other group betters. */
  lemma NotBettered<W>(g: seq<Row>, h: seq<Row>, f: Row -> W, better: (W, W) -> bool, v: W, w: W)
    requires forall r :: r in g <==> r in h
    requires FirstBest(Map(g, f), better, v) && FirstBest(Map(h, f), better, w)
    ensures !better(v, w) && !better(w, v)
  {
    var i :| BestAt(Map(g, f), better, i) && Map(g, f)[i] == v;
    var j :| BestAt(Map(h, f), better, j) && Map(h, f)[j] == w;
    assert g[i] in h && h[j] in g;
    var i' :| 0 <= i' < |h| && h[i'] == g[i];
    var j' :| 0 <= j' < |g| && g[j'] == h[j];
    assert Map(h, f)[i'] == v && Map(g, f)[j'] == w;
  }

  /** Reordering or repeating the input rows changes no floor, ceiling or score of the dataset. */
  lemma {:induction false} OrderIndependent(rows: seq<Row>, other: seq<Row>, row: Row)
    requires row in rows && forall r :: r in rows <==> r in other
    ensures exists f, h ::
      f in Dedupe(rows) && h in Dedupe(other) && RowKey(f) == RowKey(h) == RowKey(row) && SameRange(f, h)
  {
    var m := MergeHas(rows, RowKey, Widen, row);
    var n := MergeHas(other, RowKey, Widen, row);
    MergeAt(rows, RowKey, Widen, m);
    MergeAt(other, RowKey, Widen, n);
    var g, h := Group(rows, RowKey, RowKey(row)), Group(other, RowKey, RowKey(row));
    GroupMembers(rows, RowKey, RowKey(row));
    GroupMembers(other, RowKey, RowKey(row));
    GroupsSameRange(g, h);
    assert Dedupe(rows)[m] in Dedupe(rows) && Dedupe(other)[n] in Dedupe(other);
  }

  lemma GroupsSameRange(g: seq<Row>, h: seq<Row>)
    requires g != [] && h != [] && forall r :: r in g <==> r in h
    ensures SameRange(Fold(g, Widen), Fold(h, Widen))
  {
    var f, e := Fold(g, Widen), Fold(h, Widen);
    FoldIsJoin(g);
    FoldIsJoin(h);
    NotBettered(g, h, FloorOf, OlderFloor(), f.minAffected, e.minAffected);
    NotBettered(g, h, CeilingOf, LaterCeiling(), f.fixedIn, e.fixedIn);
    NotBettered(g, h, CvssOf, Higher(), f.cvss, e.cvss);
    LexTotal(VersionKey(f.minAffected), VersionKey(e.minAffected));
    LexTotal(VersionKey(f.fixedIn), VersionKey(e.fixedIn));
  }

  // ---------------------------------------------------------------- the merge in place

  /** A row dictionary of the dataset builder; merging overwrites its fields. */
  class AdvisoryRow {
    const library: string
    const cve: string
    const signature: string
    var minAffected: string
    var fixedIn: string
    var cvss: real
    var cwe: string
    var summary: string
    var upgradeRec: string

    constructor (r: Row)
      ensures View() == r
    {
      library, cve, signature := r.library, r.cve, r.signature;
      minAffected, fixedIn, cvss, cwe, summary, upgradeRec :=
        r.minAffected, r.fixedIn, r.cvss, r.cwe, r.summary, r.upgradeRec;
    }

    function View(): (r: Row)
      reads this
      ensures RowKey(r) == (library, cve)
    {
      Row(library, cve, minAffected, fixedIn, cvss, cwe, summary, signature, upgradeRec)
    }

    method Absorb(row: AdvisoryRow)
      modifies this
      ensures View() == Widen(old(View()), old(row.View()))
    {
      AbsorbText(row);
      AbsorbRange(row);
    }

    method AbsorbText(row: AdvisoryRow)
      modifies this`cvss, this`cwe, this`summary
      ensures View() == old(View()).(
        cvss := Widen(old(View()), old(row.View())).cvss, cwe := Widen(old(View()), old(row.View())).cwe,
        summary := Widen(old(View()), old(row.View())).summary)
    {
      hide VersionKey;
      if row.cvss > cvss { cvss := row.cvss; }
      if cwe == "" && row.cwe != "" { cwe := row.cwe; }
      if |row.summary| > |summary| { summary := row.summary; }
    }

    method AbsorbRange(row: AdvisoryRow)
      modifies this`minAffected, this`fixedIn, this`upgradeRec
      ensures View() == old(View()).(
        minAffected := Widen(old(View()), old(row.View())).minAffected,
        fixedIn := Widen(old(View()), old(row.View())).fixedIn,
        upgradeRec := Widen(old(View()), old(row.View())).upgradeRec)
    {
      hide VersionKey;
      var rowKey := ParseVersionTuple(row.minAffected);
      var key := ParseVersionTuple(minAffected);
      if LexLess(rowKey, key) { minAffected := row.minAffected; }
      rowKey := ParseVersionTuple(row.fixedIn);
      key := ParseVersionTuple(fixedIn);
      if row.fixedIn == "" || fixedIn == "" {
        fixedIn := "";
      } else if LexLess(key, rowKey) {
        fixedIn := row.fixedIn;
      }
      rowKey := ParseVersionTuple(row.upgradeRec);
      key := ParseVersionTuple(upgradeRec);
      if LexLess(key, rowKey) { upgradeRec := row.upgradeRec; }
    }
  }

  function Views(rows: seq<AdvisoryRow>): (r: seq<Row>)
    reads rows
    ensures |r| == |rows| && forall i :: 0 <= i < |rows| ==> r[i] == rows[i].View()
  {
    if rows == [] then [] else [rows[0].View()] + Views(rows[1..])
  }

  /** Joining a row into an entry it is already part of changes nothing. */
  lemma Absorbed(rows: seq<Row>, r: Row)
    requires r in rows
    ensures RowKey(r) in Dict(rows, RowKey, Widen)
    ensures Widen(Dict(rows, RowKey, Widen)[RowKey(r)], r) == Dict(rows, RowKey, Widen)[RowKey(r)]
  {
    hide VersionKey, LexLess, Group, FirstKeys;
    var g := Group(rows, RowKey, RowKey(r));
    GroupMembers(rows, RowKey, RowKey(r));
    FirstKeysMembers(rows, RowKey);
    var i :| 0 <= i < |g| && g[i] == r;
    FoldIsJoin(g);
    assert Map(g, FloorOf)[i] == r.minAffected && Map(g, CeilingOf)[i] == r.fixedIn && Map(g, CvssOf)[i] == r.cvss;
    assert Map(g, CweOf)[i] == r.cwe && Map(g, SummaryOf)[i] == r.summary && Map(g, UpgradeOf)[i] == r.upgradeRec;
  }

  lemma WidenSelf(r: Row)
    ensures Widen(r, r) == r
  {
    hide VersionKey;
    LexTotal(VersionKey(r.minAffected), VersionKey(r.minAffected));
    LexTotal(VersionKey(r.fixedIn), VersionKey(r.fixedIn));
    LexTotal(VersionKey(r.upgradeRec), VersionKey(r.upgradeRec));
  }

  /**
    The state of the merging loop after `i` rows, whose values at the start were `vals`: the entry
    of a key is the object of the key's first row and shows the join of the key's rows so far;
    every other row object is as it was.
   */
  ghost predicate Merging(
    rows: seq<AdvisoryRow>, vals: seq<Row>, i: nat, merged: map<(string, string), AdvisoryRow>,
    order: seq<(string, string)>)
    reads rows
  {
    var dict := Dict(vals[..if i <= |vals| then i else 0], RowKey, Widen);
    && i <= |rows| == |vals| && (forall j :: 0 <= j < |rows| ==> RowKey(vals[j]) == (rows[j].library, rows[j].cve))
    && (forall j, k :: 0 <= j < |rows| && 0 <= k < |rows| && rows[j] == rows[k] ==> vals[j] == vals[k])
    && order == FirstKeys(vals[..i], RowKey) && merged.Keys == dict.Keys
    && (forall k :: k in merged ==> (merged[k].library, merged[k].cve) == k && EntryFrom(rows, i, merged[k]))
    && (forall j :: 0 <= j < |rows| ==>
      rows[j].View() == if Entered(merged, rows[j]) then dict[RowKey(vals[j])] else vals[j])
  }

  ghost predicate EntryFrom(rows: seq<AdvisoryRow>, i: nat, r: AdvisoryRow) {
    exists j :: 0 <= j < i <= |rows| && rows[j] == r
  }

  predicate Entered(merged: map<(string, string), AdvisoryRow>, r: AdvisoryRow) {
    (r.library, r.cve) in merged && merged[(r.library, r.cve)] == r
  }

  lemma EnterRow(
    rows: seq<AdvisoryRow>, vals: seq<Row>, i: nat, merged: map<(string, string), AdvisoryRow>,
    order: seq<(string, string)>)
    requires i < |rows| && Merging(rows, vals, i, merged, order) && RowKey(vals[i]) !in merged
    ensures Merging(rows, vals, i + 1, merged[RowKey(vals[i]) := rows[i]], order + [RowKey(vals[i])])
  {
    hide Widen, Dict, FirstKeys, AdvisoryRow.View;
    var key := RowKey(vals[i]);
    var after := merged[key := rows[i]];
    DictEnter(vals, i, RowKey, Widen, key);
    forall k | k in after ensures EntryFrom(rows, i + 1, after[k]) {
      if k == key { assert rows[i] == after[k]; } else { assert EntryFrom(rows, i, after[k]); }
    }
    forall j | 0 <= j < |rows|
      ensures rows[j].View() == if Entered(after, rows[j]) then Dict(vals[..i + 1], RowKey, Widen)[RowKey(vals[j])]
        else vals[j]
    {
      assert RowKey(vals[j]) != key ==> (Entered(after, rows[j]) <==> Entered(merged, rows[j]));
    }
  }

  /** The value of an entry and the value of a row joined into it, also when the row is the entry itself. */
  lemma JoinValue(
    rows: seq<AdvisoryRow>, vals: seq<Row>, i: nat, merged: map<(string, string), AdvisoryRow>,
    order: seq<(string, string)>)
    requires i < |rows| && Merging(rows, vals, i, merged, order) && RowKey(vals[i]) in merged
    ensures var key := RowKey(vals[i]);
      && key in Dict(vals[..i], RowKey, Widen) && merged[key].View() == Dict(vals[..i], RowKey, Widen)[key]
      && Widen(merged[key].View(), rows[i].View()) == Widen(merged[key].View(), vals[i])
  {
    hide Widen, Dict, FirstKeys, AdvisoryRow.View;
    var key := RowKey(vals[i]);
    var e :| 0 <= e < i && rows[e] == merged[key];
    assert Entered(merged, rows[e]);
    if Entered(merged, rows[i]) {
      assert vals[..i][e] == vals[e];
      WidenSelf(merged[key].View());
      assert vals[e] == vals[i];
      Absorbed(vals[..i], vals[e]);
    }
  }

  method JoinRow(
    rows: seq<AdvisoryRow>, ghost vals: seq<Row>, i: nat, merged: map<(string, string), AdvisoryRow>,
    ghost order: seq<(string, string)>)
    requires i < |rows| && Merging(rows, vals, i, merged, order) && RowKey(vals[i]) in merged
    modifies merged[RowKey(vals[i])]
    ensures Merging(rows, vals, i + 1, merged, order)
  {
    hide Widen, Dict, FirstKeys, AdvisoryRow.View;
    ghost var key := RowKey(vals[i]);
    var existing := merged[(rows[i].library, rows[i].cve)];
    JoinValue(rows, vals, i, merged, order);
    DictCombine(vals, i, RowKey, Widen, key, Widen(existing.View(), vals[i]));
    existing.Absorb(rows[i]);
  }

  /** The rows kept are the first of each key, with the others joined into them; no other row object changes. */
  method DedupeRows(rows: seq<AdvisoryRow>) returns (out: seq<AdvisoryRow>)
    modifies rows
    ensures Views(out) == Dedupe(old(Views(rows)))
    ensures forall r :: r in out ==> r in rows
    ensures forall j :: 0 <= j < |rows| && rows[j] !in out ==> rows[j].View() == old(rows[j].View())
  {
    hide Widen, Dict, FirstKeys, AdvisoryRow.View, Views;
    ghost var vals := Views(rows);
    var merged: map<(string, string), AdvisoryRow> := map[];
    var order: seq<(string, string)> := [];
    DictEmpty(vals[..0], RowKey, Widen);
    for i := 0 to |rows|
      invariant Merging(rows, vals, i, merged, order)
    {
      var key := (rows[i].library, rows[i].cve);
      assert RowKey(vals[i]) == key;
      if key !in merged {
        EnterRow(rows, vals, i, merged, order);
        merged, order := merged[key := rows[i]], order + [key];
      } else {
        JoinRow(rows, vals, i, merged, order);
      }
    }
    out := ReadOut(rows, vals, merged, order);
  }

  /** `list(merged.values())` */
  method ReadOut(
    rows: seq<AdvisoryRow>, ghost vals: seq<Row>, merged: map<(string, string), AdvisoryRow>,
    order: seq<(string, string)>)
    returns (out: seq<AdvisoryRow>)
    requires Merging(rows, vals, |rows|, merged, order)
    ensures Views(out) == Dedupe(vals)
    ensures forall r :: r in out ==> r in rows
    ensures forall j :: 0 <= j < |rows| && rows[j] !in out ==> rows[j].View() == vals[j]
  {
    hide Widen, Dict, FirstKeys, AdvisoryRow.View, Views;
    assert vals[..|rows|] == vals;
    forall i | 0 <= i < |order|
      ensures order[i] in merged && merged[order[i]] in rows && Dedupe(vals)[i] == merged[order[i]].View()
    {
      MergeIsDict(vals, RowKey, Widen, i);
      var j :| 0 <= j < |rows| && rows[j] == merged[order[i]];
      assert Entered(merged, rows[j]);
    }
    out := seq(|order|, i requires 0 <= i < |order| && order[i] in merged => merged[order[i]]);
    forall j | 0 <= j < |rows| && Entered(merged, rows[j]) ensures rows[j] in out {
      assert RowKey(vals[j]) in order;
      var i :| 0 <= i < |order| && order[i] == RowKey(vals[j]);
      assert out[i] == rows[j];
    }
  }
}
