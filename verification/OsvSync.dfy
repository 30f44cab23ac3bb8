/**
  The scheduled sync of OSV advisories into Table Storage, and the scanner reading the table back.
  Its deduplication keeps the affected range of the first row of a key, unlike the dataset
  builder's.
 */
module OsvSync {
  import opened Strings
  import opened KeyedFold
  import opened Versions
  import opened Advisory

  // ---------------------------------------------------------------- advisories to rows

  datatype Event = Event(introduced: Option<string>, fixed: Option<string>)
  datatype Range = Range(semver: bool, events: seq<Event>)
  datatype Affected = Affected(package: string, ranges: seq<Range>, versions: seq<string>)

  /** An advisory as OSV sends it; the score and the weakness are what the scoring library makes of it. */
  datatype Vuln =
    | Malformed
    | Vuln(affected: seq<Affected>, aliases: seq<string>, id: string, cvss: real, cwe: string, summary: string,
      details: string)

  function LastIntroduced(events: seq<Event>): string {
    if events == [] then "0"
    else if events[|events| - 1].introduced.Some? then events[|events| - 1].introduced.value
    else LastIntroduced(events[..|events| - 1])
  }

  function LastFixed(events: seq<Event>): string {
    if events == [] then ""
    else if events[|events| - 1].fixed.Some? then events[|events| - 1].fixed.value
    else LastFixed(events[..|events| - 1])
  }

  function FirstSemver(ranges: seq<Range>): Option<seq<Event>> {
    if ranges == [] then None else if ranges[0].semver then Some(ranges[0].events) else FirstSemver(ranges[1..])
  }

  /** The pair an entry yields, if it is one for the package. */
  function RangeOf(a: Affected, pkg: string): Option<(string, string)> {
    if a.package != pkg then None
    else if FirstSemver(a.ranges).Some? then
      Some((LastIntroduced(FirstSemver(a.ranges).value), LastFixed(FirstSemver(a.ranges).value)))
    else if a.versions != [] then Some((a.versions[0], a.versions[|a.versions| - 1]))
    else None
  }

  function AffectedRange(affected: seq<Affected>, pkg: string): (string, string) {
    if affected == [] then ("", "")
    else if RangeOf(affected[0], pkg).Some? then RangeOf(affected[0], pkg).value
    else AffectedRange(affected[1..], pkg)
  }

  /** The event loop keeps the last introduced and the last fixed version, whatever lies between. */
  method CollapseEvents(events: seq<Event>) returns (introduced: string, fixed: string)
    ensures introduced == LastIntroduced(events) && fixed == LastFixed(events)
    ensures IntroducedLast(events, introduced) && FixedLast(events, fixed)
  {
    hide IntroducedLast, FixedLast;
    LastIntroducedIs(events);
    LastFixedIs(events);
    introduced, fixed := "0", "";
    for i := 0 to |events|
      invariant introduced == LastIntroduced(events[..i]) && fixed == LastFixed(events[..i])
    {
      assert events[..i + 1][..i] == events[..i];
      if events[i].introduced.Some? { introduced := events[i].introduced.value; }
      if events[i].fixed.Some? { fixed := events[i].fixed.value; }
    }
    assert events[..|events|] == events;
  }

  method ExtractAffectedRange(affected: seq<Affected>, pkg: string) returns (introduced: string, fixed: string)
    ensures (introduced, fixed) == AffectedRange(affected, pkg)
    ensures AdvisoryGives(affected, pkg, introduced, fixed)
  {
    hide AdvisoryGives;
    AffectedRangeIs(affected, pkg);
    for i := 0 to |affected|
      invariant AffectedRange(affected, pkg) == AffectedRange(affected[i..], pkg)
    {
      var a := affected[i];
      assert affected[i..][1..] == affected[i + 1..];
      if a.package == pkg {
        for j := 0 to |a.ranges|
          invariant FirstSemver(a.ranges) == FirstSemver(a.ranges[j..])
        {
          assert a.ranges[j..][1..] == a.ranges[j + 1..];
          if a.ranges[j].semver {
            introduced, fixed := CollapseEvents(a.ranges[j].events);
            return;
          }
        }
        if a.versions != [] { return a.versions[0], a.versions[|a.versions| - 1]; }
      }
    }
    return "", "";
  }

  function CveId(aliases: seq<string>, id: string): string {
    if aliases == [] then id else if "CVE-" <= aliases[0] then aliases[0] else CveId(aliases[1..], id)
  }

  function RowOf(pkg: string, signature: string, v: Vuln): Row
    requires v.Vuln?
  {
    var (introduced, fixed) := AffectedRange(v.affected, pkg);
    var text := if v.summary != "" then v.summary else v.details;
    Row(pkg, CveId(v.aliases, v.id), introduced, fixed, v.cvss, v.cwe,
        if |text| > 200 then text[..200] else text, signature, if fixed != "" then fixed else "see advisory")
  }

  function RowsFor(pkg: string, signature: string, vulns: seq<Vuln>): seq<Row> {
    if vulns == [] then []
    else
      var front, last := vulns[..|vulns| - 1], vulns[|vulns| - 1];
      if last.Vuln? then RowsFor(pkg, signature, front) + [RowOf(pkg, signature, last)]
      else RowsFor(pkg, signature, front)
  }

  // ---------------------------------------------------------------- what a row says about its advisory

  /** `lo` is the last version that the events introduce, "0" if none does. */
  ghost predicate IntroducedLast(events: seq<Event>, lo: string) {
    || (exists k :: 0 <= k < |events| && events[k].introduced == Some(lo)
          && forall j :: k < j < |events| ==> events[j].introduced.None?)
    || (lo == "0" && forall j :: 0 <= j < |events| ==> events[j].introduced.None?)
  }

  /** `hi` is the last version in which the events fix the flaw, "" if none does. */
  ghost predicate FixedLast(events: seq<Event>, hi: string) {
    || (exists k :: 0 <= k < |events| && events[k].fixed == Some(hi)
          && forall j :: k < j < |events| ==> events[j].fixed.None?)
    || (hi == "" && forall j :: 0 <= j < |events| ==> events[j].fixed.None?)
  }

  /** The first semantic range of the entry gives the pair; without one, the ends of its version list do. */
  ghost predicate EntryGives(a: Affected, lo: string, hi: string) {
    || (exists j :: 0 <= j < |a.ranges| && a.ranges[j].semver && (forall i :: 0 <= i < j ==> !a.ranges[i].semver)
          && IntroducedLast(a.ranges[j].events, lo) && FixedLast(a.ranges[j].events, hi))
    || ((forall j :: 0 <= j < |a.ranges| ==> !a.ranges[j].semver)
          && |a.versions| > 0 && lo == a.versions[0] && hi == a.versions[|a.versions| - 1])
  }

  predicate Usable(a: Affected, pkg: string) {
    a.package == pkg && (|a.versions| > 0 || exists j :: 0 <= j < |a.ranges| && a.ranges[j].semver)
  }

  predicate UnusableBefore(affected: seq<Affected>, pkg: string, k: int)
    requires k <= |affected|
  {
    forall j :: 0 <= j < k ==> !Usable(affected[j], pkg)
  }

  /** The first usable entry of the package gives the pair, which is blank when there is none. */
  ghost predicate AdvisoryGives(affected: seq<Affected>, pkg: string, lo: string, hi: string) {
    || (exists k :: 0 <= k < |affected| && Usable(affected[k], pkg)
          && UnusableBefore(affected, pkg, k) && EntryGives(affected[k], lo, hi))
    || (lo == "" && hi == "" && forall j :: 0 <= j < |affected| ==> !Usable(affected[j], pkg))
  }

  predicate IsCve(alias: string) { "CVE-" <= alias }

  /** The first alias that is a CVE id; the advisory's own id when there is none. */
  ghost predicate Identifies(v: Vuln, id: string)
    requires v.Vuln?
  {
    || (exists i :: 0 <= i < |v.aliases| && IsCve(v.aliases[i]) && id == v.aliases[i]
          && forall j :: 0 <= j < i ==> !IsCve(v.aliases[j]))
    || (id == v.id && forall i :: 0 <= i < |v.aliases| ==> !IsCve(v.aliases[i]))
  }

  /** The row of the advisory, field by field. */
  ghost predicate Describes(r: Row, v: Vuln, pkg: string, signature: string)
    requires v.Vuln?
  {
    && r.library == pkg && r.signature == signature && r.cvss == v.cvss && r.cwe == v.cwe
    && Identifies(v, r.cve) && AdvisoryGives(v.affected, pkg, r.minAffected, r.fixedIn)
    && (var text := if v.summary == "" then v.details else v.summary;
        r.summary <= text && (|r.summary| == 200 || (|r.summary| < 200 && r.summary == text)))
    && (r.fixedIn == "" ==> r.upgradeRec == "see advisory") && (r.fixedIn != "" ==> r.upgradeRec == r.fixedIn)
  }

  lemma {:induction false} LastIntroducedIs(events: seq<Event>)
    ensures IntroducedLast(events, LastIntroduced(events))
  {
    if events != [] {
      var n := |events| - 1;
      LastIntroducedIs(events[..n]);
      if events[n].introduced.None? && exists k :: 0 <= k < n && events[k].introduced.Some? {
        var k :| 0 <= k < n && events[..n][k].introduced == Some(LastIntroduced(events))
          && forall j :: k < j < n ==> events[..n][j].introduced.None?;
        assert forall j :: k < j < n ==> events[j] == events[..n][j];
      } else {
        assert forall j :: 0 <= j < n ==> events[j] == events[..n][j];
      }
    }
  }

  lemma {:induction false} LastFixedIs(events: seq<Event>)
    ensures FixedLast(events, LastFixed(events))
  {
    if events != [] {
      var n := |events| - 1;
      LastFixedIs(events[..n]);
      if events[n].fixed.None? && exists k :: 0 <= k < n && events[k].fixed.Some? {
        var k :| 0 <= k < n && events[..n][k].fixed == Some(LastFixed(events))
          && forall j :: k < j < n ==> events[..n][j].fixed.None?;
        assert forall j :: k < j < n ==> events[j] == events[..n][j];
      } else {
        assert forall j :: 0 <= j < n ==> events[j] == events[..n][j];
      }
    }
  }

  lemma {:induction false} FirstSemverAt(ranges: seq<Range>)
    ensures FirstSemver(ranges).None? <==> forall j :: 0 <= j < |ranges| ==> !ranges[j].semver
    ensures FirstSemver(ranges).Some? ==>
      exists j :: 0 <= j < |ranges| && ranges[j].semver && (forall i :: 0 <= i < j ==> !ranges[i].semver)
        && FirstSemver(ranges) == Some(ranges[j].events)
  {
    if ranges != [] && !ranges[0].semver {
      FirstSemverAt(ranges[1..]);
      assert forall j :: 0 < j < |ranges| ==> ranges[j] == ranges[1..][j - 1];
      if FirstSemver(ranges).Some? {
        var j :| 0 <= j < |ranges| - 1 && ranges[1..][j].semver && (forall i :: 0 <= i < j ==> !ranges[1..][i].semver)
          && FirstSemver(ranges) == Some(ranges[1..][j].events);
        assert ranges[j + 1] == ranges[1..][j];
      }
    }
  }

  lemma EntryRange(a: Affected, pkg: string)
    ensures RangeOf(a, pkg).Some? <==> Usable(a, pkg)
    ensures RangeOf(a, pkg).Some? ==> EntryGives(a, RangeOf(a, pkg).value.0, RangeOf(a, pkg).value.1)
  {
    hide LastIntroduced, LastFixed, IntroducedLast, FixedLast, FirstSemver;
    FirstSemverAt(a.ranges);
    if FirstSemver(a.ranges).Some? {
      LastIntroducedIs(FirstSemver(a.ranges).value);
      LastFixedIs(FirstSemver(a.ranges).value);
    }
  }

  lemma {:induction false} AffectedRangeIs(affected: seq<Affected>, pkg: string)
    ensures AdvisoryGives(affected, pkg, AffectedRange(affected, pkg).0, AffectedRange(affected, pkg).1)
  {
    hide RangeOf, EntryGives, Usable;
    if affected != [] {
      EntryRange(affected[0], pkg);
      if !Usable(affected[0], pkg) {
        AffectedRangeIs(affected[1..], pkg);
        assert forall j :: 0 < j < |affected| ==> affected[j] == affected[1..][j - 1];
        var (lo, hi) := AffectedRange(affected, pkg);
        var rest := affected[1..];
        if k :| 0 <= k < |rest| && Usable(rest[k], pkg) && UnusableBefore(rest, pkg, k) && EntryGives(rest[k], lo, hi) {
          assert Usable(affected[k + 1], pkg) && EntryGives(affected[k + 1], lo, hi);
        }
      }
    }
  }

  lemma {:induction false} CveIdIs(v: Vuln, from: nat)
    requires v.Vuln? && from <= |v.aliases| && forall j :: 0 <= j < from ==> !IsCve(v.aliases[j])
    ensures Identifies(v, CveId(v.aliases[from..], v.id))
    decreases |v.aliases| - from
  {
    if from < |v.aliases| && !IsCve(v.aliases[from]) {
      assert v.aliases[from..][1..] == v.aliases[from + 1..];
      CveIdIs(v, from + 1);
    }
  }

  lemma RowDescribes(pkg: string, signature: string, v: Vuln)
    requires v.Vuln?
    ensures Describes(RowOf(pkg, signature, v), v, pkg, signature)
  {
    hide AffectedRange, AdvisoryGives, CveId, Identifies;
    AffectedRangeIs(v.affected, pkg);
    CveIdIs(v, 0);
    assert v.aliases[0..] == v.aliases;
  }

  /** `at` lists, in order, the advisories that are not malformed. */
  predicate WellFormedAt(vulns: seq<Vuln>, at: seq<nat>) {
    && (forall k :: 0 <= k < |at| ==> at[k] < |vulns| && vulns[at[k]].Vuln?)
    && (forall j, k :: 0 <= j < k < |at| ==> at[j] < at[k])
    && (forall i :: 0 <= i < |vulns| && vulns[i].Vuln? ==> i in at)
  }

  /** One row for each of these advisories, in their order. */
  ghost predicate RowsAre(rows: seq<Row>, vulns: seq<Vuln>, at: seq<nat>, pkg: string, signature: string)
    requires WellFormedAt(vulns, at)
  {
    |rows| == |at| && forall k :: 0 <= k < |rows| ==> Describes(rows[k], vulns[at[k]], pkg, signature)
  }

  /** The advisories that are not malformed give the rows, one each, in order. */
  lemma {:induction false} RowsInOrder(pkg: string, signature: string, vulns: seq<Vuln>) returns (at: seq<nat>)
    ensures WellFormedAt(vulns, at) && RowsAre(RowsFor(pkg, signature, vulns), vulns, at, pkg, signature)
  {
    hide RowOf, Describes;
    if vulns == [] {
      at := [];
    } else {
      var n := |vulns| - 1;
      var before := RowsInOrder(pkg, signature, vulns[..n]);
      if vulns[n].Vuln? {
        RowDescribes(pkg, signature, vulns[n]);
        at := before + [n];
      } else {
        at := before;
      }
      forall i | 0 <= i < |vulns| && vulns[i].Vuln? ensures i in at { assert i < n ==> vulns[..n][i].Vuln?; }
    }
  }

  method BuildRowsForPackage(pkg: string, signature: string, vulns: seq<Vuln>) returns (rows: seq<Row>)
    ensures rows == RowsFor(pkg, signature, vulns)
    ensures exists at :: WellFormedAt(vulns, at) && RowsAre(rows, vulns, at, pkg, signature)
  {
    hide RowsAre, WellFormedAt;
    ghost var at := RowsInOrder(pkg, signature, vulns);
    rows := [];
    for i := 0 to |vulns|
      invariant rows == RowsFor(pkg, signature, vulns[..i])
    {
      assert vulns[..i + 1][..i] == vulns[..i];
      if vulns[i].Vuln? { rows := rows + [RowOf(pkg, signature, vulns[i])]; }
    }
    assert vulns[..|vulns|] == vulns;
  }

  function Introduced(v: string): Event { Event(Some(v), None) }
  function FixedAt(v: string): Event { Event(None, Some(v)) }

  lemma LastOf(events: seq<Event>, e: Event)
    ensures LastIntroduced(events + [e]) == if e.introduced.Some? then e.introduced.value else LastIntroduced(events)
    ensures LastFixed(events + [e]) == if e.fixed.Some? then e.fixed.value else LastFixed(events)
  {
    assert (events + [e])[..|events|] == events;
  }

  /** The advisory's first entry is one for the package and gives these events. */
  predicate Gives(v: Vuln, pkg: string, events: seq<Event>) {
    && v.Vuln? && v.affected != [] && v.affected[0].package == pkg
    && FirstSemver(v.affected[0].ranges) == Some(events)
  }

  lemma RowRange(vuln: Vuln, pkg: string, signature: string, events: seq<Event>)
    requires Gives(vuln, pkg, events)
    ensures var r := RowOf(pkg, signature, vuln);
      r.library == pkg && r.minAffected == LastIntroduced(events) && r.fixedIn == LastFixed(events)
  {}

  // ---------------------------------------------------------------- what a row keeps of an event list

  /** A stretch of affected versions, from its floor to below its ceiling or still open. */
  datatype Interval = Interval(floor: string, ceiling: Option<string>)

  function Events(ivs: seq<Interval>): seq<Event> {
    if ivs == [] then []
    else
      var iv := ivs[|ivs| - 1];
      Events(ivs[..|ivs| - 1]) + ([Introduced(iv.floor)] + if iv.ceiling.Some? then [FixedAt(iv.ceiling.value)] else [])
  }

  predicate Proper(iv: Interval) {
    && Plain(iv.floor)
    && (iv.ceiling.Some? ==> Plain(iv.ceiling.value) && PadLess(VersionKey(iv.floor), VersionKey(iv.ceiling.value)))
  }

  /** The intervals are not empty, ascend, and only the last one may be open. */
  predicate Ascending(ivs: seq<Interval>) {
    && (forall i :: 0 <= i < |ivs| ==> Proper(ivs[i]))
    && (forall i :: 0 < i < |ivs| ==> Follows(ivs[i - 1], ivs[i]))
  }

  predicate Follows(a: Interval, b: Interval) {
    a.ceiling.Some? && !PadLess(VersionKey(b.floor), VersionKey(a.ceiling.value))
  }

  predicate Lies(d: seq<nat>, iv: Interval) {
    !PadLess(d, VersionKey(iv.floor)) && (iv.ceiling.Some? ==> PadLess(d, VersionKey(iv.ceiling.value)))
  }

  /** The advisory says that the detected version is affected. */
  predicate IsAffected(v: string, ivs: seq<Interval>) {
    Detected(v).Some? && exists i :: 0 <= i < |ivs| && Lies(Detected(v).value, ivs[i])
  }

  lemma LastEvents(ivs: seq<Interval>)
    requires ivs != []
    ensures var n := |ivs| - 1;
      && LastIntroduced(Events(ivs)) == ivs[n].floor
      && LastFixed(Events(ivs)) == if ivs[n].ceiling.Some? then ivs[n].ceiling.value else LastFixed(Events(ivs[..n]))
  {
    var n := |ivs| - 1;
    var iv, before := ivs[n], Events(ivs[..n]);
    LastOf(before, Introduced(iv.floor));
    if iv.ceiling.Some? {
      LastOf(before + [Introduced(iv.floor)], FixedAt(iv.ceiling.value));
      assert Events(ivs) == before + [Introduced(iv.floor)] + [FixedAt(iv.ceiling.value)];
    } else {
      assert Events(ivs) == before + [Introduced(iv.floor)];
    }
  }

  /** The row of an advisory whose events describe one interval matches exactly the affected versions. */
  lemma {:induction false} SingleIntervalExact(vuln: Vuln, pkg: string, signature: string, iv: Interval, v: string)
    requires Gives(vuln, pkg, Events([iv])) && Proper(iv)
    ensures var r := RowOf(pkg, signature, vuln);
      InCveRange(v, r.minAffected, r.fixedIn) <==> IsAffected(v, [iv])
  {
    hide Plain, VersionKey, InCveRange, RowOf, Gives, Detected, Events, Blank;
    RowRange(vuln, pkg, signature, Events([iv]));
    LastEvents([iv]);
    assert [iv][..0] == [] && LastFixed(Events([])) == "" by { NoEvents(); }
    if iv.ceiling.Some? { PlainRelease(iv.ceiling.value); } else { BlankEmpty(); }
    InRangeReadable(v, iv.floor, if iv.ceiling.Some? then iv.ceiling.value else "");
    assert [iv][0] == iv;
  }

  lemma NoEvents()
    ensures Events([]) == [] && LastFixed([]) == "" && LastIntroduced([]) == "0"
  {}

  lemma {:induction false} FloorsAscend(ivs: seq<Interval>)
    requires Ascending(ivs) && |ivs| >= 2
    ensures PadLess(VersionKey(ivs[0].floor), VersionKey(ivs[|ivs| - 1].floor))
  {
    hide VersionKey, Plain, PadLess;
    var n := |ivs| - 1;
    var first, last, ceiling := VersionKey(ivs[0].floor), VersionKey(ivs[n].floor),
      VersionKey(ivs[n - 1].ceiling.value);
    assert Proper(ivs[n - 1]) && Follows(ivs[n - 1], ivs[n]);
    var before := VersionKey(ivs[n - 1].floor);
    if !PadLess(before, last) { PadTransitive(ceiling, last, before); }
    if n > 1 {
      var front := ivs[..n];
      forall i | 0 < i < |front| ensures Follows(front[i - 1], front[i]) {}
      FloorsAscend(front);
      if !PadLess(first, last) {
        PadTotal(before, last);
        PadTransitive(before, last, first);
        PadTotal(first, before);
      }
    }
  }

  /** Of two intervals or more, the first one's floor is affected and not matched. */
  lemma {:induction false} FirstFloorIsLost(vuln: Vuln, pkg: string, signature: string, ivs: seq<Interval>)
    requires Gives(vuln, pkg, Events(ivs)) && Ascending(ivs) && |ivs| >= 2
    ensures var r := RowOf(pkg, signature, vuln);
      IsAffected(ivs[0].floor, ivs) && !InCveRange(ivs[0].floor, r.minAffected, r.fixedIn)
  {
    hide Plain, VersionKey, InCveRange, RowOf, Gives, Detected, Events, Blank, PadLess;
    var v, last := ivs[0].floor, ivs[|ivs| - 1];
    RowRange(vuln, pkg, signature, Events(ivs));
    LastEvents(ivs);
    FloorsAscend(ivs);
    assert Proper(ivs[0]) && Proper(last);
    DetectedPlain(v);
    PadTotal(VersionKey(v), VersionKey(v));
    assert Lies(VersionKey(v), ivs[0]);
    FixedIsBound(ivs);
    InRangeReadable(v, last.floor, LastFixed(Events(ivs)));
  }

  lemma {:induction false} FixedIsBound(ivs: seq<Interval>)
    requires forall i :: 0 <= i < |ivs| ==> Proper(ivs[i])
    ensures Bound(LastFixed(Events(ivs)))
  {
    hide Plain, Blank, VersionKey, PadLess, Events;
    if ivs == [] {
      NoEvents();
      BlankEmpty();
    } else {
      LastEvents(ivs);
      assert Proper(ivs[|ivs| - 1]);
      FixedIsBound(ivs[..|ivs| - 1]);
    }
  }

  /** The row matches exactly the affected versions. */
  ghost predicate Matches(r: Row, ivs: seq<Interval>) {
    forall v :: InCveRange(v, r.minAffected, r.fixedIn) <==> IsAffected(v, ivs)
  }

  /** A row keeps the whole event list exactly when it has one interval. */
  lemma {:induction false} RowMatchesExactly(vuln: Vuln, pkg: string, signature: string, ivs: seq<Interval>)
    requires Gives(vuln, pkg, Events(ivs)) && Ascending(ivs)
    ensures Matches(RowOf(pkg, signature, vuln), ivs) <==> |ivs| == 1
  {
    hide Plain, VersionKey, InCveRange, RowOf, Gives, Events, IsAffected;
    if |ivs| == 1 {
      assert ivs == [ivs[0]];
      forall v { SingleIntervalExact(vuln, pkg, signature, ivs[0], v); }
    } else if |ivs| >= 2 {
      FirstFloorIsLost(vuln, pkg, signature, ivs);
    } else {
      assert ivs == [];
      NothingAffected(vuln, pkg, signature);
    }
  }

  lemma NothingAffected(vuln: Vuln, pkg: string, signature: string)
    requires Gives(vuln, pkg, Events([]))
    ensures var r := RowOf(pkg, signature, vuln);
      InCveRange("0", r.minAffected, r.fixedIn) && !IsAffected("0", [])
  {
    hide VersionKey, InCveRange, RowOf, Gives, Detected;
    RowRange(vuln, pkg, signature, Events([]));
    NoEvents();
    ZeroKey();
    BlankEmpty();
    DetectedPlain("0");
    PadZero([0]);
    InRangeReadable("0", "0", "");
  }

  lemma ZeroKey()
    ensures Plain("0") && VersionKey("0") == [0]
  {
    SplitNone("0", '-');
    SplitNone("0", '.');
    assert ["0"][..0] == [];
    PyIntDigits("0");
    assert "0"[..0] == "";
  }

  /**
    A flaw fixed and introduced again, not yet fixed: the row's range runs from the last floor to a
    ceiling that does not lie above it, so no version at all is matched.
   */
  lemma {:induction false} ReintroducedIsNeverMatched(
    vuln: Vuln, pkg: string, signature: string, ivs: seq<Interval>, v: string)
    requires Gives(vuln, pkg, Events(ivs)) && Ascending(ivs) && |ivs| >= 2 && ivs[|ivs| - 1].ceiling.None?
    ensures var r := RowOf(pkg, signature, vuln);
      !InCveRange(v, r.minAffected, r.fixedIn)
  {
    hide Plain, VersionKey, InCveRange, RowOf, Gives, Detected, Events, Blank, PadLess;
    var n := |ivs| - 1;
    RowRange(vuln, pkg, signature, Events(ivs));
    LastEvents(ivs);
    LastEvents(ivs[..n]);
    assert Proper(ivs[n - 1]) && Proper(ivs[n]) && Follows(ivs[n - 1], ivs[n]);
    var floor, ceiling := ivs[n].floor, ivs[n - 1].ceiling.value;
    PlainRelease(ceiling);
    InRangeReadable(v, floor, ceiling);
    if Detected(v).Some? && !PadLess(Detected(v).value, VersionKey(floor)) {
      PadTransitive(VersionKey(ceiling), VersionKey(floor), Detected(v).value);
    }
  }

  // ---------------------------------------------------------------- the sync

  datatype Fetch = FetchFailed | Fetched(vulns: seq<Vuln>)
  datatype Package = Package(name: string, signature: string, fetch: Fetch)

  function PackageRows(p: Package): seq<Row> {
    if p.fetch.Fetched? then RowsFor(p.name, p.signature, p.fetch.vulns) else []
  }

  function AllRows(packages: seq<Package>): seq<Row> {
    if packages == [] then [] else AllRows(packages[..|packages| - 1]) + PackageRows(packages[|packages| - 1])
  }

  /** A row joined into the entry of its key: the range, the signature and the advice of the first row stay. */
  function Absorb(a: Row, b: Row): Row {
    a.(cvss := if b.cvss > a.cvss then b.cvss else a.cvss,
       cwe := if a.cwe == "" && b.cwe != "" then b.cwe else a.cwe,
       summary := if |b.summary| > |a.summary| then b.summary else a.summary)
  }

  function DedupeFirstRange(rows: seq<Row>): seq<Row> { Merge(rows, RowKey, Absorb) }

  function Sync(packages: seq<Package>): seq<Row> { DedupeFirstRange(AllRows(packages)) }

  method DedupeSyncedRows(rows: seq<Row>) returns (out: seq<Row>)
    ensures out == DedupeFirstRange(rows)
  {
    hide FirstKeys, Dict, Merge;
    var merged: map<(string, string), Row> := map[];
    var order: seq<(string, string)> := [];
    DictEmpty(rows[..0], RowKey, Absorb);
    for i := 0 to |rows|
      invariant order == FirstKeys(rows[..i], RowKey) && merged == Dict(rows[..i], RowKey, Absorb)
    {
      var key := RowKey(rows[i]);
      DictStep(rows, i, RowKey, Absorb);
      if key !in merged {
        merged, order := merged[key := rows[i]], order + [key];
      } else {
        merged := merged[key := Absorb(merged[key], rows[i])];
      }
    }
    assert rows[..|rows|] == rows;
    forall i | 0 <= i < |order| ensures order[i] in merged && DedupeFirstRange(rows)[i] == merged[order[i]] {
      MergeIsDict(rows, RowKey, Absorb, i);
    }
    out := seq(|order|, i requires 0 <= i < |order| && order[i] in merged => merged[order[i]]);
  }

  /** A package whose fetch fails is skipped; nothing a package does makes the sync raise. */
  method SyncAllPackages(packages: seq<Package>) returns (rows: seq<Row>, skipped: seq<string>)
    ensures rows == Sync(packages)
    ensures forall name :: name in skipped <==> exists p :: p in packages && p.name == name && p.fetch.FetchFailed?
  {
    rows, skipped := [], [];
    for i := 0 to |packages|
      invariant rows == AllRows(packages[..i])
      invariant forall name :: name in skipped <==>
        exists p :: p in packages[..i] && p.name == name && p.fetch.FetchFailed?
    {
      var p := packages[i];
      assert packages[..i + 1][..i] == packages[..i] && packages[..i + 1] == packages[..i] + [p];
      if p.fetch.Fetched? {
        var more := BuildRowsForPackage(p.name, p.signature, p.fetch.vulns);
        rows := rows + more;
      } else {
        assert rows + [] == rows;
        skipped := skipped + [p.name];
      }
    }
    assert packages[..|packages|] == packages;
    rows := DedupeSyncedRows(rows);
  }

  // ---------------------------------------------------------------- what a synced row is

  lemma AbsorbKeepsKey()
    ensures KeepsKey(RowKey, Absorb)
  {}

  lemma {:induction false} FoldKeepsFirstRange(g: seq<Row>)
    requires g != []
    ensures var f := Fold(g, Absorb);
      f == g[0].(cvss := f.cvss, cwe := f.cwe, summary := f.summary)
  {
    if |g| > 1 { FoldKeepsFirstRange(g[..|g| - 1]); }
  }

  lemma AbsorbField<W(!new)>(g: seq<Row>, f: Row -> W, better: (W, W) -> bool)
    requires g != [] && StrictWeakOrder(better)
    requires forall a, b :: f(Absorb(a, b)) == Keep(better)(f(a), f(b))
    ensures FirstBest(Map(g, f), better, f(Fold(g, Absorb)))
  {
    FoldField(g, Absorb, f, Keep(better));
    FoldFirstBest(Map(g, f), better, Keep(better));
  }

  /**
    Each synced row is the first row of its key, range included, with the highest score, the first
    weakness given and the first longest summary of the key's rows.
   */
  lemma {:induction false} SyncedRowExactly(rows: seq<Row>, i: nat)
    requires i < |DedupeFirstRange(rows)|
    ensures var g, r := Group(rows, RowKey, FirstKeys(rows, RowKey)[i]), DedupeFirstRange(rows)[i];
      && g != [] && r == g[0].(cvss := r.cvss, cwe := r.cwe, summary := r.summary)
      && FirstBest(Map(g, CvssOf), Higher(), r.cvss)
      && FirstBest(Map(g, CweOf), Given(), r.cwe)
      && FirstBest(Map(g, SummaryOf), Longer(), r.summary)
  {
    AbsorbKeepsKey();
    OrdersAreStrict();
    MergeAt(rows, RowKey, Absorb, i);
    var g := Group(rows, RowKey, FirstKeys(rows, RowKey)[i]);
    FoldKeepsFirstRange(g);
    AbsorbField(g, CvssOf, Higher());
    AbsorbField(g, CweOf, Given());
    AbsorbField(g, SummaryOf, Longer());
  }

  /** Field by field: the highest score, the first weakness given, the first of the longest summaries. */
  lemma {:induction false} SyncedRowBest(rows: seq<Row>, i: nat)
    requires i < |DedupeFirstRange(rows)|
    ensures var g, r := Group(rows, RowKey, FirstKeys(rows, RowKey)[i]), DedupeFirstRange(rows)[i];
      && g != [] && r.minAffected == g[0].minAffected && r.fixedIn == g[0].fixedIn && r.upgradeRec == g[0].upgradeRec
      && (forall j :: 0 <= j < |g| ==> r.cvss >= g[j].cvss && |r.summary| >= |g[j].summary|)
      && (exists j :: 0 <= j < |g| && g[j].cvss == r.cvss)
      && (exists j :: 0 <= j < |g| && g[j].summary == r.summary
            && forall k :: 0 <= k < j ==> |g[k].summary| < |r.summary|)
      && (r.cwe == "" ==> forall j :: 0 <= j < |g| ==> g[j].cwe == "")
      && (r.cwe != "" ==> exists j :: 0 <= j < |g| && g[j].cwe == r.cwe && forall k :: 0 <= k < j ==> g[k].cwe == "")
  {
    SyncedRowExactly(rows, i);
    var g, r := Group(rows, RowKey, FirstKeys(rows, RowKey)[i]), DedupeFirstRange(rows)[i];
    BestOfField(g, CvssOf, Higher(), r.cvss);
    BestOfField(g, CweOf, Given(), r.cwe);
    BestOfField(g, SummaryOf, Longer(), r.summary);
  }

  // ---------------------------------------------------------------- what a synced row matches

  /** No version lies in the row's range. */
  predicate EmptyRange(r: Row) { !Blank(r.fixedIn) && !PadLess(VersionKey(r.minAffected), VersionKey(r.fixedIn)) }

  /** The row's range starts no earlier and ends no later; a blank ceiling is open. */
  predicate InsideRange(r: Row, f: Row) {
    && !PadLess(VersionKey(r.minAffected), VersionKey(f.minAffected))
    && (Blank(f.fixedIn) || (!Blank(r.fixedIn) && !PadLess(VersionKey(f.fixedIn), VersionKey(r.fixedIn))))
  }

  lemma InsideIsMatched(r: Row, f: Row, v: string)
    requires Bound(r.minAffected) && Bound(r.fixedIn) && Bound(f.minAffected) && Bound(f.fixedIn)
    requires (EmptyRange(r) || InsideRange(r, f)) && InCveRange(v, r.minAffected, r.fixedIn)
    ensures InCveRange(v, f.minAffected, f.fixedIn)
  {
    hide VersionKey, Plain, Blank, PadLess, InCveRange, Detected;
    InRangeReadable(v, r.minAffected, r.fixedIn);
    InRangeReadable(v, f.minAffected, f.fixedIn);
    var d, floor := Detected(v).value, VersionKey(r.minAffected);
    if EmptyRange(r) {
      PadTransitive(VersionKey(r.fixedIn), floor, d);
    } else {
      PadTransitive(VersionKey(f.minAffected), floor, d);
      if !Blank(f.fixedIn) && !PadLess(d, VersionKey(f.fixedIn)) {
        PadTransitive(VersionKey(r.fixedIn), VersionKey(f.fixedIn), d);
      }
    }
  }

  /** A row whose range is neither empty nor inside matches some version that the other does not. */
  lemma OutsideIsLost(r: Row, f: Row) returns (v: string)
    requires Bound(r.minAffected) && Bound(r.fixedIn) && Bound(f.minAffected) && Bound(f.fixedIn)
    requires !EmptyRange(r) && !InsideRange(r, f)
    ensures InCveRange(v, r.minAffected, r.fixedIn) && !InCveRange(v, f.minAffected, f.fixedIn)
  {
    hide VersionKey, Plain, Blank, PadLess, InCveRange, Detected;
    var floor, ceiling := VersionKey(r.minAffected), VersionKey(f.fixedIn);
    PadTotal(floor, floor);
    PadTotal(ceiling, ceiling);
    if PadLess(floor, VersionKey(f.minAffected)) || !PadLess(floor, ceiling) {
      v := AtFloor(r);
    } else {
      v := f.fixedIn;
      DetectedPlain(v);
      PadTotal(floor, ceiling);
    }
    InRangeReadable(v, r.minAffected, r.fixedIn);
    InRangeReadable(v, f.minAffected, f.fixedIn);
  }

  /** The version at the row's floor. */
  lemma AtFloor(r: Row) returns (v: string)
    requires Bound(r.minAffected)
    ensures Detected(v) == Some(VersionKey(r.minAffected))
  {
    hide VersionKey, Detected;
    if Plain(r.minAffected) {
      v := r.minAffected;
    } else {
      v := "0";
      BlankKey(r.minAffected);
      ZeroKey();
    }
    DetectedPlain(v);
  }

  /**
    The synced row matches every version that one of its key's rows matches exactly when each of them
    has an empty range or one inside the first row's.
   */
  lemma {:induction false} SyncedCoverageExactly(g: seq<Row>)
    requires g != [] && Readable(g)
    ensures Covers(Fold(g, Absorb), g) <==> forall i :: 0 <= i < |g| ==> EmptyRange(g[i]) || InsideRange(g[i], g[0])
  {
    hide EmptyRange, InsideRange, VersionKey, Plain, Blank, InCveRange;
    var f := Fold(g, Absorb);
    FoldKeepsFirstRange(g);
    forall i | 0 <= i < |g| ensures Bound(g[i].minAffected) && Bound(g[i].fixedIn) {}
    forall r ensures InsideRange(r, f) <==> InsideRange(r, g[0]) { SameRangeInside(r, f, g[0]); }
    if forall i :: 0 <= i < |g| ==> EmptyRange(g[i]) || InsideRange(g[i], g[0]) {
      forall v, i | 0 <= i < |g| && InCveRange(v, g[i].minAffected, g[i].fixedIn)
        ensures InCveRange(v, f.minAffected, f.fixedIn) {
        InsideIsMatched(g[i], f, v);
      }
    } else {
      var i :| 0 <= i < |g| && !(EmptyRange(g[i]) || InsideRange(g[i], g[0]));
      var v := OutsideIsLost(g[i], f);
    }
  }

  lemma SameRangeInside(r: Row, f: Row, first: Row)
    requires f.minAffected == first.minAffected && f.fixedIn == first.fixedIn
    ensures InsideRange(r, f) <==> InsideRange(r, first)
  {}

  /** Unlike the dataset builder's, this merge loses matches as soon as a later row ends later. */
  lemma {:induction false} LaterCeilingIsLost(row: Row, ceiling: string)
    requires Plain(row.minAffected) && Plain(row.fixedIn) && Plain(ceiling)
    requires PadLess(VersionKey(row.minAffected), VersionKey(row.fixedIn)) &&
      PadLess(VersionKey(row.fixedIn), VersionKey(ceiling))
    ensures var g := [row, row.(fixedIn := ceiling)];
      !Covers(Fold(g, Absorb), g)
  {
    hide VersionKey, Plain, PadLess, Covers;
    var later := row.(fixedIn := ceiling);
    var g := [row, later];
    PlainRelease(row.fixedIn);
    PlainRelease(ceiling);
    PadTotal(VersionKey(row.minAffected), VersionKey(row.fixedIn));
    if !PadLess(VersionKey(row.minAffected), VersionKey(ceiling)) {
      PadTransitive(VersionKey(ceiling), VersionKey(row.minAffected), VersionKey(row.fixedIn));
    }
    assert !EmptyRange(g[1]) && !InsideRange(g[1], g[0]);
    SyncedCoverageExactly(g);
  }

  // ---------------------------------------------------------------- packages do not affect one another

  predicate DistinctPackages(packages: seq<Package>) {
    forall i, j :: 0 <= i < j < |packages| ==> packages[i].name != packages[j].name
  }

  function OfLibrary(name: string): Row -> bool { (r: Row) => r.library == name }
  function KeyOfLibrary(name: string): ((string, string)) -> bool { (k: (string, string)) => k.0 == name }

  lemma {:induction false} RowsForLibrary(pkg: string, signature: string, vulns: seq<Vuln>)
    ensures forall i :: 0 <= i < |RowsFor(pkg, signature, vulns)| ==> RowsFor(pkg, signature, vulns)[i].library == pkg
  {
    if vulns != [] { RowsForLibrary(pkg, signature, vulns[..|vulns| - 1]); }
  }

  lemma PackageRowsOf(p: Package, name: string)
    ensures Filter(PackageRows(p), OfLibrary(name)) == if p.name == name then PackageRows(p) else []
  {
    if p.fetch.Fetched? { RowsForLibrary(p.name, p.signature, p.fetch.vulns); }
    FilterAll(PackageRows(p), OfLibrary(name), p.name == name);
  }

  lemma {:induction false} AllRowsOf(packages: seq<Package>, name: string)
    requires forall i :: 0 <= i < |packages| ==> packages[i].name != name
    ensures Filter(AllRows(packages), OfLibrary(name)) == []
  {
    if packages != [] {
      var n := |packages| - 1;
      AllRowsOf(packages[..n], name);
      FilterAppend(AllRows(packages[..n]), PackageRows(packages[n]), OfLibrary(name));
      PackageRowsOf(packages[n], name);
    }
  }

  lemma LastPackage(packages: seq<Package>)
    requires packages != []
    ensures var n := |packages| - 1; AllRows(packages) == AllRows(packages[..n]) + PackageRows(packages[n])
  {}

  lemma {:induction false} AllRowsOfPackage(packages: seq<Package>, k: nat)
    requires DistinctPackages(packages) && k < |packages|
    ensures Filter(AllRows(packages), OfLibrary(packages[k].name)) == PackageRows(packages[k])
  {
    hide PackageRows, AllRows, Filter, OfLibrary;
    var n, name := |packages| - 1, packages[k].name;
    LastPackage(packages);
    FilterAppend(AllRows(packages[..n]), PackageRows(packages[n]), OfLibrary(name));
    PackageRowsOf(packages[n], name);
    if k < n {
      AllRowsOfPackage(packages[..n], k);
      assert packages[..n][k] == packages[k];
    } else {
      AllRowsOf(packages[..n], name);
    }
  }

  /**
    The synced rows of a package are those of syncing it alone: whether the other packages fail,
    succeed or send malformed advisories makes no difference, and a failed package has no rows.
   */
  lemma {:induction false} PackagesAreIndependent(packages: seq<Package>, k: nat)
    requires DistinctPackages(packages) && k < |packages|
    ensures Filter(Sync(packages), OfLibrary(packages[k].name)) == Sync([packages[k]])
    ensures packages[k].fetch.FetchFailed? ==> Filter(Sync(packages), OfLibrary(packages[k].name)) == []
  {
    hide Absorb, PackageRows;
    var p := packages[k];
    AbsorbKeepsKey();
    MergeOfFilter(AllRows(packages), RowKey, Absorb, OfLibrary(p.name), KeyOfLibrary(p.name));
    AllRowsOfPackage(packages, k);
    assert AllRows([p]) == PackageRows(p) by { assert [p][..0] == []; }
    FailedHasNone(p);
  }

  lemma FailedHasNone(p: Package)
    ensures p.fetch.FetchFailed? ==> PackageRows(p) == [] && DedupeFirstRange(PackageRows(p)) == []
  {}

  // ---------------------------------------------------------------- the table

  datatype Entity = Entity(rowKey: string, row: Row, lastUpdated: int)

  predicate Allowed(c: char) { c !in "/\\#?" && c >= ' ' }

  /** Only these four characters and the control characters are dropped from a key. */
  lemma {:induction false} DroppedExactly(c: char)
    ensures KeepAllowed([c]) == "" <==> c == '/' || c == '\\' || c == '#' || c == '?' || c as int < 32
    ensures KeepAllowed([c]) != "" ==> KeepAllowed([c]) == [c]
  {
    assert [c][1..] == "";
  }

  function KeepAllowed(s: string): string {
    if s == "" then "" else if Allowed(s[0]) then [s[0]] + KeepAllowed(s[1..]) else KeepAllowed(s[1..])
  }

  function Sanitize(s: string): string { if KeepAllowed(s) == "" then "unknown" else KeepAllowed(s) }

  /** The id as it stands in a table key. */
  function KeyId(cve: string): string { Sanitize(if cve == "" then "no-cve" else cve) }

  function TableKey(r: Row): string { Sanitize(r.library) + ['_'] + KeyId(r.cve) }

  function ToEntity(r: Row, now: int): Entity { Entity(TableKey(r), r, now) }

  /** Non-empty and without the characters a table key may not contain. */
  predicate CleanPart(s: string) { s != "" && forall c :: c in s ==> Allowed(c) }

  /** A row of one of the libraries, with a clean id. */
  predicate CleanRow(r: Row, libraries: set<string>) { r.library in libraries && CleanPart(r.cve) }

  lemma {:induction false} SanitizeClean(s: string)
    requires forall c :: c in s ==> Allowed(c)
    ensures KeepAllowed(s) == s
  {
    if s != "" {
      assert s[0] in s && s == [s[0]] + s[1..];
      SanitizeClean(s[1..]);
    }
  }

  lemma TableKeyOfCleanParts(r: Row)
    requires CleanPart(r.library) && CleanPart(r.cve)
    ensures TableKey(r) == r.library + ['_'] + r.cve
  {
    SanitizeClean(r.library);
    SanitizeClean(r.cve);
  }

  /** The name is that of the other library up to an underscore. */
  predicate Clashes(a: string, b: string) { a + ['_'] <= b }

  predicate NamesApart(libraries: set<string>) {
    forall a, b :: a in libraries && b in libraries ==> !Clashes(a, b)
  }

  /** Rows of libraries that do not clash share a table key only if they share library and CVE. */
  lemma {:induction false} TableKeyInjective(r: Row, s: Row)
    requires CleanPart(r.library) && CleanPart(r.cve) && CleanPart(s.library) && CleanPart(s.cve)
    requires !Clashes(r.library, s.library) && !Clashes(s.library, r.library)
    ensures TableKey(r) == TableKey(s) <==> RowKey(r) == RowKey(s)
  {
    hide TableKey, CleanPart;
    TableKeyOfCleanParts(r);
    TableKeyOfCleanParts(s);
    if TableKey(r) == TableKey(s) { KeyParts(r.library, r.cve, s.library, s.cve); }
  }

  lemma KeyParts(a: string, x: string, b: string, y: string)
    requires a + ['_'] + x == b + ['_'] + y && !Clashes(a, b) && !Clashes(b, a)
    ensures a == b && x == y
  {
    if |a| < |b| { ShorterClashes(a, x, b, y); }
    if |b| < |a| { ShorterClashes(b, y, a, x); }
    var k := a + ['_'] + x;
    assert k[..|a|] == a && k[|a| + 1..] == x && k[..|b|] == b && k[|b| + 1..] == y;
  }

  lemma ShorterClashes(a: string, x: string, b: string, y: string)
    requires a + ['_'] + x == b + ['_'] + y && |a| < |b|
    ensures Clashes(a, b)
  {
    var k := a + ['_'] + x;
    assert b == k[..|b|] && b[..|a| + 1] == k[..|a| + 1] == a + ['_'];
  }

  /** Clashing names make two rows share a key. */
  lemma {:induction false} UnderscoreCollides(r: Row, a: string, b: string)
    requires CleanPart(a) && CleanPart(b) && Clashes(a, b)
    ensures var cve := b[|a| + 1..] + "_c";
      CleanPart(cve) && CleanPart("c") &&
        TableKey(r.(library := b, cve := "c")) == TableKey(r.(library := a, cve := cve))
  {
    hide TableKey;
    var cve := b[|a| + 1..] + "_c";
    TableKeyOfCleanParts(r.(library := b, cve := "c"));
    TableKeyOfCleanParts(r.(library := a, cve := cve));
    assert b == a + ['_'] + b[|a| + 1..];
    assert b + ['_'] + "c" == a + ['_'] + cve;
  }

  /** The table key identifies library and CVE on all rows of the libraries with a clean id. */
  ghost predicate KeysIdentify(libraries: set<string>) {
    forall r, s :: CleanRow(r, libraries) && CleanRow(s, libraries) && TableKey(r) == TableKey(s) ==>
      RowKey(r) == RowKey(s)
  }

  /** For clean names that is so exactly when no name followed by an underscore begins another. */
  lemma {:induction false} KeysIdentifyExactly(libraries: set<string>)
    requires forall l :: l in libraries ==> CleanPart(l)
    ensures KeysIdentify(libraries) <==> NamesApart(libraries)
  {
    hide TableKey, CleanPart;
    if NamesApart(libraries) {
      forall r, s | CleanRow(r, libraries) && CleanRow(s, libraries) && TableKey(r) == TableKey(s)
        ensures RowKey(r) == RowKey(s) {
        TableKeyInjective(r, s);
      }
    } else {
      var a, b :| a in libraries && b in libraries && Clashes(a, b);
      var row := Row("", "", "", "", 0.0, "", "", "", "");
      UnderscoreCollides(row, a, b);
      var r, s := row.(library := b, cve := "c"), row.(library := a, cve := b[|a| + 1..] + "_c");
      assert CleanRow(r, libraries) && CleanRow(s, libraries) && RowKey(r) != RowKey(s);
    }
  }

  lemma {:induction false} KeepAllowedMembers(s: string)
    ensures forall c :: c in KeepAllowed(s) ==> Allowed(c)
  {
    if s != "" { KeepAllowedMembers(s[1..]); }
  }

  lemma {:induction false} KeepAllowedAppend(a: string, b: string)
    ensures KeepAllowed(a + b) == KeepAllowed(a) + KeepAllowed(b)
  {
    if a == "" {
      assert a + b == b;
    } else {
      assert (a + b)[0] == a[0] && (a + b)[1..] == a[1..] + b;
      KeepAllowedAppend(a[1..], b);
    }
  }

  lemma SanitizedIsClean(s: string)
    ensures CleanPart(Sanitize(s))
  {
    KeepAllowedMembers(s);
  }

  /** Every unclean or missing id shares its key with a clean one. */
  lemma {:induction false} UncleanIdsCollide(r: Row)
    requires !CleanPart(r.cve)
    ensures var other := KeyId(r.cve);
      CleanPart(other) && other != r.cve && TableKey(r.(cve := other)) == TableKey(r)
  {
    hide CleanPart, Sanitize;
    var id := if r.cve == "" then "no-cve" else r.cve;
    SanitizedIsClean(id);
    CleanIsKept(Sanitize(id));
    assert Sanitize(id) != "";
  }

  lemma CleanIsKept(s: string)
    requires CleanPart(s)
    ensures s != "" && Sanitize(s) == s
  {
    SanitizeClean(s);
  }

  /** The id with a forbidden character more; the text for a missing one. */
  function OtherId(cve: string): string { if cve == "" then "no-cve" else cve + "?" }

  /** So every id, clean or not, shares its key with another one. */
  lemma {:induction false} EveryIdCollides(r: Row)
    ensures OtherId(r.cve) != r.cve && TableKey(r.(cve := OtherId(r.cve))) == TableKey(r)
  {
    KeepAllowedAppend(r.cve, "?");
    assert KeepAllowed("?") == "" && KeepAllowed(r.cve) + "" == KeepAllowed(r.cve);
  }

  /** On any rows of libraries that do not clash, the key tells just the cleaned library and the cleaned id. */
  lemma {:induction false} SameTableKeyExactly(r: Row, s: Row)
    requires !Clashes(Sanitize(r.library), Sanitize(s.library)) && !Clashes(Sanitize(s.library), Sanitize(r.library))
    ensures TableKey(r) == TableKey(s) <==> Sanitize(r.library) == Sanitize(s.library) && KeyId(r.cve) == KeyId(s.cve)
  {
    hide Sanitize, KeyId, Clashes;
    if TableKey(r) == TableKey(s) {
      KeyParts(Sanitize(r.library), KeyId(r.cve), Sanitize(s.library), KeyId(s.cve));
    }
  }

  datatype Effect = Works | Fails | WorksButRaises

  /** What the writes of the first `n` rows make of the table. */
  function Overwritten(
    table: map<string, Entity>, rows: seq<Row>, effects: nat -> Effect, times: nat -> int, n: nat): map<string, Entity>
    requires n <= |rows|
  {
    if n == 0 then table
    else
      var before := Overwritten(table, rows, effects, times, n - 1);
      if effects(n - 1).Fails? then before else before[TableKey(rows[n - 1]) := ToEntity(rows[n - 1], times(n - 1))]
  }

  function CountWorks(effects: nat -> Effect, n: nat): nat {
    if n == 0 then 0 else CountWorks(effects, n - 1) + if effects(n - 1).Works? then 1 else 0
  }

  /** It counts the writes that returned. */
  lemma {:induction false} CountWorksExactly(effects: nat -> Effect, n: nat)
    ensures CountWorks(effects, n) == |set i: nat | i < n && effects(i).Works?|
  {
    if n == 0 {
      assert (set i: nat | i < n && effects(i).Works?) == {};
    } else {
      CountWorksExactly(effects, n - 1);
      var before := set i: nat | i < n - 1 && effects(i).Works?;
      assert (set i: nat | i < n && effects(i).Works?) == before + if effects(n - 1).Works? then {n - 1} else {};
    }
  }

  class CveTable {
    var entities: map<string, Entity>

    constructor ()
      ensures entities == map[]
    {
      entities := map[];
    }

    method UpsertEntity(e: Entity, effect: Effect) returns (returned: bool)
      modifies this
      ensures entities == (if effect.Fails? then old(entities) else old(entities)[e.rowKey := e]) &&
        returned == effect.Works?
    {
      if !effect.Fails? { entities := entities[e.rowKey := e]; }
      return effect.Works?;
    }

    /** The counts of writes that returned and of writes that raised; a raising write may have taken effect. */
    method WriteRows(rows: seq<Row>, effects: nat -> Effect, times: nat -> int) returns (written: nat, failed: nat)
      modifies this
      ensures entities == Overwritten(old(entities), rows, effects, times, |rows|)
      ensures written == CountWorks(effects, |rows|) && written + failed == |rows|
    {
      written, failed := 0, 0;
      for i := 0 to |rows|
        invariant entities == Overwritten(old(entities), rows, effects, times, i)
        invariant written == CountWorks(effects, i) && written + failed == i
      {
        var ok := UpsertEntity(ToEntity(rows[i], times(i)), effects(i));
        if ok { written := written + 1; } else { failed := failed + 1; }
      }
    }

    /** `run_sync` */
    method RunSync(packages: seq<Package>, effects: nat -> Effect, times: nat -> int)
      returns (fetched: nat, written: nat, failed: nat)
      modifies this
      ensures fetched == |Sync(packages)| == written + failed
      ensures entities == Overwritten(old(entities), Sync(packages), effects, times, |Sync(packages)|)
      ensures written == CountWorks(effects, |Sync(packages)|)
    {
      hide Sync, Overwritten, CountWorks;
      var rows, skipped := SyncAllPackages(packages);
      written, failed := WriteRows(rows, effects, times);
      fetched := |rows|;
    }
  }

  /** No two of the rows share a table key. */
  predicate DistinctTableKeys(rows: seq<Row>) {
    forall i, j :: 0 <= i < j < |rows| ==> TableKey(rows[i]) != TableKey(rows[j])
  }

  /** The key belongs to one of the first `n` rows whose write took effect. */
  ghost predicate Hit(rows: seq<Row>, effects: nat -> Effect, n: nat, k: string) {
    exists i: nat :: i < n && HitBy(rows, effects, i, k)
  }

  ghost predicate HitBy(rows: seq<Row>, effects: nat -> Effect, i: nat, k: string) {
    i < |rows| && TableKey(rows[i]) == k && !effects(i).Fails?
  }

  lemma {:induction false} WrittenEntry(
    table: map<string, Entity>, rows: seq<Row>, effects: nat -> Effect, times: nat -> int, n: nat, i: nat)
    requires DistinctTableKeys(rows) && i < n <= |rows| && !effects(i).Fails?
    ensures var after := Overwritten(table, rows, effects, times, n);
      TableKey(rows[i]) in after && after[TableKey(rows[i])] == ToEntity(rows[i], times(i))
  {
    hide TableKey;
    if i < n - 1 { WrittenEntry(table, rows, effects, times, n - 1, i); }
  }

  lemma {:induction false} OtherEntry(
    table: map<string, Entity>, rows: seq<Row>, effects: nat -> Effect, times: nat -> int, n: nat, k: string)
    requires n <= |rows| && !Hit(rows, effects, n, k)
    ensures var after := Overwritten(table, rows, effects, times, n);
      (k in after <==> k in table) && (k in table ==> after[k] == table[k])
  {
    hide TableKey;
    if n > 0 {
      assert !HitBy(rows, effects, n - 1, k);
      OtherEntry(table, rows, effects, times, n - 1, k);
    }
  }

  /** The table is the old one overwritten at exactly the rows whose write took effect. */
  lemma {:induction false} OverwrittenExactly(
    table: map<string, Entity>, rows: seq<Row>, effects: nat -> Effect, times: nat -> int)
    requires DistinctTableKeys(rows)
    ensures var after := Overwritten(table, rows, effects, times, |rows|);
      && (forall k :: k in after <==> k in table || Hit(rows, effects, |rows|, k))
      && (forall k :: k in table && !Hit(rows, effects, |rows|, k) ==> after[k] == table[k])
      && (forall i: nat :: i < |rows| && !effects(i).Fails? ==>
            TableKey(rows[i]) in after && after[TableKey(rows[i])] == ToEntity(rows[i], times(i)))
  {
    hide TableKey, Overwritten;
    forall i: nat | i < |rows| && !effects(i).Fails? {
      WrittenEntry(table, rows, effects, times, |rows|, i);
    }
    forall k | !Hit(rows, effects, |rows|, k) {
      OtherEntry(table, rows, effects, times, |rows|, k);
    }
  }

  // ---------------------------------------------------------------- reading back

  /** The scanner's read: the listed entities as rows, or nothing when the listing raises. */
  method FetchCveDataset(listing: seq<Entity>, raisesAt: Option<nat>) returns (cache: seq<Row>)
    ensures cache == if raisesAt.Some? && raisesAt.value <= |listing| then [] else Map(listing, (e: Entity) => e.row)
  {
    cache := [];
    for i := 0 to |listing|
      invariant cache == Map(listing[..i], (e: Entity) => e.row)
      invariant raisesAt.Some? ==> i <= raisesAt.value
    {
      if raisesAt == Some(i) { return []; }
      cache := cache + [listing[i].row];
    }
    assert listing[..|listing|] == listing;
    if raisesAt == Some(|listing|) { return []; }
  }

  /** A listing yields every entity of the table once, in whatever order. */
  ghost predicate Lists(listing: seq<Entity>, table: map<string, Entity>) {
    && (forall i, j :: 0 <= i < j < |listing| ==> listing[i].rowKey != listing[j].rowKey)
    && (forall i :: 0 <= i < |listing| ==> listing[i].rowKey in table && table[listing[i].rowKey] == listing[i])
    && (forall k :: k in table ==> exists i :: 0 <= i < |listing| && listing[i].rowKey == k)
  }

  /** The entity was written for the `n`-th row. */
  predicate WrittenFor(rows: seq<Row>, times: nat -> int, n: nat, e: Entity) {
    n < |rows| && e == ToEntity(rows[n], times(n))
  }

  lemma EntityHasRow(rows: seq<Row>, effects: nat -> Effect, times: nat -> int, k: string) returns (n: nat)
    requires DistinctTableKeys(rows) && k in Overwritten(map[], rows, effects, times, |rows|)
    ensures WrittenFor(rows, times, n, Overwritten(map[], rows, effects, times, |rows|)[k]) && TableKey(rows[n]) == k
  {
    hide TableKey, Overwritten;
    if !Hit(rows, effects, |rows|, k) { OtherEntry(map[], rows, effects, times, |rows|, k); }
    n :| n < |rows| && HitBy(rows, effects, n, k);
    WrittenEntry(map[], rows, effects, times, |rows|, n);
  }

  /**
    After a sync into an empty table with no failed write, reading the table back gives exactly the
    rows that were written, each once.
   */
  lemma {:induction false} ReadBackIsPermutation(
    rows: seq<Row>, effects: nat -> Effect, times: nat -> int, listing: seq<Entity>)
    requires DistinctTableKeys(rows) && forall i: nat :: i < |rows| ==> effects(i).Works?
    requires Lists(listing, Overwritten(map[], rows, effects, times, |rows|))
    ensures multiset(Map(listing, (e: Entity) => e.row)) == multiset(rows)
  {
    hide TableKey, Overwritten;
    var read := Map(listing, (e: Entity) => e.row);
    forall i | 0 <= i < |listing| ensures read[i] in rows && TableKey(read[i]) == listing[i].rowKey {
      var n := EntityHasRow(rows, effects, times, listing[i].rowKey);
    }
    forall n: nat | n < |rows| ensures rows[n] in read {
      WrittenEntry(map[], rows, effects, times, |rows|, n);
      var i :| 0 <= i < |listing| && listing[i].rowKey == TableKey(rows[n]);
      assert read[i] == rows[n];
    }
    forall x ensures multiset(read)[x] == multiset(rows)[x] {
      AtMostOnce(read, x);
      AtMostOnce(rows, x);
    }
  }

  function PackageNames(packages: seq<Package>): (r: set<string>)
    ensures forall i :: 0 <= i < |packages| ==> packages[i].name in r
  {
    set i | 0 <= i < |packages| :: packages[i].name
  }

  /** The package has a clean name and clean advisory ids. */
  predicate CleanPackage(p: Package) {
    && CleanPart(p.name)
    && (p.fetch.Fetched? ==> forall v :: v in p.fetch.vulns && v.Vuln? ==> CleanPart(CveId(v.aliases, v.id)))
  }

  lemma {:induction false} RowsForClean(pkg: string, signature: string, vulns: seq<Vuln>, libraries: set<string>)
    requires pkg in libraries
    requires forall v :: v in vulns && v.Vuln? ==> CleanPart(CveId(v.aliases, v.id))
    ensures forall r :: r in RowsFor(pkg, signature, vulns) ==> CleanRow(r, libraries)
  {
    hide CveId, CleanPart;
    if vulns != [] {
      RowsForClean(pkg, signature, vulns[..|vulns| - 1], libraries);
      assert vulns[|vulns| - 1] in vulns;
    }
  }

  lemma {:induction false} AllRowsClean(packages: seq<Package>, libraries: set<string>)
    requires forall p :: p in packages ==> CleanPackage(p) && p.name in libraries
    ensures forall r :: r in AllRows(packages) ==> CleanRow(r, libraries)
  {
    hide CleanRow;
    if packages != [] {
      var p := packages[|packages| - 1];
      AllRowsClean(packages[..|packages| - 1], libraries);
      assert p in packages && CleanPackage(p);
      if p.fetch.Fetched? { RowsForClean(p.name, p.signature, p.fetch.vulns, libraries); }
    }
  }

  lemma SyncedTableKeys(packages: seq<Package>)
    requires NamesApart(PackageNames(packages)) && forall p :: p in packages ==> CleanPackage(p)
    ensures DistinctTableKeys(Sync(packages))
  {
    hide TableKey, CleanPart, Merge, Absorb, NamesApart, KeysIdentify;
    var rows, out, libraries := AllRows(packages), Sync(packages), PackageNames(packages);
    CleanNames(packages);
    AllRowsClean(packages, libraries);
    KeysIdentifyExactly(libraries);
    AbsorbKeepsKey();
    MergeIdempotent(rows, RowKey, Absorb);
    FirstKeysMembers(rows, RowKey);
    forall i | 0 <= i < |out| ensures CleanRow(out[i], libraries) {
      MergeAt(rows, RowKey, Absorb, i);
      assert HasKey(rows, RowKey, FirstKeys(rows, RowKey)[i]);
      var r :| r in rows && RowKey(r) == RowKey(out[i]);
      assert CleanRow(r, libraries);
    }
    forall i, j | 0 <= i < j < |out| ensures TableKey(out[i]) != TableKey(out[j]) {
      Identified(out[i], out[j], libraries);
    }
  }

  lemma Identified(r: Row, s: Row, libraries: set<string>)
    requires KeysIdentify(libraries) && CleanRow(r, libraries) && CleanRow(s, libraries) && RowKey(r) != RowKey(s)
    ensures TableKey(r) != TableKey(s)
  {
    hide TableKey, CleanPart;
  }

  lemma CleanNames(packages: seq<Package>)
    requires forall p :: p in packages ==> CleanPackage(p)
    ensures forall l :: l in PackageNames(packages) ==> CleanPart(l)
    ensures forall p :: p in packages ==> p.name in PackageNames(packages)
  {
    hide CleanPart;
    forall l | l in PackageNames(packages) ensures CleanPart(l) {
      var i :| 0 <= i < |packages| && packages[i].name == l;
      assert packages[i] in packages;
    }
  }

  /** The scanner reads from the table exactly the synced rows, whichever packages failed to be fetched. */
  lemma {:induction false} SyncThenRead(
    packages: seq<Package>, effects: nat -> Effect, times: nat -> int, listing: seq<Entity>)
    requires NamesApart(PackageNames(packages)) && forall p :: p in packages ==> CleanPackage(p)
    requires forall i: nat :: i < |Sync(packages)| ==> effects(i).Works?
    requires Lists(listing, Overwritten(map[], Sync(packages), effects, times, |Sync(packages)|))
    ensures multiset(Map(listing, (e: Entity) => e.row)) == multiset(Sync(packages))
  {
    SyncedTableKeys(packages);
    ReadBackIsPermutation(Sync(packages), effects, times, listing);
  }

  // ---------------------------------------------------------------- no advisory is lost, none is invented

  /** One of the advisories fetched for a package of this name, not malformed, has this id. */
  ghost predicate Advised(packages: seq<Package>, library: string, cve: string) {
    exists i, j :: AdvisedAt(packages, i, j, library, cve)
  }

  ghost predicate AdvisedAt(packages: seq<Package>, i: int, j: int, library: string, cve: string) {
    && 0 <= i < |packages| && packages[i].name == library && packages[i].fetch.Fetched?
    && 0 <= j < |packages[i].fetch.vulns| && packages[i].fetch.vulns[j].Vuln?
    && Identifies(packages[i].fetch.vulns[j], cve)
  }

  lemma {:induction false} AllRowsMembers(packages: seq<Package>, r: Row)
    ensures r in AllRows(packages) <==> exists i :: 0 <= i < |packages| && r in PackageRows(packages[i])
  {
    hide PackageRows;
    if packages != [] {
      var n := |packages| - 1;
      AllRowsMembers(packages[..n], r);
      assert forall i :: 0 <= i < n ==> packages[i] == packages[..n][i];
    }
  }

  lemma {:induction false} IdIsUnique(v: Vuln, a: string, b: string)
    requires v.Vuln? && Identifies(v, a) && Identifies(v, b)
    ensures a == b
  {
    if exists i :: 0 <= i < |v.aliases| && IsCve(v.aliases[i]) {
      var i :| 0 <= i < |v.aliases| && IsCve(v.aliases[i]) && a == v.aliases[i]
        && forall j :: 0 <= j < i ==> !IsCve(v.aliases[j]);
      var k :| 0 <= k < |v.aliases| && IsCve(v.aliases[k]) && b == v.aliases[k]
        && forall j :: 0 <= j < k ==> !IsCve(v.aliases[j]);
    }
  }

  /** The rows of all packages are about the advisories, and about each of them. */
  lemma {:induction false} RowsCoverAdvisories(packages: seq<Package>, library: string, cve: string)
    ensures (exists r :: r in AllRows(packages) && RowKey(r) == (library, cve)) <==> Advised(packages, library, cve)
  {
    hide AllRows, RowsFor, Identifies;
    if Advised(packages, library, cve) {
      var i, j :| AdvisedAt(packages, i, j, library, cve);
      var p := packages[i];
      var r := RowOfAdvisory(p, j, cve);
      AllRowsMembers(packages, r);
    }
    if r :| r in AllRows(packages) && RowKey(r) == (library, cve) {
      AllRowsMembers(packages, r);
      var i :| 0 <= i < |packages| && r in PackageRows(packages[i]);
      var j := AdvisoryOfRow(packages[i], r);
      assert AdvisedAt(packages, i, j, library, cve);
    }
  }

  lemma RowOfAdvisory(p: Package, j: int, cve: string) returns (r: Row)
    requires p.fetch.Fetched? && 0 <= j < |p.fetch.vulns| && p.fetch.vulns[j].Vuln? && Identifies(p.fetch.vulns[j], cve)
    ensures r in PackageRows(p) && RowKey(r) == (p.name, cve)
  {
    hide Identifies, AdvisoryGives, RowsFor;
    var at := RowsInOrder(p.name, p.signature, p.fetch.vulns);
    var rows := RowsFor(p.name, p.signature, p.fetch.vulns);
    assert j in at;
    var k :| 0 <= k < |at| && at[k] == j;
    r := rows[k];
    assert Describes(r, p.fetch.vulns[at[k]], p.name, p.signature);
    IdIsUnique(p.fetch.vulns[j], r.cve, cve);
  }

  lemma AdvisoryOfRow(p: Package, r: Row) returns (j: int)
    requires r in PackageRows(p)
    ensures p.fetch.Fetched? && 0 <= j < |p.fetch.vulns| && p.fetch.vulns[j].Vuln?
    ensures r.library == p.name && Identifies(p.fetch.vulns[j], r.cve)
  {
    hide Identifies, AdvisoryGives, RowsFor;
    var at := RowsInOrder(p.name, p.signature, p.fetch.vulns);
    var rows := RowsFor(p.name, p.signature, p.fetch.vulns);
    var k :| 0 <= k < |rows| && rows[k] == r;
    j := at[k];
    assert Describes(rows[k], p.fetch.vulns[at[k]], p.name, p.signature);
  }

  /** Synchronizing keeps the keys: there is a synced row for exactly the advisories. */
  lemma {:induction false} SyncCoversAdvisories(packages: seq<Package>, library: string, cve: string)
    ensures (exists r :: r in Sync(packages) && RowKey(r) == (library, cve)) <==> Advised(packages, library, cve)
  {
    hide AllRows, Merge, Absorb, Advised, FirstKeys;
    var rows, out, key := AllRows(packages), Sync(packages), (library, cve);
    AbsorbKeepsKey();
    FirstKeysMembers(rows, RowKey);
    forall i | 0 <= i < |out| ensures RowKey(out[i]) == FirstKeys(rows, RowKey)[i] { MergeAt(rows, RowKey, Absorb, i); }
    RowsCoverAdvisories(packages, library, cve);
    if r :| r in rows && RowKey(r) == key {
      assert RowKey(r) in FirstKeys(rows, RowKey);
      var i :| 0 <= i < |out| && FirstKeys(rows, RowKey)[i] == key;
      assert out[i] in out && RowKey(out[i]) == key;
    }
    if r :| r in out && RowKey(r) == key {
      var i :| 0 <= i < |out| && out[i] == r;
      assert HasKey(rows, RowKey, FirstKeys(rows, RowKey)[i]);
    }
  }

  /** The scanner reads a row for every well-formed advisory of every fetched package, and for nothing else. */
  lemma {:induction false} EveryAdvisoryIsRead(
    packages: seq<Package>, effects: nat -> Effect, times: nat -> int, listing: seq<Entity>,
    library: string, cve: string)
    requires NamesApart(PackageNames(packages)) && forall p :: p in packages ==> CleanPackage(p)
    requires forall i: nat :: i < |Sync(packages)| ==> effects(i).Works?
    requires Lists(listing, Overwritten(map[], Sync(packages), effects, times, |Sync(packages)|))
    ensures (exists e :: e in listing && RowKey(e.row) == (library, cve)) <==> Advised(packages, library, cve)
  {
    hide Sync, Lists, Overwritten, NamesApart, CleanPackage, Advised;
    SyncThenRead(packages, effects, times, listing);
    SyncCoversAdvisories(packages, library, cve);
    var read := Map(listing, (e: Entity) => e.row);
    forall r ensures r in read <==> r in Sync(packages) {
      assert r in read <==> r in multiset(read);
      assert r in Sync(packages) <==> r in multiset(Sync(packages));
    }
    if e :| e in listing && RowKey(e.row) == (library, cve) {
      var i :| 0 <= i < |listing| && listing[i] == e;
      assert read[i] == e.row && e.row in read;
    }
    if r :| r in Sync(packages) && RowKey(r) == (library, cve) {
      var i :| 0 <= i < |read| && read[i] == r;
      assert listing[i] in listing;
    }
  }
}
