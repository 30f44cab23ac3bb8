/**
  The candidate pool of the evaluation: merging the strata so that every domain is kept once, and
  later replacing the excluded domains, stratum by stratum, by randomly drawn ones.
 */
module Pool {
  import opened Strings
  import opened KeyedFold

  datatype Row = Row(domain: string, stratum: string, rank: int, details: string)

  function DomainOf(r: Row): string { r.domain }
  function StratumOf(r: Row): string { r.stratum }

  function Normalize(domain: string): string {
    var d := Lower(Strip(domain));
    if "www." <= d then d[4..] else d
  }

  predicate Distinct<K(==)>(rows: seq<Row>, key: Row -> K) {
    forall i, j :: 0 <= i < j < |rows| ==> key(rows[i]) != key(rows[j])
  }

  function Domains(rows: seq<Row>): (r: set<string>)
    ensures forall d :: d in r <==> exists i :: 0 <= i < |rows| && rows[i].domain == d
  {
    set i | 0 <= i < |rows| :: rows[i].domain
  }

  function InStratum(s: string): Row -> bool { (r: Row) => r.stratum == s }

  function CountStratum(rows: seq<Row>, s: string): nat { |Filter(rows, InStratum(s))| }

  // ---------------------------------------------------------------- exclusions

  datatype Lists = Lists(blocklist: set<string>, confirmed: set<string>, calibration: set<string>)

  function Names(l: Lists): set<string> { l.blocklist + l.confirmed + l.calibration }

  predicate Excluded(l: Lists, domain: string) {
    Normalize(domain) in l.blocklist || Normalize(domain) in l.confirmed || domain in l.calibration
  }

  function IsExcluded(l: Lists): Row -> bool { (r: Row) => Excluded(l, r.domain) }
  function IsKept(l: Lists): Row -> bool { (r: Row) => !Excluded(l, r.domain) }

  function Later(a: Row, b: Row): Row { b }

  /** The entries of the exclusion dictionary: one per excluded domain, the domain's last row. */
  function Entries(pool: seq<Row>, l: Lists): seq<Row> { Merge(Filter(pool, IsExcluded(l)), DomainOf, Later) }

  method ClassifyExclusions(pool: seq<Row>, l: Lists) returns (excluded: seq<Row>)
    ensures excluded == Entries(pool, l)
  {
    hide Merge, Dict, FirstKeys, Excluded;
    var info: map<string, Row> := map[];
    var order: seq<string> := [];
    var hits: seq<Row> := [];
    DictEmpty(hits, DomainOf, Later);
    for i := 0 to |pool|
      invariant hits == Filter(pool[..i], IsExcluded(l))
      invariant order == FirstKeys(hits, DomainOf) && info == Dict(hits, DomainOf, Later)
    {
      var row := pool[i];
      assert pool[..i + 1][..i] == pool[..i];
      if Excluded(l, row.domain) {
        DictStep(hits + [row], |hits|, DomainOf, Later);
        assert (hits + [row])[..|hits|] == hits && (hits + [row])[..|hits| + 1] == hits + [row];
        if row.domain !in info { order := order + [row.domain]; }
        info := info[row.domain := row];
        hits := hits + [row];
      }
    }
    assert pool[..|pool|] == pool;
    forall i | 0 <= i < |order| ensures order[i] in info && Entries(pool, l)[i] == info[order[i]] {
      MergeIsDict(hits, DomainOf, Later, i);
    }
    excluded := seq(|order|, i requires 0 <= i < |order| && order[i] in info => info[order[i]]);
  }

  // ---------------------------------------------------------------- drawing

  /** What the random numbers give for a stratum, a number of eligible rows and a number of rows to draw. */
  type Draw = (string, nat, nat) -> seq<nat>

  /** A sampler gives `k` different positions below `n`, whatever the random numbers. */
  ghost predicate Sampler(draw: Draw) {
    forall s: string, n: nat, k: nat :: k <= n ==> Positions(draw(s, n, k), n, k)
  }

  predicate Positions(ps: seq<nat>, n: nat, k: nat) {
    && |ps| == k && (forall i :: 0 <= i < k ==> ps[i] < n)
    && (forall i, j :: 0 <= i < j < k ==> ps[i] != ps[j])
  }

  function Pick(rows: seq<Row>, ps: seq<nat>): (r: seq<Row>)
    requires forall i :: 0 <= i < |ps| ==> ps[i] < |rows|
    ensures |r| == |ps| && forall i :: 0 <= i < |r| ==> r[i] == rows[ps[i]]
  {
    seq(|ps|, i requires 0 <= i < |ps| => rows[ps[i]])
  }

  /** Insertion after the last row with no greater value: a stable sort. */
  function InsertStable(rows: seq<Row>, x: Row, value: Row -> int): (r: seq<Row>)
    ensures |r| == |rows| + 1
  {
    if rows == [] || value(rows[|rows| - 1]) <= value(x) then rows + [x]
    else InsertStable(rows[..|rows| - 1], x, value) + [rows[|rows| - 1]]
  }

  function StableSort(rows: seq<Row>, value: Row -> int): (r: seq<Row>)
    ensures |r| == |rows|
  {
    if rows == [] then [] else InsertStable(StableSort(rows[..|rows| - 1], value), rows[|rows| - 1], value)
  }

  function RankOf(r: Row): int { r.rank }

  lemma {:induction false} InsertPermutes(rows: seq<Row>, x: Row, value: Row -> int)
    ensures multiset(InsertStable(rows, x, value)) == multiset(rows) + multiset{x}
  {
    if !(rows == [] || value(rows[|rows| - 1]) <= value(x)) {
      InsertPermutes(rows[..|rows| - 1], x, value);
      assert rows == rows[..|rows| - 1] + [rows[|rows| - 1]];
    }
  }

  lemma {:induction false} SortPermutes(rows: seq<Row>, value: Row -> int)
    ensures multiset(StableSort(rows, value)) == multiset(rows)
  {
    if rows != [] {
      SortPermutes(rows[..|rows| - 1], value);
      InsertPermutes(StableSort(rows[..|rows| - 1], value), rows[|rows| - 1], value);
      assert rows == rows[..|rows| - 1] + [rows[|rows| - 1]];
    }
  }

  lemma {:induction false} InsertDistinct(rows: seq<Row>, x: Row, value: Row -> int)
    requires Distinct(rows, DomainOf) && x.domain !in Domains(rows)
    ensures Distinct(InsertStable(rows, x, value), DomainOf)
    ensures forall r :: r in InsertStable(rows, x, value) <==> r in rows || r == x
  {
    if !(rows == [] || value(rows[|rows| - 1]) <= value(x)) {
      var front, last := rows[..|rows| - 1], rows[|rows| - 1];
      assert rows == front + [last];
      InsertDistinct(front, x, value);
      forall r | r in InsertStable(front, x, value) ensures r.domain != last.domain {
        if r in front {
          var i :| 0 <= i < |front| && front[i] == r;
          assert DomainOf(rows[i]) != DomainOf(rows[|rows| - 1]);
        }
      }
    }
  }

  lemma {:induction false} SortDistinct(rows: seq<Row>, value: Row -> int)
    requires Distinct(rows, DomainOf)
    ensures Distinct(StableSort(rows, value), DomainOf)
    ensures forall r :: r in StableSort(rows, value) <==> r in rows
  {
    if rows != [] {
      var n := |rows| - 1;
      assert rows == rows[..n] + [rows[n]];
      SortDistinct(rows[..n], value);
      var sorted := StableSort(rows[..n], value);
      forall i | 0 <= i < |sorted| ensures sorted[i].domain != rows[n].domain {
        assert sorted[i] in rows[..n];
        var j :| 0 <= j < n && rows[..n][j] == sorted[i];
        assert DomainOf(rows[j]) != DomainOf(rows[n]);
      }
      InsertDistinct(sorted, rows[n], value);
    }
  }

  lemma SortMembers(rows: seq<Row>, value: Row -> int)
    ensures forall r :: r in StableSort(rows, value) <==> r in rows
  {
    SortPermutes(rows, value);
    forall r ensures r in StableSort(rows, value) <==> r in rows {
      assert r in multiset(StableSort(rows, value)) <==> r in multiset(rows);
    }
  }

  lemma {:induction false} FilterDistinct(rows: seq<Row>, keep: Row -> bool)
    requires Distinct(rows, DomainOf)
    ensures Distinct(Filter(rows, keep), DomainOf)
  {
    if rows != [] {
      var n := |rows| - 1;
      FilterDistinct(rows[..n], keep);
      var kept := Filter(rows[..n], keep);
      FilterMembers(rows[..n], keep);
      forall i | 0 <= i < |kept| ensures DomainOf(kept[i]) != DomainOf(rows[n]) {
        assert kept[i] in rows[..n];
        var j :| 0 <= j < n && rows[..n][j] == kept[i];
      }
    }
  }

  // ---------------------------------------------------------------- replacing the excluded rows

  predicate Fresh(rows: seq<Row>, neverUse: set<string>) {
    forall i :: 0 <= i < |rows| ==> rows[i].domain !in neverUse
  }

  function Unused(neverUse: set<string>): Row -> bool { (r: Row) => r.domain !in neverUse }

  predicate OfStratum(rows: seq<Row>, s: string) { forall i :: 0 <= i < |rows| ==> rows[i].stratum == s }

  /** The rows drawn; `None` when fewer than `k` candidates are eligible. */
  function Choose(candidates: seq<Row>, neverUse: set<string>, k: nat, draw: Draw, s: string): Option<seq<Row>>
    requires Sampler(draw)
  {
    var eligible := Filter(candidates, Unused(neverUse));
    if |eligible| < k then None
    else
      var ps := draw(s, |eligible|, k);
      assert Positions(ps, |eligible|, k);
      Some(InDrawOrder(Pick(eligible, ps), s))
  }

  /** Ranked strata are sorted by rank. */
  function InDrawOrder(rows: seq<Row>, s: string): seq<Row> {
    if s == "ai-generated" then rows else StableSort(rows, RankOf)
  }

  lemma InDrawOrderMembers(rows: seq<Row>, s: string)
    ensures forall r :: r in InDrawOrder(rows, s) <==> r in rows
    ensures |InDrawOrder(rows, s)| == |rows|
  {
    SortMembers(rows, RankOf);
  }

  lemma ChosenRows(candidates: seq<Row>, neverUse: set<string>, k: nat, draw: Draw, s: string)
    requires Sampler(draw)
    ensures var chosen := Choose(candidates, neverUse, k, draw, s);
      && (chosen.None? <==> |Filter(candidates, Unused(neverUse))| < k)
      && (chosen.Some? ==> |chosen.value| == k && Fresh(chosen.value, neverUse))
      && (chosen.Some? ==> forall i :: 0 <= i < k ==> chosen.value[i] in candidates)
      && (chosen.Some? && Distinct(candidates, DomainOf) ==> Distinct(chosen.value, DomainOf))
  {
    var eligible := Filter(candidates, Unused(neverUse));
    if |eligible| >= k {
      var ps := draw(s, |eligible|, k);
      assert Positions(ps, |eligible|, k);
      var picked := Pick(eligible, ps);
      FilterMembers(candidates, Unused(neverUse));
      InDrawOrderMembers(picked, s);
      forall r | r in picked ensures r in candidates && r.domain !in neverUse {
        var i :| 0 <= i < |picked| && picked[i] == r;
        assert eligible[ps[i]] in eligible;
      }
      var rows := InDrawOrder(picked, s);
      forall i | 0 <= i < k ensures rows[i] in candidates && rows[i].domain !in neverUse { assert rows[i] in picked; }
      if Distinct(candidates, DomainOf) {
        FilterDistinct(candidates, Unused(neverUse));
        SortDistinct(picked, RankOf);
      }
    }
  }

  /** AI-generated rows stay in the order drawn, those of any other stratum stand in the order of their ranks. */
  lemma {:induction false} DrawnInOrder(candidates: seq<Row>, neverUse: set<string>, k: nat, draw: Draw, s: string)
    requires Sampler(draw) && Choose(candidates, neverUse, k, draw, s).Some?
    ensures var rows := Choose(candidates, neverUse, k, draw, s).value;
      && (s != "ai-generated" ==> forall i, j :: 0 <= i < j < |rows| ==> rows[i].rank <= rows[j].rank)
      && (s == "ai-generated" ==>
            var eligible := Filter(candidates, Unused(neverUse));
            && |rows| == k <= |eligible| && Positions(draw(s, |eligible|, k), |eligible|, k)
            && forall i :: 0 <= i < k ==> rows[i] == eligible[draw(s, |eligible|, k)[i]])
  {
    var eligible := Filter(candidates, Unused(neverUse));
    var ps := draw(s, |eligible|, k);
    assert Positions(ps, |eligible|, k);
    SortAscends(Pick(eligible, ps), RankOf);
  }

  method DrawReplacements(candidates: seq<Row>, neverUse: set<string>, k: nat, draw: Draw, s: string)
    returns (chosen: Option<seq<Row>>)
    requires Sampler(draw) && OfStratum(candidates, s)
    ensures chosen == Choose(candidates, neverUse, k, draw, s)
    ensures chosen.None? <==> |Filter(candidates, Unused(neverUse))| < k
    ensures chosen.Some? ==> |chosen.value| == k && Fresh(chosen.value, neverUse) && OfStratum(chosen.value, s)
    ensures chosen.Some? && Distinct(candidates, DomainOf) ==> Distinct(chosen.value, DomainOf)
  {
    ChosenRows(candidates, neverUse, k, draw, s);
    var eligible := Filter(candidates, Unused(neverUse));
    if |eligible| < k { return None; }
    var ps := draw(s, |eligible|, k);
    assert Positions(ps, |eligible|, k);
    var picked := Pick(eligible, ps);
    chosen := Some(if s == "ai-generated" then picked else StableSort(picked, RankOf));
  }

  function InStrata(strata: seq<string>): Row -> bool { (r: Row) => r.stratum in strata }

  /** The state of the drawing loop after the strata `done`. */
  ghost predicate Drawn(
    pool: seq<Row>, l: Lists, excluded: seq<Row>, done: seq<string>, replacements: seq<Row>, neverUse: set<string>,
    unique: bool)
  {
    && neverUse == Names(l) + Domains(pool) + Domains(replacements)
    && Fresh(replacements, Names(l) + Domains(pool))
    && (unique ==> Distinct(replacements, DomainOf))
    && |replacements| == |Filter(excluded, InStrata(done))|
    && forall s :: CountStratum(replacements, s) == if s in done then CountStratum(excluded, s) else 0
  }

  lemma {:induction false} StrataStep(rows: seq<Row>, done: seq<string>, s: string)
    requires s !in done
    ensures |Filter(rows, InStrata(done + [s]))| == |Filter(rows, InStrata(done))| + CountStratum(rows, s)
  {
    if rows != [] { StrataStep(rows[..|rows| - 1], done, s); }
  }

  lemma CountOfStratum(rows: seq<Row>, s: string, t: string)
    requires OfStratum(rows, s)
    ensures CountStratum(rows, t) == if t == s then |rows| else 0
  {
    FilterAll(rows, InStratum(t), t == s);
  }

  lemma CountAppend(a: seq<Row>, b: seq<Row>, s: string)
    ensures CountStratum(a + b, s) == CountStratum(a, s) + CountStratum(b, s)
  {
    FilterAppend(a, b, InStratum(s));
  }

  lemma DrawStep(
    pool: seq<Row>, l: Lists, excluded: seq<Row>, done: seq<string>, replacements: seq<Row>, neverUse: set<string>,
    unique: bool, s: string, chosen: seq<Row>)
    requires Drawn(pool, l, excluded, done, replacements, neverUse, unique) && s !in done
    requires |chosen| == CountStratum(excluded, s) && Fresh(chosen, neverUse) && OfStratum(chosen, s)
    requires unique ==> Distinct(chosen, DomainOf)
    ensures Drawn(pool, l, excluded, done + [s], replacements + chosen, neverUse + Domains(chosen), unique)
  {
    hide CountStratum;
    StrataStep(excluded, done, s);
    assert Domains(replacements + chosen) == Domains(replacements) + Domains(chosen) by {
      DomainsAppend(replacements, chosen);
    }
    forall t ensures CountStratum(replacements + chosen, t) ==
      if t in done + [s] then CountStratum(excluded, t) else 0 {
      CountAppend(replacements, chosen, t);
      CountOfStratum(chosen, s, t);
    }
    if unique { AppendDistinct(replacements, chosen); }
  }

  lemma DomainsAppend(a: seq<Row>, b: seq<Row>)
    ensures Domains(a + b) == Domains(a) + Domains(b)
  {
    forall d | d in Domains(a) + Domains(b) ensures d in Domains(a + b) {
      if d in Domains(a) {
        var i :| 0 <= i < |a| && a[i].domain == d;
        assert (a + b)[i].domain == d;
      } else {
        var i :| 0 <= i < |b| && b[i].domain == d;
        assert (a + b)[|a| + i].domain == d;
      }
    }
  }

  lemma AppendDistinct(a: seq<Row>, b: seq<Row>)
    requires Distinct(a, DomainOf) && Distinct(b, DomainOf) && Fresh(b, Domains(a))
    ensures Distinct(a + b, DomainOf)
  {
    forall i, j | 0 <= i < |a| && 0 <= j < |b| ensures a[i].domain != b[j].domain {
      assert a[i].domain in Domains(a);
    }
  }

  datatype Outcome =
    | UnknownStratum(stratum: string)
    | TooFewCandidates(stratum: string)
    | AssertionFailed
    | Replaced(pool: seq<Row>)

  /** What the script promises of the new pool. */
  ghost predicate Promised(pool: seq<Row>, l: Lists, after: seq<Row>) {
    var kept := Filter(pool, IsKept(l));
    && |after| == |pool|
    && Distinct(after, DomainOf)
    && (forall s :: CountStratum(after, s) == CountStratum(pool, s))
    && kept <= after
    && Fresh(after[|kept|..], Names(l) + Domains(pool))
    && forall i :: |kept| <= i < |after| ==>
         && after[i].domain !in l.blocklist && after[i].domain !in l.confirmed && after[i].domain !in l.calibration
         && forall r :: r in pool ==> r.domain != after[i].domain
  }

  predicate CandidatesOk(candidates: map<string, seq<Row>>) {
    forall s :: s in candidates ==> OfStratum(candidates[s], s)
  }

  predicate CandidatesDistinct(candidates: map<string, seq<Row>>) {
    forall s :: s in candidates ==> Distinct(candidates[s], DomainOf)
  }

  /** `needed_by_stratum`, in insertion order. */
  method CountNeeded(excluded: seq<Row>) returns (needed: map<string, nat>, order: seq<string>)
    ensures order == FirstKeys(excluded, StratumOf)
    ensures needed.Keys == set s | s in order
    ensures forall s :: s in needed ==> needed[s] == CountStratum(excluded, s)
  {
    hide CountStratum;
    needed, order := map[], [];
    for i := 0 to |excluded|
      invariant order == FirstKeys(excluded[..i], StratumOf)
      invariant needed.Keys == set s | s in order
      invariant forall s :: s in needed ==> needed[s] == CountStratum(excluded[..i], s)
    {
      var s := excluded[i].stratum;
      assert excluded[..i + 1] == excluded[..i] + [excluded[i]];
      FirstKeysSnoc(excluded[..i], excluded[i], StratumOf);
      forall t { CountSnoc(excluded[..i], excluded[i], t); }
      if s !in needed {
        AbsentCount(excluded[..i], s);
        needed, order := needed[s := 1], order + [s];
      } else {
        needed := needed[s := needed[s] + 1];
      }
    }
    assert excluded[..|excluded|] == excluded;
  }

  lemma CountSnoc(rows: seq<Row>, r: Row, s: string)
    ensures CountStratum(rows + [r], s) == CountStratum(rows, s) + if r.stratum == s then 1 else 0
  {
    FilterSnoc(rows, r, InStratum(s));
  }

  lemma AbsentCount(rows: seq<Row>, s: string)
    requires s !in FirstKeys(rows, StratumOf)
    ensures CountStratum(rows, s) == 0
  {
    FirstKeysMembers(rows, StratumOf);
    forall i | 0 <= i < |rows| ensures rows[i].stratum != s {
      assert rows[i] in rows && StratumOf(rows[i]) in FirstKeys(rows, StratumOf);
    }
    FilterAll(rows, InStratum(s), false);
  }

  lemma {:induction false} FewDomains(rows: seq<Row>)
    ensures |Domains(rows)| <= |rows|
  {
    if rows == [] {
      assert Domains(rows) == {};
    } else {
      FewDomains(rows[..|rows| - 1]);
      LastDomain(rows);
    }
  }

  lemma LastDomain(rows: seq<Row>)
    requires rows != []
    ensures var n := |rows| - 1;
      && Domains(rows) == Domains(rows[..n]) + {rows[n].domain}
      && (Distinct(rows, DomainOf) ==> Distinct(rows[..n], DomainOf) && rows[n].domain !in Domains(rows[..n]))
  {
    var n := |rows| - 1;
    assert rows == rows[..n] + [rows[n]];
    DomainsAppend(rows[..n], [rows[n]]);
    assert Domains([rows[n]]) == {rows[n].domain};
  }

  /** Marking more domains as used takes away at most as many candidates. */
  lemma {:induction false} FewerUnused(candidates: seq<Row>, base: set<string>, more: set<string>)
    requires Distinct(candidates, DomainOf)
    ensures |Filter(candidates, Unused(base))| <= |Filter(candidates, Unused(base + more))| +
      |more * Domains(candidates)|
  {
    hide Domains, Distinct;
    if candidates != [] {
      var n := |candidates| - 1;
      var front, d := candidates[..n], candidates[n].domain;
      LastDomain(candidates);
      FewerUnused(front, base, more);
      assert more * Domains(candidates) == if d in more then more * Domains(front) + {d} else more * Domains(front);
    }
  }

  lemma {:induction false} FilterShrinks(rows: seq<Row>, keep: Row -> bool)
    ensures |Filter(rows, keep)| <= |rows|
  {
    if rows != [] { FilterShrinks(rows[..|rows| - 1], keep); }
  }

  /** A draw falls short only if the stratum had fewer unused candidates than there are excluded domains. */
  lemma ShortStratum(
    pool: seq<Row>, l: Lists, excluded: seq<Row>, done: seq<string>, replacements: seq<Row>, neverUse: set<string>,
    unique: bool, s: string, candidates: seq<Row>)
    requires Drawn(pool, l, excluded, done, replacements, neverUse, unique) && s !in done &&
      Distinct(candidates, DomainOf)
    requires |Filter(candidates, Unused(neverUse))| < CountStratum(excluded, s)
    ensures |Filter(candidates, Unused(Names(l) + Domains(pool)))| < |excluded|
  {
    var used := Domains(replacements);
    FewerUnused(candidates, Names(l) + Domains(pool), used);
    FewDomains(replacements);
    SubsetSize(used * Domains(candidates), used);
    StrataStep(excluded, done, s);
    FilterShrinks(excluded, InStrata(done + [s]));
  }

  datatype Drawing = NoList(stratum: string) | Short(stratum: string) | Ready(rows: seq<Row>)

  /** The drawing loop over the strata. */
  function Draws(
    pool: seq<Row>, l: Lists, excluded: seq<Row>, candidates: map<string, seq<Row>>, draw: Draw,
    strata: seq<string>): Drawing
    requires Sampler(draw)
  {
    if strata == [] then Ready([])
    else
      var before, s := Draws(pool, l, excluded, candidates, draw, strata[..|strata| - 1]), strata[|strata| - 1];
      if !before.Ready? then before
      else if s !in candidates then NoList(s)
      else
        var used := Names(l) + Domains(pool) + Domains(before.rows);
        var chosen := Choose(candidates[s], used, CountStratum(excluded, s), draw, s);
        if chosen.None? then Short(s) else Ready(before.rows + chosen.value)
  }

  /** What the script makes of the pool. */
  function Replacement(pool: seq<Row>, l: Lists, candidates: map<string, seq<Row>>, draw: Draw): Outcome
    requires Sampler(draw)
  {
    var excluded := Entries(pool, l);
    var drawn := Draws(pool, l, excluded, candidates, draw, FirstKeys(excluded, StratumOf));
    match drawn
    case NoList(s) => UnknownStratum(s)
    case Short(s) => TooFewCandidates(s)
    case Ready(rows) =>
      var after := Filter(pool, IsKept(l)) + rows;
      if |after| == |pool| && Distinct(after, DomainOf) then Replaced(after) else AssertionFailed
  }

  lemma {:induction false} StoppedStays(
    pool: seq<Row>, l: Lists, excluded: seq<Row>, candidates: map<string, seq<Row>>, draw: Draw, strata: seq<string>,
    i: nat)
    requires Sampler(draw) && i <= |strata| && !Draws(pool, l, excluded, candidates, draw, strata[..i]).Ready?
    ensures Draws(pool, l, excluded, candidates, draw, strata) ==
      Draws(pool, l, excluded, candidates, draw, strata[..i])
  {
    if i == |strata| {
      assert strata[..i] == strata;
    } else {
      assert strata[..|strata| - 1][..i] == strata[..i];
      StoppedStays(pool, l, excluded, candidates, draw, strata[..|strata| - 1], i);
    }
  }

  /** One round of the drawing loop. */
  lemma DrawsSnoc(
    pool: seq<Row>, l: Lists, excluded: seq<Row>, candidates: map<string, seq<Row>>, draw: Draw, strata: seq<string>,
    s: string)
    requires Sampler(draw) && Draws(pool, l, excluded, candidates, draw, strata).Ready?
    ensures var rows := Draws(pool, l, excluded, candidates, draw, strata).rows;
      var used := Names(l) + Domains(pool) + Domains(rows);
      Draws(pool, l, excluded, candidates, draw, strata + [s]) ==
        if s !in candidates then NoList(s)
        else if Choose(candidates[s], used, CountStratum(excluded, s), draw, s).None? then Short(s)
        else Ready(rows + Choose(candidates[s], used, CountStratum(excluded, s), draw, s).value)
  {
    hide Choose, CountStratum, Domains;
    assert (strata + [s])[..|strata|] == strata;
  }

  /** A draw falls short only with fewer unused candidates than there are excluded domains. */
  predicate FallsShort(pool: seq<Row>, l: Lists, excluded: seq<Row>, candidates: map<string, seq<Row>>, s: string) {
    s in candidates && (CandidatesDistinct(candidates) ==>
      |Filter(candidates[s], Unused(Names(l) + Domains(pool)))| < |excluded|)
  }

  lemma {:induction false} DrawsHold(
    pool: seq<Row>, l: Lists, excluded: seq<Row>, candidates: map<string, seq<Row>>, draw: Draw, strata: seq<string>)
    requires Sampler(draw) && CandidatesOk(candidates) &&
      forall i, j :: 0 <= i < j < |strata| ==> strata[i] != strata[j]
    ensures var drawn := Draws(pool, l, excluded, candidates, draw, strata);
      match drawn
      case NoList(s) => s in strata && s !in candidates
      case Short(s) => s in strata && FallsShort(pool, l, excluded, candidates, s)
      case Ready(rows) =>
        Drawn(pool, l, excluded, strata, rows, Names(l) + Domains(pool) + Domains(rows), CandidatesDistinct(candidates))
  {
    hide Choose, CountStratum, Domains, Drawn, Unused, Filter, Names, Fresh, Distinct, Sampler;
    var unique := CandidatesDistinct(candidates);
    if strata == [] {
      NothingDrawn(pool, l, excluded, unique);
      assert Domains([]) == {} by { NoDomains(); }
    } else {
      var n := |strata| - 1;
      var front, s := strata[..n], strata[n];
      DrawsHold(pool, l, excluded, candidates, draw, front);
      var before := Draws(pool, l, excluded, candidates, draw, front);
      assert strata == front + [s] && s !in front;
      if before.Ready? && s in candidates {
        var used := Names(l) + Domains(pool) + Domains(before.rows);
        var chosen := Choose(candidates[s], used, CountStratum(excluded, s), draw, s);
        ChosenRows(candidates[s], used, CountStratum(excluded, s), draw, s);
        if chosen.Some? {
          DrawStep(pool, l, excluded, front, before.rows, used, unique, s, chosen.value);
          DomainsAppend(before.rows, chosen.value);
          assert used + Domains(chosen.value) == Names(l) + Domains(pool) + Domains(before.rows + chosen.value);
        } else if unique {
          ShortStratum(pool, l, excluded, front, before.rows, used, unique, s, candidates[s]);
        }
      }
    }
  }

  lemma NoDomains()
    ensures Domains([]) == {}
  {}

  /**
    For every sampler: the replacement ends early only for a stratum without a candidate list, or with
    fewer unused candidates than there are excluded domains.  When no draw falls short, its two
    assertions hold exactly when the pool's domains were distinct; whenever they hold, the new pool is
    what the script promises.
   */
  lemma {:induction false} ReplacementExactly(pool: seq<Row>, l: Lists, candidates: map<string, seq<Row>>, draw: Draw)
    requires Sampler(draw) && CandidatesOk(candidates)
    ensures var out := Replacement(pool, l, candidates, draw);
      && (out.Replaced? ==> Promised(pool, l, out.pool))
      && (CandidatesDistinct(candidates) && (out.Replaced? || out.AssertionFailed?) ==>
            (out.Replaced? <==> Distinct(pool, DomainOf)))
      && (out.UnknownStratum? ==> out.stratum in FirstKeys(Entries(pool, l), StratumOf) && out.stratum !in candidates)
      && (out.TooFewCandidates? ==> FallsShort(pool, l, Entries(pool, l), candidates, out.stratum))
  {
    hide Merge, FirstKeys, CountStratum, Drawn, Promised, Choose, Draws, Domains, Unused;
    var excluded := Entries(pool, l);
    var order := FirstKeys(excluded, StratumOf);
    FirstKeysMembers(excluded, StratumOf);
    DrawsHold(pool, l, excluded, candidates, draw, order);
    var drawn := Draws(pool, l, excluded, candidates, draw, order);
    if drawn.Ready? {
      var used := Names(l) + Domains(pool) + Domains(drawn.rows);
      AssertsExactly(pool, l, drawn.rows, used, CandidatesDistinct(candidates));
    }
  }

  /** A round of the drawing loop, which ends here when it stops. */
  lemma DrawNext(
    pool: seq<Row>, l: Lists, excluded: seq<Row>, candidates: map<string, seq<Row>>, draw: Draw, order: seq<string>,
    i: nat, rows: seq<Row>)
    requires Sampler(draw) && i < |order| && Draws(pool, l, excluded, candidates, draw, order[..i]) == Ready(rows)
    ensures var s := order[i];
      if s !in candidates then Draws(pool, l, excluded, candidates, draw, order) == NoList(s)
      else
        var used := Names(l) + Domains(pool) + Domains(rows);
        var chosen := Choose(candidates[s], used, CountStratum(excluded, s), draw, s);
        if chosen.None? then Draws(pool, l, excluded, candidates, draw, order) == Short(s)
        else Draws(pool, l, excluded, candidates, draw, order[..i + 1]) == Ready(rows + chosen.value)
  {
    hide CountStratum, Choose, Draws, Domains, Names, Sampler;
    assert order[..i + 1] == order[..i] + [order[i]];
    DrawsSnoc(pool, l, excluded, candidates, draw, order[..i], order[i]);
    if !Draws(pool, l, excluded, candidates, draw, order[..i + 1]).Ready? {
      StoppedStays(pool, l, excluded, candidates, draw, order, i + 1);
    }
  }

  /** The loop over the strata, for any sampler. */
  method DrawAll(
    pool: seq<Row>, l: Lists, ghost excluded: seq<Row>, candidates: map<string, seq<Row>>, draw: Draw,
    needed: map<string, nat>, order: seq<string>) returns (drawn: Drawing)
    requires Sampler(draw) && CandidatesOk(candidates) && needed.Keys == set s | s in order
    requires forall s :: s in needed ==> needed[s] == CountStratum(excluded, s)
    ensures drawn == Draws(pool, l, excluded, candidates, draw, order)
  {
    assert Draws(pool, l, excluded, candidates, draw, []) == Ready([]);
    hide CountStratum, Choose, Draws, Domains, Names, Filter, Unused, Distinct, Fresh, Sampler;
    var neverUse, replacements := Names(l) + Domains(pool), [];
    NoDomains();
    for i := 0 to |order|
      invariant neverUse == Names(l) + Domains(pool) + Domains(replacements)
      invariant Draws(pool, l, excluded, candidates, draw, order[..i]) == Ready(replacements)
    {
      var s := order[i];
      assert s in order;
      DrawNext(pool, l, excluded, candidates, draw, order, i, replacements);
      if s !in candidates { return NoList(s); }
      var chosen := DrawReplacements(candidates[s], neverUse, needed[s], draw, s);
      if chosen.None? { return Short(s); }
      DomainsAppend(replacements, chosen.value);
      replacements, neverUse := replacements + chosen.value, neverUse + Domains(chosen.value);
    }
    assert order[..|order|] == order;
    return Ready(replacements);
  }

  /** The script's replacement step, for any sampler. */
  method ReplaceExcluded(pool: seq<Row>, l: Lists, candidates: map<string, seq<Row>>, draw: Draw) returns (out: Outcome)
    requires Sampler(draw) && CandidatesOk(candidates)
    ensures out == Replacement(pool, l, candidates, draw)
    ensures out.Replaced? ==> Promised(pool, l, out.pool)
    ensures CandidatesDistinct(candidates) && (out.Replaced? || out.AssertionFailed?) ==>
      (out.Replaced? <==> Distinct(pool, DomainOf))
    ensures out.UnknownStratum? ==> out.stratum in FirstKeys(Entries(pool, l), StratumOf) && out.stratum !in candidates
    ensures out.TooFewCandidates? ==> FallsShort(pool, l, Entries(pool, l), candidates, out.stratum)
  {
    hide Merge, FirstKeys, CountStratum, Promised, Draws, FallsShort, Distinct, CandidatesDistinct;
    ReplacementExactly(pool, l, candidates, draw);
    var excluded := ClassifyExclusions(pool, l);
    var needed, order := CountNeeded(excluded);
    var drawn := DrawAll(pool, l, excluded, candidates, draw, needed, order);
    match drawn {
      case NoList(s) => return UnknownStratum(s);
      case Short(s) => return TooFewCandidates(s);
      case Ready(replacements) =>
        var after := Filter(pool, IsKept(l)) + replacements;
        if |after| != |pool| { return AssertionFailed; }
        if !Distinct(after, DomainOf) { return AssertionFailed; }
        return Replaced(after);
    }
  }

  lemma NothingDrawn(pool: seq<Row>, l: Lists, excluded: seq<Row>, unique: bool)
    ensures Drawn(pool, l, excluded, [], [], Names(l) + Domains(pool), unique)
  {
    FilterAll(excluded, InStrata([]), false);
    assert Domains([]) == {};
  }

  lemma {:induction false} Split(rows: seq<Row>, l: Lists, s: string)
    ensures |Filter(rows, IsExcluded(l))| + |Filter(rows, IsKept(l))| == |rows|
    ensures CountStratum(Filter(rows, IsExcluded(l)), s) + CountStratum(Filter(rows, IsKept(l)), s) ==
      CountStratum(rows, s)
  {
    hide Excluded;
    if rows != [] {
      var front, last := rows[..|rows| - 1], rows[|rows| - 1];
      Split(front, l, s);
      FilterSnoc(Filter(front, if Excluded(l, last.domain) then IsExcluded(l) else IsKept(l)), last, InStratum(s));
    }
  }

  lemma {:induction false} FewKeys(rows: seq<Row>)
    ensures |FirstKeys(rows, DomainOf)| <= |rows|
    ensures |FirstKeys(rows, DomainOf)| == |rows| ==> Distinct(rows, DomainOf)
  {
    if rows != [] {
      var n := |rows| - 1;
      FewKeys(rows[..n]);
      FirstKeysMembers(rows[..n], DomainOf);
      forall i | 0 <= i < n ensures DomainOf(rows[i]) in FirstKeys(rows[..n], DomainOf) {
        assert rows[..n][i] in rows[..n];
      }
    }
  }

  lemma {:induction false} FilterDistinctBack(rows: seq<Row>, keep: Row -> bool, i: nat, j: nat)
    requires Distinct(Filter(rows, keep), DomainOf) && i < j < |rows| && keep(rows[i]) && keep(rows[j])
    ensures rows[i].domain != rows[j].domain
  {
    var n := |rows| - 1;
    var kept := Filter(rows[..n], keep);
    assert kept <= Filter(rows, keep);
    forall a, b | 0 <= a < b < |kept| ensures DomainOf(kept[a]) != DomainOf(kept[b]) {
      assert kept[a] == Filter(rows, keep)[a] && kept[b] == Filter(rows, keep)[b];
    }
    if j < n {
      FilterDistinctBack(rows[..n], keep, i, j);
    } else {
      FilterMember(rows[..n], keep, rows[i]);
      assert rows[..n][i] in rows[..n];
      var a :| 0 <= a < |kept| && kept[a] == rows[i];
      assert Filter(rows, keep) == kept + [rows[n]];
      assert DomainOf(Filter(rows, keep)[a]) != DomainOf(Filter(rows, keep)[|kept|]);
    }
  }

  /** Exclusion is decided by the domain, so equal domains are on one side. */
  lemma DistinctBySides(pool: seq<Row>, l: Lists)
    requires Distinct(Filter(pool, IsExcluded(l)), DomainOf) && Distinct(Filter(pool, IsKept(l)), DomainOf)
    ensures Distinct(pool, DomainOf)
  {
    forall i, j | 0 <= i < j < |pool| ensures pool[i].domain != pool[j].domain {
      if pool[i].domain == pool[j].domain {
        FilterDistinctBack(pool, if Excluded(l, pool[i].domain) then IsExcluded(l) else IsKept(l), i, j);
      }
    }
  }

  lemma AllStrata(excluded: seq<Row>)
    ensures Filter(excluded, InStrata(FirstKeys(excluded, StratumOf))) == excluded
  {
    FirstKeysMembers(excluded, StratumOf);
    var strata := FirstKeys(excluded, StratumOf);
    forall i | 0 <= i < |excluded| ensures excluded[i].stratum in strata {
      assert excluded[i] in excluded && StratumOf(excluded[i]) in strata;
    }
    FilterAll(excluded, InStrata(strata), true);
  }

  lemma AssertsExactly(pool: seq<Row>, l: Lists, replacements: seq<Row>, neverUse: set<string>, unique: bool)
    requires var excluded := Entries(pool, l);
      Drawn(pool, l, excluded, FirstKeys(excluded, StratumOf), replacements, neverUse, unique)
    ensures var after := Filter(pool, IsKept(l)) + replacements;
      && (|after| == |pool| && Distinct(after, DomainOf) ==> Promised(pool, l, after))
      && (unique ==> (|after| == |pool| && Distinct(after, DomainOf) <==> Distinct(pool, DomainOf)))
  {
    hide CountStratum, Merge, FirstKeys;
    var excluded, hits, kept := Entries(pool, l), Filter(pool, IsExcluded(l)), Filter(pool, IsKept(l));
    var after := kept + replacements;
    AllStrata(excluded);
    assert |replacements| == |excluded|;
    Split(pool, l, "");
    FewKeys(hits);
    FilterMembers(pool, IsKept(l));
    if |after| == |pool| {
      MergeDistinct(hits, DomainOf, Later);
      forall s ensures CountStratum(after, s) == CountStratum(pool, s) {
        Split(pool, l, s);
        CountAppend(kept, replacements, s);
        if s !in FirstKeys(excluded, StratumOf) { AbsentCount(excluded, s); }
      }
    }
    if |after| == |pool| && Distinct(after, DomainOf) {
      forall i, j | 0 <= i < j < |kept| ensures DomainOf(kept[i]) != DomainOf(kept[j]) {
        assert after[i] == kept[i] && after[j] == kept[j];
      }
      DistinctBySides(pool, l);
      assert after[|kept|..] == replacements;
    }
    if unique && Distinct(pool, DomainOf) {
      FilterDistinct(pool, IsExcluded(l));
      FilterDistinct(pool, IsKept(l));
      MergeDistinct(hits, DomainOf, Later);
      forall d | d in Domains(kept) ensures d in Domains(pool) {
        var i :| 0 <= i < |kept| && kept[i].domain == d;
        assert kept[i] in pool;
      }
      AppendDistinct(kept, replacements);
    }
  }

  // ---------------------------------------------------------------- applying it again

  /** An unused candidate of one of the strata whose domain the exclusion would catch in normal form. */
  ghost predicate HasVariant(pool: seq<Row>, l: Lists, candidates: map<string, seq<Row>>, strata: seq<string>) {
    exists s, c :: s in strata && IsVariant(pool, l, candidates, s, c)
  }

  predicate IsVariant(pool: seq<Row>, l: Lists, candidates: map<string, seq<Row>>, s: string, c: Row) {
    && s in candidates && c in candidates[s] && c.domain !in Names(l) + Domains(pool)
    && (Normalize(c.domain) in l.blocklist || Normalize(c.domain) in l.confirmed)
  }

  lemma {:induction false} DrawnAreCandidates(
    pool: seq<Row>, l: Lists, excluded: seq<Row>, candidates: map<string, seq<Row>>, draw: Draw, strata: seq<string>,
    r: Row)
    returns (s: string)
    requires Sampler(draw) && Draws(pool, l, excluded, candidates, draw, strata).Ready?
    requires r in Draws(pool, l, excluded, candidates, draw, strata).rows
    ensures s in strata && s in candidates && r in candidates[s] && r.domain !in Names(l) + Domains(pool)
  {
    hide Choose, CountStratum, Domains;
    var n := |strata| - 1;
    var before := Draws(pool, l, excluded, candidates, draw, strata[..n]);
    var used := Names(l) + Domains(pool) + Domains(before.rows);
    if r in before.rows {
      s := DrawnAreCandidates(pool, l, excluded, candidates, draw, strata[..n], r);
    } else {
      s := strata[n];
      ChosenRows(candidates[s], used, CountStratum(excluded, s), draw, s);
    }
  }

  /** A second application to the result would find nothing to exclude. */
  predicate NothingLeft(l: Lists, out: Outcome) { out.Replaced? ==> Entries(out.pool, l) == [] }

  lemma NothingLeftExactly(l: Lists, after: seq<Row>)
    ensures Entries(after, l) == [] <==> forall r :: r in after ==> !Excluded(l, r.domain)
  {
    hide Excluded, FirstKeys;
    var hits := Filter(after, IsExcluded(l));
    FilterMembers(after, IsExcluded(l));
    FirstKeysMembers(hits, DomainOf);
    if hits != [] { assert hits[0] in hits && DomainOf(hits[0]) in FirstKeys(hits, DomainOf); } else { NoKeys(hits); }
  }

  lemma NoKeys(rows: seq<Row>)
    requires rows == []
    ensures FirstKeys(rows, DomainOf) == []
  {}

  /** Without such a candidate no sampler leaves anything to exclude. */
  lemma {:induction false} NothingLeftToExclude(pool: seq<Row>, l: Lists, candidates: map<string, seq<Row>>, draw: Draw)
    requires Sampler(draw) && !HasVariant(pool, l, candidates, FirstKeys(Entries(pool, l), StratumOf))
    ensures NothingLeft(l, Replacement(pool, l, candidates, draw))
  {
    hide Draws, FirstKeys, Merge, Domains, Normalize;
    var excluded := Entries(pool, l);
    var order := FirstKeys(excluded, StratumOf);
    var out := Replacement(pool, l, candidates, draw);
    if out.Replaced? {
      var rows := Draws(pool, l, excluded, candidates, draw, order).rows;
      FilterMembers(pool, IsKept(l));
      forall r | r in out.pool ensures !Excluded(l, r.domain) {
        if r in rows {
          var s := DrawnAreCandidates(pool, l, excluded, candidates, draw, order, r);
          assert !IsVariant(pool, l, candidates, s, r);
        } else {
          assert r in Filter(pool, IsKept(l));
        }
      }
      NothingLeftExactly(l, out.pool);
    }
  }

  // ---------------------------------------------------------------- a sampler that draws a given candidate

  function FirstOnes(k: nat): seq<nat> { seq(k, i => i) }

  /** Draws the first rows, but for one stratum and one number of eligible rows also row `p`. */
  function Choosing(s: string, n: nat, p: nat): Draw {
    (t: string, m: nat, k: nat) => if t == s && m == n && 1 <= k <= p then FirstOnes(k)[0 := p] else FirstOnes(k)
  }

  lemma ChoosingIsSampler(s: string, n: nat, p: nat)
    requires p < n
    ensures Sampler(Choosing(s, n, p))
  {
    var draw := Choosing(s, n, p);
    forall t: string, m: nat, k: nat | k <= m ensures Positions(draw(t, m, k), m, k) {
      assert Positions(FirstOnes(k), m, k);
      if t == s && m == n && 1 <= k <= p { assert Positions(FirstOnes(k)[0 := p], m, k); }
    }
  }

  lemma {:induction false} DrawsAgree(
    pool: seq<Row>, l: Lists, excluded: seq<Row>, candidates: map<string, seq<Row>>, a: Draw, b: Draw,
    strata: seq<string>)
    requires Sampler(a) && Sampler(b) && forall s, n, k :: s in strata ==> a(s, n, k) == b(s, n, k)
    ensures Draws(pool, l, excluded, candidates, a, strata) == Draws(pool, l, excluded, candidates, b, strata)
  {
    hide CountStratum, Domains, InDrawOrder, Unused;
    if strata != [] {
      assert strata[|strata| - 1] in strata;
      DrawsAgree(pool, l, excluded, candidates, a, b, strata[..|strata| - 1]);
    }
  }

  lemma {:induction false} DrawsGrow(
    pool: seq<Row>, l: Lists, excluded: seq<Row>, candidates: map<string, seq<Row>>, draw: Draw, strata: seq<string>,
    i: nat)
    requires Sampler(draw) && i <= |strata| && Draws(pool, l, excluded, candidates, draw, strata).Ready?
    ensures var before := Draws(pool, l, excluded, candidates, draw, strata[..i]);
      before.Ready? && before.rows <= Draws(pool, l, excluded, candidates, draw, strata).rows
  {
    hide Choose, CountStratum, Domains;
    if i == |strata| {
      assert strata[..i] == strata;
    } else {
      assert strata[..|strata| - 1][..i] == strata[..i];
      DrawsGrow(pool, l, excluded, candidates, draw, strata[..|strata| - 1], i);
    }
  }

  /** The replacement ends with a new pool, whatever is drawn. */
  ghost predicate Completes(pool: seq<Row>, l: Lists, candidates: map<string, seq<Row>>) {
    forall draw: Draw :: Sampler(draw) ==> Replacement(pool, l, candidates, draw).Replaced?
  }

  /** The domains in the candidate lists of the other strata. */
  function Others(candidates: map<string, seq<Row>>, strata: seq<string>, s: string): set<string> {
    set t, i | t in strata && t != s && t in candidates && 0 <= i < |candidates[t]| :: candidates[t][i].domain
  }

  /**
    The stratum's list has as many unused candidates as the stratum needs without those that another
    stratum may take, or as many as there are excluded domains in all.
   */
  predicate EnoughFor(pool: seq<Row>, l: Lists, candidates: map<string, seq<Row>>, strata: seq<string>, s: string) {
    var excluded, base := Entries(pool, l), Names(l) + Domains(pool);
    && s in candidates
    && (|| |Filter(candidates[s], Unused(base + Others(candidates, strata, s)))| >= CountStratum(excluded, s)
        || |Filter(candidates[s], Unused(base))| >= |excluded|)
  }

  ghost predicate Enough(pool: seq<Row>, l: Lists, candidates: map<string, seq<Row>>) {
    var strata := FirstKeys(Entries(pool, l), StratumOf);
    forall s :: s in strata ==> EnoughFor(pool, l, candidates, strata, s)
  }

  lemma {:induction false} UnusedShrinks(rows: seq<Row>, a: set<string>, b: set<string>)
    requires forall i :: 0 <= i < |rows| && rows[i].domain in a ==> rows[i].domain in b
    ensures |Filter(rows, Unused(b))| <= |Filter(rows, Unused(a))|
  {
    if rows != [] { UnusedShrinks(rows[..|rows| - 1], a, b); }
  }

  /** A draw falls short only when the stratum has too few candidates that no other stratum may take. */
  lemma {:induction false} ShortOfOwn(
    pool: seq<Row>, l: Lists, excluded: seq<Row>, candidates: map<string, seq<Row>>, draw: Draw, strata: seq<string>)
    requires Sampler(draw) && forall i, j :: 0 <= i < j < |strata| ==> strata[i] != strata[j]
    requires Draws(pool, l, excluded, candidates, draw, strata).Short?
    ensures var s := Draws(pool, l, excluded, candidates, draw, strata).stratum;
      && s in candidates
      && |Filter(candidates[s], Unused(Names(l) + Domains(pool) + Others(candidates, strata, s)))| <
          CountStratum(excluded, s)
  {
    hide Choose, CountStratum, Domains, Unused, Names, Others, Filter;
    var n, base := |strata| - 1, Names(l) + Domains(pool);
    var front, last := strata[..n], strata[n];
    var before := Draws(pool, l, excluded, candidates, draw, front);
    if before.Short? {
      ShortOfOwn(pool, l, excluded, candidates, draw, front);
      OthersGrow(candidates, strata, before.stratum);
      UnusedShrinks(candidates[before.stratum], base + Others(candidates, front, before.stratum),
                    base + Others(candidates, strata, before.stratum));
    } else {
      ChosenRows(candidates[last], base + Domains(before.rows), CountStratum(excluded, last), draw, last);
      DrawnFromOthers(pool, l, excluded, candidates, draw, strata);
      UnusedShrinks(candidates[last], base + Domains(before.rows), base + Others(candidates, strata, last));
    }
  }

  lemma OthersGrow(candidates: map<string, seq<Row>>, strata: seq<string>, s: string)
    requires strata != []
    ensures Others(candidates, strata[..|strata| - 1], s) <= Others(candidates, strata, s)
  {}

  lemma DrawnFromOthers(
    pool: seq<Row>, l: Lists, excluded: seq<Row>, candidates: map<string, seq<Row>>, draw: Draw, strata: seq<string>)
    requires Sampler(draw) && strata != [] && forall i, j :: 0 <= i < j < |strata| ==> strata[i] != strata[j]
    requires Draws(pool, l, excluded, candidates, draw, strata[..|strata| - 1]).Ready?
    ensures var rows := Draws(pool, l, excluded, candidates, draw, strata[..|strata| - 1]).rows;
      Domains(rows) <= Others(candidates, strata, strata[|strata| - 1])
  {
    hide Draws;
    var n := |strata| - 1;
    var rows := Draws(pool, l, excluded, candidates, draw, strata[..n]).rows;
    forall i | 0 <= i < |rows| ensures rows[i].domain in Others(candidates, strata, strata[n]) {
      var t := DrawnAreCandidates(pool, l, excluded, candidates, draw, strata[..n], rows[i]);
      assert t in strata && t != strata[n];
    }
  }

  /** With enough candidates the replacement completes for every sampler. */
  lemma {:induction false} EnoughCompletes(pool: seq<Row>, l: Lists, candidates: map<string, seq<Row>>)
    requires CandidatesOk(candidates) && CandidatesDistinct(candidates) && Distinct(pool, DomainOf)
    requires Enough(pool, l, candidates)
    ensures Completes(pool, l, candidates)
  {
    hide Draws, FirstKeys, Merge, Domains, Names, Promised, Unused, Others, Filter, CountStratum;
    var excluded := Entries(pool, l);
    var order := FirstKeys(excluded, StratumOf);
    FirstKeysMembers(excluded, StratumOf);
    forall draw: Draw | Sampler(draw) ensures Replacement(pool, l, candidates, draw).Replaced? {
      ReplacementExactly(pool, l, candidates, draw);
      DrawsHold(pool, l, excluded, candidates, draw, order);
      var drawn := Draws(pool, l, excluded, candidates, draw, order);
      if drawn.Short? {
        assert EnoughFor(pool, l, candidates, order, drawn.stratum);
        ShortOfOwn(pool, l, excluded, candidates, draw, order);
      }
    }
  }

  /** No needed stratum's list has a domain of another's. */
  predicate ListsApart(candidates: map<string, seq<Row>>, strata: seq<string>) {
    forall s, i :: s in strata && s in candidates && 0 <= i < |candidates[s]| ==>
      candidates[s][i].domain !in Others(candidates, strata, s)
  }

  /** Each needed stratum has as many unused candidates as it needs. */
  predicate OwnNeedsMet(pool: seq<Row>, l: Lists, candidates: map<string, seq<Row>>) {
    var excluded := Entries(pool, l);
    forall s :: s in FirstKeys(excluded, StratumOf) ==>
      s in candidates && |Filter(candidates[s], Unused(Names(l) + Domains(pool)))| >= CountStratum(excluded, s)
  }

  /** For lists without a common domain that is needed and is enough. */
  lemma {:induction false} CompletesExactly(pool: seq<Row>, l: Lists, candidates: map<string, seq<Row>>)
    requires CandidatesOk(candidates) && CandidatesDistinct(candidates) && Distinct(pool, DomainOf)
    requires ListsApart(candidates, FirstKeys(Entries(pool, l), StratumOf))
    ensures Completes(pool, l, candidates) <==> OwnNeedsMet(pool, l, candidates)
  {
    hide FirstKeys, Merge, Domains, Names, Unused, Others, Filter, CountStratum, Completes;
    if Completes(pool, l, candidates) {
      CompletedNeedsMet(pool, l, candidates);
    } else if OwnNeedsMet(pool, l, candidates) {
      var order, base := FirstKeys(Entries(pool, l), StratumOf), Names(l) + Domains(pool);
      forall s | s in order ensures EnoughFor(pool, l, candidates, order, s) {
        UnusedShrinks(candidates[s], base + Others(candidates, order, s), base);
      }
      EnoughCompletes(pool, l, candidates);
    }
  }

  /** It is needed for any lists. */
  lemma CompletedNeedsMet(pool: seq<Row>, l: Lists, candidates: map<string, seq<Row>>)
    requires Completes(pool, l, candidates)
    ensures OwnNeedsMet(pool, l, candidates)
  {
    hide FirstKeys, Merge, Domains, Names, Unused, Filter, CountStratum, Draws, Choosing;
    var excluded, base := Entries(pool, l), Names(l) + Domains(pool);
    var order := FirstKeys(excluded, StratumOf);
    var draw := Choosing("", 0, 0);
    FirstOnesIsSampler("");
    CompletedIsReady(pool, l, candidates, draw);
    forall s | s in order
      ensures s in candidates && |Filter(candidates[s], Unused(base))| >= CountStratum(excluded, s)
    {
      var i :| 0 <= i < |order| && order[i] == s;
      RoundIsReady(pool, l, excluded, candidates, draw, order, i);
      var rows := Draws(pool, l, excluded, candidates, draw, order[..i]).rows;
      UnusedShrinks(candidates[s], base, base + Domains(rows));
    }
  }

  lemma CompletedIsReady(pool: seq<Row>, l: Lists, candidates: map<string, seq<Row>>, draw: Draw)
    requires Sampler(draw) && Completes(pool, l, candidates)
    ensures var excluded := Entries(pool, l);
      var drawn := Draws(pool, l, excluded, candidates, draw, FirstKeys(excluded, StratumOf));
      && drawn.Ready? && Replacement(pool, l, candidates, draw) == Replaced(Filter(pool, IsKept(l)) + drawn.rows)
  {
    hide Draws, FirstKeys, Merge, Distinct;
    assert Replacement(pool, l, candidates, draw).Replaced?;
  }

  /** In its round the sampler draws the candidate. */
  lemma ChosenIn(candidates: seq<Row>, neverUse: set<string>, k: nat, s: string, c: Row) returns (draw: Draw, p: nat)
    requires c in candidates && c.domain !in neverUse && 1 <= k <= |Filter(candidates, Unused(neverUse))|
    ensures p < |Filter(candidates, Unused(neverUse))| && draw == Choosing(s, |Filter(candidates, Unused(neverUse))|, p)
    ensures Sampler(draw) && Choose(candidates, neverUse, k, draw, s).Some?
    ensures c in Choose(candidates, neverUse, k, draw, s).value
  {
    var eligible := Filter(candidates, Unused(neverUse));
    FilterMember(candidates, Unused(neverUse), c);
    p :| 0 <= p < |eligible| && eligible[p] == c;
    draw := Choosing(s, |eligible|, p);
    ChoosingIsSampler(s, |eligible|, p);
    var ps := draw(s, |eligible|, k);
    assert Positions(ps, |eligible|, k);
    var picked := Pick(eligible, ps);
    if p < k {
      assert ps == FirstOnes(k);
      assert ps[p] == p;
    } else {
      assert ps == FirstOnes(k)[0 := p];
      assert ps[0] == p;
    }
    assert picked[if p < k then p else 0] == c;
    InDrawOrderMembers(picked, s);
  }

  /** The strata drawn before are drawn alike. */
  lemma ChoosingElsewhere(s: string, n: nat, p: nat, strata: seq<string>)
    requires s !in strata
    ensures forall t, m, k :: t in strata ==> Choosing(s, n, p)(t, m, k) == Choosing(s, 0, 0)(t, m, k)
  {}

  lemma FirstOnesIsSampler(s: string)
    ensures Sampler(Choosing(s, 0, 0))
  {
    var draw := Choosing(s, 0, 0);
    forall t: string, m: nat, k: nat | k <= m ensures Positions(draw(t, m, k), m, k) {
      assert draw(t, m, k) == FirstOnes(k) && Positions(FirstOnes(k), m, k);
    }
  }

  /** A drawn row that the exclusion would catch is left in the result. */
  lemma DrawnVariantStays(pool: seq<Row>, l: Lists, candidates: map<string, seq<Row>>, draw: Draw, i: nat, r: Row)
    requires Sampler(draw) && Completes(pool, l, candidates)
    requires i <= |FirstKeys(Entries(pool, l), StratumOf)| && Excluded(l, r.domain)
    requires var order := FirstKeys(Entries(pool, l), StratumOf);
      var drawn := Draws(pool, l, Entries(pool, l), candidates, draw, order[..i]);
      drawn.Ready? && r in drawn.rows
    ensures !NothingLeft(l, Replacement(pool, l, candidates, draw))
  {
    hide Draws, FirstKeys, Merge, Domains, Completes, Excluded;
    var excluded := Entries(pool, l);
    var order := FirstKeys(excluded, StratumOf);
    CompletedIsReady(pool, l, candidates, draw);
    DrawsGrow(pool, l, excluded, candidates, draw, order, i);
    var rows := Draws(pool, l, excluded, candidates, draw, order).rows;
    assert r in rows;
    var after := Filter(pool, IsKept(l)) + rows;
    assert r in after;
    NothingLeftExactly(l, after);
  }

  lemma VariantIsExcluded(pool: seq<Row>, l: Lists, candidates: map<string, seq<Row>>, s: string, c: Row)
    requires IsVariant(pool, l, candidates, s, c)
    ensures Excluded(l, c.domain)
  {}

  /**
    An unused variant among the candidates of a needed stratum is drawn by some sampler, or another
    spelling of it is.
  */
  lemma VariantIsDrawn(pool: seq<Row>, l: Lists, candidates: map<string, seq<Row>>, s: string, c: Row)
    returns (draw: Draw)
    requires Completes(pool, l, candidates)
    requires s in FirstKeys(Entries(pool, l), StratumOf) && IsVariant(pool, l, candidates, s, c)
    ensures Sampler(draw) && !NothingLeft(l, Replacement(pool, l, candidates, draw))
  {
    hide FirstKeys, Merge, Normalize, Choosing, Choose, Draws, NothingLeft, Completes, CountStratum, Domains;
    var excluded := Entries(pool, l);
    var order := FirstKeys(excluded, StratumOf);
    FirstKeysMembers(excluded, StratumOf);
    var i :| 0 <= i < |order| && order[i] == s;
    var front := order[..i];
    draw := Choosing(s, 0, 0);
    FirstOnesIsSampler(s);
    CompletedIsReady(pool, l, candidates, draw);
    DrawsGrow(pool, l, excluded, candidates, draw, order, i);
    VariantIsExcluded(pool, l, candidates, s, c);
    var rows := Draws(pool, l, excluded, candidates, draw, front).rows;
    if c.domain in Domains(rows) {
      var r := RowOfDomain(rows, c.domain);
      DrawnVariantStays(pool, l, candidates, draw, i, r);
    } else {
      var used, k := Names(l) + Domains(pool) + Domains(rows), CountStratum(excluded, s);
      RoundIsReady(pool, l, excluded, candidates, draw, order, i);
      NeededOne(excluded, s);
      var p: nat;
      draw, p := ChosenIn(candidates[s], used, k, s, c);
      ChoosingElsewhere(s, |Filter(candidates[s], Unused(used))|, p, front);
      DrawsAgree(pool, l, excluded, candidates, Choosing(s, 0, 0), draw, front);
      DrawsSnoc(pool, l, excluded, candidates, draw, front, s);
      assert order[..i + 1] == front + [s];
      DrawnVariantStays(pool, l, candidates, draw, i + 1, c);
    }
  }

  lemma RowOfDomain(rows: seq<Row>, d: string) returns (r: Row)
    requires d in Domains(rows)
    ensures r in rows && r.domain == d
  {
    var i :| 0 <= i < |rows| && rows[i].domain == d;
    r := rows[i];
  }

  /** A stratum that is needed is needed for at least one row. */
  lemma NeededOne(excluded: seq<Row>, s: string)
    requires s in FirstKeys(excluded, StratumOf)
    ensures CountStratum(excluded, s) >= 1
  {
    hide FirstKeys;
    FirstKeysMembers(excluded, StratumOf);
    assert HasKey(excluded, StratumOf, s);
    var r :| r in excluded && StratumOf(r) == s;
    FilterMember(excluded, InStratum(s), r);
  }

  /** The i-th round has enough eligible rows. */
  lemma RoundIsReady(
    pool: seq<Row>, l: Lists, excluded: seq<Row>, candidates: map<string, seq<Row>>, draw: Draw, order: seq<string>,
    i: nat)
    requires Sampler(draw) && i < |order| && Draws(pool, l, excluded, candidates, draw, order).Ready?
    ensures var before, s := Draws(pool, l, excluded, candidates, draw, order[..i]), order[i];
      && before.Ready? && s in candidates
      && CountStratum(excluded, s) <=
          |Filter(candidates[s], Unused(Names(l) + Domains(pool) + Domains(before.rows)))|
  {
    hide Choose, Draws, CountStratum, Domains, Filter;
    var s := order[i];
    DrawsGrow(pool, l, excluded, candidates, draw, order, i);
    var rows := Draws(pool, l, excluded, candidates, draw, order[..i]).rows;
    DrawsGrow(pool, l, excluded, candidates, draw, order, i + 1);
    assert order[..i + 1] == order[..i] + [s];
    DrawsSnoc(pool, l, excluded, candidates, draw, order[..i], s);
    ChosenRows(candidates[s], Names(l) + Domains(pool) + Domains(rows), CountStratum(excluded, s), draw, s);
  }

  /** Whatever is drawn, a second application finds nothing to exclude. */
  ghost predicate AlwaysClean(pool: seq<Row>, l: Lists, candidates: map<string, seq<Row>>) {
    forall draw: Draw :: Sampler(draw) ==> NothingLeft(l, Replacement(pool, l, candidates, draw))
  }

  /**
    When the replacement completes, the result is clean for every sampler exactly when no unused candidate of a
    needed stratum has its normal form among the blocked or confirmed domains.
   */
  lemma {:induction false} AlwaysCleanExactly(pool: seq<Row>, l: Lists, candidates: map<string, seq<Row>>)
    requires Completes(pool, l, candidates)
    ensures AlwaysClean(pool, l, candidates) <==>
      !HasVariant(pool, l, candidates, FirstKeys(Entries(pool, l), StratumOf))
  {
    hide FirstKeys, Merge, IsVariant, NothingLeft, Replacement, Completes, Domains;
    var order := FirstKeys(Entries(pool, l), StratumOf);
    if HasVariant(pool, l, candidates, order) {
      var s, c :| s in order && IsVariant(pool, l, candidates, s, c);
      var draw := VariantIsDrawn(pool, l, candidates, s, c);
    } else {
      forall draw: Draw | Sampler(draw) ensures NothingLeft(l, Replacement(pool, l, candidates, draw)) {
        NothingLeftToExclude(pool, l, candidates, draw);
      }
    }
  }

  /** A blocked domain with a www prefix among the candidates is such a variant: some sampler leaves it in the pool. */
  lemma {:induction false} VariantSpellingSlipsIn(
    pool: seq<Row>, l: Lists, candidates: map<string, seq<Row>>, s: string, c: Row, d: string)
    returns (draw: Draw)
    requires Completes(pool, l, candidates)
    requires s in FirstKeys(Entries(pool, l), StratumOf) && s in candidates && c in candidates[s]
    requires d in l.blocklist && d != "" && Clean(d) && Lower(d) == d
    requires c.domain == "www." + d && c.domain !in Names(l) + Domains(pool)
    ensures Excluded(l, c.domain)
    ensures Sampler(draw) && !NothingLeft(l, Replacement(pool, l, candidates, draw))
  {
    hide FirstKeys, Merge, NothingLeft, Replacement, Completes, Domains, Normalize, Lower;
    WwwNormal(d);
    draw := VariantIsDrawn(pool, l, candidates, s, c);
  }

  /** For instance: the only candidate for the only excluded row is drawn by every sampler. */
  lemma {:induction false} OnlyCandidateIsDrawn(l: Lists, x: Row, c: Row, draw: Draw)
    requires Sampler(draw) && Excluded(l, x.domain) && c.stratum == x.stratum && c.domain !in Names(l) &&
      c.domain != x.domain
    ensures Replacement([x], l, map[x.stratum := [c]], draw) == Replaced([c])
  {
    hide Sampler, Excluded, Entries, Filter, FirstKeys, Draws, Choose, CountStratum, Domains, Names, Distinct;
    SingleEntry(x, l);
    SingleDraw(l, x, c, draw);
    assert [] + [c] == [c];
    SingleDistinct(c);
  }

  lemma SingleDistinct(c: Row)
    ensures Distinct([c], DomainOf)
  {}

  lemma SingleEntry(x: Row, l: Lists)
    requires Excluded(l, x.domain)
    ensures Filter([x], IsKept(l)) == [] && Entries([x], l) == [x] && FirstKeys([x], StratumOf) == [x.stratum]
  {
    hide Excluded;
    assert [x][..0] == [];
    assert Filter([x], IsExcluded(l)) == [x];
    MergeDistinct([x], DomainOf, Later);
  }

  lemma SingleDraw(l: Lists, x: Row, c: Row, draw: Draw)
    requires Sampler(draw) && c.domain !in Names(l) && c.domain != x.domain
    ensures Draws([x], l, [x], map[x.stratum := [c]], draw, [x.stratum]) == Ready([c])
  {
    hide Sampler, Choose, CountStratum, Domains, Names, Filter;
    var s := x.stratum;
    var candidates := map[s := [c]];
    SingleCount(x);
    SingleDomain(x);
    NoDomains();
    SingleChoice(c, s, Names(l) + Domains([x]) + Domains([]), draw);
    assert Draws([x], l, [x], candidates, draw, []) == Ready([]);
    DrawsSnoc([x], l, [x], candidates, draw, [], s);
    assert [] + [s] == [s] && [] + [c] == [c];
  }

  lemma SingleDomain(x: Row)
    ensures Domains([x]) == {x.domain}
  {
    LastDomain([x]);
    NoDomains();
    assert [x][..0] == [];
  }

  lemma SingleCount(x: Row)
    ensures CountStratum([x], x.stratum) == 1
  {
    FilterAll([x], InStratum(x.stratum), true);
  }

  lemma SingleChoice(c: Row, s: string, used: set<string>, draw: Draw)
    requires Sampler(draw) && c.domain !in used
    ensures Choose([c], used, 1, draw, s) == Some([c])
  {
    hide InDrawOrder, Sampler, Choose, Distinct, Fresh;
    FilterAll([c], Unused(used), true);
    ChosenRows([c], used, 1, draw, s);
    var rows := Choose([c], used, 1, draw, s).value;
    assert rows[0] in [c] && rows == [rows[0]];
  }

  lemma WwwClean(d: string)
    requires d != "" && Clean(d)
    ensures Strip("www." + d) == "www." + d
  {
    StripClean("www." + d);
  }

  lemma WwwLower(d: string)
    requires Lower(d) == d
    ensures Lower("www." + d) == "www." + d
  {
    hide Lower;
    LowerFixed('.', d);
    LowerFixed('w', ['.'] + d);
    LowerFixed('w', ['w'] + (['.'] + d));
    LowerFixed('w', ['w'] + (['w'] + (['.'] + d)));
    assert "www." + d == ['w'] + (['w'] + (['w'] + (['.'] + d)));
  }

  lemma WwwNormal(d: string)
    requires d != "" && Clean(d) && Lower(d) == d
    ensures Normalize("www." + d) == d
  {
    hide Strip, Lower, Clean;
    WwwClean(d);
    WwwLower(d);
    assert ("www." + d)[..4] == "www." && ("www." + d)[4..] == d;
  }

  /** White space, letter case and one leading "www." do not count. */
  lemma {:induction false} NormalizeExactly(x: string, y: string)
    requires Clean(x) && Lower(x) == x
    ensures Normalize("www." + x) == x
    ensures !("www." <= x) ==> Normalize(x) == x
    ensures Normalize(y) == Normalize(Lower(Strip(y)))
  {
    hide Strip, Lower;
    assert x == "" ==> "www." + x == "www.";
    if x == "" { BareWww(); } else { WwwNormal(x); }
    StripClean(x);
    StripIsClean(y);
    LowerIdempotent(Strip(y));
    LowerIsClean(Strip(y));
    StripClean(Lower(Strip(y)));
  }

  lemma BareWww()
    ensures Normalize("www.") == ""
  {
    StripClean("www.");
    WwwLower("");
    assert "www." + "" == "www." && "www."[..4] == "www." && "www."[4..] == "";
  }

  lemma LowerFixed(c: char, s: string)
    requires LowerChar(c) == c && Lower(s) == s
    ensures Lower([c] + s) == [c] + s
  {
    assert ([c] + s)[1..] == s;
  }

  // ---------------------------------------------------------------- merging the strata

  const STRATUM_PRIORITY := ["tranco-low-rank", "tranco-mid-rank", "tranco-high-rank", "prior-candidate-list",
    "ai-generated"]

  function PriorityFrom(stratum: string, i: nat): int
    requires i <= |STRATUM_PRIORITY|
    decreases |STRATUM_PRIORITY| - i
  {
    if i == |STRATUM_PRIORITY| then 99 else if STRATUM_PRIORITY[i] == stratum then i else PriorityFrom(stratum, i + 1)
  }

  function Priority(r: Row): int { PriorityFrom(r.stratum, 0) }

  /** Low-ranked sites come first, AI-generated ones after all others, and unknown strata last. */
  lemma {:induction false} PriorityOrder(r: Row)
    ensures r.stratum == "tranco-low-rank" ==> Priority(r) == 0
    ensures r.stratum == "tranco-mid-rank" ==> Priority(r) == 1
    ensures r.stratum == "tranco-high-rank" ==> Priority(r) == 2
    ensures r.stratum == "prior-candidate-list" ==> Priority(r) == 3
    ensures r.stratum == "ai-generated" ==> Priority(r) == 4
    ensures Priority(r) == 99 <==>
      r.stratum !in {"tranco-low-rank", "tranco-mid-rank", "tranco-high-rank", "prior-candidate-list", "ai-generated"}
  {
    var s := r.stratum;
    assert PriorityFrom(s, 5) == 99;
    assert PriorityFrom(s, 4) == if s == "ai-generated" then 4 else 99;
    assert PriorityFrom(s, 3) == if s == "prior-candidate-list" then 3 else PriorityFrom(s, 4);
    assert PriorityFrom(s, 2) == if s == "tranco-high-rank" then 2 else PriorityFrom(s, 3);
    assert PriorityFrom(s, 1) == if s == "tranco-mid-rank" then 1 else PriorityFrom(s, 2);
  }

  function DomainKey(r: Row): string { Normalize(r.domain) }

  function Earlier(a: Row, b: Row): Row { a }

  function Dedupe(rows: seq<Row>): seq<Row> { Merge(StableSort(rows, Priority), DomainKey, Earlier) }

  datatype Collision = Collision(domain: string, droppedStratum: string, keptStratum: string)

  /** One collision for every row that is not the first of its domain, naming the stratum of the first. */
  function Collisions(ordered: seq<Row>): seq<Collision> {
    if ordered == [] then []
    else
      var front, last := ordered[..|ordered| - 1], ordered[|ordered| - 1];
      var g := Group(front, DomainKey, DomainKey(last));
      if g == [] then Collisions(front) else Collisions(front) + [Collision(last.domain, last.stratum, g[0].stratum)]
  }

  /** The next row enters the dictionary or is one more collision. */
  lemma NextRow(ordered: seq<Row>, i: nat)
    requires i < |ordered|
    ensures var row, front, all := ordered[i], ordered[..i], ordered[..i + 1];
      var dict, order, key := Dict(front, DomainKey, Earlier), FirstKeys(front, DomainKey), DomainKey(row);
      if key in dict then
        && Dict(all, DomainKey, Earlier) == dict && FirstKeys(all, DomainKey) == order
        && Collisions(all) == Collisions(front) + [Collision(row.domain, row.stratum, dict[key].stratum)]
      else
        && Dict(all, DomainKey, Earlier) == dict[key := row] && FirstKeys(all, DomainKey) == order + [key]
        && Collisions(all) == Collisions(front)
  {
    hide Normalize;
    var front, row := ordered[..i], ordered[i];
    assert ordered[..i + 1][..i] == front;
    DictStep(ordered, i, DomainKey, Earlier);
    GroupNonEmpty(front, DomainKey, DomainKey(row));
    var g := Group(front, DomainKey, DomainKey(row));
    if g != [] { FoldEarlier(g); }
  }

  lemma {:induction false} CollisionsCount(ordered: seq<Row>)
    ensures |FirstKeys(ordered, DomainKey)| + |Collisions(ordered)| == |ordered|
  {
    hide Normalize;
    if ordered != [] {
      var n := |ordered| - 1;
      CollisionsCount(ordered[..n]);
      NextRow(ordered, n);
      assert ordered[..n + 1] == ordered;
    }
  }

  method DedupeStrata(rows: seq<Row>) returns (kept: seq<Row>, collisions: seq<Collision>)
    ensures kept == Dedupe(rows)
    ensures collisions == Collisions(StableSort(rows, Priority))
    ensures |kept| + |collisions| == |rows|
  {
    assert Collisions([]) == [];
    hide Merge, Dict, FirstKeys, Normalize, StableSort, Collisions;
    var ordered := StableSort(rows, Priority);
    var byDomain: map<string, Row> := map[];
    var order: seq<string> := [];
    collisions := [];
    DictEmpty(ordered[..0], DomainKey, Earlier);
    assert ordered[..0] == [];
    for i := 0 to |ordered|
      invariant order == FirstKeys(ordered[..i], DomainKey) && byDomain == Dict(ordered[..i], DomainKey, Earlier)
      invariant collisions == Collisions(ordered[..i])
    {
      var row := ordered[i];
      var key := Normalize(row.domain);
      NextRow(ordered, i);
      if key in byDomain {
        collisions := collisions + [Collision(row.domain, row.stratum, byDomain[key].stratum)];
      } else {
        byDomain, order := byDomain[key := row], order + [key];
      }
    }
    assert ordered[..|ordered|] == ordered;
    CollisionsCount(ordered);
    forall i | 0 <= i < |order| ensures order[i] in byDomain && Dedupe(rows)[i] == byDomain[order[i]] {
      MergeIsDict(ordered, DomainKey, Earlier, i);
    }
    kept := seq(|order|, i requires 0 <= i < |order| && order[i] in byDomain => byDomain[order[i]]);
  }

  predicate Ascending(rows: seq<Row>, value: Row -> int) {
    forall i, j :: 0 <= i < j < |rows| ==> value(rows[i]) <= value(rows[j])
  }

  lemma {:induction false} InsertAscends(rows: seq<Row>, x: Row, value: Row -> int)
    requires Ascending(rows, value)
    ensures Ascending(InsertStable(rows, x, value), value)
    ensures forall y :: y in InsertStable(rows, x, value) ==> y == x || y in rows
  {
    if !(rows == [] || value(rows[|rows| - 1]) <= value(x)) {
      var front, last := rows[..|rows| - 1], rows[|rows| - 1];
      InsertAscends(front, x, value);
      forall y | y in InsertStable(front, x, value) ensures value(y) <= value(last) {
        if y in front {
          var i :| 0 <= i < |front| && front[i] == y;
          assert value(rows[i]) <= value(rows[|rows| - 1]);
        }
      }
    }
  }

  lemma {:induction false} SortAscends(rows: seq<Row>, value: Row -> int)
    ensures Ascending(StableSort(rows, value), value)
  {
    if rows != [] {
      SortAscends(rows[..|rows| - 1], value);
      InsertAscends(StableSort(rows[..|rows| - 1], value), rows[|rows| - 1], value);
    }
  }

  lemma GroupSnoc<K>(rows: seq<Row>, x: Row, key: Row -> K, k: K)
    ensures Group(rows + [x], key, k) == Group(rows, key, k) + if key(x) == k then [x] else []
  {
    assert (rows + [x])[..|rows|] == rows;
  }

  lemma GroupBound<K>(rows: seq<Row>, key: Row -> K, k: K, value: Row -> int, bound: int)
    requires forall i :: 0 <= i < |rows| ==> value(rows[i]) <= bound
    ensures forall y :: y in Group(rows, key, k) ==> value(y) <= bound
  {
    GroupMembers(rows, key, k);
  }

  lemma {:induction false} InsertInGroup<K>(rows: seq<Row>, x: Row, key: Row -> K, k: K, value: Row -> int)
    requires Ascending(rows, value)
    ensures Group(InsertStable(rows, x, value), key, k)
         == if key(x) == k then InsertStable(Group(rows, key, k), x, value) else Group(rows, key, k)
  {
    var g := Group(rows, key, k);
    if rows == [] || value(rows[|rows| - 1]) <= value(x) {
      GroupSnoc(rows, x, key, k);
      GroupBound(rows, key, k, value, value(x));
      if g != [] { assert g[|g| - 1] in g; }
    } else {
      var front, last := rows[..|rows| - 1], rows[|rows| - 1];
      InsertInGroup(front, x, key, k, value);
      GroupSnoc(InsertStable(front, x, value), last, key, k);
      if key(last) == k {
        assert g == Group(front, key, k) + [last] && g[..|g| - 1] == Group(front, key, k);
      } else {
        assert g == Group(front, key, k);
      }
    }
  }

  /** A stable sort sorts each group on its own. */
  lemma {:induction false} SortOfGroup<K>(rows: seq<Row>, key: Row -> K, k: K, value: Row -> int)
    ensures Group(StableSort(rows, value), key, k) == StableSort(Group(rows, key, k), value)
  {
    if rows != [] {
      var front, last := rows[..|rows| - 1], rows[|rows| - 1];
      SortOfGroup(front, key, k, value);
      SortAscends(front, value);
      InsertInGroup(StableSort(front, value), last, key, k, value);
      var g := Group(front, key, k);
      assert Group(rows, key, k) == if key(last) == k then g + [last] else g;
      assert (g + [last])[..|g|] == g;
    }
  }

  function Smaller(value: Row -> int): (Row, Row) -> bool { (a: Row, b: Row) => value(a) < value(b) }

  lemma {:induction false} InsertHead(rows: seq<Row>, x: Row, value: Row -> int)
    requires Ascending(rows, value)
    ensures InsertStable(rows, x, value)[0] == if rows != [] && value(rows[0]) <= value(x) then rows[0] else x
  {
    if !(rows == [] || value(rows[|rows| - 1]) <= value(x)) {
      InsertHead(rows[..|rows| - 1], x, value);
    }
  }

  /** The first row of the sorted list is the first of the least rows. */
  lemma {:induction false} SortHead(rows: seq<Row>, value: Row -> int)
    requires rows != []
    ensures FirstBest(rows, Smaller(value), StableSort(rows, value)[0])
  {
    var n := |rows| - 1;
    var sorted := StableSort(rows[..n], value);
    SortAscends(rows[..n], value);
    InsertHead(sorted, rows[n], value);
    if n == 0 {
      assert BestAt(rows, Smaller(value), 0);
    } else {
      SortHead(rows[..n], value);
      var i :| BestAt(rows[..n], Smaller(value), i) && rows[..n][i] == sorted[0];
      BestOfMore(rows, Smaller(value), i);
    }
  }

  lemma {:induction false} FoldEarlier(g: seq<Row>)
    requires g != []
    ensures Fold(g, Earlier) == g[0]
  {
    if |g| > 1 { FoldEarlier(g[..|g| - 1]); }
  }

  /**
    One row is kept per domain (in normal form): of the rows of that domain in the input, the
    earliest of those in the stratum that comes first in the priority list.
   */
  lemma {:induction false} DedupeExactly(rows: seq<Row>, i: nat)
    requires i < |Dedupe(rows)|
    ensures var r := Dedupe(rows)[i];
      && FirstBest(Group(rows, DomainKey, DomainKey(r)), Smaller(Priority), r)
      && (forall j :: 0 <= j < |Dedupe(rows)| && j != i ==> DomainKey(Dedupe(rows)[j]) != DomainKey(r))
  {
    hide Normalize, Priority, Merge;
    var ordered := StableSort(rows, Priority);
    EarlierKeepsKey();
    MergeAt(ordered, DomainKey, Earlier, i);
    MergeIdempotent(ordered, DomainKey, Earlier);
    var k := FirstKeys(ordered, DomainKey)[i];
    SortOfGroup(rows, DomainKey, k, Priority);
    FoldEarlier(Group(ordered, DomainKey, k));
    SortHead(Group(rows, DomainKey, k), Priority);
  }

  lemma EarlierKeepsKey()
    ensures KeepsKey(DomainKey, Earlier)
  {
    hide Normalize;
  }

  /** No domain of the input is lost. */
  lemma {:induction false} DedupeKeepsDomains(rows: seq<Row>, r: Row)
    requires r in rows
    ensures exists i :: 0 <= i < |Dedupe(rows)| && DomainKey(Dedupe(rows)[i]) == DomainKey(r)
  {
    hide Normalize, Priority, Merge;
    EarlierKeepsKey();
    SortMembers(rows, Priority);
    var i := MergeHas(StableSort(rows, Priority), DomainKey, Earlier, r);
    MergeAt(StableSort(rows, Priority), DomainKey, Earlier, i);
    assert DomainKey(Dedupe(rows)[i]) == DomainKey(r);
  }
}
