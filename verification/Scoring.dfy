/**
  The two-tier score of a scan and the two counterfactual re-scorings of the evaluation.  Every
  penalty is a whole number and the cap is 10, so the sums and the rounding of the source are exact.
 */
module Scoring {
  import opened Strings
  import opened KeyedFold
  import opened Findings

  datatype Gap = NotRepresentative | ModulesMissing(run: int, discovered: int)

  datatype ScoreInfo = ScoreInfo(
    score: nat, rawScore: int, grade: char, tier1: nat, tier2: nat, gradeReliable: bool, coverageNote: seq<Gap>)

  function Penalty(f: Finding): nat {
    var s := Lower(f.severity);
    if s == "critical" then 30 else if s == "high" then 15 else if s == "medium" then 5 else if s == "low" then 2 else 0
  }

  predicate Hardening(f: Finding) { f.tier == "hardening" }

  function Tier1Penalty(f: Finding): nat { if Hardening(f) then 0 else Penalty(f) }
  function Tier2Penalty(f: Finding): nat { if Hardening(f) then Penalty(f) else 0 }

  function Sum(findings: seq<Finding>, weight: Finding -> nat): nat {
    if findings == [] then 0
    else Sum(findings[..|findings| - 1], weight) + weight(findings[|findings| - 1])
  }

  function Min(a: int, b: int): int { if a <= b then a else b }
  function Max(a: int, b: int): int { if a >= b then a else b }

  function Deduction(findings: seq<Finding>): nat {
    Sum(findings, Tier1Penalty) + Min(Sum(findings, Tier2Penalty), 10)
  }

  function Score(findings: seq<Finding>): nat { Max(0, 100 - Deduction(findings)) }

  function Grade(score: int): char {
    if score >= 85 then 'A' else if score >= 75 then 'B' else if score >= 65 then 'C' else if score >= 55 then 'D'
    else 'F'
  }

  function Gaps(testsRun: Option<int>, discovered: Option<int>, representative: bool): seq<Gap> {
    (if representative then [] else [NotRepresentative]) +
    (if testsRun.Some? && discovered.Some? && testsRun.value < discovered.value
     then [ModulesMissing(testsRun.value, discovered.value)] else [])
  }

  /** The note names an unrepresentative page, and the completed and the discovered modules when some are missing. */
  lemma {:induction false} GapsExactly(testsRun: Option<int>, discovered: Option<int>, representative: bool)
    ensures var gaps := Gaps(testsRun, discovered, representative);
      && (NotRepresentative in gaps <==> !representative)
      && (forall r, d :: ModulesMissing(r, d) in gaps <==> testsRun == Some(r) && discovered == Some(d) && r < d)
  {}

  method ComputeScore(findings: seq<Finding>, testsRun: Option<int>, discovered: Option<int>, representative: bool)
    returns (info: ScoreInfo)
    ensures info.score == Score(findings) && info.rawScore == 100 - Deduction(findings)
    ensures info.score == Max(0, info.rawScore) && 0 <= info.score <= 100 && info.grade == Grade(info.score)
    ensures info.tier1 == Sum(findings, Tier1Penalty) && info.tier2 == Min(Sum(findings, Tier2Penalty), 10)
    ensures info.gradeReliable <==>
      representative && !(testsRun.Some? && discovered.Some? && testsRun.value < discovered.value)
    ensures info.coverageNote == Gaps(testsRun, discovered, representative)
    ensures info.gradeReliable <==> info.coverageNote == []
  {
    var tier1, tier2 := 0, 0;
    for i := 0 to |findings|
      invariant tier1 == Sum(findings[..i], Tier1Penalty) && tier2 == Sum(findings[..i], Tier2Penalty)
    {
      assert findings[..i + 1][..i] == findings[..i];
      var penalty := Penalty(findings[i]);
      if Hardening(findings[i]) { tier2 := tier2 + penalty; } else { tier1 := tier1 + penalty; }
    }
    assert findings[..|findings|] == findings;
    tier2 := Min(tier2, 10);
    var raw := 100 - (tier1 + tier2);
    var score := Max(0, raw);
    var gaps := [];
    if !representative { gaps := gaps + [NotRepresentative]; }
    if testsRun.Some? && discovered.Some? && testsRun.value < discovered.value {
      gaps := gaps + [ModulesMissing(testsRun.value, discovered.value)];
    }
    info := ScoreInfo(score, raw, Grade(score), tier1, tier2, |gaps| == 0, gaps);
  }

  // ---------------------------------------------------------------- what a finding costs

  /** What a permitted severity costs, in any letter case; any other costs nothing. */
  lemma {:induction false} SeverityCosts(f: Finding)
    ensures Penalty(f) == 30 <==> Lower(f.severity) == "critical"
    ensures Penalty(f) == 15 <==> Lower(f.severity) == "high"
    ensures Penalty(f) == 5 <==> Lower(f.severity) == "medium"
    ensures Penalty(f) == 2 <==> Lower(f.severity) == "low"
    ensures Penalty(f) == 0 <==> Lower(f.severity) !in SEVERITIES || Lower(f.severity) == "info"
  {
    hide Lower;
  }

  /** One more finding: a hardening finding costs at most what is left of ten points, any other its penalty. */
  lemma {:induction false} OneMoreFinding(findings: seq<Finding>, f: Finding)
    ensures Deduction([]) == 0
    ensures f.tier != "hardening" ==> Deduction(findings + [f]) == Deduction(findings) + Penalty(f)
    ensures f.tier == "hardening" ==>
      var spent := Sum(findings, Tier2Penalty);
      Deduction(findings + [f]) ==
        Deduction(findings) + (if spent >= 10 then 0 else if spent + Penalty(f) <= 10 then Penalty(f) else 10 - spent)
  {
    hide Penalty;
    var more := findings + [f];
    assert more[..|more| - 1] == findings && more[|more| - 1] == f;
  }

  /** The bands of the grades. */
  lemma {:induction false} GradeBands(score: int)
    ensures Grade(score) == 'A' <==> 85 <= score
    ensures Grade(score) == 'B' <==> 75 <= score < 85
    ensures Grade(score) == 'C' <==> 65 <= score < 75
    ensures Grade(score) == 'D' <==> 55 <= score < 65
    ensures Grade(score) == 'F' <==> score < 55
  {}

  // ---------------------------------------------------------------- order, monotonicity, deduplication

  lemma {:induction false} SumRemove(findings: seq<Finding>, i: nat, weight: Finding -> nat)
    requires i < |findings|
    ensures Sum(findings, weight) == Sum(findings[..i] + findings[i + 1..], weight) + weight(findings[i])
  {
    var n := |findings| - 1;
    if i == n {
      assert findings[..i] + findings[i + 1..] == findings[..n];
    } else {
      SumRemove(findings[..n], i, weight);
      var rest := findings[..i] + findings[i + 1..];
      assert rest[..|rest| - 1] == findings[..n][..i] + findings[..n][i + 1..];
      assert rest[|rest| - 1] == findings[n];
    }
  }

  /** A multiset of findings with fewer members sums to less, in whatever order. */
  lemma {:induction false} SumMonotone(a: seq<Finding>, b: seq<Finding>, weight: Finding -> nat)
    requires multiset(a) <= multiset(b)
    ensures Sum(a, weight) <= Sum(b, weight)
    decreases |a|
  {
    if a != [] {
      var n := |a| - 1;
      var i := OneLess(a, b);
      SumMonotone(a[..n], b[..i] + b[i + 1..], weight);
      SumRemove(b, i, weight);
    }
  }

  /** The last member of `a` can be taken out of both. */
  lemma OneLess<T>(a: seq<T>, b: seq<T>) returns (i: nat)
    requires a != [] && multiset(a) <= multiset(b)
    ensures i < |b| && b[i] == a[|a| - 1]
    ensures multiset(a[..|a| - 1]) <= multiset(b[..i] + b[i + 1..])
  {
    var n := |a| - 1;
    assert a == a[..n] + [a[n]];
    assert a[n] in multiset(a) && a[n] in multiset(b);
    i :| 0 <= i < |b| && b[i] == a[n];
    assert b == b[..i] + [b[i]] + b[i + 1..];
    assert multiset(b) == multiset(b[..i] + b[i + 1..]) + multiset{a[n]};
    assert multiset(a) == multiset(a[..n]) + multiset{a[n]};
    WithoutOne(multiset(a[..n]), multiset(b[..i] + b[i + 1..]), a[n]);
  }

  lemma WithoutOne<T>(fewer: multiset<T>, rest: multiset<T>, x: T)
    requires fewer + multiset{x} <= rest + multiset{x}
    ensures fewer <= rest
  {
    assert (fewer + multiset{x}) - multiset{x} == fewer && (rest + multiset{x}) - multiset{x} == rest;
  }

  /** More findings never score higher, on the clamped and on the raw scale. */
  lemma {:induction false} ScoreAntitone(a: seq<Finding>, b: seq<Finding>)
    requires multiset(a) <= multiset(b)
    ensures Score(b) <= Score(a) && Deduction(a) <= Deduction(b) && Rank(Grade(Score(b))) <= Rank(Grade(Score(a)))
  {
    hide Grade, Rank;
    SumMonotone(a, b, Tier1Penalty);
    SumMonotone(a, b, Tier2Penalty);
    GradeMonotone(Score(b), Score(a));
  }

  function Rank(grade: char): nat {
    if grade == 'A' then 4 else if grade == 'B' then 3 else if grade == 'C' then 2 else if grade == 'D' then 1 else 0
  }

  lemma GradesRanked()
    ensures Rank('A') == 4 && Rank('B') == 3 && Rank('C') == 2 && Rank('D') == 1 && Rank('F') == 0
  {}

  lemma GradeMonotone(x: int, y: int)
    requires x <= y
    ensures Rank(Grade(x)) <= Rank(Grade(y))
  {}

  lemma LowerSeverities()
    ensures forall s :: s in SEVERITIES ==> Lower(s) == s
  {
    forall s | s in SEVERITIES ensures Lower(s) == s {
      LowerPlain(s);
    }
  }

  /** The order of the findings does not matter. */
  lemma {:induction false} ScorePermutation(a: seq<Finding>, b: seq<Finding>)
    requires multiset(a) == multiset(b)
    ensures Score(a) == Score(b) && Deduction(a) == Deduction(b)
  {
    ScoreAntitone(a, b);
    ScoreAntitone(b, a);
  }

  lemma {:induction false} DistinctSubset<T>(a: seq<T>, b: seq<T>)
    requires forall i, j :: 0 <= i < j < |a| ==> a[i] != a[j]
    requires forall x :: x in a ==> x in b
    ensures multiset(a) <= multiset(b)
  {
    forall x | x in multiset(a) ensures multiset(a)[x] <= multiset(b)[x] {
      AtMostOnce(a, x);
      assert x in a && x in b;
    }
  }

  lemma DedupShrinks(findings: seq<Finding>)
    ensures multiset(Dedup(findings)) <= multiset(findings) && |Dedup(findings)| <= |findings|
  {
    hide Key, Better, Dedup;
    var out := Dedup(findings);
    DedupExactly(findings);
    DedupDominates(findings);
    DistinctSubset(out, findings);
    assert |multiset(findings)| == |multiset(out)| + |multiset(findings) - multiset(out)|;
  }

  /** Deduplicating findings never lowers the score. */
  lemma {:induction false} DedupNeverLowers(findings: seq<Finding>)
    ensures Score(Dedup(findings)) >= Score(findings) && Deduction(Dedup(findings)) <= Deduction(findings)
  {
    hide Key, Better, Dedup, Deduction;
    DedupShrinks(findings);
    ScoreAntitone(Dedup(findings), findings);
  }

  // ---------------------------------------------------------------- the tier-fix counterfactual

  predicate Affected(f: Finding) {
    (f.title == "OCSP Stapling Not Enabled" || f.title == "Missing DNS CAA Record") && Hardening(f)
  }

  function AffectedPenalty(f: Finding): nat { if Affected(f) then Penalty(f) else 0 }

  function Untag(f: Finding): Finding { if Affected(f) then f.(tier := "") else f }

  method BuggyFindings(findings: seq<Finding>) returns (out: seq<Finding>)
    ensures out == Map(findings, Untag)
  {
    out := [];
    for i := 0 to |findings|
      invariant out == Map(findings[..i], Untag)
    {
      var f := findings[i];
      if Affected(f) { f := f.(tier := ""); }
      out := out + [f];
    }
    assert findings[..|findings|] == findings;
  }

  /** A finding is changed exactly when it is one of the two affected hardening findings; only its tier is. */
  lemma {:induction false} UntagExactly(f: Finding)
    ensures Untag(f) != f <==>
      f.tier == "hardening" && (f.title == "OCSP Stapling Not Enabled" || f.title == "Missing DNS CAA Record")
    ensures Untag(f).(tier := f.tier) == f && (Untag(f) != f ==> Untag(f).tier == "")
  {}

  lemma UntagPenalty(f: Finding)
    ensures Penalty(Untag(f)) == Penalty(f)
  {}

  lemma {:induction false} UntagSums(findings: seq<Finding>)
    ensures var buggy := Map(findings, Untag);
      && Sum(buggy, Tier1Penalty) == Sum(findings, Tier1Penalty) + Sum(findings, AffectedPenalty)
      && Sum(buggy, Tier2Penalty) + Sum(findings, AffectedPenalty) == Sum(findings, Tier2Penalty)
  {
    hide Penalty;
    if findings != [] {
      var n := |findings| - 1;
      assert Penalty(Untag(findings[n])) == Penalty(findings[n]) by { UntagPenalty(findings[n]); }
      UntagSums(findings[..n]);
      assert Map(findings, Untag)[..n] == Map(findings[..n], Untag);
    }
  }

  /** The fix raises the raw score by what the cap then absorbs, and the visible score by no more than that. */
  lemma {:induction false} TierFixShift(findings: seq<Finding>)
    ensures var buggy, a, t2 := Map(findings, Untag), Sum(findings, AffectedPenalty), Sum(findings, Tier2Penalty);
      && a <= t2
      && Deduction(buggy) - Deduction(findings) == a - (Min(t2, 10) - Min(t2 - a, 10))
      && 0 <= Score(findings) - Score(buggy) <= a
      && (t2 <= 10 ==> Score(findings) == Score(buggy))
  {
    UntagSums(findings);
  }

  // ---------------------------------------------------------------- the OCSP counterfactual

  function SyntheticOcsp(f: Finding): Finding {
    f.(title := "OCSP Stapling Not Enabled", severity := "low", confidence := "informational", tier := "hardening")
  }

  /** The synthetic finding is one of those that the other counterfactual affects, of low severity. */
  lemma {:induction false} SyntheticIsAffected(f: Finding)
    ensures var g := SyntheticOcsp(f);
      g.title == "OCSP Stapling Not Enabled" && Affected(g) && g.severity == "low" && g.confidence == "informational"
  {}

  /**
    Adding the old unconditional finding costs at most two points, exactly what is left under the
    cap, and one grade.
  */
  lemma {:induction false} OcspShift(findings: seq<Finding>, base: Finding)
    ensures var buggy, t2 := findings + [SyntheticOcsp(base)], Sum(findings, Tier2Penalty);
      && Deduction(buggy) - Deduction(findings) == Min(2, Max(0, 10 - t2))
      && 0 <= Score(findings) - Score(buggy) <= 2
      && 0 <= Rank(Grade(Score(findings))) - Rank(Grade(Score(buggy))) <= 1
  {
    hide Sum, SyntheticOcsp, Grade, Rank;
    OcspSums(findings, base);
    NearbyGrades(Score(findings), Score(findings + [SyntheticOcsp(base)]));
  }

  /** Grades are ten points apart. */
  lemma NearbyGrades(x: int, y: int)
    requires 0 <= x - y <= 2
    ensures 0 <= Rank(Grade(x)) - Rank(Grade(y)) <= 1
  {}

  lemma OcspSums(findings: seq<Finding>, base: Finding)
    ensures var buggy := findings + [SyntheticOcsp(base)];
      && Sum(buggy, Tier1Penalty) == Sum(findings, Tier1Penalty)
      && Sum(buggy, Tier2Penalty) == Sum(findings, Tier2Penalty) + 2
  {
    hide Penalty;
    var f := SyntheticOcsp(base);
    var buggy := findings + [f];
    assert buggy[..|buggy| - 1] == findings && buggy[|buggy| - 1] == f;
    LowPenalty(f);
  }

  lemma LowPenalty(f: Finding)
    requires f.severity == "low"
    ensures Penalty(f) == 2
  {
    hide Lower;
    LowerSeverities();
  }
}
