/** How the outcomes of the scan modules become one result, and how the evaluation classifies the result. */
module Aggregation {
  import opened Strings
  import opened Findings
  import opened Scoring

  /** What one module's coroutine came to; a module's three finding lists are given one after the other. */
  datatype Outcome =
    | Raised(message: string)
    | Fatal(message: string)              // a dictionary with a "fatal_error" key
    | Completed(raw: seq<RawFinding>)
    | WrongType(typeName: string)

  datatype TestEntry = Complete | Incomplete(fatalError: string)

  datatype ScanResult = ScanResult(
    testsRun: nat, errors: seq<(string, string)>, tests: map<string, TestEntry>, rawCount: nat, findings: seq<Finding>,
    summary: map<string, nat>, info: ScoreInfo, representative: bool)

  function ErrorOf(o: Outcome): string
    requires !o.Completed?
  {
    match o
    case Raised(m) => m
    case Fatal(m) => m
    case WrongType(t) => "Unexpected return type " + t
  }

  function EntryOf(o: Outcome): TestEntry { if o.Completed? then Complete else Incomplete(ErrorOf(o)) }

  function NormalizeAll(raw: seq<RawFinding>, mod: string): seq<Finding> {
    seq(|raw|, i requires 0 <= i < |raw| => Normalize(raw[i], mod))
  }

  function CountSeverity(findings: seq<Finding>, s: string): nat {
    if findings == [] then 0
    else CountSeverity(findings[..|findings| - 1], s) + if findings[|findings| - 1].severity == s then 1 else 0
  }

  predicate DistinctNames(plugins: seq<(string, Outcome)>) {
    forall i, j :: 0 <= i < j < |plugins| ==> plugins[i].0 != plugins[j].0
  }

  function Completions(plugins: seq<(string, Outcome)>): nat {
    if plugins == [] then 0
    else Completions(plugins[..|plugins| - 1]) + if plugins[|plugins| - 1].1.Completed? then 1 else 0
  }

  method Summarize(findings: seq<Finding>) returns (summary: map<string, nat>)
    ensures forall s :: s in summary <==> s in SEVERITIES
    ensures forall s :: s in summary ==> summary[s] == CountSeverity(findings, s)
  {
    summary := map["critical" := 0, "high" := 0, "medium" := 0, "low" := 0, "info" := 0];
    for i := 0 to |findings|
      invariant forall s :: s in summary <==> s in SEVERITIES
      invariant forall s :: s in summary ==> summary[s] == CountSeverity(findings[..i], s)
    {
      assert findings[..i + 1][..i] == findings[..i];
      var sev := findings[i].severity;
      if sev in summary { summary := summary[sev := summary[sev] + 1]; }
    }
    assert findings[..|findings|] == findings;
  }

  /** `module: message` for every module that did not complete, in dispatch order. */
  function ErrorsOf(plugins: seq<(string, Outcome)>): seq<(string, string)> {
    if plugins == [] then []
    else
      var (name, outcome) := plugins[|plugins| - 1];
      ErrorsOf(plugins[..|plugins| - 1]) + if outcome.Completed? then [] else [(name, ErrorOf(outcome))]
  }

  /** The normalized findings of all modules that completed. */
  function FindingsOf(plugins: seq<(string, Outcome)>): seq<Finding> {
    if plugins == [] then []
    else
      var (name, outcome) := plugins[|plugins| - 1];
      FindingsOf(plugins[..|plugins| - 1]) + if outcome.Completed? then NormalizeAll(outcome.raw, name) else []
  }

  /** The loop over the outcomes. */
  method Collect(plugins: seq<(string, Outcome)>)
    returns (testsRun: nat, errors: seq<(string, string)>, tests: map<string, TestEntry>, raw: seq<Finding>)
    ensures testsRun == Completions(plugins) && errors == ErrorsOf(plugins) && raw == FindingsOf(plugins)
    ensures tests.Keys == Names(plugins)
    ensures DistinctNames(plugins) ==> forall i :: 0 <= i < |plugins| ==>
      plugins[i].0 in tests && tests[plugins[i].0] == EntryOf(plugins[i].1)
  {
    tests, raw, errors, testsRun := map[], [], [], 0;
    for i := 0 to |plugins|
      invariant testsRun == Completions(plugins[..i]) && errors == ErrorsOf(plugins[..i]) &&
        raw == FindingsOf(plugins[..i])
      invariant tests.Keys == Names(plugins[..i])
      invariant DistinctNames(plugins) ==> forall j :: 0 <= j < i ==>
        plugins[j].0 in tests && tests[plugins[j].0] == EntryOf(plugins[j].1)
    {
      var (name, outcome) := plugins[i];
      assert plugins[..i + 1][..i] == plugins[..i];
      if outcome.Completed? {
        testsRun := testsRun + 1;
        raw := raw + NormalizeAll(outcome.raw, name);
      } else {
        errors := errors + [(name, ErrorOf(outcome))];
      }
      tests := tests[name := EntryOf(outcome)];
    }
    assert plugins[..|plugins|] == plugins;
  }

  /** The result of a scan, from the modules' outcomes in dispatch order. */
  method Aggregate(plugins: seq<(string, Outcome)>, representative: bool) returns (r: ScanResult)
    requires plugins != []
    ensures r.testsRun == Completions(plugins) && r.errors == ErrorsOf(plugins)
    ensures r.tests.Keys == Names(plugins)
    ensures DistinctNames(plugins) ==> forall i :: 0 <= i < |plugins| ==>
      plugins[i].0 in r.tests && r.tests[plugins[i].0] == EntryOf(plugins[i].1)
    ensures r.findings == Dedup(FindingsOf(plugins)) && r.rawCount == |FindingsOf(plugins)|
    ensures forall s :: s in r.summary <==> s in SEVERITIES
    ensures forall s :: s in r.summary ==> r.summary[s] == CountSeverity(r.findings, s)
    ensures r.info.score == Score(r.findings) && r.representative == representative
    ensures r.info.gradeReliable <==> representative && r.errors == []
  {
    hide Score, Deduction, Gaps, Grade, Max, Dedup, FindingsOf;
    var testsRun, errors, tests, raw := Collect(plugins);
    var findings := DeduplicateFindings(raw);
    var summary := Summarize(findings);
    var info := ComputeScore(findings, Some(testsRun), Some(|plugins|), representative);
    Accounting(plugins);
    r := ScanResult(testsRun, errors, tests, |raw|, findings, summary, info, representative);
  }

  // ---------------------------------------------------------------- modules add up

  /** The result of more modules is the result of the first ones and that of the others, in order. */
  lemma {:induction false} ModulesAddUp(a: seq<(string, Outcome)>, b: seq<(string, Outcome)>)
    ensures FindingsOf(a + b) == FindingsOf(a) + FindingsOf(b)
    ensures ErrorsOf(a + b) == ErrorsOf(a) + ErrorsOf(b) && Completions(a + b) == Completions(a) + Completions(b)
  {
    hide FindingsOf, ErrorsOf, Completions;
    FindingsAddUp(a, b);
    ErrorsAddUp(a, b);
    CompletionsAddUp(a, b);
  }

  lemma LastOfBoth<T>(a: seq<T>, b: seq<T>)
    requires b != []
    ensures (a + b)[..|a + b| - 1] == a + b[..|b| - 1] && (a + b)[|a + b| - 1] == b[|b| - 1]
  {}

  lemma {:induction false} FindingsAddUp(a: seq<(string, Outcome)>, b: seq<(string, Outcome)>)
    ensures FindingsOf(a + b) == FindingsOf(a) + FindingsOf(b)
  {
    hide NormalizeAll;
    if b == [] {
      assert a + b == a;
    } else {
      LastOfBoth(a, b);
      FindingsAddUp(a, b[..|b| - 1]);
    }
  }

  lemma {:induction false} ErrorsAddUp(a: seq<(string, Outcome)>, b: seq<(string, Outcome)>)
    ensures ErrorsOf(a + b) == ErrorsOf(a) + ErrorsOf(b)
  {
    hide ErrorOf;
    if b == [] {
      assert a + b == a;
    } else {
      LastOfBoth(a, b);
      ErrorsAddUp(a, b[..|b| - 1]);
    }
  }

  lemma {:induction false} CompletionsAddUp(a: seq<(string, Outcome)>, b: seq<(string, Outcome)>)
    ensures Completions(a + b) == Completions(a) + Completions(b)
  {
    if b == [] {
      assert a + b == a;
    } else {
      LastOfBoth(a, b);
      CompletionsAddUp(a, b[..|b| - 1]);
    }
  }

  /** One module: its findings, normalized in order, or one error with its name and message. */
  lemma {:induction false} OneModule(name: string, o: Outcome)
    ensures var findings, errors := FindingsOf([(name, o)]), ErrorsOf([(name, o)]);
      && (o.Completed? ==>
            && errors == [] && Completions([(name, o)]) == 1 && EntryOf(o) == Complete && |findings| == |o.raw|
            && forall i :: 0 <= i < |o.raw| ==> findings[i] == Normalize(o.raw[i], name))
      && (!o.Completed? ==>
            && findings == [] && Completions([(name, o)]) == 0 && |errors| == 1 && errors[0].0 == name
            && EntryOf(o) == Incomplete(errors[0].1))
      && (forall m :: o == Raised(m) || o == Fatal(m) ==> errors == [(name, m)])
      && (forall t :: o == WrongType(t) ==> errors == [(name, "Unexpected return type " + t)])
  {
    hide Normalize, FindingsOf, ErrorsOf, Completions;
    SingleModule(name, o);
  }

  lemma SingleModule(name: string, o: Outcome)
    ensures FindingsOf([(name, o)]) == if o.Completed? then NormalizeAll(o.raw, name) else []
    ensures ErrorsOf([(name, o)]) == if o.Completed? then [] else [(name, ErrorOf(o))]
    ensures Completions([(name, o)]) == if o.Completed? then 1 else 0
  {
    hide NormalizeAll, ErrorOf;
    assert [(name, o)][..0] == [];
    assert FindingsOf([]) == [] && ErrorsOf([]) == [] && Completions([]) == 0;
  }

  /** A count counts the findings with the severity, each once. */
  lemma {:induction false} CountSeverityExactly(a: seq<Finding>, f: Finding, b: seq<Finding>, s: string)
    ensures CountSeverity([], s) == 0
    ensures CountSeverity(a + [f] + b, s) ==
      CountSeverity(a, s) + CountSeverity(b, s) + if f.severity == s then 1 else 0
  {
    if b == [] {
      assert a + [f] + b == a + [f] && (a + [f])[..|a|] == a;
    } else {
      LastOfBoth(a + [f], b);
      CountSeverityExactly(a, f, b[..|b| - 1], s);
    }
  }

  // ---------------------------------------------------------------- accounting

  /** Every module either completed or left one error. */
  lemma {:induction false} Accounting(plugins: seq<(string, Outcome)>)
    ensures Completions(plugins) + |ErrorsOf(plugins)| == |plugins|
  {
    if plugins != [] { Accounting(plugins[..|plugins| - 1]); }
  }

  function Names(plugins: seq<(string, Outcome)>): set<string> {
    if plugins == [] then {} else Names(plugins[..|plugins| - 1]) + {plugins[|plugins| - 1].0}
  }

  ghost predicate HasName(plugins: seq<(string, Outcome)>, k: string) {
    exists i :: 0 <= i < |plugins| && plugins[i].0 == k
  }

  lemma {:induction false} NamesMembers(plugins: seq<(string, Outcome)>, k: string)
    ensures k in Names(plugins) <==> HasName(plugins, k)
  {
    if plugins != [] {
      var n := |plugins| - 1;
      NamesMembers(plugins[..n], k);
      if HasName(plugins[..n], k) {
        var i :| 0 <= i < n && plugins[..n][i].0 == k;
        assert plugins[i].0 == k;
      }
      if HasName(plugins, k) {
        var i :| 0 <= i < |plugins| && plugins[i].0 == k;
        assert i == n || plugins[..n][i].0 == k;
      }
    }
  }

  lemma DistinctExtend(plugins: seq<(string, Outcome)>)
    requires plugins != []
    ensures var n := |plugins| - 1;
      DistinctNames(plugins) <==> DistinctNames(plugins[..n]) && plugins[n].0 !in Names(plugins[..n])
  {
    var n := |plugins| - 1;
    var front := plugins[..n];
    NamesMembers(front, plugins[n].0);
    assert forall i :: 0 <= i < n ==> front[i] == plugins[i];
    if HasName(front, plugins[n].0) {
      var i :| 0 <= i < n && front[i].0 == plugins[n].0;
      assert plugins[i].0 == plugins[n].0;
    }
  }

  /** `len(tests)` is the number of modules exactly when no two modules share a name. */
  lemma {:induction false} OneEntryPerModule(plugins: seq<(string, Outcome)>)
    ensures |Names(plugins)| <= |plugins|
    ensures |Names(plugins)| == |plugins| <==> DistinctNames(plugins)
  {
    hide DistinctNames;
    if plugins != [] {
      OneEntryPerModule(plugins[..|plugins| - 1]);
      DistinctExtend(plugins);
    } else {
      NoNames();
    }
  }

  lemma NoNames()
    ensures DistinctNames([])
  {}

  /** The five severity counts of normalized findings add up to their number. */
  lemma {:induction false} SeverityCounts(findings: seq<Finding>)
    requires forall i :: 0 <= i < |findings| ==> findings[i].severity in SEVERITIES
    ensures CountSeverity(findings, "critical") + CountSeverity(findings, "high") + CountSeverity(findings, "medium")
      + CountSeverity(findings, "low") + CountSeverity(findings, "info") == |findings|
  {
    if findings != [] { SeverityCounts(findings[..|findings| - 1]); }
  }

  lemma {:induction false} NormalizedSeverities(plugins: seq<(string, Outcome)>)
    ensures forall i :: 0 <= i < |FindingsOf(plugins)| ==> FindingsOf(plugins)[i].severity in SEVERITIES
  {
    if plugins != [] { NormalizedSeverities(plugins[..|plugins| - 1]); }
  }

  lemma DedupedSeverities(findings: seq<Finding>)
    requires forall i :: 0 <= i < |findings| ==> findings[i].severity in SEVERITIES
    ensures forall i :: 0 <= i < |Dedup(findings)| ==> Dedup(findings)[i].severity in SEVERITIES
  {
    hide Dedup, Key, Better;
    DedupDominates(findings);
    var out := Dedup(findings);
    forall i | 0 <= i < |out| ensures out[i].severity in SEVERITIES {
      var f := out[i];
      assert f in out;
      assert f in findings;
    }
  }

  /** What a scan reports adds up, for any outcomes of modules with distinct names. */
  method AggregateAddsUp(plugins: seq<(string, Outcome)>, representative: bool) returns (r: ScanResult)
    requires plugins != [] && DistinctNames(plugins)
    ensures r.testsRun + |r.errors| == |plugins| == |r.tests|
    ensures r.summary.Keys == set s | s in SEVERITIES
    ensures r.summary["critical"] + r.summary["high"] + r.summary["medium"] + r.summary["low"] + r.summary["info"] ==
      |r.findings|
    ensures |r.findings| <= r.rawCount
    ensures !r.info.gradeReliable ==> Categorize(r) != OtherUnclassified
  {
    hide Score, Dedup, FindingsOf, CountSeverity, Contains, Lower;
    r := Aggregate(plugins, representative);
    Accounting(plugins);
    OneEntryPerModule(plugins);
    NormalizedSeverities(plugins);
    DedupedSeverities(FindingsOf(plugins));
    DedupShrinks(FindingsOf(plugins));
    SeverityCounts(r.findings);
    assert |r.tests| == |r.tests.Keys|;
  }

  // ---------------------------------------------------------------- why a grade is unreliable

  datatype Category = NoWebServer | BlockedByServer | PartialCompletion | OtherUnclassified

  const CONNECTION_FAILURE_MARKERS := [
    "no address associated with hostname", "gaierror", "connection failed entirely", "name or service not known",
    "connection refused", "timed out", "cannot connect to host", "nodename nor servname provided"]

  predicate ConnectionFailed(tests: map<string, TestEntry>) {
    "test_04_ssl_tls" in tests && tests["test_04_ssl_tls"].Incomplete? &&
    exists m :: m in CONNECTION_FAILURE_MARKERS && Contains(Lower(tests["test_04_ssl_tls"].fatalError), m)
  }

  function Categorize(r: ScanResult): Category {
    if !r.representative then (if ConnectionFailed(r.tests) then NoWebServer else BlockedByServer)
    else if |r.tests| != 0 && r.testsRun < |r.tests| then PartialCompletion
    else OtherUnclassified
  }

  /** The category, from what the result says about the page, the TLS module's error and the completed modules. */
  lemma {:induction false} CategorizeExactly(r: ScanResult)
    ensures var error := if "test_04_ssl_tls" in r.tests then r.tests["test_04_ssl_tls"] else Complete;
      var unreachable := error.Incomplete? &&
        exists m :: m in CONNECTION_FAILURE_MARKERS && Contains(Lower(error.fatalError), m);
      && (Categorize(r) == NoWebServer <==> !r.representative && unreachable)
      && (Categorize(r) == BlockedByServer <==> !r.representative && !unreachable)
      && (Categorize(r) == PartialCompletion <==> r.representative && r.testsRun < |r.tests|)
  {}
}
