/**
  The evaluation batch: one task per site behind a semaphore, one bounded retry, and the accounting
  from the outcomes over the manifest to the aggregate table and the coverage counts.
 */
module BatchRunner {
  import opened Strings
  import opened KeyedFold

  const MAX_ATTEMPTS := 2

  /** What `run_scout` returned; `gradeReliable` is missing when no module was found. */
  datatype Result = Result(gradeReliable: Option<bool>, body: string)

  datatype Outcome = Success(attempt: nat, result: Result) | Failed(attempt: nat, errorType: string)

  datatype Phase = Waiting | Scanning(attempt: nat) | Sleeping(attempt: nat) | Done(outcome: Outcome)

  datatype State = State(permits: nat, tasks: seq<Phase>)

  datatype ScanEnd = Returned(result: Result) | Raised(errorType: string)

  datatype Action = Acquire(i: nat) | EndScan(i: nat, end: ScanEnd) | Wake(i: nat)

  function Init(concurrency: nat, n: nat): State { State(concurrency, seq(n, i => Waiting)) }

  predicate Enabled(s: State, a: Action) {
    a.i < |s.tasks| &&
    match a
    case Acquire(i) => s.tasks[i].Waiting? && s.permits > 0
    case EndScan(i, _) => s.tasks[i].Scanning?
    case Wake(i) => s.tasks[i].Sleeping?
  }

  function AfterScan(attempt: nat, end: ScanEnd): Phase {
    match end
    case Returned(result) => Done(Success(attempt, result))
    case Raised(e) => if attempt < MAX_ATTEMPTS then Sleeping(attempt) else Done(Failed(MAX_ATTEMPTS, e))
  }

  function Apply(s: State, a: Action): State
    requires Enabled(s, a)
  {
    match a
    case Acquire(i) => State(s.permits - 1, s.tasks[i := Scanning(1)])
    case EndScan(i, end) =>
      var next := AfterScan(s.tasks[i].attempt, end);
      State(if next.Done? then s.permits + 1 else s.permits, s.tasks[i := next])
    case Wake(i) => s.(tasks := s.tasks[i := Scanning(s.tasks[i].attempt + 1)])
  }

  predicate ValidRun(s: State, run: seq<Action>)
    decreases |run|
  {
    run == [] || (Enabled(s, run[0]) && ValidRun(Apply(s, run[0]), run[1..]))
  }

  function Exec(s: State, run: seq<Action>): State
    requires ValidRun(s, run)
    decreases |run|
  {
    if run == [] then s else Exec(Apply(s, run[0]), run[1..])
  }

  // ---------------------------------------------------------------- what every step keeps

  predicate HoldsPermit(p: Phase) { p.Scanning? || p.Sleeping? }

  /** How many tasks are inside the semaphore. */
  function Inside(tasks: seq<Phase>): nat {
    if tasks == [] then 0 else Inside(tasks[..|tasks| - 1]) + if HoldsPermit(tasks[|tasks| - 1]) then 1 else 0
  }

  /** Steps a task may still take. */
  function Left(p: Phase): nat {
    match p
    case Waiting => 2 * MAX_ATTEMPTS
    case Scanning(k) => if k <= MAX_ATTEMPTS then 2 * (MAX_ATTEMPTS - k) + 1 else 1
    case Sleeping(k) => if k <= MAX_ATTEMPTS then 2 * (MAX_ATTEMPTS - k) else 0
    case Done(_) => 0
  }

  function StepsLeft(tasks: seq<Phase>): nat {
    if tasks == [] then 0 else StepsLeft(tasks[..|tasks| - 1]) + Left(tasks[|tasks| - 1])
  }

  lemma {:induction false} UpdateCounts(tasks: seq<Phase>, i: nat, p: Phase)
    requires i < |tasks|
    ensures Inside(tasks[i := p]) ==
      Inside(tasks) + (if HoldsPermit(p) then 1 else 0) - (if HoldsPermit(tasks[i]) then 1 else 0)
    ensures StepsLeft(tasks[i := p]) == StepsLeft(tasks) + Left(p) - Left(tasks[i])
  {
    var n := |tasks| - 1;
    if i < n {
      assert tasks[i := p][..n] == tasks[..n][i := p];
      UpdateCounts(tasks[..n], i, p);
    } else {
      assert tasks[i := p][..n] == tasks[..n];
    }
  }

  predicate PhaseOk(p: Phase) {
    match p
    case Waiting => true
    case Scanning(k) => 1 <= k <= MAX_ATTEMPTS
    case Sleeping(k) => 1 <= k < MAX_ATTEMPTS
    case Done(Success(k, _)) => 1 <= k <= MAX_ATTEMPTS
    case Done(Failed(k, _)) => k == MAX_ATTEMPTS
  }

  /** Permits and tasks inside the semaphore add up to the concurrency. */
  ghost predicate Inv(s: State, concurrency: nat, n: nat) {
    && |s.tasks| == n && s.permits + Inside(s.tasks) == concurrency
    && forall i :: 0 <= i < n ==> PhaseOk(s.tasks[i])
  }

  lemma {:induction false} InitInv(concurrency: nat, n: nat)
    ensures Inv(Init(concurrency, n), concurrency, n) && StepsLeft(Init(concurrency, n).tasks) == 2 * MAX_ATTEMPTS * n
  {
    if n > 0 {
      InitInv(concurrency, n - 1);
      assert Init(concurrency, n).tasks[..n - 1] == Init(concurrency, n - 1).tasks;
    }
  }

  /** Each step keeps the invariant and brings the end of the batch one step nearer. */
  lemma InvStep(s: State, a: Action, concurrency: nat, n: nat)
    requires Enabled(s, a) && Inv(s, concurrency, n)
    ensures Inv(Apply(s, a), concurrency, n) && StepsLeft(Apply(s, a).tasks) < StepsLeft(s.tasks)
  {
    assert PhaseOk(s.tasks[a.i]);
    UpdateCounts(s.tasks, a.i, Apply(s, a).tasks[a.i]);
    assert Apply(s, a).tasks == s.tasks[a.i := Apply(s, a).tasks[a.i]];
  }

  lemma {:induction false} RunKeeps(s: State, run: seq<Action>, concurrency: nat, n: nat)
    requires ValidRun(s, run) && Inv(s, concurrency, n)
    ensures Inv(Exec(s, run), concurrency, n) && |run| + StepsLeft(Exec(s, run).tasks) <= StepsLeft(s.tasks)
    decreases |run|
  {
    hide Apply, Enabled, Inv;
    if run != [] {
      InvStep(s, run[0], concurrency, n);
      RunKeeps(Apply(s, run[0]), run[1..], concurrency, n);
    }
  }

  /**
    At every moment at most `concurrency` sites are scanned, and a batch of `n` sites ends after at
    most `4 n` steps.
  */
  lemma {:induction false} BoundedConcurrency(concurrency: nat, n: nat, run: seq<Action>)
    requires ValidRun(Init(concurrency, n), run)
    ensures Inside(Exec(Init(concurrency, n), run).tasks) <= concurrency && |run| <= 4 * n
    ensures forall i :: 0 <= i < |Exec(Init(concurrency, n), run).tasks| ==>
      PhaseOk(Exec(Init(concurrency, n), run).tasks[i])
  {
    hide Apply, Enabled;
    InitInv(concurrency, n);
    RunKeeps(Init(concurrency, n), run, concurrency, n);
  }

  predicate Stuck(s: State) {
    forall i :: 0 <= i < |s.tasks| ==> !HoldsPermit(s.tasks[i]) && (s.tasks[i].Waiting? ==> s.permits == 0)
  }

  predicate Finished(s: State) { forall i :: 0 <= i < |s.tasks| ==> s.tasks[i].Done? }

  /** `Stuck` says that no action is enabled. */
  lemma {:induction false} StuckMeansNoStep(s: State)
    ensures Stuck(s) <==> forall a :: !Enabled(s, a)
  {
    if forall a :: !Enabled(s, a) {
      forall i | 0 <= i < |s.tasks|
        ensures !HoldsPermit(s.tasks[i]) && (s.tasks[i].Waiting? ==> s.permits == 0)
      {
        assert !Enabled(s, Acquire(i)) && !Enabled(s, EndScan(i, Raised(""))) && !Enabled(s, Wake(i));
      }
    }
  }

  lemma {:induction false} NoneInside(tasks: seq<Phase>)
    ensures (forall i :: 0 <= i < |tasks| ==> !HoldsPermit(tasks[i])) ==> Inside(tasks) == 0
  {
    if tasks != [] { NoneInside(tasks[..|tasks| - 1]); }
  }

  /**
    A batch that can go no further has an outcome for every site and all permits back, exactly
    when the concurrency is positive or there is no site at all.
   */
  lemma {:induction false} EndsFinished(concurrency: nat, n: nat, run: seq<Action>)
    requires ValidRun(Init(concurrency, n), run) && Stuck(Exec(Init(concurrency, n), run))
    ensures Finished(Exec(Init(concurrency, n), run)) <==> concurrency > 0 || n == 0
    ensures Exec(Init(concurrency, n), run).permits == concurrency
  {
    hide Apply, Enabled;
    InitInv(concurrency, n);
    RunKeeps(Init(concurrency, n), run, concurrency, n);
    var s := Exec(Init(concurrency, n), run);
    NoneInside(s.tasks);
    if concurrency == 0 && n > 0 {
      NeverAcquired(n, run);
      assert !s.tasks[0].Done?;
    }
  }

  /** With no permits nothing ever happens. */
  lemma NeverAcquired(n: nat, run: seq<Action>)
    requires ValidRun(Init(0, n), run)
    ensures run == []
  {}

  // ---------------------------------------------------------------- one task

  function OutcomeFrom(k: nat, ends: nat -> ScanEnd): Outcome
    requires 1 <= k <= MAX_ATTEMPTS
    decreases MAX_ATTEMPTS - k
  {
    match ends(k)
    case Returned(result) => Success(k, result)
    case Raised(e) => if k < MAX_ATTEMPTS then OutcomeFrom(k + 1, ends) else Failed(MAX_ATTEMPTS, e)
  }

  /** The loop of `_scan_one`; `ends(k)` is how the k-th attempt ends. */
  method ScanOne(ends: nat -> ScanEnd) returns (outcome: Outcome)
    ensures outcome == OutcomeFrom(1, ends)
    ensures outcome.Success? ==> ends(outcome.attempt) == Returned(outcome.result)
    ensures outcome.Success? <==> exists k: nat :: 1 <= k <= MAX_ATTEMPTS && ends(k).Returned?
  {
    var lastError := "";
    for attempt := 1 to MAX_ATTEMPTS + 1
      invariant attempt <= MAX_ATTEMPTS ==> OutcomeFrom(1, ends) == OutcomeFrom(attempt, ends)
      invariant forall k: nat :: 1 <= k < attempt ==> ends(k).Raised?
      invariant attempt > MAX_ATTEMPTS ==> OutcomeFrom(1, ends) == Failed(MAX_ATTEMPTS, lastError)
    {
      match ends(attempt) {
        case Returned(result) => return Success(attempt, result);
        case Raised(e) => lastError := e;
      }
    }
    outcome := Failed(MAX_ATTEMPTS, lastError);
  }

  function SoloRun(k: nat, i: nat, ends: nat -> ScanEnd): seq<Action>
    requires 1 <= k <= MAX_ATTEMPTS
    decreases MAX_ATTEMPTS - k
  {
    [EndScan(i, ends(k))] + if ends(k).Returned? || k == MAX_ATTEMPTS then [] else [Wake(i)] + SoloRun(k + 1, i, ends)
  }

  /**
    Once inside the semaphore, a task's loop is a run of the machine with the loop's outcome, and it
    gives the permit back.
  */
  lemma {:induction false} ScanOneIsARun(s: State, i: nat, k: nat, ends: nat -> ScanEnd)
    requires i < |s.tasks| && s.tasks[i] == Scanning(k) && 1 <= k <= MAX_ATTEMPTS
    ensures ValidRun(s, SoloRun(k, i, ends))
    ensures Exec(s, SoloRun(k, i, ends)) == State(s.permits + 1, s.tasks[i := Done(OutcomeFrom(k, ends))])
    decreases MAX_ATTEMPTS - k
  {
    var run := SoloRun(k, i, ends);
    var s1 := Apply(s, EndScan(i, ends(k)));
    if ends(k).Returned? || k == MAX_ATTEMPTS {
      assert run[1..] == [];
    } else {
      var s2 := Apply(s1, Wake(i));
      ScanOneIsARun(s2, i, k + 1, ends);
      assert run[1..] == [Wake(i)] + SoloRun(k + 1, i, ends) && run[1..][1..] == SoloRun(k + 1, i, ends);
      assert Exec(s1, run[1..]) == Exec(s2, SoloRun(k + 1, i, ends));
    }
  }

  // ---------------------------------------------------------------- the manifest

  datatype Site = Site(rank: Option<nat>, domain: string, url: string)

  predicate SafeChar(c: char) { '0' <= c <= '9' || 'a' <= c <= 'z' || 'A' <= c <= 'Z' || c in ".-_" }

  function SafeFilename(domain: string): string {
    if domain == "" then "" else [if SafeChar(domain[0]) then domain[0] else '_'] + SafeFilename(domain[1..])
  }

  function RankText(rank: Option<nat>): string { if rank.Some? then Decimal(rank.value) else "None" }

  function FileName(site: Site): string {
    "rank" + ['_'] + (RankText(site.rank) + ['_'] + (SafeFilename(site.domain) + ".json"))
  }

  /** Letters, digits, dots, hyphens and underscores are kept, any other character becomes an underscore. */
  lemma {:induction false} SafeNameExactly(domain: string)
    ensures var name := SafeFilename(domain);
      && |name| == |domain|
      && forall i :: 0 <= i < |domain| ==>
           var c := domain[i];
           name[i] == if IsDigit(c) || 'a' <= LowerChar(c) <= 'z' || c in {'.', '-', '_'} then c else '_'
  {
    if domain != "" {
      SafeNameExactly(domain[1..]);
      assert forall i :: 0 < i < |domain| ==> domain[i] == domain[1..][i - 1];
    }
  }

  /** The file is named by the rank, or "None", and the safe name of the domain. */
  lemma {:induction false} FileNameExactly(site: Site)
    ensures site.rank.Some? ==>
      FileName(site) == "rank_" + Decimal(site.rank.value) + "_" + SafeFilename(site.domain) + ".json"
    ensures site.rank.None? ==> FileName(site) == "rank_None_" + SafeFilename(site.domain) + ".json"
  {}

  datatype ManifestRow = ManifestRow(site: Site, success: bool, file: string, errorType: string)

  function RowOf(site: Site, outcome: Outcome): ManifestRow {
    match outcome
    case Success(_, _) => ManifestRow(site, true, FileName(site), "")
    case Failed(_, e) => ManifestRow(site, false, "", e)
  }

  type Run = seq<(Site, Outcome)>

  function ManifestOf(run: Run): seq<ManifestRow> { Map(run, (p: (Site, Outcome)) => RowOf(p.0, p.1)) }

  /** The result files: a later site of the same file name overwrites the file. */
  function FilesOf(run: Run): map<string, Result> {
    if run == [] then map[]
    else
      var (site, outcome) := run[|run| - 1];
      var before := FilesOf(run[..|run| - 1]);
      if outcome.Success? then before[FileName(site) := outcome.result] else before
  }

  function CountSuccess(run: Run): nat { |Filter(run, (p: (Site, Outcome)) => p.1.Success?)| }

  method WriteManifest(run: Run)
    returns (rows: seq<ManifestRow>, files: map<string, Result>, succeeded: nat, failed: nat)
    ensures rows == ManifestOf(run) && files == FilesOf(run)
    ensures succeeded == CountSuccess(run) && succeeded + failed == |run|
  {
    rows, files, succeeded, failed := [], map[], 0, 0;
    for i := 0 to |run|
      invariant rows == ManifestOf(run[..i]) && files == FilesOf(run[..i])
      invariant succeeded == CountSuccess(run[..i]) && succeeded + failed == i
    {
      assert run[..i + 1][..i] == run[..i];
      var (site, outcome) := run[i];
      var file := "";
      if outcome.Success? {
        succeeded, file := succeeded + 1, FileName(site);
        files := files[file := outcome.result];
        rows := rows + [ManifestRow(site, true, file, "")];
      } else {
        failed := failed + 1;
        rows := rows + [ManifestRow(site, false, file, outcome.errorType)];
      }
    }
    assert run[..|run|] == run;
  }

  // ---------------------------------------------------------------- the aggregate table

  /** A row of the table: blank when the site has no result. */
  datatype AggregateRow = AggregateRow(url: string, source: Option<Result>) {
    function GradeReliable(): Option<bool> { if source.Some? then source.value.gradeReliable else None }
  }

  function AggregateOf(m: ManifestRow, files: map<string, Result>): AggregateRow {
    AggregateRow(m.site.url, if m.success && m.file != "" && m.file in files then Some(files[m.file]) else None)
  }

  method Aggregate(manifest: seq<ManifestRow>, files: map<string, Result>) returns (rows: seq<AggregateRow>)
    ensures rows == Map(manifest, (m: ManifestRow) => AggregateOf(m, files))
  {
    rows := [];
    for i := 0 to |manifest|
      invariant rows == Map(manifest[..i], (m: ManifestRow) => AggregateOf(m, files))
    {
      var m := manifest[i];
      if m.success && m.file != "" {
        if m.file in files {
          rows := rows + [AggregateRow(m.site.url, Some(files[m.file]))];
          continue;
        }
      }
      rows := rows + [AggregateRow(m.site.url, None)];
    }
    assert manifest[..|manifest|] == manifest;
  }

  datatype Coverage = Coverage(total: nat, reliable: nat, unreliable: nat, failedEntirely: nat)

  function WithGrade(g: Option<bool>): AggregateRow -> bool { (r: AggregateRow) => r.GradeReliable() == g }

  method CoverageBreakdown(rows: seq<AggregateRow>) returns (c: Coverage)
    ensures c.total == |rows|
    ensures c.reliable == |Filter(rows, WithGrade(Some(true)))|
    ensures c.unreliable == |Filter(rows, WithGrade(Some(false)))|
    ensures c.failedEntirely == |Filter(rows, WithGrade(None))|
  {
    c := Coverage(|rows|, 0, 0, 0);
    for i := 0 to |rows|
      invariant c.total == |rows|
      invariant c.reliable == |Filter(rows[..i], WithGrade(Some(true)))|
      invariant c.unreliable == |Filter(rows[..i], WithGrade(Some(false)))|
      invariant c.failedEntirely == |Filter(rows[..i], WithGrade(None))|
    {
      assert rows[..i + 1][..i] == rows[..i];
      match rows[i].GradeReliable() {
        case Some(true) => c := c.(reliable := c.reliable + 1);
        case Some(false) => c := c.(unreliable := c.unreliable + 1);
        case None => c := c.(failedEntirely := c.failedEntirely + 1);
      }
    }
    assert rows[..|rows|] == rows;
  }

  // ---------------------------------------------------------------- the accounting

  predicate DistinctFiles(run: Run) {
    forall i, j :: 0 <= i < j < |run| ==> FileName(run[i].0) != FileName(run[j].0)
  }

  /** The file of a site holds the result of the last successful site of that file name. */
  lemma {:induction false} LastWriter(run: Run, i: nat) returns (m: nat)
    requires i < |run| && run[i].1.Success?
    ensures i <= m < |run| && run[m].1.Success? && FileName(run[m].0) == FileName(run[i].0)
    ensures FileName(run[i].0) in FilesOf(run) && FilesOf(run)[FileName(run[i].0)] == run[m].1.result
    ensures forall l :: m < l < |run| && run[l].1.Success? ==> FileName(run[l].0) != FileName(run[i].0)
  {
    hide FileName;
    var n := |run| - 1;
    if run[n].1.Success? && FileName(run[n].0) == FileName(run[i].0) {
      m := n;
    } else {
      m := LastWriter(run[..n], i);
    }
  }

  /** Sites with different ranks have different result files. */
  lemma {:induction false} RanksSeparateFiles(a: Site, b: Site)
    requires a.rank.Some? && b.rank.Some? && a.rank != b.rank
    ensures FileName(a) != FileName(b)
  {
    DecimalValue(a.rank.value);
    DecimalValue(b.rank.value);
    RankPart(a);
    RankPart(b);
  }

  lemma RankPart(site: Site)
    requires site.rank.Some?
    ensures |Split(FileName(site), '_')| >= 2 && Split(FileName(site), '_')[1] == Decimal(site.rank.value)
  {
    DecimalValue(site.rank.value);
    var rest := SafeFilename(site.domain) + ".json";
    assert '_' !in Decimal(site.rank.value) by { assert !IsDigit('_'); }
    SplitAt(Decimal(site.rank.value), '_', rest);
    assert FileName(site) == "rank" + ['_'] + (Decimal(site.rank.value) + ['_'] + rest);
    SplitAt("rank", '_', Decimal(site.rank.value) + ['_'] + rest);
  }

  /** A site's own row: its result when it has one. */
  function OwnRow(p: (Site, Outcome)): AggregateRow {
    AggregateRow(p.0.url, match p.1 case Success(_, result) => Some(result) case Failed(_, _) => None)
  }

  lemma RowIsOwn(run: Run, i: nat)
    requires i < |run| && DistinctFiles(run)
    ensures AggregateOf(RowOf(run[i].0, run[i].1), FilesOf(run)) == OwnRow(run[i])
  {
    hide DistinctFiles;
    if run[i].1.Success? {
      var m := LastWriter(run, i);
      assert FileName(run[i].0) != "";
      assert m == i by { SameFile(run, i, m); }
    }
  }

  lemma SameFile(run: Run, i: nat, m: nat)
    requires DistinctFiles(run) && i <= m < |run| && FileName(run[m].0) == FileName(run[i].0)
    ensures m == i
  {
    hide FileName;
  }

  /** Two successful sites of one file name: the first one's row shows the result of a later site. */
  lemma {:induction false} SharedFileMixesRows(run: Run, i: nat, j: nat) returns (m: nat)
    requires i < j < |run| && run[i].1.Success? && run[j].1.Success? && FileName(run[i].0) == FileName(run[j].0)
    ensures j <= m < |run| && run[m].1.Success?
    ensures AggregateOf(RowOf(run[i].0, run[i].1), FilesOf(run)) == AggregateRow(run[i].0.url, Some(run[m].1.result))
  {
    m := LastWriter(run, i);
    assert FileName(run[i].0) != "";
  }

  lemma {:induction false} FilterMultiset<V>(a: seq<V>, keep: V -> bool, x: V)
    ensures multiset(Filter(a, keep))[x] == if keep(x) then multiset(a)[x] else 0
  {
    if a != [] {
      FilterMultiset(a[..|a| - 1], keep, x);
      assert a == a[..|a| - 1] + [a[|a| - 1]];
    }
  }

  lemma FilterIncluded<V>(a: seq<V>, b: seq<V>, keep: V -> bool)
    requires multiset(a) == multiset(b)
    ensures multiset(Filter(a, keep)) <= multiset(Filter(b, keep))
  {
    forall x | x in multiset(Filter(a, keep)) ensures multiset(Filter(a, keep))[x] <= multiset(Filter(b, keep))[x] {
      FilterMultiset(a, keep, x);
      FilterMultiset(b, keep, x);
    }
  }

  /** The number of elements with a property does not depend on the order. */
  lemma FilterOfPermutation<V>(a: seq<V>, b: seq<V>, keep: V -> bool)
    requires multiset(a) == multiset(b)
    ensures |Filter(a, keep)| == |Filter(b, keep)|
  {
    FilterIncluded(a, b, keep);
    FilterIncluded(b, a, keep);
    assert multiset(Filter(a, keep)) == multiset(Filter(b, keep));
    assert |multiset(Filter(a, keep))| == |Filter(a, keep)|;
  }

  function MapsTo<V, W(==)>(f: V -> W, y: W): V -> bool { (v: V) => f(v) == y }

  lemma {:induction false} MapMultiset<V, W>(a: seq<V>, f: V -> W, y: W)
    ensures multiset(Map(a, f))[y] == |Filter(a, MapsTo(f, y))|
  {
    if a != [] {
      var n := |a| - 1;
      MapMultiset(a[..n], f, y);
      MapSnoc(a[..n], a[n], f);
      assert a == a[..n] + [a[n]];
    }
  }

  lemma TablePermutation(a: seq<ManifestRow>, b: seq<ManifestRow>, f: ManifestRow -> AggregateRow)
    requires multiset(a) == multiset(b)
    ensures multiset(Map(a, f)) == multiset(Map(b, f))
  {
    forall y ensures multiset(Map(a, f))[y] == multiset(Map(b, f))[y] {
      MapMultiset(a, f, y);
      MapMultiset(b, f, y);
      FilterOfPermutation(a, b, MapsTo(f, y));
    }
  }

  lemma {:induction false} GradesPartition(rows: seq<AggregateRow>)
    ensures |Filter(rows, WithGrade(Some(true)))| + |Filter(rows, WithGrade(Some(false)))| +
      |Filter(rows, WithGrade(None))| == |rows|
  {
    if rows != [] {
      GradesPartition(rows[..|rows| - 1]);
      var g := rows[|rows| - 1].GradeReliable();
      if g.Some? { assert g == Some(if g.value then true else false); }
    }
  }

  /**
    The whole chain, with the manifest in any order: the table has one row per site attempted, and
    the rows are, up to order, each site's own.
   */
  lemma {:induction false} TableIsOwnRows(run: Run, manifest: seq<ManifestRow>)
    requires DistinctFiles(run) && multiset(manifest) == multiset(ManifestOf(run))
    ensures multiset(Map(manifest, (m: ManifestRow) => AggregateOf(m, FilesOf(run)))) == multiset(Map(run, OwnRow))
  {
    hide DistinctFiles, AggregateOf, RowOf, FilesOf;
    var toRow := (m: ManifestRow) => AggregateOf(m, FilesOf(run));
    TablePermutation(manifest, ManifestOf(run), toRow);
    forall i | 0 <= i < |run| ensures Map(ManifestOf(run), toRow)[i] == OwnRow(run[i]) {
      RowIsOwn(run, i);
    }
    assert Map(ManifestOf(run), toRow) == Map(run, OwnRow);
  }

  /** The sites with the outcomes their tasks came to. */
  function RunOf(sites: seq<Site>, outcomes: seq<Outcome>): (r: Run)
    requires |sites| == |outcomes|
    ensures |r| == |sites| && forall i :: 0 <= i < |r| ==> r[i] == (sites[i], outcomes[i])
  {
    seq(|sites|, i requires 0 <= i < |sites| => (sites[i], outcomes[i]))
  }

  function TableOf(run: Run): seq<AggregateRow> {
    Map(ManifestOf(run), (m: ManifestRow) => AggregateOf(m, FilesOf(run)))
  }

  predicate SitesApart(sites: seq<Site>) {
    forall i, j :: 0 <= i < j < |sites| ==> FileName(sites[i]) != FileName(sites[j])
  }

  /** Whatever the outcomes, the table is, up to order, each site's own row. */
  ghost predicate AlwaysOwnRows(sites: seq<Site>) {
    forall outcomes: seq<Outcome> :: |outcomes| == |sites| ==>
      multiset(TableOf(RunOf(sites, outcomes))) == multiset(Map(RunOf(sites, outcomes), OwnRow))
  }

  /** The first site returned one result, all others another. */
  function OddOneOut(n: nat, i: nat): (r: seq<Outcome>)
    ensures |r| == n
  {
    seq(n, k => Success(1, Result(None, if k == i then "one" else "other")))
  }

  /** Of two sites with one file name, the first one's result can vanish from the table. */
  lemma ResultVanishes(sites: seq<Site>, i: nat, j: nat)
    requires i < j < |sites| && FileName(sites[i]) == FileName(sites[j])
    ensures var run := RunOf(sites, OddOneOut(|sites|, i));
      multiset(TableOf(run)) != multiset(Map(run, OwnRow))
  {
    hide FileName, FilesOf;
    var run := RunOf(sites, OddOneOut(|sites|, i));
    var own := OwnRow(run[i]);
    assert Map(run, OwnRow)[i] == own && own in Map(run, OwnRow) && run[j].1.Success?;
    forall k | 0 <= k < |run| ensures TableOf(run)[k] != own {
      var m := LastWriter(run, k);
      assert TableOf(run)[k] == AggregateOf(RowOf(run[k].0, run[k].1), FilesOf(run));
    }
    assert own !in TableOf(run);
    assert multiset(TableOf(run))[own] == 0 && multiset(Map(run, OwnRow))[own] > 0;
  }

  /** The table is right for all outcomes exactly when the sites' file names are distinct. */
  lemma {:induction false} OwnRowsExactly(sites: seq<Site>)
    ensures AlwaysOwnRows(sites) <==> SitesApart(sites)
  {
    hide FileName, TableOf, OwnRow, OddOneOut;
    if SitesApart(sites) {
      forall outcomes: seq<Outcome> | |outcomes| == |sites|
        ensures multiset(TableOf(RunOf(sites, outcomes))) == multiset(Map(RunOf(sites, outcomes), OwnRow))
      {
        OwnTable(RunOf(sites, outcomes));
      }
    } else {
      var i, j :| 0 <= i < j < |sites| && FileName(sites[i]) == FileName(sites[j]);
      ResultVanishes(sites, i, j);
      assert |OddOneOut(|sites|, i)| == |sites|;
    }
  }

  lemma OwnTable(run: Run)
    requires DistinctFiles(run)
    ensures multiset(TableOf(run)) == multiset(Map(run, OwnRow))
  {
    TableIsOwnRows(run, ManifestOf(run));
  }

  function WithoutGrade(): ((Site, Outcome)) -> bool {
    (p: (Site, Outcome)) => p.1.Failed? || p.1.result.gradeReliable.None?
  }

  lemma {:induction false} OwnBlank(run: Run)
    ensures |Filter(Map(run, OwnRow), WithGrade(None))| == |Filter(run, WithoutGrade())|
  {
    if run != [] {
      var n := |run| - 1;
      OwnBlank(run[..n]);
      MapSnoc(run[..n], run[n], OwnRow);
      assert run == run[..n] + [run[n]];
      FilterSnoc(Map(run[..n], OwnRow), OwnRow(run[n]), WithGrade(None));
    }
  }

  /**
    attempted = succeeded + failed = manifest rows = table rows = reliable + unreliable + failed
    entirely, for any sites; with distinct file names the last are the sites without a grade.
   */
  method BatchAddsUp(run: Run, manifest: seq<ManifestRow>) returns (succeeded: nat, failed: nat, c: Coverage)
    requires multiset(manifest) == multiset(ManifestOf(run))
    ensures succeeded + failed == |run| == |manifest| == c.total == c.reliable + c.unreliable + c.failedEntirely
    ensures succeeded == CountSuccess(run)
    ensures DistinctFiles(run) ==> c.failedEntirely == |Filter(run, WithoutGrade())|
  {
    hide DistinctFiles, AggregateOf, RowOf, FilesOf, CountSuccess;
    var rows, files, s, f := WriteManifest(run);
    succeeded, failed := s, f;
    var table := Aggregate(manifest, files);
    c := CoverageBreakdown(table);
    GradesPartition(table);
    if DistinctFiles(run) {
      TableIsOwnRows(run, manifest);
      FilterOfPermutation(table, Map(run, OwnRow), WithGrade(None));
      OwnBlank(run);
    }
    assert |multiset(manifest)| == |multiset(ManifestOf(run))|;
  }
}
