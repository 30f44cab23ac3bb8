/**
  The per-user scan quota: a request counts the user's recent jobs, is admitted below the limit,
  stamps its job and writes the record.  Requests of one user may overlap, time may pass between
  any two steps, and a write may take effect and still raise.
 */
module Quota {
  import opened KeyedFold

  const MAX_SCANS := 10
  const WINDOW_SECONDS := 3600
  const WRITE_ATTEMPTS := 3

  datatype Effect = Works | Fails | WorksButRaises | Escapes(stored: bool)

  predicate TakesEffect(e: Effect) { e.Works? || e.WorksButRaises? || (e.Escapes? && e.stored) }

  datatype Phase =
    | Begun(windowStart: int)                       // `now - WINDOW_SECONDS` was computed
    | Admitted(windowStart: int)                    // the count was below the limit
    | Stamped(windowStart: int, at: int, attempt: nat)
    | Refused
    | Accepted                                      // the write returned
    | Rejected                                      // the write raised

  datatype Request = Request(user: string, phase: Phase)
  datatype Record = Record(user: string, at: int)

  /** A request makes one job, so the job's id is the request's number. */
  datatype State = State(now: int, records: map<nat, Record>, requests: map<nat, Request>)

  datatype Action = Begin(r: nat, user: string) | Count(r: nat) | Stamp(r: nat)
    | Attempt(r: nat, e: Effect) | Tick(d: nat)

  function Init(now: int): State { State(now, map[], map[]) }

  /** `count_recent_scans_for_user` counts these. */
  function Recent(records: map<nat, Record>, user: string, windowStart: int): set<nat> {
    set r | r in records && records[r].user == user && records[r].at >= windowStart
  }

  predicate Enabled(s: State, a: Action) {
    match a
    case Begin(r, _) => r !in s.requests
    case Count(r) => r in s.requests && s.requests[r].phase.Begun?
    case Stamp(r) => r in s.requests && s.requests[r].phase.Admitted?
    case Attempt(r, _) => r in s.requests && s.requests[r].phase.Stamped?
    case Tick(_) => true
  }

  function SetPhase(s: State, r: nat, phase: Phase): State
    requires r in s.requests
  {
    s.(requests := s.requests[r := s.requests[r].(phase := phase)])
  }

  /** `create_item` fails when the id exists; an exception other than a Cosmos error is not retried. */
  function AfterAttempt(records: map<nat, Record>, r: nat, p: Phase, e: Effect): Phase
    requires p.Stamped?
  {
    if e.Works? && r !in records then Accepted
    else if e.Escapes? || p.attempt >= WRITE_ATTEMPTS then Rejected
    else p.(attempt := p.attempt + 1)
  }

  function Apply(s: State, a: Action): State
    requires Enabled(s, a)
  {
    match a
    case Begin(r, user) => s.(requests := s.requests[r := Request(user, Begun(s.now - WINDOW_SECONDS))])
    case Count(r) =>
      var request := s.requests[r];
      SetPhase(s, r,
        if |Recent(s.records, request.user, request.phase.windowStart)| < MAX_SCANS
          then Admitted(request.phase.windowStart)
        else Refused)
    case Stamp(r) => SetPhase(s, r, Stamped(s.requests[r].phase.windowStart, s.now, 1))
    case Attempt(r, e) =>
      var p := s.requests[r].phase;
      SetPhase(s, r, AfterAttempt(s.records, r, p, e)).(
        records := if TakesEffect(e) && r !in s.records then s.records[r := Record(s.requests[r].user, p.at)]
          else s.records)
    case Tick(d) => s.(now := s.now + d)
  }

  predicate Flying(p: Phase) { p.Admitted? || p.Stamped? }

  /** The user's requests between their admission and their answer. */
  function InFlight(s: State, user: string): set<nat> {
    set r | r in s.requests && s.requests[r].user == user && Flying(s.requests[r].phase)
  }

  /** A run along which the user never has more than `p` requests in flight. */
  predicate RunWithin(s: State, run: seq<Action>, user: string, p: nat)
    decreases |run|
  {
    |InFlight(s, user)| <= p && (run == [] || (Enabled(s, run[0]) && RunWithin(Apply(s, run[0]), run[1..], user, p)))
  }

  function Exec(s: State, run: seq<Action>, user: string, p: nat): State
    requires RunWithin(s, run, user, p)
    decreases |run|
  {
    if run == [] then s else Exec(Apply(s, run[0]), run[1..], user, p)
  }

  // ---------------------------------------------------------------- the invariant

  /** The recorded jobs of the user in the closed window of an hour from `a`. */
  function Recorded(records: map<nat, Record>, user: string, a: int): set<nat> {
    set r | r in records && records[r].user == user && a <= records[r].at <= a + WINDOW_SECONDS
  }

  predicate Claims(s: State, r: nat, user: string, a: int) {
    if r in s.records then s.records[r].user == user && a <= s.records[r].at <= a + WINDOW_SECONDS
    else
      && r in s.requests && s.requests[r].user == user
      && Flying(s.requests[r].phase) && s.requests[r].phase.windowStart <= a
      && (s.requests[r].phase.Stamped? ==> a <= s.requests[r].phase.at <= a + WINDOW_SECONDS)
  }

  /** The jobs recorded in the window and the requests in flight that may still be recorded in it. */
  function Claimants(s: State, user: string, a: int): set<nat> {
    set r | r in s.records.Keys + s.requests.Keys && Claims(s, r, user, a)
  }

  /** Stamps are not earlier than the moment the window was computed, and a record shows its request's stamp. */
  predicate TimesOk(s: State, r: nat) {
    && (r in s.records ==> r in s.requests && s.records[r].user == s.requests[r].user)
    && (r in s.requests ==>
          match s.requests[r].phase
          case Begun(ws) => ws + WINDOW_SECONDS <= s.now && r !in s.records
          case Admitted(ws) => ws + WINDOW_SECONDS <= s.now && r !in s.records
          case Stamped(ws, at, _) => ws + WINDOW_SECONDS <= at <= s.now && (r in s.records ==> s.records[r].at == at)
          case _ => true)
  }

  ghost predicate Inv(s: State) { forall r :: TimesOk(s, r) }

  lemma InvStep(s: State, a: Action)
    requires Inv(s) && Enabled(s, a)
    ensures Inv(Apply(s, a))
  {
    hide Recent;
    var t := Apply(s, a);
    forall r ensures TimesOk(t, r) {
      assert TimesOk(s, r);
    }
  }

  /** Only an admission adds a claimant. */
  lemma ClaimantsShrink(s: State, a: Action, user: string, start: int)
    requires Inv(s) && Enabled(s, a)
    requires a.Count? ==>
      Apply(s, a).requests[a.r].phase.Refused? || Apply(s, a).requests[a.r].phase.windowStart > start
    ensures Claimants(Apply(s, a), user, start) <= Claimants(s, user, start)
  {
    hide Recent;
    var t := Apply(s, a);
    forall r | r in Claimants(t, user, start) ensures r in Claimants(s, user, start) {
      assert TimesOk(s, r);
    }
  }

  /** After an admission the claimants are jobs that the admission counted or requests in flight. */
  lemma AdmissionCounts(s: State, r: nat, user: string, start: int)
    requires Inv(s) && Enabled(s, Count(r)) && s.requests[r].user == user
    requires s.requests[r].phase.windowStart <= start
    requires Apply(s, Count(r)).requests[r].phase.Admitted?
    ensures |Claimants(Apply(s, Count(r)), user, start)| <= MAX_SCANS - 1 + |InFlight(Apply(s, Count(r)), user)|
  {
    var t := Apply(s, Count(r));
    var counted := Recent(s.records, user, s.requests[r].phase.windowStart);
    SubsetSize(Claimants(t, user, start), counted + InFlight(t, user));
  }

  lemma ClaimStep(s: State, a: Action, user: string, start: int, p: nat)
    requires Inv(s) && Enabled(s, a) && |Claimants(s, user, start)| <= MAX_SCANS - 1 + p
    requires |InFlight(Apply(s, a), user)| <= p
    ensures |Claimants(Apply(s, a), user, start)| <= MAX_SCANS - 1 + p
  {
    hide Recent, InFlight, Claimants;
    if a.Count? && s.requests[a.r].user == user && Apply(s, a).requests[a.r].phase.Admitted? &&
      s.requests[a.r].phase.windowStart <= start {
      AdmissionCounts(s, a.r, user, start);
    } else if a.Count? && s.requests[a.r].user != user {
      OtherUser(s, a.r, user, start);
    } else {
      ClaimantsShrink(s, a, user, start);
      SubsetSize(Claimants(Apply(s, a), user, start), Claimants(s, user, start));
    }
  }

  lemma OtherUser(s: State, r: nat, user: string, start: int)
    requires Inv(s) && Enabled(s, Count(r)) && s.requests[r].user != user
    ensures Claimants(Apply(s, Count(r)), user, start) == Claimants(s, user, start)
  {
    hide Recent;
    assert TimesOk(s, r);
  }

  lemma {:induction false} ClaimRun(s: State, run: seq<Action>, user: string, p: nat, start: int)
    requires Inv(s) && RunWithin(s, run, user, p) && |Claimants(s, user, start)| <= MAX_SCANS - 1 + p
    ensures |Recorded(Exec(s, run, user, p).records, user, start)| <= MAX_SCANS - 1 + p
    decreases |run|
  {
    hide Apply, Enabled, InFlight, Inv;
    if run == [] {
      SubsetSize(Recorded(s.records, user, start), Claimants(s, user, start));
    } else {
      InvStep(s, run[0]);
      WithinNow(Apply(s, run[0]), run[1..], user, p);
      ClaimStep(s, run[0], user, start, p);
      ClaimRun(Apply(s, run[0]), run[1..], user, p, start);
    }
  }

  lemma WithinNow(s: State, run: seq<Action>, user: string, p: nat)
    requires RunWithin(s, run, user, p)
    ensures |InFlight(s, user)| <= p
  {}

  /**
    With at most `p` requests of a user in flight at a time, every closed hour holds at most nine
    plus `p` of the user's recorded jobs, whatever the timing of the steps.
   */
  lemma {:induction false} WindowBound(now: int, run: seq<Action>, user: string, p: nat, start: int)
    requires RunWithin(Init(now), run, user, p)
    ensures var records := Exec(Init(now), run, user, p).records;
      && |Recorded(records, user, start)| <= 9 + p
      && forall r :: r in Recorded(records, user, start) <==>
           r in records && records[r].user == user && start <= records[r].at <= start + 3600
  {
    assert Claimants(Init(now), user, start) == {};
    ClaimRun(Init(now), run, user, p, start);
  }

  /** A user whose requests follow one another never has more than ten recorded jobs in an hour. */
  lemma {:induction false} SequentialRequestsKeepTheLimit(now: int, run: seq<Action>, user: string, start: int)
    requires RunWithin(Init(now), run, user, 1)
    ensures |Recorded(Exec(Init(now), run, user, 1).records, user, start)| <= 10
  {
    WindowBound(now, run, user, 1, start);
  }

  // ---------------------------------------------------------------- the bound is reached

  lemma {:induction false} RunAppend(s: State, run: seq<Action>, more: seq<Action>, user: string, p: nat)
    requires RunWithin(s, run, user, p) && RunWithin(Exec(s, run, user, p), more, user, p)
    ensures RunWithin(s, run + more, user, p) &&
      Exec(s, run + more, user, p) == Exec(Exec(s, run, user, p), more, user, p)
    decreases |run|
  {
    hide Apply, Enabled, InFlight;
    if run == [] {
      assert run + more == more;
    } else {
      RunAppend(Apply(s, run[0]), run[1..], more, user, p);
      assert (run + more)[0] == run[0] && (run + more)[1..] == run[1..] + more;
    }
  }

  lemma TwoSteps(s: State, a: Action, b: Action, user: string, p: nat)
    requires |InFlight(s, user)| <= p && Enabled(s, a) && |InFlight(Apply(s, a), user)| <= p
    requires Enabled(Apply(s, a), b) && |InFlight(Apply(Apply(s, a), b), user)| <= p
    ensures RunWithin(s, [a, b], user, p) && Exec(s, [a, b], user, p) == Apply(Apply(s, a), b)
  {
    hide Apply, Enabled, InFlight;
    assert [a, b][1..] == [b] && [b][1..] == [];
    assert RunWithin(Apply(Apply(s, a), b), [], user, p);
    assert RunWithin(Apply(s, a), [b], user, p) && Exec(Apply(s, a), [b], user, p) == Apply(Apply(s, a), b);
  }

  function Between(lo: nat, hi: nat): (r: set<nat>)
    ensures forall x :: x in r <==> lo <= x < hi
    ensures |r| == if lo <= hi then hi - lo else 0
  {
    if lo < hi then Between(lo, hi - 1) + {hi - 1} else {}
  }

  /** At time 0: the first `d` requests are recorded and answered, the next ones up to `n` are admitted. */
  function Filled(d: nat, n: nat, user: string): State
    requires d <= n
  {
    State(0, map r | r in Between(0, d) :: Record(user, 0),
          map r | r in Between(0, n) :: Request(user, if r < d then Accepted else Admitted(-WINDOW_SECONDS)))
  }

  lemma FilledFacts(d: nat, n: nat, user: string)
    requires d <= n
    ensures |InFlight(Filled(d, n, user), user)| == n - d
    ensures |Recent(Filled(d, n, user).records, user, -WINDOW_SECONDS)| == d
    ensures |Recorded(Filled(d, n, user).records, user, 0)| == d
  {
    hide Filled, InFlight, Recent, Recorded, Between;
    FilledFlight(d, n, user);
    FilledRecent(d, n, user);
    FilledRecorded(d, n, user);
  }

  lemma FilledFlight(d: nat, n: nat, user: string)
    requires d <= n
    ensures InFlight(Filled(d, n, user), user) == Between(d, n)
  {
    hide Between;
    var s := Filled(d, n, user);
    forall r ensures r in InFlight(s, user) <==> r in Between(d, n) {}
  }

  lemma FilledRecent(d: nat, n: nat, user: string)
    requires d <= n
    ensures Recent(Filled(d, n, user).records, user, -WINDOW_SECONDS) == Between(0, d)
  {
    hide Between;
    var records := Filled(d, n, user).records;
    forall r ensures r in Recent(records, user, -WINDOW_SECONDS) <==> r in Between(0, d) {}
  }

  lemma FilledRecorded(d: nat, n: nat, user: string)
    requires d <= n
    ensures Recorded(Filled(d, n, user).records, user, 0) == Between(0, d)
  {
    hide Between;
    var records := Filled(d, n, user).records;
    forall r ensures r in Recorded(records, user, 0) <==> r in Between(0, d) {}
  }

  lemma FilledAdmits(d: nat, n: nat, user: string)
    requires d <= n
    ensures var s := Filled(d, n, user);
      && n !in s.requests && s.now == 0
      && Filled(d, n + 1, user) == s.(requests := s.requests[n := Request(user, Admitted(-WINDOW_SECONDS))])
  {
    hide Between;
  }

  lemma FilledRecords(d: nat, n: nat, user: string)
    requires d < n
    ensures var s := Filled(d, n, user);
      && d in s.requests && d !in s.records && s.now == 0 && s.requests[d] == Request(user, Admitted(-WINDOW_SECONDS))
      && Filled(d + 1, n, user) == State(0, s.records[d := Record(user, 0)], s.requests[d := Request(user, Accepted)])
  {
    hide Between;
  }

  /** One more request is admitted: its count sees the `d` recorded jobs, not the requests in flight. */
  lemma AdmitOne(d: nat, n: nat, user: string, p: nat)
    requires d <= n && d < MAX_SCANS && n + 1 - d <= p
    ensures var run := [Begin(n, user), Count(n)];
      RunWithin(Filled(d, n, user), run, user, p) && Exec(Filled(d, n, user), run, user, p) == Filled(d, n + 1, user)
  {
    hide InFlight, Recent, Recorded, Filled;
    var s := Filled(d, n, user);
    FilledFacts(d, n, user);
    FilledFacts(d, n + 1, user);
    FilledAdmits(d, n, user);
    var s1 := Apply(s, Begin(n, user));
    BegunIsNotFlying(s, n, user);
    assert Apply(s1, Count(n)) == Filled(d, n + 1, user);
    TwoSteps(s, Begin(n, user), Count(n), user, p);
  }

  lemma BegunIsNotFlying(s: State, n: nat, user: string)
    requires n !in s.requests
    ensures InFlight(Apply(s, Begin(n, user)), user) == InFlight(s, user)
  {}

  /** The oldest admitted request is recorded. */
  lemma RecordOne(d: nat, n: nat, user: string, p: nat)
    requires d < n && n - d <= p
    ensures var run := [Stamp(d), Attempt(d, Works)];
      RunWithin(Filled(d, n, user), run, user, p) && Exec(Filled(d, n, user), run, user, p) == Filled(d + 1, n, user)
  {
    hide InFlight, Recent, Recorded, Filled;
    var s := Filled(d, n, user);
    FilledFacts(d, n, user);
    FilledFacts(d + 1, n, user);
    FilledRecords(d, n, user);
    var s1 := Apply(s, Stamp(d));
    StampedIsFlying(s, d, user);
    assert Apply(s1, Attempt(d, Works)) == Filled(d + 1, n, user);
    TwoSteps(s, Stamp(d), Attempt(d, Works), user, p);
  }

  lemma StampedIsFlying(s: State, d: nat, user: string)
    requires Enabled(s, Stamp(d))
    ensures InFlight(Apply(s, Stamp(d)), user) == InFlight(s, user)
  {}

  /** From one filled state to another with as many recorded jobs or more, by runs within `p`. */
  lemma {:induction false} FillRun(d: nat, n: nat, user: string, p: nat) returns (run: seq<Action>)
    requires d <= n <= MAX_SCANS - 1 + p && d <= MAX_SCANS - 1 + p && p > 0
    requires d > MAX_SCANS - 1 ==> n == MAX_SCANS - 1 + p
    requires d < MAX_SCANS - 1 ==> n == d
    ensures RunWithin(Init(0), run, user, p) && Exec(Init(0), run, user, p) == Filled(d, n, user)
    decreases d, n
  {
    hide InFlight, Recent, Recorded, Apply, Enabled, RunWithin, Exec, Filled;
    if n == 0 {
      run := [];
      FillNothing(user, p);
    } else if d == MAX_SCANS - 1 && n > d {
      var before := FillRun(d, n - 1, user, p);
      AdmitOne(d, n - 1, user, p);
      RunAppend(Init(0), before, [Begin(n - 1, user), Count(n - 1)], user, p);
      run := before + [Begin(n - 1, user), Count(n - 1)];
    } else if d < MAX_SCANS {
      var before := FillRun(d - 1, d - 1, user, p);
      AdmitOne(d - 1, d - 1, user, p);
      RunAppend(Init(0), before, [Begin(d - 1, user), Count(d - 1)], user, p);
      var admitted := before + [Begin(d - 1, user), Count(d - 1)];
      RecordOne(d - 1, d, user, p);
      RunAppend(Init(0), admitted, [Stamp(d - 1), Attempt(d - 1, Works)], user, p);
      run := admitted + [Stamp(d - 1), Attempt(d - 1, Works)];
    } else {
      var before := FillRun(d - 1, n, user, p);
      RecordOne(d - 1, n, user, p);
      RunAppend(Init(0), before, [Stamp(d - 1), Attempt(d - 1, Works)], user, p);
      run := before + [Stamp(d - 1), Attempt(d - 1, Works)];
    }
  }

  lemma FillNothing(user: string, p: nat)
    ensures RunWithin(Init(0), [], user, p) && Exec(Init(0), [], user, p) == Filled(0, 0, user)
  {
    assert InFlight(Init(0), user) == {};
  }

  /** The bound is reached: for every `p` some run within `p` records nine plus `p` jobs in one second. */
  lemma {:induction false} BoundIsReached(user: string, p: nat) returns (run: seq<Action>)
    requires p > 0
    ensures RunWithin(Init(0), run, user, p)
    ensures |Recorded(Exec(Init(0), run, user, p).records, user, 0)| == 9 + p
  {
    var n := MAX_SCANS - 1 + p;
    run := FillRun(n, n, user, p);
    FilledFacts(n, n, user);
  }

  // ---------------------------------------------------------------- the code of one request

  datatype Decision = Decision(allowed: bool, countInWindow: nat, limit: nat)

  /** What the attempts from `k` on come to: whether the record is stored and whether the call returned. */
  function WriteFrom(k: nat, stored: bool, effects: nat -> Effect): (bool, bool)
    decreases WRITE_ATTEMPTS + 1 - k
  {
    if k > WRITE_ATTEMPTS then (stored, false)
    else if stored then if effects(k).Escapes? then (true, false) else WriteFrom(k + 1, true, effects)
    else
      match effects(k)
      case Works => (true, true)
      case Fails => WriteFrom(k + 1, false, effects)
      case WorksButRaises => WriteFrom(k + 1, true, effects)
      case Escapes(b) => (b, false)
  }

  lemma {:induction false} StoredNeverReturns(k: nat, effects: nat -> Effect)
    ensures WriteFrom(k, true, effects) == (true, false)
    decreases WRITE_ATTEMPTS + 1 - k
  {
    if k <= WRITE_ATTEMPTS && !effects(k).Escapes? { StoredNeverReturns(k + 1, effects); }
  }

  /** The `k`-th attempt is the first that did not plainly fail. */
  predicate FirstEffect(effects: nat -> Effect, from: nat, k: nat) {
    from <= k <= 3 && !effects(k).Fails? && forall j: nat :: from <= j < k ==> effects(j).Fails?
  }

  /**
    The first attempt that does not plainly fail decides: the record exists exactly when that
    attempt took effect, and the call returns exactly when that attempt returned.  With none the
    call raises and leaves nothing.
   */
  lemma {:induction false} FirstEffectDecides(from: nat, effects: nat -> Effect)
    ensures forall k: nat :: FirstEffect(effects, from, k) ==>
      WriteFrom(from, false, effects) == (TakesEffect(effects(k)), effects(k).Works?)
    ensures (forall k: nat :: from <= k <= 3 ==> effects(k).Fails?) ==>
      WriteFrom(from, false, effects) == (false, false)
    decreases WRITE_ATTEMPTS + 1 - from
  {
    if from <= WRITE_ATTEMPTS {
      FirstEffectDecides(from + 1, effects);
      StoredNeverReturns(from + 1, effects);
      forall k: nat | FirstEffect(effects, from, k)
        ensures WriteFrom(from, false, effects) == (TakesEffect(effects(k)), effects(k).Works?)
      {
        if k > from {
          assert effects(from).Fails? && FirstEffect(effects, from + 1, k);
        }
      }
    }
  }

  // ---------------------------------------------------------------- one request is a run of the machine

  /** The steps of the write attempts from `k` on. */
  function AttemptSteps(r: nat, k: nat, stored: bool, effects: nat -> Effect): seq<Action>
    decreases WRITE_ATTEMPTS + 1 - k
  {
    if k > WRITE_ATTEMPTS then []
    else
      [Attempt(r, effects(k))] +
      if effects(k).Escapes? || (effects(k).Works? && !stored) then []
      else AttemptSteps(r, k + 1, stored || TakesEffect(effects(k)), effects)
  }

  lemma AttemptStep(s: State, r: nat, e: Effect, user: string)
    requires Enabled(s, Attempt(r, e))
    ensures var t := Apply(s, Attempt(r, e));
      && t.requests.Keys == s.requests.Keys && t.requests[r].user == s.requests[r].user
      && InFlight(t, user) <= InFlight(s, user)
  {}

  /** What the attempts leave: the record as it was stamped, and the answer. */
  predicate Written(s: State, t: State, r: nat, written: (bool, bool)) {
    && r in s.requests && s.requests[r].phase.Stamped? && r in t.requests
    && t.records == (if written.0 && r !in s.records
                     then s.records[r := Record(s.requests[r].user, s.requests[r].phase.at)] else s.records)
    && t.requests[r].phase == (if written.1 then Accepted else Rejected)
  }

  /** The write loop is a run of the machine: the same record, the same answer. */
  lemma {:induction false} WriteIsARun(s: State, r: nat, k: nat, effects: nat -> Effect, user: string, p: nat)
    requires r in s.requests && s.requests[r].phase.Stamped? && s.requests[r].phase.attempt == k
    requires 1 <= k <= WRITE_ATTEMPTS && |InFlight(s, user)| <= p
    ensures var run := AttemptSteps(r, k, r in s.records, effects);
      && RunWithin(s, run, user, p)
      && Written(s, Exec(s, run, user, p), r, WriteFrom(k, r in s.records, effects))
    decreases WRITE_ATTEMPTS + 1 - k
  {
    hide InFlight, Apply, Enabled, WriteFrom, Written, AttemptSteps;
    var a, stored := Attempt(r, effects(k)), r in s.records;
    assert Enabled(s, a) by { AttemptEnabled(s, r, effects(k)); }
    var t := Apply(s, a);
    AttemptStep(s, r, effects(k), user);
    SubsetSize(InFlight(t, user), InFlight(s, user));
    OneAttempt(s, r, k, effects);
    if LastAttempt(k, stored, effects(k)) {
      assert RunWithin(t, [], user, p);
      assert [a][1..] == [];
    } else {
      StoredNeverReturns(k + 1, effects);
      WriteIsARun(t, r, k + 1, effects, user, p);
      var rest := AttemptSteps(r, k + 1, r in t.records, effects);
      assert ([a] + rest)[0] == a && ([a] + rest)[1..] == rest;
    }
  }

  lemma AttemptEnabled(s: State, r: nat, e: Effect)
    requires r in s.requests && s.requests[r].phase.Stamped?
    ensures Enabled(s, Attempt(r, e))
  {}

  predicate LastAttempt(k: nat, stored: bool, e: Effect) {
    e.Escapes? || (e.Works? && !stored) || k == WRITE_ATTEMPTS
  }

  /** An attempt ends the loop, or the attempts after it come to what the loop comes to. */
  lemma OneAttempt(s: State, r: nat, k: nat, effects: nat -> Effect)
    requires r in s.requests && s.requests[r].phase.Stamped? && s.requests[r].phase.attempt == k
    requires 1 <= k <= WRITE_ATTEMPTS && Enabled(s, Attempt(r, effects(k)))
    ensures var a, stored := Attempt(r, effects(k)), r in s.records;
      var t := Apply(s, a);
      if LastAttempt(k, stored, effects(k)) then
        AttemptSteps(r, k, stored, effects) == [a] && Written(s, t, r, WriteFrom(k, stored, effects))
      else
        && AttemptSteps(r, k, stored, effects) == [a] + AttemptSteps(r, k + 1, r in t.records, effects)
        && r in t.requests && t.requests[r].phase.Stamped? && t.requests[r].phase.attempt == k + 1
        && WriteFrom(k, stored, effects) == WriteFrom(k + 1, r in t.records, effects)
        && forall u, written ::
             Written(t, u, r, written) && (r in t.records ==> written.0) ==> Written(s, u, r, written)
  {
    if k == WRITE_ATTEMPTS {
      assert AttemptSteps(r, k + 1, r in s.records || TakesEffect(effects(k)), effects) == [];
      assert [Attempt(r, effects(k))] + [] == [Attempt(r, effects(k))];
    }
    assert [Attempt(r, effects(k))] + [] == [Attempt(r, effects(k))];
  }

  /** A request is admitted exactly below ten jobs since an hour ago, and its record shows the time of its stamp. */
  lemma {:induction false} OneRequest(s: State, r: nat, user: string, effects: nat -> Effect, p: nat)
    requires r !in s.requests && r !in s.records && |InFlight(s, user)| < p
    ensures var count := |set i | i in s.records && s.records[i].user == user && s.records[i].at >= s.now - 3600|;
      var asked, stamped := [Begin(r, user), Count(r)], [Stamp(r)] + AttemptSteps(r, 1, false, effects);
      && RunWithin(s, asked, user, p) && r in Exec(s, asked, user, p).requests
      && (count >= 10 ==> Exec(s, asked, user, p).requests[r].phase == Refused)
      && (count < 10 ==>
            && RunWithin(Exec(s, asked, user, p), stamped, user, p)
            && var t := Exec(Exec(s, asked, user, p), stamped, user, p);
              var (stored, returned) := WriteFrom(1, false, effects);
              && t.records == (if stored then s.records[r := Record(user, s.now)] else s.records)
              && r in t.requests && t.requests[r].phase == (if returned then Accepted else Rejected))
  {
    hide InFlight, WriteFrom, AttemptSteps;
    var s1 := Apply(s, Begin(r, user));
    BegunIsNotFlying(s, r, user);
    var s2 := Apply(s1, Count(r));
    CountedFlight(s1, r, user);
    TwoSteps(s, Begin(r, user), Count(r), user, p);
    assert Recent(s1.records, user, s.now - 3600)
      == set i | i in s.records && s.records[i].user == user && s.records[i].at >= s.now - 3600;
    if s2.requests[r].phase.Admitted? {
      var s3, steps := Apply(s2, Stamp(r)), AttemptSteps(r, 1, false, effects);
      StampedIsFlying(s2, r, user);
      WriteIsARun(s3, r, 1, effects, user, p);
      assert ([Stamp(r)] + steps)[0] == Stamp(r) && ([Stamp(r)] + steps)[1..] == steps;
    }
  }

  lemma CountedFlight(s: State, r: nat, user: string)
    requires Enabled(s, Count(r)) && s.requests[r].user == user
    ensures |InFlight(Apply(s, Count(r)), user)| <= |InFlight(s, user)| + 1
  {
    SubsetSize(InFlight(Apply(s, Count(r)), user), InFlight(s, user) + {r});
  }

  /** The user's recent records among the listed ones. */
  function Among(records: map<nat, Record>, user: string, windowStart: int, ids: seq<nat>): set<nat> {
    set r | r in ids && r in Recent(records, user, windowStart)
  }

  lemma NoneAmong(records: map<nat, Record>, user: string, windowStart: int)
    ensures Among(records, user, windowStart, []) == {}
  {}

  lemma OneMoreAmong(records: map<nat, Record>, user: string, windowStart: int, ids: seq<nat>, id: nat)
    requires id in records && id !in ids
    ensures |Among(records, user, windowStart, ids + [id])| == |Among(records, user, windowStart, ids)| +
      if records[id].user == user && records[id].at >= windowStart then 1 else 0
  {
    var before, after := Among(records, user, windowStart, ids), Among(records, user, windowStart, ids + [id]);
    if records[id].user == user && records[id].at >= windowStart {
      assert after == before + {id};
    } else {
      assert after == before;
    }
  }

  lemma AllAmong(records: map<nat, Record>, user: string, windowStart: int, ids: seq<nat>)
    requires forall r :: r in ids <==> r in records
    ensures Among(records, user, windowStart, ids) == Recent(records, user, windowStart)
  {}

  /** The "scans" container as the gateway sees it. */
  class JobContainer {
    var records: map<nat, Record>

    constructor ()
      ensures records == map[]
    {
      records := map[];
    }

    /** `count_recent_scans_for_user` over a listing of the container's ids. */
    method CountRecentScans(user: string, windowStart: int, ids: seq<nat>) returns (count: nat)
      requires forall i, j :: 0 <= i < j < |ids| ==> ids[i] != ids[j]
      requires forall r :: r in ids <==> r in records
      ensures count == |Recent(records, user, windowStart)|
    {
      hide Among;
      count := 0;
      NoneAmong(records, user, windowStart);
      for i := 0 to |ids|
        invariant count == |Among(records, user, windowStart, ids[..i])|
      {
        var id := ids[i];
        assert ids[..i + 1] == ids[..i] + [id] && id in ids && id !in ids[..i];
        OneMoreAmong(records, user, windowStart, ids[..i], id);
        if records[id].user == user && records[id].at >= windowStart { count := count + 1; }
      }
      assert ids[..|ids|] == ids;
      AllAmong(records, user, windowStart, ids);
    }

    method CheckQuota(user: string, now: int, ids: seq<nat>) returns (d: Decision)
      requires forall i, j :: 0 <= i < j < |ids| ==> ids[i] != ids[j]
      requires forall r :: r in ids <==> r in records
      ensures d.allowed <==> |Recent(records, user, now - WINDOW_SECONDS)| < MAX_SCANS
      ensures d.countInWindow == |Recent(records, user, now - WINDOW_SECONDS)| && d.limit == MAX_SCANS
    {
      var count := CountRecentScans(user, now - WINDOW_SECONDS, ids);
      d := Decision(count < MAX_SCANS, count, MAX_SCANS);
    }

    /** `write_scan_job`: false stands for an exception. */
    method WriteScanJob(id: nat, record: Record, effects: nat -> Effect) returns (returned: bool)
      requires id !in records
      modifies this
      ensures records == (if WriteFrom(1, false, effects).0 then old(records)[id := record] else old(records))
      ensures returned == WriteFrom(1, false, effects).1
      ensures returned ==> id in records
    {
      var attempt: nat := 1;
      while attempt <= WRITE_ATTEMPTS
        invariant WriteFrom(1, false, effects) == WriteFrom(attempt, id in records, effects)
        invariant records == if id in records then old(records)[id := record] else old(records)
      {
        var e, exists_ := effects(attempt), id in records;
        if TakesEffect(e) && !exists_ { records := records[id := record]; }
        if e.Escapes? { return false; }
        if e.Works? && !exists_ { return true; }
        attempt := attempt + 1;
      }
      return false;
    }
  }
}
