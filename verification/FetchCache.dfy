/**
  The event-gated JavaScript cache of the scanner context.

  Calls of `fetch_js` interleave only where the coroutine awaits, so one call is a program
  counter that moves from await to await, and one step of the machine is the code between two
  awaits of one call.  A call creates at most one `asyncio.Event`; the index of the call that
  created it names the event.
 */
module FetchCache {
  import opened Strings

  type Url = string
  type Body = string

  datatype Pc =
    | NotStarted
    | Waiting(event: nat)          // suspended in event.wait()
    | Fetching                     // suspended in session.get(...)
    | Reading                      // status 200 seen, suspended in resp.text()
    | Closing(body: Body)          // body cached, suspended while `async with` closes the response
    | Hit(body: Body)              // returned the cached body
    | Fetched(body: Body)          // returned the body it fetched
    | CloseFailed(body: Body)      // returned "" because closing raised, after the body was cached
    | Failed                       // returned "" with nothing cached
    | CancelledEarly               // cancelled before it created an event
    | CancelledFetch               // cancelled with nothing cached
    | CancelledClosing(body: Body) // cancelled after the body was cached

  datatype Call = Call(url: Url, pc: Pc) {
    /** The call owns an event that it has yet to set. */
    predicate Live() { pc.Fetching? || pc.Reading? || pc.Closing? }

    /** The call has sent a request of its own. */
    predicate Issued() {
      Live() || pc.Fetched? || pc.CloseFailed? || pc.Failed? || pc.CancelledFetch? || pc.CancelledClosing?
    }

    /** The call's own request ended and left nothing in the cache. */
    predicate Broke() { pc.Failed? || pc.CancelledFetch? }

    /** A 200 for the call's url delivered `body` to it. */
    predicate Delivered(body: Body) {
      (pc.Closing? || pc.Fetched? || pc.CloseFailed? || pc.CancelledClosing?) && pc.body == body
    }

    predicate Done() { !pc.NotStarted? && !pc.Waiting? && !Live() }

    /** What the caller gets, for a call that returned. */
    function Result(): (r: Body)
      requires Done()
    {
      if pc.Hit? || pc.Fetched? then pc.body else ""
    }

    /** An upper bound on the steps the call can still take. */
    function StepsLeft(): nat {
      if pc.NotStarted? then 5
      else if pc.Waiting? then 4
      else if pc.Fetching? then 3
      else if pc.Reading? then 2
      else if pc.Closing? then 1
      else 0
    }
  }

  /** `js_cache`, `_js_fetch_events`, the events already set, the two metrics, and every call. */
  datatype State = State(
    calls: seq<Call>, cache: map<Url, Body>, events: map<Url, nat>, fired: set<nat>, hits: nat, requests: nat)

  datatype Action =
    | Start(i: nat)
    | Wake(i: nat)
    | Respond200(i: nat)
    | Deliver(i: nat, body: Body)
    | Close(i: nat)
    | Fail(i: nat)      // a non-200 status, or an exception that fetch_js catches
    | Cancel(i: nat)    // CancelledError, which fetch_js does not catch

  function Init(urls: seq<Url>): State {
    State(seq(|urls|, i requires 0 <= i < |urls| => Call(urls[i], NotStarted)), map[], map[], {}, 0, 0)
  }

  predicate Enabled(s: State, a: Action) {
    a.i < |s.calls| &&
    var c := s.calls[a.i];
    match a
    case Start(_) => c.pc.NotStarted?
    case Wake(_) => c.pc.Waiting? && c.pc.event in s.fired
    case Respond200(_) => c.pc.Fetching?
    case Deliver(_, _) => c.pc.Reading?
    case Close(_) => c.pc.Closing?
    case Fail(_) => c.Live()
    case Cancel(_) => !c.Done()
  }

  function Goto(s: State, i: nat, pc: Pc): State
    requires i < |s.calls|
  {
    s.(calls := s.calls[i := s.calls[i].(pc := pc)])
  }

  /** The miss path: a new event replaces whatever is registered for the url. */
  function Miss(s: State, i: nat): State
    requires i < |s.calls|
  {
    Goto(s, i, Fetching).(events := s.events[s.calls[i].url := i], requests := s.requests + 1)
  }

  /** The `finally` block: set the own event, drop the url's entry whoever registered it. */
  function Finally(s: State, i: nat, pc: Pc): State
    requires i < |s.calls|
  {
    Goto(s, i, pc).(fired := s.fired + {i}, events := s.events - {s.calls[i].url})
  }

  function Apply(s: State, a: Action): State
    requires Enabled(s, a)
  {
    var c := s.calls[a.i];
    match a
    case Start(i) =>
      if c.url in s.cache then Goto(s, i, Hit(s.cache[c.url])).(hits := s.hits + 1)
      else if c.url in s.events then Goto(s, i, Waiting(s.events[c.url]))
      else Miss(s, i)
    case Wake(i) =>
      if c.url in s.cache then Goto(s, i, Hit(s.cache[c.url])).(hits := s.hits + 1)
      else Miss(s, i)
    case Respond200(i) => Goto(s, i, Reading)
    case Deliver(i, body) => Goto(s, i, Closing(body)).(cache := s.cache[c.url := body])
    case Close(i) => Finally(s, i, Fetched(c.pc.body))
    case Fail(i) => Finally(s, i, if c.pc.Closing? then CloseFailed(c.pc.body) else Failed)
    case Cancel(i) =>
      if !c.Live() then Goto(s, i, CancelledEarly)
      else Finally(s, i, if c.pc.Closing? then CancelledClosing(c.pc.body) else CancelledFetch)
  }

  predicate ValidRun(s: State, run: seq<Action>)
    decreases |run|
  {
    run == [] || (Enabled(s, run[0]) && ValidRun(Apply(s, run[0]), run[1..]))
  }

  function Exec(s: State, run: seq<Action>): State
    requires ValidRun(s, run)
    decreases |run|
  {
    if run == [] then s else Exec(Apply(s, run[0]), run[1..])
  }

  // ---------------------------------------------------------------- counting

  function Count(calls: seq<Call>, p: Call -> bool): nat {
    if calls == [] then 0 else (if p(calls[0]) then 1 else 0) + Count(calls[1..], p)
  }

  lemma {:induction false} CountUpdate(calls: seq<Call>, i: nat, c: Call, p: Call -> bool)
    requires i < |calls|
    ensures Count(calls[i := c], p) + (if p(calls[i]) then 1 else 0) == Count(calls, p) + (if p(c) then 1 else 0)
  {
    if i > 0 {
      CountUpdate(calls[1..], i - 1, c, p);
      assert calls[i := c][1..] == calls[1..][i - 1 := c];
    } else {
      assert calls[i := c][1..] == calls[1..];
    }
  }

  lemma {:induction false} CountZero(calls: seq<Call>, p: Call -> bool)
    ensures Count(calls, p) == 0 <==> forall i :: 0 <= i < |calls| ==> !p(calls[i])
  {
    if calls != [] {
      CountZero(calls[1..], p);
      assert forall i :: 0 < i < |calls| ==> calls[i] == calls[1..][i - 1];
    }
  }

  function IssuedCalls(): Call -> bool { (c: Call) => c.Issued() }
  function HitCalls(): Call -> bool { (c: Call) => c.pc.Hit? }
  function IssuedFor(u: Url): Call -> bool { (c: Call) => c.url == u && c.Issued() }

  /** How many requests for `u` have ever been sent. */
  function Requests(s: State, u: Url): nat { Count(s.calls, IssuedFor(u)) }

  /** A fetch of `u` ended with nothing cached. */
  ghost predicate Broken(s: State, u: Url) {
    exists i :: 0 <= i < |s.calls| && s.calls[i].url == u && s.calls[i].Broke()
  }

  // ---------------------------------------------------------------- invariant

  /** Every waiter waits on an event of its own url that is set or whose owner will set it. */
  ghost predicate NoLostWakeup(s: State) {
    forall i :: 0 <= i < |s.calls| && s.calls[i].pc.Waiting? ==>
      var e := s.calls[i].pc.event;
      e < |s.calls| && s.calls[e].url == s.calls[i].url && (e in s.fired || s.calls[e].Live())
  }

  /** Every registered event is unset and owned by a call still fetching that url. */
  ghost predicate RegisteredLive(s: State) {
    forall u :: u in s.events ==>
      s.events[u] < |s.calls| && s.events[u] !in s.fired && s.calls[s.events[u]].Live() && s.calls[s.events[u]].url == u
  }

  /** Exactly the calls that left their `finally` block have set their event. */
  ghost predicate FiredExactly(s: State) {
    forall e: nat :: e in s.fired <==> e < |s.calls| && s.calls[e].Issued() && !s.calls[e].Live()
  }

  /** Some 200 for `u` delivered `body`. */
  ghost predicate DeliveredFor(s: State, u: Url, body: Body) {
    exists j :: 0 <= j < |s.calls| && s.calls[j].url == u && s.calls[j].Delivered(body)
  }

  /** Cached and returned bodies all come from a 200 for the same url, and a delivered url stays cached. */
  ghost predicate Provenance(s: State) {
    && (forall u :: u in s.cache ==> DeliveredFor(s, u, s.cache[u]))
    && (forall i :: 0 <= i < |s.calls| && s.calls[i].pc.Hit? ==> DeliveredFor(s, s.calls[i].url, s.calls[i].pc.body))
    && (forall u, b :: DeliveredFor(s, u, b) ==> u in s.cache)
  }

  ghost predicate Metrics(s: State) {
    s.hits == Count(s.calls, HitCalls()) && s.requests == Count(s.calls, IssuedCalls())
  }

  /** While no fetch of `u` has failed: one request at most, and its event is the one registered. */
  ghost predicate SingleFlight(s: State, u: Url) {
    !Broken(s, u) ==>
      && Requests(s, u) <= 1
      && (u !in s.cache ==>
            && (Requests(s, u) == 1 ==> u in s.events)
            && (forall i :: 0 <= i < |s.calls| && s.calls[i].url == u && s.calls[i].pc.Waiting? ==>
              s.calls[i].pc.event !in s.fired))
  }

  ghost predicate Inv(s: State) {
    NoLostWakeup(s) && RegisteredLive(s) && FiredExactly(s) && Provenance(s) && Metrics(s)
  }

  /** 1 if the step sends a request for `u`. */
  function NewRequest(s: State, a: Action, u: Url): nat
    requires Enabled(s, a)
  {
    if u == s.calls[a.i].url && Apply(s, a).calls[a.i].Issued() && !s.calls[a.i].Issued() then 1 else 0
  }

  lemma {:induction false} MetricsStep(s: State, a: Action)
    requires Enabled(s, a) && Metrics(s)
    ensures Metrics(Apply(s, a))
  {
    var c := Apply(s, a).calls[a.i];
    assert Apply(s, a).calls == s.calls[a.i := c];
    CountUpdate(s.calls, a.i, c, HitCalls());
    CountUpdate(s.calls, a.i, c, IssuedCalls());
  }

  lemma {:induction false} RequestsStep(s: State, a: Action, u: Url)
    requires Enabled(s, a)
    ensures Requests(Apply(s, a), u) == Requests(s, u) + NewRequest(s, a, u)
  {
    var c := Apply(s, a).calls[a.i];
    assert Apply(s, a).calls == s.calls[a.i := c];
    CountUpdate(s.calls, a.i, c, IssuedFor(u));
  }

  /** A step changes the program counter of one call and nothing else about the calls. */
  lemma Shape(s: State, a: Action)
    requires Enabled(s, a)
    ensures var t := Apply(s, a);
      && |t.calls| == |s.calls| && t.calls[a.i].url == s.calls[a.i].url
      && (forall j :: 0 <= j < |s.calls| && j != a.i ==> t.calls[j] == s.calls[j])
  {}

  lemma {:induction false} WakeupStep(s: State, a: Action)
    requires Enabled(s, a) && NoLostWakeup(s) && RegisteredLive(s)
    ensures NoLostWakeup(Apply(s, a))
  {
    Shape(s, a);
  }

  /** The step starts a fetch, ends one, or leaves the events and the fetches alone. */
  lemma EventsStep(s: State, a: Action)
    requires Enabled(s, a)
    ensures var t, c, d := Apply(s, a), s.calls[a.i], Apply(s, a).calls[a.i];
      || (!c.Issued() && d.Live() && t.events == s.events[c.url := a.i] && t.fired == s.fired)
      || (c.Live() && d.Issued() && !d.Live() && t.events == s.events - {c.url} && t.fired == s.fired + {a.i})
      || (c.Live() == d.Live() && c.Issued() == d.Issued() && t.events == s.events && t.fired == s.fired)
  {}

  lemma {:induction false} RegisteredStep(s: State, a: Action)
    requires Enabled(s, a) && RegisteredLive(s) && FiredExactly(s)
    ensures RegisteredLive(Apply(s, a))
  {
    hide Apply;
    Shape(s, a);
    EventsStep(s, a);
  }

  lemma FiredStep(s: State, a: Action)
    requires Enabled(s, a) && FiredExactly(s)
    ensures FiredExactly(Apply(s, a))
  {
    hide Apply;
    Shape(s, a);
    EventsStep(s, a);
  }

  /** Which bodies the acting call has received after the step. */
  lemma DeliveredAt(s: State, a: Action, b: Body)
    requires Enabled(s, a)
    ensures Apply(s, a).calls[a.i].Delivered(b) <==> s.calls[a.i].Delivered(b) || (a.Deliver? && b == a.body)
  {}

  /** Deliveries are never forgotten, and only a `Deliver` step adds one. */
  lemma DeliveredStep(s: State, a: Action, u: Url, b: Body)
    requires Enabled(s, a)
    ensures DeliveredFor(Apply(s, a), u, b) <==>
      DeliveredFor(s, u, b) || (a.Deliver? && u == s.calls[a.i].url && b == a.body)
  {
    Shape(s, a);
    DeliveredAt(s, a, b);
    DeliveredUpdate(s, Apply(s, a), a.i, u, b);
  }

  lemma DeliveredUpdate(s: State, t: State, i: nat, u: Url, b: Body)
    requires i < |s.calls| == |t.calls| && t.calls[i].url == s.calls[i].url
    requires forall j :: 0 <= j < |s.calls| && j != i ==> t.calls[j] == s.calls[j]
    requires s.calls[i].Delivered(b) ==> t.calls[i].Delivered(b)
    ensures DeliveredFor(t, u, b) <==> DeliveredFor(s, u, b) || (u == s.calls[i].url && t.calls[i].Delivered(b))
  {
    if DeliveredFor(s, u, b) {
      var j :| 0 <= j < |s.calls| && s.calls[j].url == u && s.calls[j].Delivered(b);
      assert t.calls[j].Delivered(b);
    }
    if DeliveredFor(t, u, b) {
      var j :| 0 <= j < |t.calls| && t.calls[j].url == u && t.calls[j].Delivered(b);
      assert j == i || s.calls[j].Delivered(b);
    }
  }

  /** What a step does to the cache, and what a call that became a hit returns. */
  lemma CacheStep(s: State, a: Action)
    requires Enabled(s, a)
    ensures var t, u := Apply(s, a), s.calls[a.i].url;
      && t.cache == (if a.Deliver? then s.cache[u := a.body] else s.cache)
      && (t.calls[a.i].pc.Hit? ==> u in s.cache && t.calls[a.i].pc.body == s.cache[u])
  {}

  lemma ProvenanceStep(s: State, a: Action)
    requires Enabled(s, a) && Provenance(s)
    ensures Provenance(Apply(s, a))
  {
    hide Apply, DeliveredFor;
    Shape(s, a);
    CacheStep(s, a);
    forall u, b
      ensures DeliveredFor(Apply(s, a), u, b) <==>
        DeliveredFor(s, u, b) || (a.Deliver? && u == s.calls[a.i].url && b == a.body)
    {
      DeliveredStep(s, a, u, b);
    }
  }

  /** One step of any call keeps the invariant, whichever call it is and however the fetch ended. */
  lemma InvStep(s: State, a: Action)
    requires Enabled(s, a) && Inv(s)
    ensures Inv(Apply(s, a))
  {
    hide Apply, Enabled, NoLostWakeup, RegisteredLive, FiredExactly, Provenance, Metrics;
    MetricsStep(s, a);
    WakeupStep(s, a);
    RegisteredStep(s, a);
    FiredStep(s, a);
    ProvenanceStep(s, a);
  }

  lemma BrokenStays(s: State, a: Action, u: Url)
    requires Enabled(s, a)
    ensures Broken(s, u) ==> Broken(Apply(s, a), u)
  {
    Shape(s, a);
    if Broken(s, u) {
      var i :| 0 <= i < |s.calls| && s.calls[i].url == u && s.calls[i].Broke();
      assert Apply(s, a).calls[i].Broke();
    }
  }

  /** What a step of a call for another url leaves alone. */
  lemma OtherUrl(s: State, a: Action, u: Url)
    requires Enabled(s, a) && s.calls[a.i].url != u
    ensures var t := Apply(s, a);
      && (u in t.cache <==> u in s.cache) && (u in t.events <==> u in s.events)
      && (forall e :: e in t.fired ==> e in s.fired || e == a.i)
  {}

  /** A step of a call for another url leaves `u` alone. */
  lemma SingleFlightOther(s: State, a: Action, u: Url)
    requires Enabled(s, a) && Inv(s) && SingleFlight(s, u) && s.calls[a.i].url != u
    ensures SingleFlight(Apply(s, a), u)
  {
    hide Apply, Broken, Requests, RegisteredLive, FiredExactly, Provenance, Metrics;
    Shape(s, a);
    OtherUrl(s, a, u);
    RequestsStep(s, a, u);
    BrokenStays(s, a, u);
  }

  /** A waiter woken while nothing is cached for its url shows that a fetch of that url broke. */
  lemma SingleFlightDecides(s: State, a: Action, u: Url)
    requires Enabled(s, a) && Inv(s) && SingleFlight(s, u) && s.calls[a.i].url == u && (a.Start? || a.Wake?)
    ensures SingleFlight(Apply(s, a), u)
  {
    hide Broken, Requests, FiredExactly, Provenance, Metrics;
    Shape(s, a);
    RequestsStep(s, a, u);
    BrokenStays(s, a, u);
  }

  lemma SingleFlightFetches(s: State, a: Action, u: Url)
    requires Enabled(s, a) && Inv(s) && SingleFlight(s, u) && s.calls[a.i].url == u && !a.Start? && !a.Wake?
    ensures SingleFlight(Apply(s, a), u)
  {
    hide Requests, NoLostWakeup, RegisteredLive, FiredExactly, Metrics;
    var t := Apply(s, a);
    Shape(s, a);
    RequestsStep(s, a, u);
    BrokenStays(s, a, u);
    if !Broken(t, u) {
      assert !t.calls[a.i].Broke();
      if a.Close? || a.Fail? || a.Cancel? {
        assert s.calls[a.i].Live() ==> s.calls[a.i].Delivered(s.calls[a.i].pc.body);
        assert s.calls[a.i].Live() ==> DeliveredFor(s, u, s.calls[a.i].pc.body);
      }
    }
  }

  lemma SingleFlightStep(s: State, a: Action, u: Url)
    requires Enabled(s, a) && Inv(s) && SingleFlight(s, u)
    ensures SingleFlight(Apply(s, a), u)
  {
    hide Apply, SingleFlight, Inv;
    if s.calls[a.i].url != u {
      SingleFlightOther(s, a, u);
    } else if a.Start? || a.Wake? {
      SingleFlightDecides(s, a, u);
    } else {
      SingleFlightFetches(s, a, u);
    }
  }

  // ---------------------------------------------------------------- all runs

  lemma {:induction false} InitCounts(urls: seq<Url>, p: Call -> bool)
    requires forall u :: !p(Call(u, NotStarted))
    ensures Count(Init(urls).calls, p) == 0
  {
    CountZero(Init(urls).calls, p);
  }

  lemma {:induction false} RunKeeps(s: State, run: seq<Action>, u: Url)
    requires ValidRun(s, run) && Inv(s) && SingleFlight(s, u)
    ensures Inv(Exec(s, run)) && SingleFlight(Exec(s, run), u) && |Exec(s, run).calls| == |s.calls|
    decreases |run|
  {
    hide Apply, Enabled, Inv, SingleFlight;
    if run != [] {
      Shape(s, run[0]);
      InvStep(s, run[0]);
      SingleFlightStep(s, run[0], u);
      RunKeeps(Apply(s, run[0]), run[1..], u);
    }
  }

  lemma {:induction false} Reachable(urls: seq<Url>, run: seq<Action>, u: Url)
    requires ValidRun(Init(urls), run)
    ensures Inv(Exec(Init(urls), run)) && SingleFlight(Exec(Init(urls), run), u)
  {
    InitCounts(urls, HitCalls());
    InitCounts(urls, IssuedCalls());
    InitCounts(urls, IssuedFor(u));
    RunKeeps(Init(urls), run, u);
  }

  ghost predicate AllDone(s: State) {
    forall i :: 0 <= i < |s.calls| ==> s.calls[i].Done()
  }

  /** As long as some call is unfinished, some call can step without anything going wrong. */
  lemma {:induction false} SomeCallCanStep(urls: seq<Url>, run: seq<Action>) returns (a: Action)
    requires ValidRun(Init(urls), run) && !AllDone(Exec(Init(urls), run))
    ensures Enabled(Exec(Init(urls), run), a) && !a.Fail? && !a.Cancel?
  {
    var s := Exec(Init(urls), run);
    Reachable(urls, run, "");
    var i :| 0 <= i < |s.calls| && !s.calls[i].Done();
    if s.calls[i].pc.NotStarted? { return Start(i); }
    if s.calls[i].pc.Waiting? {
      if s.calls[i].pc.event in s.fired { return Wake(i); }
      i := s.calls[i].pc.event;
    }
    a := if s.calls[i].pc.Fetching? then Respond200(i) else if s.calls[i].pc.Reading? then Deliver(i, "") else Close(i);
  }

  function Work(calls: seq<Call>): nat {
    if calls == [] then 0 else calls[0].StepsLeft() + Work(calls[1..])
  }

  lemma {:induction false} WorkUpdate(calls: seq<Call>, i: nat, c: Call)
    requires i < |calls|
    ensures Work(calls[i := c]) + calls[i].StepsLeft() == Work(calls) + c.StepsLeft()
  {
    if i > 0 {
      WorkUpdate(calls[1..], i - 1, c);
      assert calls[i := c][1..] == calls[1..][i - 1 := c];
    } else {
      assert calls[i := c][1..] == calls[1..];
    }
  }

  lemma {:induction false} WorkStep(s: State, a: Action)
    requires Enabled(s, a)
    ensures Work(Apply(s, a).calls) < Work(s.calls)
  {
    var c := Apply(s, a).calls[a.i];
    assert Apply(s, a).calls == s.calls[a.i := c];
    WorkUpdate(s.calls, a.i, c);
  }

  lemma {:induction false} WorkBound(s: State, run: seq<Action>)
    requires ValidRun(s, run)
    ensures |run| + Work(Exec(s, run).calls) <= Work(s.calls)
    decreases |run|
  {
    hide Apply, Enabled, Work;
    if run != [] {
      WorkStep(s, run[0]);
      WorkBound(Apply(s, run[0]), run[1..]);
    }
  }

  lemma {:induction false} WorkInit(calls: seq<Call>)
    requires forall i :: 0 <= i < |calls| ==> calls[i].pc.NotStarted?
    ensures Work(calls) == 5 * |calls|
  {
    if calls != [] {
      WorkInit(calls[1..]);
    }
  }

  /** No interleaving goes on for more than five steps a call, whatever fails or is cancelled. */
  lemma {:induction false} EveryRunEnds(urls: seq<Url>, run: seq<Action>)
    requires ValidRun(Init(urls), run)
    ensures |run| <= 5 * |urls|
  {
    WorkBound(Init(urls), run);
    WorkInit(Init(urls).calls);
  }

  /** A run that cannot be continued has finished every call and emptied the event table. */
  lemma {:induction false} StuckMeansFinished(urls: seq<Url>, run: seq<Action>)
    requires ValidRun(Init(urls), run) && forall a: Action :: !Enabled(Exec(Init(urls), run), a)
    ensures AllDone(Exec(Init(urls), run)) && Exec(Init(urls), run).events == map[]
  {
    Reachable(urls, run, "");
    if !AllDone(Exec(Init(urls), run)) {
      var a := SomeCallCanStep(urls, run);
    }
  }

  /** A second request for a url is sent only after a fetch of that url ended with nothing cached. */
  lemma {:induction false} SingleFlightUntilFailure(urls: seq<Url>, run: seq<Action>, u: Url)
    requires ValidRun(Init(urls), run)
    ensures Requests(Exec(Init(urls), run), u) >= 2 ==> Broken(Exec(Init(urls), run), u)
  {
    Reachable(urls, run, u);
  }

  /** Every body a caller gets was delivered by a 200 for the caller's own url. */
  lemma {:induction false} ResultsAreGenuine(urls: seq<Url>, run: seq<Action>, i: nat)
    requires ValidRun(Init(urls), run) && i < |Exec(Init(urls), run).calls|
    requires Exec(Init(urls), run).calls[i].Done()
    ensures var s := Exec(Init(urls), run);
      s.calls[i].Result() != "" ==> DeliveredFor(s, s.calls[i].url, s.calls[i].Result())
  {
    var s := Exec(Init(urls), run);
    Reachable(urls, run, "");
    assert s.calls[i].pc.Fetched? ==> s.calls[i].Delivered(s.calls[i].pc.body);
  }

  // ---------------------------------------------------------------- what a call returns, read off the schedule

  /** The body that the latest `Deliver` of a call for `u` brought. */
  function LatestBody(urls: seq<Url>, run: seq<Action>, u: Url): Option<Body> {
    if run == [] then None
    else
      var a := run[|run| - 1];
      if a.Deliver? && a.i < |urls| && urls[a.i] == u then Some(a.body)
      else LatestBody(urls, run[..|run| - 1], u)
  }

  /** The call looked into the cache at the `n`-th step, and `b` was what the url's latest `Deliver` had brought. */
  predicate FoundAt(urls: seq<Url>, run: seq<Action>, i: nat, n: nat, b: Body) {
    && i < |urls| && n < |run| && (run[n] == Start(i) || run[n] == Wake(i))
    && LatestBody(urls, run[..n], urls[i]) == Some(b)
  }

  /** How the schedule has the call end, and with what. */
  ghost predicate History(urls: seq<Url>, run: seq<Action>, i: nat, c: Call) {
    && (forall b :: Deliver(i, b) in run <==>
          (c.pc.Closing? || c.pc.Fetched? || c.pc.CloseFailed? || c.pc.CancelledClosing?) && c.pc.body == b)
    && (Close(i) in run <==> c.pc.Fetched?)
    && (Fail(i) in run <==> c.pc.CloseFailed? || c.pc.Failed?)
    && (Cancel(i) in run <==> c.pc.CancelledEarly? || c.pc.CancelledFetch? || c.pc.CancelledClosing?)
    && (forall n, b :: FoundAt(urls, run, i, n, b) ==> c.pc == Hit(b))
    && (c.pc.Hit? ==> exists n :: FoundAt(urls, run, i, n, c.pc.body))
  }

  lemma LastStep(s: State, run: seq<Action>)
    requires ValidRun(s, run) && run != []
    ensures var front, a := run[..|run| - 1], run[|run| - 1];
      ValidRun(s, front) && Enabled(Exec(s, front), a) && Exec(s, run) == Apply(Exec(s, front), a)
    decreases |run|
  {
    hide Apply, Enabled;
    if |run| == 1 {
      assert run[1..] == [] && run[..0] == [];
    } else {
      LastStep(Apply(s, run[0]), run[1..]);
      assert run[1..][..|run| - 2] == run[..|run| - 1][1..];
    }
  }

  /** The cache holds, for each url, what the latest `Deliver` for it brought. */
  lemma {:induction false} CacheIsLatest(urls: seq<Url>, run: seq<Action>, u: Url)
    requires ValidRun(Init(urls), run)
    ensures var s := Exec(Init(urls), run);
      && |s.calls| == |urls| && (forall i :: 0 <= i < |urls| ==> s.calls[i].url == urls[i])
      && LatestBody(urls, run, u) == if u in s.cache then Some(s.cache[u]) else None
  {
    hide Apply, Enabled;
    if run != [] {
      var front, a := run[..|run| - 1], run[|run| - 1];
      LastStep(Init(urls), run);
      CacheIsLatest(urls, front, u);
      Shape(Exec(Init(urls), front), a);
      CacheStep(Exec(Init(urls), front), a);
      IndexInRange(Exec(Init(urls), front), a);
    }
  }

  lemma IndexInRange(s: State, a: Action)
    requires Enabled(s, a)
    ensures a.i < |s.calls|
  {}

  /** The action a call's history ends with: a step of the call adds just itself to its history. */
  lemma HistoryOfOther(urls: seq<Url>, run: seq<Action>, a: Action, i: nat, c: Call)
    requires History(urls, run, i, c) && a.i != i
    ensures History(urls, run + [a], i, c)
  {
    FoundGrows(urls, run, a, i);
  }

  lemma FoundGrows(urls: seq<Url>, run: seq<Action>, a: Action, i: nat)
    ensures forall n: nat, b :: n < |run| ==> (FoundAt(urls, run + [a], i, n, b) <==> FoundAt(urls, run, i, n, b))
    ensures forall b :: FoundAt(urls, run + [a], i, |run|, b) <==>
      i < |urls| && (a == Start(i) || a == Wake(i)) && LatestBody(urls, run, urls[i]) == Some(b)
  {
    assert forall n :: 0 <= n < |run| ==> (run + [a])[n] == run[n] && (run + [a])[..n] == run[..n];
    assert (run + [a])[..|run|] == run && (run + [a])[|run|] == a;
  }

  lemma HistoryOfOwn(urls: seq<Url>, run: seq<Action>, s: State, a: Action)
    requires Enabled(s, a) && History(urls, run, a.i, s.calls[a.i])
    requires |s.calls| == |urls| && s.calls[a.i].url == urls[a.i]
    requires LatestBody(urls, run, urls[a.i]) == if urls[a.i] in s.cache then Some(s.cache[urls[a.i]]) else None
    ensures History(urls, run + [a], a.i, Apply(s, a).calls[a.i])
  {
    FoundGrows(urls, run, a, a.i);
    var c := Apply(s, a).calls[a.i];
    if c.pc.Hit? { assert FoundAt(urls, run + [a], a.i, |run|, c.pc.body); }
  }

  lemma {:induction false} HistoryHolds(urls: seq<Url>, run: seq<Action>, i: nat)
    requires ValidRun(Init(urls), run) && i < |urls|
    ensures |Exec(Init(urls), run).calls| == |urls| && History(urls, run, i, Exec(Init(urls), run).calls[i])
  {
    hide Apply, Enabled, History;
    CacheIsLatest(urls, run, urls[i]);
    if run == [] {
      EmptyHistory(urls, i);
    } else {
      var front, a := run[..|run| - 1], run[|run| - 1];
      LastStep(Init(urls), run);
      var s := Exec(Init(urls), front);
      assert run == front + [a];
      HistoryHolds(urls, front, i);
      CacheIsLatest(urls, front, urls[i]);
      if a.i == i {
        HistoryOfOwn(urls, front, s, a);
      } else {
        IndexInRange(s, a);
        Shape(s, a);
        HistoryOfOther(urls, front, a, i, s.calls[i]);
      }
    }
  }

  lemma EmptyHistory(urls: seq<Url>, i: nat)
    ensures forall u :: History(urls, [], i, Call(u, NotStarted))
  {}

  /** The schedule has the call return `b`: it fetched `b`, it found `b` in the cache, or its fetch failed. */
  ghost predicate Returns(urls: seq<Url>, run: seq<Action>, i: nat, b: Body) {
    || (Deliver(i, b) in run && Close(i) in run)
    || (exists n :: FoundAt(urls, run, i, n, b))
    || (Fail(i) in run && b == "")
  }

  /** What a call returns is what the schedule says; it is done once the schedule has it return or cancels it. */
  lemma {:induction false} ReturnsExactly(urls: seq<Url>, run: seq<Action>, i: nat)
    requires ValidRun(Init(urls), run) && i < |urls|
    ensures var s := Exec(Init(urls), run);
      && i < |s.calls|
      && (s.calls[i].Done() <==> Cancel(i) in run || exists b :: Returns(urls, run, i, b))
      && (forall b :: Returns(urls, run, i, b) ==> s.calls[i].Result() == b)
  {
    hide FoundAt, Exec, ValidRun;
    HistoryHolds(urls, run, i);
    var c := Exec(Init(urls), run).calls[i];
    if c.pc.Fetched? { assert Deliver(i, c.pc.body) in run && Returns(urls, run, i, c.pc.body); }
    if c.pc.Hit? { assert Returns(urls, run, i, c.pc.body); }
    if c.pc.Failed? || c.pc.CloseFailed? { assert Returns(urls, run, i, ""); }
  }

  lemma {:induction false} CountSplit(calls: seq<Call>, p: Call -> bool, q: Call -> bool, r: Call -> bool)
    requires forall c :: !(p(c) && q(c)) && (r(c) <==> p(c) || q(c))
    ensures Count(calls, p) + Count(calls, q) == Count(calls, r)
  {
    if calls != [] { CountSplit(calls[1..], p, q, r); }
  }

  /** The two metrics together count each call that passed its hit-or-miss decision once. */
  lemma {:induction false} MetricsCountDecisions(urls: seq<Url>, run: seq<Action>)
    requires ValidRun(Init(urls), run)
    ensures var s := Exec(Init(urls), run);
      && s.hits == Count(s.calls, HitCalls())
      && s.requests == Count(s.calls, IssuedCalls())
      && s.hits + s.requests == 
        Count(s.calls, (c: Call) => !c.pc.NotStarted? && !c.pc.Waiting? && !c.pc.CancelledEarly?)
  {
    var s := Exec(Init(urls), run);
    Reachable(urls, run, "");
    CountSplit(s.calls, HitCalls(), IssuedCalls(),
      (c: Call) => !c.pc.NotStarted? && !c.pc.Waiting? && !c.pc.CancelledEarly?);
  }

  lemma RunSnoc(s: State, run: seq<Action>, a: Action)
    requires ValidRun(s, run) && Enabled(Exec(s, run), a)
    ensures ValidRun(s, run + [a]) && Exec(s, run + [a]) == Apply(Exec(s, run), a)
    decreases |run|
  {
    hide Apply, Enabled;
    if run == [] {
      assert [] + [a] == [a] && [a][1..] == [];
    } else {
      RunSnoc(Apply(s, run[0]), run[1..], a);
      assert (run + [a])[0] == run[0] && (run + [a])[1..] == run[1..] + [a];
    }
  }

  /** The first of `n` calls for `u` is fetching, the next ones up to `k` wait for it. */
  function Gathering(u: Url, n: nat, k: nat): State
    requires 1 <= k <= n
  {
    var calls := seq(n, i => Call(u, if i == 0 then Fetching else if i < k then Waiting(0) else NotStarted));
    State(calls, map[], map[u := 0], {}, 0, 1)
  }

  /** The first fetch failed; the calls up to `k` have woken and fetch, the others are still waiting. */
  function Herd(u: Url, n: nat, k: nat): State
    requires 1 <= k <= n
  {
    var calls := seq(n, i => Call(u, if i == 0 then Failed else if i < k then Fetching else Waiting(0)));
    State(calls, map[], if k == 1 then map[] else map[u := k - 1], {0}, 0, k)
  }

  lemma GatherOne(u: Url, n: nat, k: nat)
    requires 1 <= k < n
    ensures Enabled(Gathering(u, n, k), Start(k)) && Apply(Gathering(u, n, k), Start(k)) == Gathering(u, n, k + 1)
  {
    var s, t := Gathering(u, n, k), Gathering(u, n, k + 1);
    assert Apply(s, Start(k)).calls == t.calls;
  }

  lemma FirstFails(u: Url, n: nat)
    requires 1 <= n
    ensures Enabled(Gathering(u, n, n), Fail(0)) && Apply(Gathering(u, n, n), Fail(0)) == Herd(u, n, 1)
  {
    var s, t := Gathering(u, n, n), Herd(u, n, 1);
    assert Apply(s, Fail(0)).calls == t.calls;
    assert Apply(s, Fail(0)).events == map[];
  }

  lemma WakeOne(u: Url, n: nat, k: nat)
    requires 1 <= k < n
    ensures Enabled(Herd(u, n, k), Wake(k)) && Apply(Herd(u, n, k), Wake(k)) == Herd(u, n, k + 1)
  {
    var s, t := Herd(u, n, k), Herd(u, n, k + 1);
    assert Apply(s, Wake(k)).calls == t.calls;
    assert Apply(s, Wake(k)).events == t.events;
  }

  function Calls(u: Url, n: nat): seq<Url> { seq(n, i => u) }

  lemma {:induction false} GatherRun(u: Url, n: nat, k: nat) returns (run: seq<Action>)
    requires 1 <= k <= n
    ensures ValidRun(Init(Calls(u, n)), run) && Exec(Init(Calls(u, n)), run) == Gathering(u, n, k)
  {
    hide Apply, Enabled, Gathering, ValidRun, Exec;
    if k == 1 {
      run := [Start(0)];
      FirstStarts(u, n);
    } else {
      var before := GatherRun(u, n, k - 1);
      GatherOne(u, n, k - 1);
      RunSnoc(Init(Calls(u, n)), before, Start(k - 1));
      run := before + [Start(k - 1)];
    }
  }

  lemma FirstStarts(u: Url, n: nat)
    requires 1 <= n
    ensures ValidRun(Init(Calls(u, n)), [Start(0)]) && Exec(Init(Calls(u, n)), [Start(0)]) == Gathering(u, n, 1)
  {
    var s := Init(Calls(u, n));
    assert Apply(s, Start(0)).calls == Gathering(u, n, 1).calls;
    assert [Start(0)][1..] == [];
  }

  lemma {:induction false} HerdRun(u: Url, n: nat, k: nat) returns (run: seq<Action>)
    requires 1 <= k <= n
    ensures ValidRun(Init(Calls(u, n)), run) && Exec(Init(Calls(u, n)), run) == Herd(u, n, k)
  {
    hide Apply, Enabled, Gathering, Herd, ValidRun, Exec;
    if k == 1 {
      var before := GatherRun(u, n, n);
      FirstFails(u, n);
      RunSnoc(Init(Calls(u, n)), before, Fail(0));
      run := before + [Fail(0)];
    } else {
      var before := HerdRun(u, n, k - 1);
      WakeOne(u, n, k - 1);
      RunSnoc(Init(Calls(u, n)), before, Wake(k - 1));
      run := before + [Wake(k - 1)];
    }
  }

  lemma {:induction false} CountAll(calls: seq<Call>, p: Call -> bool)
    requires forall i :: 0 <= i < |calls| ==> p(calls[i])
    ensures Count(calls, p) == |calls|
  {
    if calls != [] { CountAll(calls[1..], p); }
  }

  /**
    After one failure the gate no longer works: of any number of calls for a url, all but the failed
    one end up fetching it at once, and only the last one's event is registered.
   */
  lemma {:induction false} HerdAfterFailure(u: Url, n: nat) returns (run: seq<Action>)
    requires n >= 2
    ensures ValidRun(Init(Calls(u, n)), run)
    ensures var s := Exec(Init(Calls(u, n)), run);
      && |s.calls| == n && s.calls[0] == Call(u, Failed)
      && (forall i :: 1 <= i < n ==> s.calls[i] == Call(u, Fetching))
      && Requests(s, u) == n && s.events == map[u := n - 1]
  {
    run := HerdRun(u, n, n);
    CountAll(Herd(u, n, n).calls, IssuedFor(u));
  }

  // ---------------------------------------------------------------- the object

  /**
    The scanner context.  Its methods are the pieces of `fetch_js` between two awaits; `frames`
    holds the suspended coroutines and `eventsSet` the flags of the `asyncio.Event` objects.
   */
  class ScannerContext {
    var jsCache: map<Url, Body>
    var jsFetchEvents: map<Url, nat>
    var eventsSet: set<nat>
    var cacheHits: nat
    var httpRequests: nat
    var frames: seq<Call>

    constructor (urls: seq<Url>)
      ensures View() == Init(urls)
    {
      jsCache, jsFetchEvents, eventsSet, cacheHits, httpRequests := map[], map[], {}, 0, 0;
      frames := seq(|urls|, i requires 0 <= i < |urls| => Call(urls[i], NotStarted));
    }

    function View(): State
      reads this
    {
      State(frames, jsCache, jsFetchEvents, eventsSet, cacheHits, httpRequests)
    }

    method Suspend(i: nat, pc: Pc)
      requires i < |frames|
      modifies this`frames
      ensures View() == Goto(old(View()), i, pc)
    {
      frames := frames[i := frames[i].(pc := pc)];
    }

    /** From the call of `fetch_js` to its first await or its return. */
    method Enter(i: nat)
      requires Enabled(View(), Start(i))
      modifies this
      ensures View() == Apply(old(View()), Start(i))
    {
      var url := frames[i].url;
      if url in jsCache {
        cacheHits := cacheHits + 1;
        Suspend(i, Hit(jsCache[url]));
        return;
      }
      if url in jsFetchEvents {
        Suspend(i, Waiting(jsFetchEvents[url]));
        return;
      }
      IssueRequest(i);
    }

    /** From the return of `event.wait()`. */
    method Resume(i: nat)
      requires Enabled(View(), Wake(i))
      modifies this
      ensures View() == Apply(old(View()), Wake(i))
    {
      var url := frames[i].url;
      if url in jsCache {
        cacheHits := cacheHits + 1;
        Suspend(i, Hit(jsCache[url]));
        return;
      }
      IssueRequest(i);
    }

    method IssueRequest(i: nat)
      requires i < |frames|
      modifies this
      ensures View() == Miss(old(View()), i)
    {
      jsFetchEvents := jsFetchEvents[frames[i].url := i];
      httpRequests := httpRequests + 1;
      Suspend(i, Fetching);
    }

    /** The text of a 200 arrives. */
    method StoreText(i: nat, text: Body)
      requires Enabled(View(), Deliver(i, text))
      modifies this
      ensures View() == Apply(old(View()), Deliver(i, text))
    {
      jsCache := jsCache[frames[i].url := text];
      Suspend(i, Closing(text));
    }

    /** The call leaves its `try`, by returning, by a caught exception or by cancellation. */
    method Leave(i: nat, a: Action)
      requires a.i == i && (a.Close? || a.Fail? || (a.Cancel? && i < |frames| && frames[i].Live()))
      requires Enabled(View(), a)
      modifies this
      ensures View() == Apply(old(View()), a)
    {
      var pc := frames[i].pc;
      var end := if a.Close? then Fetched(pc.body)
                 else if a.Fail? then (if pc.Closing? then CloseFailed(pc.body) else Failed)
                 else (if pc.Closing? then CancelledClosing(pc.body) else CancelledFetch);
      eventsSet := eventsSet + {i};
      jsFetchEvents := jsFetchEvents - {frames[i].url};
      Suspend(i, end);
    }

    /** The event loop: any schedule of any number of calls drives the object along a run of the machine. */
    method EventLoop(run: seq<Action>)
      requires ValidRun(View(), run)
      modifies this
      ensures View() == Exec(old(View()), run)
    {
      var k := 0;
      while k < |run|
        invariant 0 <= k <= |run|
        invariant ValidRun(View(), run[k..])
        invariant Exec(View(), run[k..]) == Exec(old(View()), run)
      {
        var a := run[k];
        assert run[k..][0] == a && run[k..][1..] == run[k + 1..];
        match a {
          case Start(i) => Enter(i);
          case Wake(i) => Resume(i);
          case Respond200(i) => Suspend(i, Reading);
          case Deliver(i, text) => StoreText(i, text);
          case Close(i) => Leave(i, a);
          case Fail(i) => Leave(i, a);
          case Cancel(i) => if frames[i].Live() { Leave(i, a); } else { Suspend(i, CancelledEarly); }
        }
        k := k + 1;
      }
    }
  }
}
