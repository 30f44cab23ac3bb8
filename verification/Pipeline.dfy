/**
  A scan request on its way from the gateway through the queue and the workers to the result store
  and the report.  The machine interleaves any number of requests, deliveries and report reads; the
  queue delivers a message until a worker's completion removes it, a send or a write may take
  effect and still raise, workers may crash, and `create_item` fails when the id exists.
 */
module Pipeline {
  import opened Strings
  import opened Blocklist
  import opened Hosts

  type Id = string

  /**
    A queue message: not JSON, a JSON object whose url and job_id may be missing (empty), or a body on
    which parsing raises something else (not UTF-8, not an object, a url that is not a string).
   */
  datatype Wire = NotJson | Json(url: string, jobId: Id) | Unreadable {
    predicate WellFormed() { Json? && url != "" && jobId != "" }
  }

  /** A document: `run_scout` sets no status field on the result it persists, but does set its score. */
  datatype Doc = Doc(scanId: Id, url: string, status: Option<string>, hasResult: bool, body: string)

  datatype JobPhase = Sending(attempt: nat) | Answered202 | Answered503 | Answered500
  datatype Job = Job(url: string, phase: JobPhase)

  datatype Where = Cosmos | Local | Nowhere
  datatype Outcome = Dropped | BlockedSsrf | NoPlugins | Persisted(where: Where)
  datatype WorkerPhase = Scanning | Writing(attempt: nat, doc: Doc)
    | WritingLocally(doc: Doc) | Finished(outcome: Outcome) | Raised
  datatype Worker = Worker(msg: nat, wire: Wire, phase: WorkerPhase)

  /** `ended` are the jobs whose message was completed by a run that left no result. */
  datatype State = State(
    configured: bool, jobs: map<Id, Job>, queue: map<nat, Wire>, sent: nat, workers: map<nat, Worker>,
    cosmos: map<Id, Doc>, local: map<Id, Doc>, ended: set<Id>)

  datatype Verdict = Safe | Unsafe | CheckRaised | NoCheck
  datatype Effect = Works | Fails | WorksButRaises
  datatype SendEffect = Sent(e: Effect) | Escapes(queued: bool)   // not a service bus error: not retried
  datatype Scan = ScanBlocked | ScanWithoutPlugins | ScanRaised | ScanDone(body: string)

  const MAX_ATTEMPTS := 3

  datatype Action =
    | Submit(id: Id, url: string, verdict: Verdict)
    | Send(id: Id, effect: SendEffect)
    | Inject(wire: Wire)                       // a malformed message from anywhere
    | Deliver(msg: nat, worker: nat)
    | RunScan(worker: nat, scan: Scan)
    | Write(worker: nat, e: Effect)
    | WriteLocal(worker: nat, works: bool)
    | Settle(worker: nat, acked: bool)         // completion, or an abandoned or lost lock
    | Crash(worker: nat)
    | DeadLetter(msg: nat)

  function Init(configured: bool): State {
    State(configured, map[], map[], 0, map[], map[], map[], {})
  }

  // ---------------------------------------------------------------- the stores

  /** `create_item`: the container after the call, and whether the call returned. */
  function CreateItem(cosmos: map<Id, Doc>, doc: Doc, e: Effect): (map<Id, Doc>, bool) {
    if doc.scanId in cosmos || e.Fails? then (cosmos, false) else (cosmos[doc.scanId := doc], e.Works?)
  }

  function ResultDoc(wire: Wire, body: string): Doc
    requires wire.Json?
  {
    Doc(wire.jobId, TargetUrl(wire.url), None, true, body)
  }

  // ---------------------------------------------------------------- steps

  /** The gateway parsed a host from the url, the host is not blocklisted and not known to be unsafe. */
  predicate Admitted(url: string, verdict: Verdict) { HostPasses(url) && !verdict.Unsafe? }

  predicate HostPasses(url: string) { CheckedHost(url).Some? && !IsBlocklisted(CheckedHost(url).value) }

  predicate Enabled(s: State, a: Action) {
    match a
    case Submit(id, url, _) => id !in s.jobs && id != "" && url != ""
    case Send(id, _) => id in s.jobs && s.jobs[id].phase.Sending?
    case Inject(wire) => !wire.WellFormed()
    case Deliver(msg, w) => msg in s.queue && w !in s.workers
    case RunScan(w, _) => w in s.workers && s.workers[w].phase.Scanning?
    case Write(w, _) => w in s.workers && s.workers[w].phase.Writing?
    case WriteLocal(w, _) => w in s.workers && s.workers[w].phase.WritingLocally?
    case Settle(w, acked) => w in s.workers && (s.workers[w].phase.Finished? || (s.workers[w].phase.Raised? && !acked))
    case Crash(w) => w in s.workers
    case DeadLetter(msg) => msg in s.queue
  }

  function Enqueue(s: State, wire: Wire): State {
    s.(queue := s.queue[s.sent := wire], sent := s.sent + 1)
  }

  function SetPhase(s: State, w: nat, phase: WorkerPhase): State
    requires w in s.workers
  {
    s.(workers := s.workers[w := s.workers[w].(phase := phase)])
  }

  function SetJob(s: State, id: Id, phase: JobPhase): State
    requires id in s.jobs
  {
    s.(jobs := s.jobs[id := s.jobs[id].(phase := phase)])
  }

  /** Whether the attempt puts the message into the queue, raising or not. */
  predicate LeavesCopy(e: SendEffect) { if e.Sent? then !e.e.Fails? else e.queued }

  /** The job after its `k`-th send attempt. */
  function AfterSend(k: nat, e: SendEffect): JobPhase {
    if e == Sent(Works) then Answered202
    else if e.Escapes? then Answered500
    else if k < MAX_ATTEMPTS then Sending(k + 1)
    else Answered503
  }

  function StepSend(s: State, id: Id, effect: SendEffect): State
    requires id in s.jobs && s.jobs[id].phase.Sending?
  {
    var next := SetJob(s, id, AfterSend(s.jobs[id].phase.attempt, effect));
    if LeavesCopy(effect) then Enqueue(next, Json(s.jobs[id].url, id)) else next
  }

  /** How far `process_scan` gets without touching a store. */
  function AfterScan(configured: bool, wire: Wire, scan: Scan): WorkerPhase {
    if wire.Unreadable? then Raised
    else if !wire.WellFormed() then Finished(Dropped)
    else
      match scan
      case ScanBlocked => Finished(BlockedSsrf)
      case ScanWithoutPlugins => Finished(NoPlugins)
      case ScanRaised => Raised
      case ScanDone(body) => if configured then Writing(1, ResultDoc(wire, body))
        else WritingLocally(ResultDoc(wire, body))
  }

  function StepScan(s: State, w: nat, scan: Scan): State
    requires w in s.workers && s.workers[w].phase.Scanning?
  {
    SetPhase(s, w, AfterScan(s.configured, s.workers[w].wire, scan))
  }

  function StepWrite(s: State, w: nat, e: Effect): State
    requires w in s.workers && s.workers[w].phase.Writing?
  {
    var Writing(k, doc) := s.workers[w].phase;
    var (cosmos, returned) := CreateItem(s.cosmos, doc, e);
    SetPhase(s, w,
      if returned then Finished(Persisted(Cosmos))
      else if k < MAX_ATTEMPTS then Writing(k + 1, doc)
      else WritingLocally(doc)).(cosmos := cosmos)
  }

  function StepLocal(s: State, w: nat, works: bool): State
    requires w in s.workers && s.workers[w].phase.WritingLocally?
  {
    var doc := s.workers[w].phase.doc;
    if works then SetPhase(s, w, Finished(Persisted(Local))).(local := s.local[doc.scanId := doc])
    else SetPhase(s, w, Finished(Persisted(Nowhere)))
  }

  /** The run of a worker left no result anywhere. */
  predicate NoResult(o: Outcome) { o == BlockedSsrf || o == NoPlugins || o == Persisted(Nowhere) }

  function StepSettle(s: State, w: nat, acked: bool): State
    requires w in s.workers && (s.workers[w].phase.Finished? || (s.workers[w].phase.Raised? && !acked))
  {
    var worker := s.workers[w];
    var gone := s.(workers := s.workers - {w});
    if !acked || worker.msg !in s.queue then gone
    else gone.(
      queue := s.queue - {worker.msg},
      ended := if worker.wire.Json? && NoResult(worker.phase.outcome) then s.ended + {worker.wire.jobId} else s.ended)
  }

  function Apply(s: State, a: Action): State
    requires Enabled(s, a)
  {
    match a
    case Submit(id, url, verdict) =>
      if Admitted(url, verdict) then s.(jobs := s.jobs[id := Job(url, Sending(1))]) else s
    case Send(id, effect) => StepSend(s, id, effect)
    case Inject(wire) => Enqueue(s, wire)
    case Deliver(msg, w) => s.(workers := s.workers[w := Worker(msg, s.queue[msg], Scanning)])
    case RunScan(w, scan) => StepScan(s, w, scan)
    case Write(w, e) => StepWrite(s, w, e)
    case WriteLocal(w, works) => StepLocal(s, w, works)
    case Settle(w, acked) => StepSettle(s, w, acked)
    case Crash(w) => s.(workers := s.workers - {w})
    case DeadLetter(msg) =>
      s.(queue := s.queue - {msg}, ended := if s.queue[msg].Json? then s.ended + {s.queue[msg].jobId} else s.ended)
  }

  predicate ValidRun(s: State, run: seq<Action>)
    decreases |run|
  {
    run == [] || (Enabled(s, run[0]) && ValidRun(Apply(s, run[0]), run[1..]))
  }

  function Exec(s: State, run: seq<Action>): State
    requires ValidRun(s, run)
    decreases |run|
  {
    if run == [] then s else Exec(Apply(s, run[0]), run[1..])
  }

  // ---------------------------------------------------------------- what every step keeps

  /** The message or document belongs to a job the gateway issued, for the url the job was submitted with. */
  predicate Issued(jobs: map<Id, Job>, id: Id, url: string) { id in jobs && jobs[id].url == url }

  predicate DocOk(jobs: map<Id, Job>, id: Id, d: Doc) {
    d.scanId == id && id in jobs && d.url == TargetUrl(jobs[id].url) && d.status.None? && d.hasResult
  }

  ghost predicate JobsOk(s: State) {
    forall id :: id in s.jobs ==> id != "" && s.jobs[id].url != "" && HostPasses(s.jobs[id].url)
  }

  ghost predicate QueueOk(s: State) {
    forall m :: m in s.queue ==>
      m < s.sent && (s.queue[m].WellFormed() ==> Issued(s.jobs, s.queue[m].jobId, s.queue[m].url))
  }

  predicate WorkerOk(s: State, w: Worker) {
    && w.msg < s.sent && (w.msg in s.queue ==> s.queue[w.msg] == w.wire)
    && (w.wire.WellFormed() ==> Issued(s.jobs, w.wire.jobId, w.wire.url))
    && (!w.wire.WellFormed() ==> w.phase.Scanning? || w.phase.Raised? || w.phase == Finished(Dropped))
    && (w.phase.Writing? || w.phase.WritingLocally? ==> DocOk(s.jobs, w.wire.jobId, w.phase.doc))
    && (w.phase == Finished(Dropped) ==> !w.wire.WellFormed())
    && (w.phase == Finished(Persisted(Cosmos)) ==> w.wire.jobId in s.cosmos)
    && (w.phase == Finished(Persisted(Local)) ==> w.wire.jobId in s.local)
  }

  ghost predicate WorkersOk(s: State) { forall w :: w in s.workers ==> WorkerOk(s, s.workers[w]) }

  ghost predicate StoresOk(s: State) {
    (forall id :: id in s.cosmos ==> DocOk(s.jobs, id, s.cosmos[id])) &&
      (forall id :: id in s.local ==> DocOk(s.jobs, id, s.local[id]))
  }

  ghost predicate Queued(s: State, id: Id) {
    exists m :: m in s.queue && s.queue[m].WellFormed() && s.queue[m].jobId == id
  }

  /** The job is still queued (perhaps being processed), has a result, or was ended without one. */
  ghost predicate AccountedFor(s: State, id: Id) {
    Queued(s, id) || id in s.cosmos || id in s.local || id in s.ended
  }

  ghost predicate Conserved(s: State) {
    forall id :: id in s.jobs && s.jobs[id].phase.Answered202? ==> AccountedFor(s, id)
  }

  ghost predicate Inv(s: State) { JobsOk(s) && QueueOk(s) && WorkersOk(s) && StoresOk(s) && Conserved(s) }

  // ---------------------------------------------------------------- the elementary changes

  lemma AddJobKeeps(s: State, id: Id, job: Job)
    requires Inv(s) && id !in s.jobs && id != "" && job.url != "" && HostPasses(job.url) && job.phase.Sending?
    ensures Inv(s.(jobs := s.jobs[id := job]))
  {
    hide HostPasses, TargetUrl;
    var t := s.(jobs := s.jobs[id := job]);
    forall i, url | Issued(s.jobs, i, url) ensures Issued(t.jobs, i, url) {}
    AccountedGrow(s, t);
  }

  lemma SetJobKeeps(s: State, id: Id, phase: JobPhase)
    requires Inv(s) && id in s.jobs && (phase.Answered202? ==> AccountedFor(s, id))
    ensures Inv(SetJob(s, id, phase))
  {
    hide HostPasses, TargetUrl;
    var t := SetJob(s, id, phase);
    forall i, url | Issued(s.jobs, i, url) ensures Issued(t.jobs, i, url) {}
    AccountedGrow(s, t);
  }

  /** More messages, more documents and more ended jobs leave every job accounted for. */
  lemma AccountedGrow(s: State, t: State)
    requires forall m :: m in s.queue ==> m in t.queue && t.queue[m] == s.queue[m]
    requires s.cosmos.Keys <= t.cosmos.Keys && s.local.Keys <= t.local.Keys && s.ended <= t.ended
    ensures forall id :: AccountedFor(s, id) ==> AccountedFor(t, id)
  {
    forall id | Queued(s, id) ensures Queued(t, id) {
      var m :| m in s.queue && s.queue[m].WellFormed() && s.queue[m].jobId == id;
      assert m in t.queue;
    }
  }

  lemma EnqueueKeeps(s: State, wire: Wire)
    requires Inv(s) && (wire.WellFormed() ==> Issued(s.jobs, wire.jobId, wire.url))
    ensures Inv(Enqueue(s, wire)) && (wire.WellFormed() ==> Queued(Enqueue(s, wire), wire.jobId))
  {
    hide HostPasses, TargetUrl;
    var t := Enqueue(s, wire);
    assert s.sent in t.queue;
    AccountedGrow(s, t);
  }

  lemma SetWorkerKeeps(s: State, w: nat, worker: Worker)
    requires Inv(s) && WorkerOk(s, worker)
    ensures Inv(s.(workers := s.workers[w := worker]))
  {
    hide HostPasses, TargetUrl;
    var t := s.(workers := s.workers[w := worker]);
    AccountedGrow(s, t);
  }

  lemma DropWorkerKeeps(s: State, w: nat)
    requires Inv(s)
    ensures Inv(s.(workers := s.workers - {w}))
  {
    hide HostPasses, TargetUrl;
    AccountedGrow(s, s.(workers := s.workers - {w}));
  }

  lemma DropMessageKeeps(s: State, m: nat, ended: set<Id>)
    requires Inv(s) && m in s.queue && s.ended <= ended
    requires s.queue[m].WellFormed() ==>
      var id := s.queue[m].jobId;
      id in s.cosmos || id in s.local || id in ended
    ensures Inv(s.(queue := s.queue - {m}, ended := ended))
  {
    hide HostPasses, TargetUrl;
    var t := s.(queue := s.queue - {m}, ended := ended);
    forall id | AccountedFor(s, id) ensures AccountedFor(t, id) {
      if Queued(s, id) {
        var n :| n in s.queue && s.queue[n].WellFormed() && s.queue[n].jobId == id;
        assert n != m ==> n in t.queue;
      }
    }
  }

  lemma StoreKeeps(s: State, doc: Doc)
    requires Inv(s) && DocOk(s.jobs, doc.scanId, doc)
    ensures Inv(s.(cosmos := s.cosmos[doc.scanId := doc]))
  {
    hide HostPasses, DocOk;
    AccountedGrow(s, s.(cosmos := s.cosmos[doc.scanId := doc]));
  }

  lemma StoreLocallyKeeps(s: State, doc: Doc)
    requires Inv(s) && DocOk(s.jobs, doc.scanId, doc)
    ensures Inv(s.(local := s.local[doc.scanId := doc]))
  {
    hide HostPasses, DocOk;
    AccountedGrow(s, s.(local := s.local[doc.scanId := doc]));
  }

  // ---------------------------------------------------------------- the steps

  lemma SendKeeps(s: State, id: Id, effect: SendEffect)
    requires Inv(s) && Enabled(s, Send(id, effect))
    ensures Inv(StepSend(s, id, effect))
  {
    hide HostPasses, Inv;
    var wire := Json(s.jobs[id].url, id);
    assert wire.WellFormed() && Issued(s.jobs, id, wire.url) by { JobNonEmpty(s, id); }
    var phase := AfterSend(s.jobs[id].phase.attempt, effect);
    if LeavesCopy(effect) {
      EnqueueKeeps(s, wire);
      SetJobKeeps(Enqueue(s, wire), id, phase);
      assert Enqueue(SetJob(s, id, phase), wire) == SetJob(Enqueue(s, wire), id, phase);
    } else {
      SetJobKeeps(s, id, phase);
    }
  }

  lemma JobNonEmpty(s: State, id: Id)
    requires Inv(s) && id in s.jobs
    ensures id != "" && s.jobs[id].url != ""
  {
    hide HostPasses, TargetUrl;
  }

  lemma ScanPhaseOk(s: State, worker: Worker, scan: Scan)
    requires WorkerOk(s, worker) && worker.phase.Scanning?
    ensures WorkerOk(s, worker.(phase := AfterScan(s.configured, worker.wire, scan)))
  {}

  lemma ScanKeeps(s: State, w: nat, scan: Scan)
    requires Inv(s) && Enabled(s, RunScan(w, scan))
    ensures Inv(StepScan(s, w, scan))
  {
    hide HostPasses, TargetUrl, AfterScan;
    assert WorkerOk(s, s.workers[w]);
    ScanPhaseOk(s, s.workers[w], scan);
    SetWorkerKeeps(s, w, s.workers[w].(phase := AfterScan(s.configured, s.workers[w].wire, scan)));
  }

  lemma WriteKeeps(s: State, w: nat, e: Effect)
    requires Inv(s) && Enabled(s, Write(w, e))
    ensures Inv(StepWrite(s, w, e))
  {
    hide HostPasses, TargetUrl, JobsOk, QueueOk, StoresOk, Conserved, DocOk;
    assert WorkerOk(s, s.workers[w]);
    var doc := s.workers[w].phase.doc;
    var t := s.(cosmos := CreateItem(s.cosmos, doc, e).0);
    assert doc.scanId == s.workers[w].wire.jobId by { DocId(s.jobs, s.workers[w].wire.jobId, doc); }
    if t.cosmos != s.cosmos {
      StoreKeeps(s, doc);
      assert t == s.(cosmos := s.cosmos[doc.scanId := doc]);
    }
    var worker := StepWrite(s, w, e).workers[w];
    SetWorkerKeeps(t, w, worker);
    assert StepWrite(s, w, e) == t.(workers := t.workers[w := worker]);
  }

  lemma DocId(jobs: map<Id, Job>, id: Id, doc: Doc)
    requires DocOk(jobs, id, doc)
    ensures doc.scanId == id
  {}

  lemma LocalKeeps(s: State, w: nat, works: bool)
    requires Inv(s) && Enabled(s, WriteLocal(w, works))
    ensures Inv(StepLocal(s, w, works))
  {
    hide HostPasses, TargetUrl;
    assert WorkerOk(s, s.workers[w]);
    var doc := s.workers[w].phase.doc;
    var t := if works then s.(local := s.local[doc.scanId := doc]) else s;
    if works { StoreLocallyKeeps(s, doc); }
    var worker := StepLocal(s, w, works).workers[w];
    assert WorkerOk(t, worker);
    SetWorkerKeeps(t, w, worker);
    assert StepLocal(s, w, works) == t.(workers := t.workers[w := worker]);
  }

  lemma SettleKeeps(s: State, w: nat, acked: bool)
    requires Inv(s) && Enabled(s, Settle(w, acked))
    ensures Inv(StepSettle(s, w, acked))
  {
    hide HostPasses, TargetUrl;
    var worker := s.workers[w];
    assert WorkerOk(s, worker);
    var gone := s.(workers := s.workers - {w});
    DropWorkerKeeps(s, w);
    if acked && worker.msg in s.queue {
      assert gone.queue[worker.msg] == worker.wire && worker.phase.Finished?;
      if worker.wire.WellFormed() {
        match worker.phase.outcome {
          case Dropped => assert false;
          case BlockedSsrf =>
          case NoPlugins =>
          case Persisted(where) => assert where == Nowhere || worker.wire.jobId in s.cosmos ||
            worker.wire.jobId in s.local;
        }
      }
      DropMessageKeeps(gone, worker.msg, StepSettle(s, w, acked).ended);
    }
  }

  /** Every step keeps the invariant. */
  lemma {:induction false} InvStep(s: State, a: Action)
    requires Enabled(s, a) && Inv(s)
    ensures Inv(Apply(s, a))
  {
    hide HostPasses, TargetUrl, StepSend, StepScan, StepWrite, StepLocal, StepSettle;
    match a
    case Submit(id, url, verdict) =>
      if Admitted(url, verdict) { AddJobKeeps(s, id, Job(url, Sending(1))); }
    case Send(id, effect) => SendKeeps(s, id, effect);
    case Inject(wire) => EnqueueKeeps(s, wire);
    case Deliver(msg, w) => SetWorkerKeeps(s, w, Worker(msg, s.queue[msg], Scanning));
    case RunScan(w, scan) => ScanKeeps(s, w, scan);
    case Write(w, e) => WriteKeeps(s, w, e);
    case WriteLocal(w, works) => LocalKeeps(s, w, works);
    case Settle(w, acked) => SettleKeeps(s, w, acked);
    case Crash(w) => DropWorkerKeeps(s, w);
    case DeadLetter(msg) => DropMessageKeeps(s, msg, Apply(s, a).ended);
  }

  // ---------------------------------------------------------------- all runs

  lemma {:induction false} RunKeeps(s: State, run: seq<Action>)
    requires ValidRun(s, run) && Inv(s)
    ensures Inv(Exec(s, run))
    decreases |run|
  {
    hide Inv, Apply, Enabled;
    if run != [] {
      InvStep(s, run[0]);
      RunKeeps(Apply(s, run[0]), run[1..]);
    }
  }

  lemma Reachable(configured: bool, run: seq<Action>)
    requires ValidRun(Init(configured), run)
    ensures Inv(Exec(Init(configured), run))
  {
    RunKeeps(Init(configured), run);
  }

  /**
    A job answered 202 is never lost: it is queued, has a result under its own id and url, or was
    ended without one.
  */
  lemma {:induction false} AcceptedJobsAccountedFor(configured: bool, run: seq<Action>, id: Id)
    requires ValidRun(Init(configured), run)
    requires var s := Exec(Init(configured), run); id in s.jobs && s.jobs[id].phase.Answered202?
    ensures var s := Exec(Init(configured), run);
      || (exists m :: m in s.queue && s.queue[m] == Json(s.jobs[id].url, id))
      || (id in s.cosmos && s.cosmos[id].scanId == id && s.cosmos[id].url == TargetUrl(s.jobs[id].url))
      || (id in s.local && s.local[id].scanId == id && s.local[id].url == TargetUrl(s.jobs[id].url))
      || id in s.ended
  {
    hide HostPasses, TargetUrl, Apply, Enabled;
    var s := Exec(Init(configured), run);
    Reachable(configured, run);
    if Queued(s, id) {
      var m :| m in s.queue && s.queue[m].WellFormed() && s.queue[m].jobId == id;
      assert s.queue[m] == Json(s.jobs[id].url, id);
    }
  }

  /** The job was issued for a url whose target is blocklisted. */
  predicate BlockedJob(s: State, id: Id) { id in s.jobs && TargetBlocked(s.jobs[id].url) }

  /** A blocked target is refused when the gateway checks the host that is scanned. */
  lemma CheckedTargetRefused(url: string)
    ensures TargetBlocked(url) && ChecksTarget(url) ==> !HostPasses(url)
  {
    hide NormalizeHost, CheckedHost, TargetHost;
  }

  /** Such a job is only ever one whose url the gateway and the worker read differently. */
  lemma {:induction false} BlockedJobsAreMisread(s: State, id: Id)
    requires Inv(s) && BlockedJob(s, id)
    ensures !ChecksTarget(s.jobs[id].url)
  {
    hide HostPasses, TargetBlocked, ChecksTarget, QueueOk, WorkersOk, StoresOk, Conserved;
    CheckedTargetRefused(s.jobs[id].url);
  }

  /**
    A blocklisted target leaves no trace, neither a queued message nor a worker's message nor a
    document, for every url whose scanned host is the one that the gateway checked.
   */
  lemma {:induction false} NoTraceOfBlocklistedTargets(configured: bool, run: seq<Action>)
    requires ValidRun(Init(configured), run)
    ensures var s := Exec(Init(configured), run);
      && (forall m :: m in s.queue && s.queue[m].WellFormed() && ChecksTarget(s.queue[m].url) ==>
        !TargetBlocked(s.queue[m].url))
      && (forall w :: w in s.workers && s.workers[w].wire.WellFormed() && ChecksTarget(s.workers[w].wire.url) ==>
            !TargetBlocked(s.workers[w].wire.url))
      && (forall id :: id in s.cosmos || id in s.local ==>
        id in s.jobs && !(ChecksTarget(s.jobs[id].url) && BlockedJob(s, id)))
  {
    hide HostPasses, TargetUrl, TargetBlocked, ChecksTarget, Apply, Enabled;
    var s := Exec(Init(configured), run);
    Reachable(configured, run);
    forall id | BlockedJob(s, id) { BlockedJobsAreMisread(s, id); }
    assert forall w :: w in s.workers ==> WorkerOk(s, s.workers[w]);
    forall m | m in s.queue && s.queue[m].WellFormed()
      ensures !(ChecksTarget(s.queue[m].url) && TargetBlocked(s.queue[m].url)) {
      assert BlockedJob(s, s.queue[m].jobId) <==> TargetBlocked(s.queue[m].url);
    }
    forall w | w in s.workers && s.workers[w].wire.WellFormed()
      ensures !(ChecksTarget(s.workers[w].wire.url) && TargetBlocked(s.workers[w].wire.url))
    {
      assert BlockedJob(s, s.workers[w].wire.jobId) <==> TargetBlocked(s.workers[w].wire.url);
    }
  }

  lemma CosmosStep(s: State, a: Action)
    requires Enabled(s, a)
    ensures forall id :: id in s.cosmos ==> id in Apply(s, a).cosmos && Apply(s, a).cosmos[id] == s.cosmos[id]
  {
    hide HostPasses, TargetUrl, StepSend, StepScan, StepLocal, StepSettle;
    match a
    case Send(id, effect) => SendCosmos(s, id, effect);
    case RunScan(w, scan) => ScanCosmos(s, w, scan);
    case WriteLocal(w, works) => LocalCosmos(s, w, works);
    case Settle(w, acked) => SettleCosmos(s, w, acked);
    case _ =>
  }

  lemma SendCosmos(s: State, id: Id, effect: SendEffect)
    requires id in s.jobs && s.jobs[id].phase.Sending?
    ensures StepSend(s, id, effect).cosmos == s.cosmos
  {}

  lemma ScanCosmos(s: State, w: nat, scan: Scan)
    requires w in s.workers && s.workers[w].phase.Scanning?
    ensures StepScan(s, w, scan).cosmos == s.cosmos
  {}

  lemma LocalCosmos(s: State, w: nat, works: bool)
    requires w in s.workers && s.workers[w].phase.WritingLocally?
    ensures StepLocal(s, w, works).cosmos == s.cosmos
  {}

  lemma SettleCosmos(s: State, w: nat, acked: bool)
    requires w in s.workers && (s.workers[w].phase.Finished? || (s.workers[w].phase.Raised? && !acked))
    ensures StepSettle(s, w, acked).cosmos == s.cosmos
  {}

  /** Once a document exists it never changes, however often its message is redelivered and its scan repeated. */
  lemma {:induction false} DocumentsAreImmutable(s: State, run: seq<Action>, id: Id)
    requires ValidRun(s, run) && id in s.cosmos
    ensures id in Exec(s, run).cosmos && Exec(s, run).cosmos[id] == s.cosmos[id]
    decreases |run|
  {
    hide Apply, Enabled;
    if run != [] {
      CosmosStep(s, run[0]);
      DocumentsAreImmutable(Apply(s, run[0]), run[1..], id);
    }
  }

  // ---------------------------------------------------------------- the report

  datatype Status = Pending | Running | Complete | Failed

  datatype Reply = Error(code: nat) | NotComplete(status: Status) | StatusReply(status: Status) | ResultReply(doc: Doc)

  function DeriveStatus(d: Doc): Status {
    if d.status in {Some("blocked_ssrf"), Some("failed"), Some("error")} then Failed
    else if d.status == Some("running") then Running
    else if d.status == Some("queued") then Pending
    else if d.hasResult then Complete
    else Pending
  }

  function HandleStatus(scanId: Option<Id>, cosmos: map<Id, Doc>): Reply {
    if scanId.None? || scanId.value == "" then Error(400)
    else if scanId.value !in cosmos then Error(404)
    else StatusReply(DeriveStatus(cosmos[scanId.value]))
  }

  function HandleResult(scanId: Option<Id>, cosmos: map<Id, Doc>): Reply {
    if scanId.None? || scanId.value == "" then Error(400)
    else if scanId.value !in cosmos then Error(404)
    else if DeriveStatus(cosmos[scanId.value]) != Complete then NotComplete(DeriveStatus(cosmos[scanId.value]))
    else ResultReply(cosmos[scanId.value])
  }

  /** A status field decides, whatever the document holds; without one, a result means completion. */
  lemma {:induction false} StatusDecides(d: Doc)
    ensures var known := {"blocked_ssrf", "failed", "error", "running", "queued"};
      && (DeriveStatus(d) == Failed <==> exists w :: w in {"blocked_ssrf", "failed", "error"} && d.status == Some(w))
      && (DeriveStatus(d) == Running <==> d.status == Some("running"))
      && (DeriveStatus(d) == Complete <==> d.hasResult && forall w :: w in known ==> d.status != Some(w))
  {}

  /** Both routes agree: a result is handed out, unchanged, exactly when the status is Complete. */
  lemma {:induction false} ResultWhenComplete(id: Option<Id>, cosmos: map<Id, Doc>)
    ensures var status, result := HandleStatus(id, cosmos), HandleResult(id, cosmos);
      && (status == Error(400) <==> id == None || id == Some(""))
      && (status == Error(404) <==> id.Some? && id.value != "" && id.value !in cosmos)
      && (forall code :: result == Error(code) <==> status == Error(code))
      && (forall st :: result == NotComplete(st) <==> status == StatusReply(st) && st != Complete)
      && (status == StatusReply(Complete) <==> result.ResultReply?)
      && (forall doc :: result == ResultReply(doc) ==> doc == cosmos[id.value])
  {}

  lemma ExecCons(s: State, a: Action, run: seq<Action>)
    requires Enabled(s, a) && ValidRun(Apply(s, a), run)
    ensures ValidRun(s, [a] + run) && Exec(s, [a] + run) == Exec(Apply(s, a), run)
  {
    hide Apply, Enabled;
    assert ([a] + run)[0] == a && ([a] + run)[1..] == run;
  }

  lemma {:induction false} ExecAppend(s: State, run: seq<Action>, more: seq<Action>)
    requires ValidRun(s, run) && ValidRun(Exec(s, run), more)
    ensures ValidRun(s, run + more) && Exec(s, run + more) == Exec(Exec(s, run), more)
    decreases |run|
  {
    hide Apply, Enabled;
    if run == [] {
      assert run + more == more;
    } else {
      ExecAppend(Apply(s, run[0]), run[1..], more);
      assert (run + more)[0] == run[0] && (run + more)[1..] == run[1..] + more;
    }
  }

  /**
    At every moment the report of an id is 404 or Complete, and it only moves from the first to the
    second; from then on it always answers with the same document.
   */
  lemma {:induction false} ReportOnlyMovesToComplete(configured: bool, run: seq<Action>, more: seq<Action>, id: Id)
    requires id != "" && ValidRun(Init(configured), run) && ValidRun(Exec(Init(configured), run), more)
    ensures var now, later := Exec(Init(configured), run).cosmos, Exec(Exec(Init(configured), run), more).cosmos;
      && HandleStatus(Some(id), now) in {Error(404), StatusReply(Complete)}
      && HandleStatus(Some(id), later) in {Error(404), StatusReply(Complete)}
      && (HandleStatus(Some(id), now) == StatusReply(Complete) ==>
            HandleStatus(Some(id), later) == StatusReply(Complete)
            && HandleResult(Some(id), later) == HandleResult(Some(id), now) == ResultReply(now[id]))
  {
    hide HostPasses, TargetUrl, Apply, Enabled;
    var s := Exec(Init(configured), run);
    Reachable(configured, run);
    ExecAppend(Init(configured), run, more);
    Reachable(configured, run + more);
    if id in s.cosmos { DocumentsAreImmutable(s, more, id); }
  }

  // ---------------------------------------------------------------- the retry loops

  /** What a finished scan run leaves behind: the two stores and where the result went. */
  datatype StoredAs = StoredAs(cosmos: map<Id, Doc>, local: map<Id, Doc>, where: Where)

  function PersistLocally(cosmos: map<Id, Doc>, local: map<Id, Doc>, doc: Doc, localWorks: bool): StoredAs {
    if localWorks then StoredAs(cosmos, local[doc.scanId := doc], Local) else StoredAs(cosmos, local, Nowhere)
  }

  /** From attempt `k` on. */
  function PersistFrom(k: nat, cosmos: map<Id, Doc>, local: map<Id, Doc>, doc: Doc, effects: nat -> Effect,
    localWorks: bool): StoredAs
    decreases MAX_ATTEMPTS + 1 - k
  {
    if k > MAX_ATTEMPTS then PersistLocally(cosmos, local, doc, localWorks)
    else
      var (after, returned) := CreateItem(cosmos, doc, effects(k));
      if returned then StoredAs(after, local, Cosmos)
      else PersistFrom(k + 1, after, local, doc, effects, localWorks)
  }

  function Persist(
    configured: bool, cosmos: map<Id, Doc>, local: map<Id, Doc>, doc: Doc, effects: nat -> Effect,
    localWorks: bool): StoredAs
  {
    if configured then PersistFrom(1, cosmos, local, doc, effects, localWorks)
    else PersistLocally(cosmos, local, doc, localWorks)
  }

  /** The stores after one delivery was processed to its end, and how the processing ended. */
  datatype Processed = Processed(cosmos: map<Id, Doc>, local: map<Id, Doc>, phase: WorkerPhase)

  function Process(
    configured: bool, cosmos: map<Id, Doc>, local: map<Id, Doc>, wire: Wire, scan: Scan, effects: nat -> Effect,
    localWorks: bool)
    : Processed
  {
    match AfterScan(configured, wire, scan)
    case Writing(k, doc) =>
      var end := PersistFrom(k, cosmos, local, doc, effects, localWorks);
      Processed(end.cosmos, end.local, Finished(Outcome.Persisted(end.where)))
    case WritingLocally(doc) =>
      var end := PersistLocally(cosmos, local, doc, localWorks);
      Processed(end.cosmos, end.local, Finished(Outcome.Persisted(end.where)))
    case phase => Processed(cosmos, local, phase)
  }

  /** The result container and the local results directory, as a worker sees them. */
  class ResultStores {
    const configured: bool
    var cosmos: map<Id, Doc>
    var local: map<Id, Doc>

    constructor (configured: bool, cosmos: map<Id, Doc>, local: map<Id, Doc>)
      ensures this.configured == configured && this.cosmos == cosmos && this.local == local
    {
      this.configured, this.cosmos, this.local := configured, cosmos, local;
    }

    method TryCreateItem(doc: Doc, e: Effect) returns (returned: bool)
      modifies this`cosmos
      ensures (cosmos, returned) == CreateItem(old(cosmos), doc, e)
    {
      if doc.scanId in cosmos || e.Fails? { return false; }
      cosmos := cosmos[doc.scanId := doc];
      return e.Works?;
    }

    method WriteLocally(doc: Doc, works: bool) returns (written: bool)
      modifies this`local
      ensures written == works && local == if works then old(local)[doc.scanId := doc] else old(local)
    {
      if works { local := local[doc.scanId := doc]; }
      return works;
    }

    /** `persist_scan_result`; `effects(k)` is what the k-th write attempt does. */
    method PersistScanResult(doc: Doc, effects: nat -> Effect, localWorks: bool) returns (where: Where)
      modifies this
      ensures StoredAs(cosmos, local, where) == Persist(configured, old(cosmos), old(local), doc, effects, localWorks)
      ensures where == Nowhere ==> !localWorks && local == old(local)
      ensures where == Local ==> doc.scanId in local && local[doc.scanId] == doc
      ensures where == Cosmos ==> configured && doc.scanId !in old(cosmos) && cosmos == old(cosmos)[doc.scanId := doc]
      ensures forall id :: id in old(cosmos) ==> id in cosmos && cosmos[id] == old(cosmos)[id]
    {
      if configured {
        var attempt: nat := 1;
        while attempt <= MAX_ATTEMPTS
          invariant PersistFrom(1, old(cosmos), old(local), doc, effects, localWorks)
            == PersistFrom(attempt, cosmos, local, doc, effects, localWorks)
          invariant local == old(local)
          invariant cosmos == old(cosmos) || (doc.scanId !in old(cosmos) && cosmos == old(cosmos)[doc.scanId := doc])
        {
          var returned := TryCreateItem(doc, effects(attempt));
          if returned { return Cosmos; }
          attempt := attempt + 1;
        }
      }
      var written := WriteLocally(doc, localWorks);
      return if written then Local else Nowhere;
    }

    /** `process_scan`: `Finished` when it returns, `Raised` when the exception reaches the queue trigger. */
    method ProcessScan(wire: Wire, scan: Scan, effects: nat -> Effect, localWorks: bool) returns (phase: WorkerPhase)
      modifies this
      ensures Processed(cosmos, local, phase)
           == Process(configured, old(cosmos), old(local), wire, scan, effects, localWorks)
      ensures phase == Finished(Dropped) <==> !wire.WellFormed() && !wire.Unreadable?
      ensures phase == Raised <==> wire.Unreadable? || (wire.WellFormed() && scan.ScanRaised?)
      ensures phase == Finished(BlockedSsrf) <==> wire.WellFormed() && scan.ScanBlocked?
      ensures phase == Finished(NoPlugins) <==> wire.WellFormed() && scan.ScanWithoutPlugins?
      ensures !(wire.WellFormed() && scan.ScanDone?) ==> cosmos == old(cosmos) && local == old(local)
      ensures wire.WellFormed() && scan.ScanDone? ==>
        var doc := Doc(wire.jobId, TargetUrl(wire.url), None, true, scan.body);
        var end := Persist(configured, old(cosmos), old(local), doc, effects, localWorks);
        cosmos == end.cosmos && local == end.local && phase == Finished(Outcome.Persisted(end.where))
    {
      if wire.Unreadable? { return Raised; }
      if wire.NotJson? { return Finished(Dropped); }
      if wire.url == "" { return Finished(Dropped); }
      if wire.jobId == "" { return Finished(Dropped); }
      match scan {
        case ScanBlocked => return Finished(BlockedSsrf);
        case ScanWithoutPlugins => return Finished(NoPlugins);
        case ScanRaised => return Raised;
        case ScanDone(body) =>
          var where := PersistScanResult(ResultDoc(wire, body), effects, localWorks);
          return Finished(Outcome.Persisted(where));
      }
    }
  }

  function PersistPhase(k: nat, doc: Doc): WorkerPhase {
    if k <= MAX_ATTEMPTS then Writing(k, doc) else WritingLocally(doc)
  }

  /** The run is one of the machine, ends with these stores, and worker `w` finished by persisting there. */
  ghost predicate EndsAs(s: State, w: nat, run: seq<Action>, end: StoredAs) {
    && ValidRun(s, run)
    && Exec(s, run).cosmos == end.cosmos && Exec(s, run).local == end.local && Exec(s, run).queue == s.queue
    && w in Exec(s, run).workers && Exec(s, run).workers[w].phase == Finished(Outcome.Persisted(end.where))
  }

  /** The steps of the machine in which worker `w` persists its document alone, from attempt `k` on. */
  function PersistSteps(
    k: nat, w: nat, cosmos: map<Id, Doc>, doc: Doc, effects: nat -> Effect, localWorks: bool): seq<Action>
    decreases MAX_ATTEMPTS + 1 - k
  {
    if k > MAX_ATTEMPTS then [WriteLocal(w, localWorks)]
    else
      var (after, returned) := CreateItem(cosmos, doc, effects(k));
      [Write(w, effects(k))] + if returned then [] else PersistSteps(k + 1, w, after, doc, effects, localWorks)
  }

  lemma EndsAfterStep(s: State, a: Action, w: nat, run: seq<Action>, end: StoredAs)
    requires Enabled(s, a) && Apply(s, a).queue == s.queue && EndsAs(Apply(s, a), w, run, end)
    ensures EndsAs(s, w, [a] + run, end)
  {
    hide Apply, Enabled, ValidRun, Exec;
    ExecCons(s, a, run);
  }

  /** The retry loop of `persist_scan_result` is a run of the machine: same stores, same outcome. */
  lemma {:induction false} PersistIsARun(s: State, w: nat, k: nat, doc: Doc, effects: nat -> Effect, localWorks: bool)
    requires w in s.workers && 1 <= k <= MAX_ATTEMPTS + 1
    requires s.workers[w].phase == PersistPhase(k, doc)
    ensures EndsAs(
      s, w, PersistSteps(k, w, s.cosmos, doc, effects, localWorks),
      PersistFrom(k, s.cosmos, s.local, doc, effects, localWorks))
    decreases MAX_ATTEMPTS + 1 - k
  {
    hide HostPasses, TargetUrl, ValidRun, Exec, EndsAs;
    var end := PersistFrom(k, s.cosmos, s.local, doc, effects, localWorks);
    if k > MAX_ATTEMPTS {
      var t := StepLocal(s, w, localWorks);
      Stands(t, w, end);
      EndsAfterStep(s, WriteLocal(w, localWorks), w, [], end);
      assert PersistSteps(k, w, s.cosmos, doc, effects, localWorks) == [WriteLocal(w, localWorks)] + [];
    } else {
      var t := StepWrite(s, w, effects(k));
      if CreateItem(s.cosmos, doc, effects(k)).1 {
        Stands(t, w, end);
        EndsAfterStep(s, Write(w, effects(k)), w, [], end);
        assert PersistSteps(k, w, s.cosmos, doc, effects, localWorks) == [Write(w, effects(k))] + [];
      } else {
        PersistIsARun(t, w, k + 1, doc, effects, localWorks);
        EndsAfterStep(s, Write(w, effects(k)), w, PersistSteps(k + 1, w, t.cosmos, doc, effects, localWorks), end);
      }
    }
  }

  /** The steps of the machine in which worker `w` processes its message alone. */
  function ProcessSteps(
    configured: bool, w: nat, cosmos: map<Id, Doc>, wire: Wire, scan: Scan, effects: nat -> Effect,
    localWorks: bool): seq<Action>
  {
    [RunScan(w, scan)] +
    match AfterScan(configured, wire, scan)
    case Writing(k, doc) => PersistSteps(k, w, cosmos, doc, effects, localWorks)
    case WritingLocally(doc) => PersistSteps(MAX_ATTEMPTS + 1, w, cosmos, doc, effects, localWorks)
    case phase => []
  }

  /** An uninterrupted `process_scan` is a run of the machine: same stores, same end, and the message still queued. */
  lemma {:induction false} ProcessIsARun(s: State, w: nat, scan: Scan, effects: nat -> Effect, localWorks: bool)
    requires w in s.workers && s.workers[w].phase.Scanning?
    ensures var wire := s.workers[w].wire;
      var run := ProcessSteps(s.configured, w, s.cosmos, wire, scan, effects, localWorks);
      var end := Process(s.configured, s.cosmos, s.local, wire, scan, effects, localWorks);
      && ValidRun(s, run)
      && Exec(s, run).cosmos == end.cosmos && Exec(s, run).local == end.local && Exec(s, run).queue == s.queue
      && w in Exec(s, run).workers && Exec(s, run).workers[w].phase == end.phase
  {
    hide HostPasses, TargetUrl, AfterScan, PersistSteps, PersistFrom;
    var wire := s.workers[w].wire;
    var t := StepScan(s, w, scan);
    var run := ProcessSteps(s.configured, w, s.cosmos, wire, scan, effects, localWorks);
    assert run[0] == RunScan(w, scan) && Apply(s, run[0]) == t;
    match AfterScan(s.configured, wire, scan) {
      case Writing(k, doc) =>
        FirstWrite(s.configured, wire, scan);
        PersistIsARun(t, w, k, doc, effects, localWorks);
        assert run[1..] == PersistSteps(k, w, s.cosmos, doc, effects, localWorks);
      case WritingLocally(doc) =>
        PersistIsARun(t, w, MAX_ATTEMPTS + 1, doc, effects, localWorks);
        LastWrite(s.cosmos, s.local, doc, effects, localWorks);
        assert run[1..] == PersistSteps(MAX_ATTEMPTS + 1, w, s.cosmos, doc, effects, localWorks);
      case _ =>
        assert run[1..] == [];
    }
  }

  lemma FirstWrite(configured: bool, wire: Wire, scan: Scan)
    ensures AfterScan(configured, wire, scan).Writing? ==> AfterScan(configured, wire, scan).attempt == 1
  {}

  lemma LastWrite(cosmos: map<Id, Doc>, local: map<Id, Doc>, doc: Doc, effects: nat -> Effect, localWorks: bool)
    ensures PersistFrom(MAX_ATTEMPTS + 1, cosmos, local, doc, effects, localWorks) ==
      PersistLocally(cosmos, local, doc, localWorks)
  {}

  lemma Stands(s: State, w: nat, end: StoredAs)
    requires s.cosmos == end.cosmos && s.local == end.local
    requires w in s.workers && s.workers[w].phase == Finished(Outcome.Persisted(end.where))
    ensures EndsAs(s, w, [], end)
  {}

  /** Once the id exists, every attempt conflicts and the result goes to the local file. */
  lemma {:induction false} StoredIdConflicts(
    k: nat, cosmos: map<Id, Doc>, local: map<Id, Doc>, doc: Doc, effects: nat -> Effect, localWorks: bool)
    requires doc.scanId in cosmos
    ensures PersistFrom(k, cosmos, local, doc, effects, localWorks) == PersistLocally(cosmos, local, doc, localWorks)
    decreases MAX_ATTEMPTS + 1 - k
  {
    if k <= MAX_ATTEMPTS { StoredIdConflicts(k + 1, cosmos, local, doc, effects, localWorks); }
  }

  /** The `k`-th attempt is the first that does not plainly fail. */
  predicate FirstEffect(effects: nat -> Effect, from: nat, k: nat) {
    from <= k <= 3 && !effects(k).Fails? && forall j: nat :: from <= j < k ==> effects(j).Fails?
  }

  /**
    For a fresh id the first attempt that does not plainly fail decides: the document is in Cosmos DB,
    and the result is reported so exactly when that attempt returned; otherwise it is written locally
    as well.  When every attempt fails, Cosmos DB is unchanged and the result is local or lost.
   */
  lemma {:induction false} FirstEffectDecides(
    from: nat, cosmos: map<Id, Doc>, local: map<Id, Doc>, doc: Doc, effects: nat -> Effect, localWorks: bool)
    requires doc.scanId !in cosmos
    ensures var end, stored := PersistFrom(from, cosmos, local, doc, effects, localWorks), cosmos[doc.scanId := doc];
      && (forall k: nat :: FirstEffect(effects, from, k) ==>
            end == if effects(k).Works? then StoredAs(stored, local, Cosmos)
              else PersistLocally(stored, local, doc, localWorks))
      && ((forall k: nat :: from <= k <= 3 ==> effects(k).Fails?) ==>
            end == PersistLocally(cosmos, local, doc, localWorks))
    decreases MAX_ATTEMPTS + 1 - from
  {
    if from <= MAX_ATTEMPTS {
      FirstEffectDecides(from + 1, cosmos, local, doc, effects, localWorks);
      if effects(from).WorksButRaises? {
        StoredIdConflicts(from + 1, cosmos[doc.scanId := doc], local, doc, effects, localWorks);
      }
      forall k: nat | FirstEffect(effects, from, k) && k > from ensures FirstEffect(effects, from + 1, k) {}
    }
  }

  /** Without Cosmos DB the result goes straight to the local file. */
  lemma {:induction false} UnconfiguredStaysLocal(
    cosmos: map<Id, Doc>, local: map<Id, Doc>, doc: Doc, effects: nat -> Effect, localWorks: bool)
    ensures var end := Persist(false, cosmos, local, doc, effects, localWorks);
      && end.cosmos == cosmos && end.where == (if localWorks then Local else Nowhere)
      && end.local == if localWorks then local[doc.scanId := doc] else local
  {}

  /** A fresh result is stored in Cosmos DB but reported elsewhere exactly when the first effect was ambiguous. */
  lemma {:induction false} StoredYetReportedElsewhere(
    cosmos: map<Id, Doc>, local: map<Id, Doc>, doc: Doc, effects: nat -> Effect, localWorks: bool)
    requires doc.scanId !in cosmos
    ensures var end := Persist(true, cosmos, local, doc, effects, localWorks);
      doc.scanId in end.cosmos && end.where != Cosmos <==>
        exists k: nat :: FirstEffect(effects, 1, k) && effects(k).WorksButRaises?
  {
    hide PersistFrom;
    FirstEffectDecides(1, cosmos, local, doc, effects, localWorks);
    if k: nat :| 1 <= k <= MAX_ATTEMPTS && !effects(k).Fails? {
      var first := FindFirst(effects, 1, k);
    }
  }

  lemma {:induction false} FindFirst(effects: nat -> Effect, from: nat, k: nat) returns (first: nat)
    requires from <= k <= MAX_ATTEMPTS && !effects(k).Fails?
    ensures FirstEffect(effects, from, first)
    decreases k - from
  {
    if effects(from).Fails? { first := FindFirst(effects, from + 1, k); } else { first := from; }
  }

  /** How `enqueue_scan_job` ends. */
  datatype EnqueueEnd = Enqueued | EnqueueError | OtherError

  /** The attempts from `k` on: how they end and at which attempt. */
  function EnqueueFrom(k: nat, effects: nat -> SendEffect): (EnqueueEnd, nat)
    requires 1 <= k <= MAX_ATTEMPTS
    decreases MAX_ATTEMPTS - k
  {
    match effects(k)
    case Escapes(_) => (OtherError, k)
    case Sent(Works) => (Enqueued, k)
    case Sent(_) => if k < MAX_ATTEMPTS then EnqueueFrom(k + 1, effects) else (EnqueueError, k)
  }

  /** The copies that the first `n` attempts leave in the queue. */
  function Copies(wire: Wire, effects: nat -> SendEffect, n: nat): seq<Wire> {
    if n == 0 then [] else Copies(wire, effects, n - 1) + if LeavesCopy(effects(n)) then [wire] else []
  }

  lemma {:induction false} CopiesAreCopies(wire: Wire, effects: nat -> SendEffect, n: nat)
    ensures forall m :: m in Copies(wire, effects, n) ==> m == wire
    ensures Copies(wire, effects, n) == [] <==> forall k :: 1 <= k <= n ==> !LeavesCopy(effects(k))
  {
    if n > 0 { CopiesAreCopies(wire, effects, n - 1); }
  }

  /** A service bus error, which the loop catches. */
  predicate Retried(e: SendEffect) { e.Sent? && !e.e.Works? }

  /** The first attempt that is not retried decides how the loop ends; without one it gives up after the last. */
  lemma {:induction false} EnqueueEnds(k: nat, effects: nat -> SendEffect)
    requires 1 <= k <= MAX_ATTEMPTS
    ensures var (end, n) := EnqueueFrom(k, effects);
      && k <= n <= MAX_ATTEMPTS && (end == EnqueueError ==> n == MAX_ATTEMPTS)
      && (forall j :: k <= j < n ==> Retried(effects(j)))
      && (end == Enqueued <==> effects(n) == Sent(Works))
      && (end == OtherError <==> effects(n).Escapes?)
    decreases MAX_ATTEMPTS - k
  {
    if k < MAX_ATTEMPTS { EnqueueEnds(k + 1, effects); }
  }

  /** The `n`-th attempt is the first that is not retried. */
  predicate Decides(effects: nat -> SendEffect, n: nat) {
    1 <= n <= 3 && !Retried(effects(n)) && forall j: nat :: 1 <= j < n ==> Retried(effects(j))
  }

  /** The service bus queue as the gateway sees it. */
  class MessageQueue {
    var messages: seq<Wire>

    constructor ()
      ensures messages == []
    {
      messages := [];
    }

    method SendMessage(wire: Wire, e: SendEffect) returns (returned: bool)
      modifies this
      ensures messages == (if LeavesCopy(e) then old(messages) + [wire] else old(messages)) &&
        returned == (e == Sent(Works))
    {
      if LeavesCopy(e) { messages := messages + [wire]; }
      return e == Sent(Works);
    }

    /** `enqueue_scan_job`; each attempt that took effect leaves a copy, whether or not it raised. */
    method EnqueueScanJob(wire: Wire, effects: nat -> SendEffect) returns (end: EnqueueEnd, ghost attempts: nat)
      modifies this
      ensures (end, attempts) == EnqueueFrom(1, effects)
      ensures messages == old(messages) + Copies(wire, effects, attempts)
    {
      attempts := 0;
      for k := 1 to MAX_ATTEMPTS + 1
        invariant attempts == k - 1
        invariant k <= MAX_ATTEMPTS ==> EnqueueFrom(1, effects) == EnqueueFrom(k, effects)
        invariant k > MAX_ATTEMPTS ==> EnqueueFrom(1, effects) == (EnqueueError, MAX_ATTEMPTS)
        invariant messages == old(messages) + Copies(wire, effects, attempts)
      {
        var returned := SendMessage(wire, effects(k));
        attempts := k;
        if returned { return Enqueued, attempts; }
        if effects(k).Escapes? { return OtherError, attempts; }
      }
      end := EnqueueError;
    }

    /** `handle_scan_request`: the response code for a fresh job id; 500 stands for an exception that is not caught. */
    method HandleScanRequest(url: string, verdict: Verdict, jobId: Id, senderOpens: bool, effects: nat -> SendEffect)
      returns (code: nat)
      modifies this
      ensures code in {202, 403, 500, 503}
      ensures code == 403 <==> CheckedHost(url).Some? && !Admitted(url, verdict)
      ensures TargetBlocked(url) && ChecksTarget(url) ==> code in {403, 500}
      ensures !Admitted(url, verdict) ==> messages == old(messages)
      ensures Admitted(url, verdict) && !senderOpens ==> code == 500 && messages == old(messages)
      ensures Admitted(url, verdict) && senderOpens ==>
        && (code == 202 <==> exists n :: Decides(effects, n) && effects(n) == Sent(Works))
        && (code == 500 <==> exists n :: Decides(effects, n) && effects(n).Escapes?)
        && (code == 503 <==> forall n :: 1 <= n <= 3 ==> Retried(effects(n)))
      ensures code == 202 ==> old(messages) < messages && messages[|messages| - 1] == Json(url, jobId)
      ensures code == 503 ==>
        (messages == old(messages) <==> forall k :: 1 <= k <= MAX_ATTEMPTS ==> !LeavesCopy(effects(k)))
      ensures old(messages) <= messages && forall m :: m in messages[|old(messages)|..] ==> m == Json(url, jobId)
    {
      hide IsBlocklisted, CheckedHost, TargetBlocked, ChecksTarget;
      CheckedTargetRefused(url);
      var host := CheckedHost(url);
      if host.None? { return 500; }
      if IsBlocklisted(host.value) { return 403; }
      if verdict.Unsafe? { return 403; }
      if !senderOpens { return 500; }
      var wire := Json(url, jobId);
      var end, attempts := EnqueueScanJob(wire, effects);
      CopiesAreCopies(wire, effects, attempts);
      EnqueueEnds(1, effects);
      assert !end.EnqueueError? ==> Decides(effects, EnqueueFrom(1, effects).1);
      match end {
        case Enqueued => return 202;
        case EnqueueError => return 503;
        case OtherError => return 500;
      }
    }
  }

  function AnswerPhase(end: EnqueueEnd): JobPhase {
    match end case Enqueued => Answered202 case EnqueueError => Answered503 case OtherError => Answered500
  }

  function SendSteps(k: nat, id: Id, effects: nat -> SendEffect): seq<Action>
    requires 1 <= k <= MAX_ATTEMPTS
    decreases MAX_ATTEMPTS - k
  {
    [Send(id, effects(k))] + if EnqueueFrom(k, effects).1 == k then [] else SendSteps(k + 1, id, effects)
  }

  /** The gateway's retry loop is a run of the machine: same answer, as many messages. */
  lemma {:induction false} EnqueueIsARun(s: State, id: Id, k: nat, wire: Wire, effects: nat -> SendEffect)
    requires id in s.jobs && 1 <= k <= MAX_ATTEMPTS && s.jobs[id].phase == Sending(k)
    ensures var run, (end, n) := SendSteps(k, id, effects), EnqueueFrom(k, effects);
      && ValidRun(s, run) && id in Exec(s, run).jobs && Exec(s, run).jobs[id].phase == AnswerPhase(end)
      && Exec(s, run).sent - s.sent == |Copies(wire, effects, n)| - |Copies(wire, effects, k - 1)|
    decreases MAX_ATTEMPTS - k
  {
    hide Apply, ValidRun, Exec, StepSend, EnqueueFrom, SendSteps, AfterSend, AnswerPhase, LeavesCopy, Copies, Enabled;
    var a, t := Send(id, effects(k)), StepSend(s, id, effects(k));
    OneSend(s, id, k, effects(k));
    AttemptEnds(k, id, effects);
    OneMoreCopy(wire, effects, k);
    if t.jobs[id].phase.Sending? {
      EnqueueIsARun(t, id, k + 1, wire, effects);
      ExecCons(s, a, SendSteps(k + 1, id, effects));
    } else {
      EmptyRun(t);
      ExecCons(s, a, []);
    }
  }

  /** An attempt goes on to the next one, or ends the loop with its answer. */
  lemma AttemptEnds(k: nat, id: Id, effects: nat -> SendEffect)
    requires 1 <= k <= MAX_ATTEMPTS
    ensures var after, a := AfterSend(k, effects(k)), [Send(id, effects(k))];
      if after.Sending? then
        k < MAX_ATTEMPTS && after == Sending(k + 1) && EnqueueFrom(k, effects) == EnqueueFrom(k + 1, effects)
        && SendSteps(k, id, effects) == a + SendSteps(k + 1, id, effects)
      else
        EnqueueFrom(k, effects).1 == k && after == AnswerPhase(EnqueueFrom(k, effects).0)
        && SendSteps(k, id, effects) == a + []
  {
    if k < MAX_ATTEMPTS { EnqueueEnds(k + 1, effects); }
  }

  lemma OneMoreCopy(wire: Wire, effects: nat -> SendEffect, k: nat)
    requires k >= 1
    ensures |Copies(wire, effects, k)| == |Copies(wire, effects, k - 1)| + if LeavesCopy(effects(k)) then 1 else 0
  {}

  lemma OneSend(s: State, id: Id, k: nat, e: SendEffect)
    requires id in s.jobs && s.jobs[id].phase == Sending(k)
    ensures Enabled(s, Send(id, e))
    ensures var t := StepSend(s, id, e);
      && Apply(s, Send(id, e)) == t && id in t.jobs && t.sent == s.sent + (if LeavesCopy(e) then 1 else 0)
      && t.jobs[id].phase == AfterSend(k, e)
  {
    hide AfterSend;
  }

  lemma EmptyRun(s: State)
    ensures ValidRun(s, []) && Exec(s, []) == s
  {}

  // ---------------------------------------------------------------- how deliveries end, read off the run

  /** Every message and every scan: how the processing ends, and when it touches a store. */
  lemma {:induction false} ProcessEndsExactly(
    configured: bool, cosmos: map<Id, Doc>, local: map<Id, Doc>, wire: Wire, scan: Scan, effects: nat -> Effect,
    localWorks: bool)
    ensures var end := Process(configured, cosmos, local, wire, scan, effects, localWorks);
      && (end.phase == Raised <==> wire.Unreadable? || (wire.WellFormed() && scan.ScanRaised?))
      && (end.phase == Finished(Dropped) <==> !wire.WellFormed() && !wire.Unreadable?)
      && (end.phase == Finished(BlockedSsrf) <==> wire.WellFormed() && scan.ScanBlocked?)
      && (end.phase == Finished(NoPlugins) <==> wire.WellFormed() && scan.ScanWithoutPlugins?)
      && (wire.WellFormed() && scan.ScanDone? <==>
            exists where :: end.phase == Finished(Outcome.Persisted(where)))
      && (!(wire.WellFormed() && scan.ScanDone?) ==> end.cosmos == cosmos && end.local == local)
  {
    hide TargetUrl, PersistFrom;
    if wire.WellFormed() && scan.ScanDone? {
      var end := Process(configured, cosmos, local, wire, scan, effects, localWorks);
      assert end.phase == Finished(Outcome.Persisted(end.phase.outcome.where));
    }
  }

  /** The action is the worker's own, between taking a message and settling it. */
  predicate ActsFor(a: Action, w: nat) { (a.RunScan? || a.Write? || a.WriteLocal?) && a.worker == w }

  /** What the worker has done with the message it took last. */
  function Since(run: seq<Action>, w: nat): seq<Action> {
    if run == [] then []
    else
      var front, a := run[..|run| - 1], run[|run| - 1];
      if a.Deliver? && a.worker == w then [a] else if ActsFor(a, w) then Since(front, w) + [a] else Since(front, w)
  }

  /** The worker's phase is what its actions since the delivery make it. */
  ghost predicate Told(worker: Worker, w: nat, since: seq<Action>) {
    && Deliver(worker.msg, w) in since
    && (worker.phase.Scanning? <==> forall scan :: RunScan(w, scan) !in since)
    && (worker.phase.Raised? <==>
          exists scan :: RunScan(w, scan) in since &&
            (worker.wire.Unreadable? || (worker.wire.WellFormed() && scan.ScanRaised?)))
    && (worker.phase == Finished(BlockedSsrf) <==> worker.wire.WellFormed() && RunScan(w, ScanBlocked) in since)
    && (worker.phase == Finished(NoPlugins) <==> worker.wire.WellFormed() && RunScan(w, ScanWithoutPlugins) in since)
    && (worker.phase == Finished(Outcome.Persisted(Nowhere)) <==> WriteLocal(w, false) in since)
    && (worker.phase == Finished(Outcome.Persisted(Local)) <==> WriteLocal(w, true) in since)
  }

  ghost predicate AllTold(s: State, run: seq<Action>) {
    forall w :: w in s.workers ==> Told(s.workers[w], w, Since(run, w))
  }

  /** A worker that does not act, or that only another one's step concerns, stays as it is. */
  lemma OthersStay(s: State, a: Action, w: nat)
    requires Enabled(s, a) && w in Apply(s, a).workers && !ActsFor(a, w) && !(a.Deliver? && a.worker == w)
    ensures w in s.workers && Apply(s, a).workers[w] == s.workers[w]
  {}

  lemma DeliveredTold(msg: nat, wire: Wire, w: nat)
    ensures Told(Worker(msg, wire, Scanning), w, [Deliver(msg, w)])
  {}

  lemma ScannedTold(worker: Worker, w: nat, since: seq<Action>, configured: bool, scan: Scan)
    requires Told(worker, w, since) && worker.phase.Scanning?
    ensures Told(worker.(phase := AfterScan(configured, worker.wire, scan)), w, since + [RunScan(w, scan)])
  {
    hide TargetUrl;
    assert RunScan(w, scan) in since + [RunScan(w, scan)];
  }

  lemma WrittenTold(worker: Worker, w: nat, since: seq<Action>, a: Action, phase: WorkerPhase)
    requires Told(worker, w, since)
    requires a.Write? && worker.phase.Writing?
    requires phase.Writing? || phase.WritingLocally? || phase == Finished(Outcome.Persisted(Cosmos))
    ensures Told(worker.(phase := phase), w, since + [a])
  {
    assert forall b :: b in since ==> b in since + [a];
    assert forall scan :: RunScan(w, scan) in since + [a] <==> RunScan(w, scan) in since;
  }

  lemma StoredTold(worker: Worker, w: nat, since: seq<Action>, works: bool)
    requires Told(worker, w, since) && worker.phase.WritingLocally?
    ensures var phase := Finished(Outcome.Persisted(if works then Local else Nowhere));
      Told(worker.(phase := phase), w, since + [WriteLocal(w, works)])
  {
    var a := WriteLocal(w, works);
    assert a in since + [a];
    assert forall scan :: RunScan(w, scan) in since + [a] <==> RunScan(w, scan) in since;
  }

  lemma ToldStep(s: State, run: seq<Action>, a: Action)
    requires Enabled(s, a) && AllTold(s, run)
    ensures AllTold(Apply(s, a), run + [a])
  {
    hide HostPasses, TargetUrl, Told, AfterScan;
    assert (run + [a])[..|run|] == run;
    var t := Apply(s, a);
    forall w | w in t.workers ensures Told(t.workers[w], w, Since(run + [a], w)) {
      if a.Deliver? && a.worker == w {
        DeliveredTold(a.msg, s.queue[a.msg], w);
      } else if ActsFor(a, w) {
        match a {
          case RunScan(_, scan) => ScannedTold(s.workers[w], w, Since(run, w), s.configured, scan);
          case Write(_, e) => WrittenTold(s.workers[w], w, Since(run, w), a, t.workers[w].phase);
          case WriteLocal(_, works) => StoredTold(s.workers[w], w, Since(run, w), works);
        }
      } else {
        OthersStay(s, a, w);
      }
    }
  }

  lemma LastStep(s: State, run: seq<Action>)
    requires ValidRun(s, run) && run != []
    ensures var front, a := run[..|run| - 1], run[|run| - 1];
      ValidRun(s, front) && Enabled(Exec(s, front), a) && Exec(s, run) == Apply(Exec(s, front), a)
    decreases |run|
  {
    hide Apply, Enabled;
    if |run| == 1 {
      assert run[1..] == [] && run[..0] == [];
    } else {
      LastStep(Apply(s, run[0]), run[1..]);
      assert run[1..][..|run| - 2] == run[..|run| - 1][1..];
    }
  }

  lemma {:induction false} WorkersTold(configured: bool, run: seq<Action>)
    requires ValidRun(Init(configured), run)
    ensures AllTold(Exec(Init(configured), run), run)
  {
    hide Apply, Enabled, Told, Since;
    if run != [] {
      LastStep(Init(configured), run);
      WorkersTold(configured, run[..|run| - 1]);
      ToldStep(Exec(Init(configured), run[..|run| - 1]), run[..|run| - 1], run[|run| - 1]);
      assert run == run[..|run| - 1] + [run[|run| - 1]];
    }
  }

  lemma {:induction false} PrefixValid(s: State, run: seq<Action>, n: nat)
    requires ValidRun(s, run) && n <= |run|
    ensures ValidRun(s, run[..n])
    decreases |run|
  {
    hide Apply, Enabled;
    if n < |run| {
      LastStep(s, run);
      PrefixValid(s, run[..|run| - 1], n);
      assert run[..|run| - 1][..n] == run[..n];
    } else {
      assert run[..n] == run;
    }
  }

  /** The worker's last scan left no result: it was blocked, had nothing to run, or even the local write failed. */
  predicate LeftNothing(since: seq<Action>, w: nat) {
    RunScan(w, ScanBlocked) in since || RunScan(w, ScanWithoutPlugins) in since || WriteLocal(w, false) in since
  }

  /** The step takes a message of the job off the queue for good, by the broker or after a run without result. */
  predicate EndedBy(s: State, since: seq<Action>, a: Action, id: Id) {
    || (a.DeadLetter? && a.msg in s.queue && s.queue[a.msg].Json? && s.queue[a.msg].jobId == id)
    || (a.Settle? && a.acked && a.worker in s.workers && s.workers[a.worker].msg in s.queue
        && s.workers[a.worker].wire.WellFormed() && s.workers[a.worker].wire.jobId == id
        && LeftNothing(since, a.worker))
  }

  lemma EndedStep(s: State, run: seq<Action>, a: Action, id: Id)
    requires Enabled(s, a) && AllTold(s, run) && Inv(s)
    ensures id in Apply(s, a).ended <==>
      id in s.ended || EndedBy(s, if a.Settle? then Since(run, a.worker) else [], a, id)
  {
    hide HostPasses, TargetUrl, Since;
    if a.Settle? {
      var worker := s.workers[a.worker];
      assert Told(worker, a.worker, Since(run, a.worker)) && WorkerOk(s, worker);
    }
  }

  /** The `n`-th step of the run ends the job without a result. */
  ghost predicate EndedAt(configured: bool, run: seq<Action>, n: nat, id: Id)
    requires ValidRun(Init(configured), run)
  {
    && n < |run|
    && (PrefixValid(Init(configured), run, n);
        var since := if run[n].Settle? then Since(run[..n], run[n].worker) else [];
        EndedBy(Exec(Init(configured), run[..n]), since, run[n], id))
  }

  /**
    A job is given up exactly when the broker dead-letters a message of it, or a message of it is
    completed after a scan that was blocked or had nothing to run, or whose last write failed too.
   */
  lemma {:induction false} EndedExactly(configured: bool, run: seq<Action>, id: Id)
    requires ValidRun(Init(configured), run)
    ensures id in Exec(Init(configured), run).ended <==> exists n :: EndedAt(configured, run, n, id)
  {
    hide Apply, Enabled, EndedBy, Since, Inv, AllTold;
    if run != [] {
      var k := |run| - 1;
      var front, a := run[..k], run[k];
      LastStep(Init(configured), run);
      EndedExactly(configured, front, id);
      WorkersTold(configured, front);
      Reachable(configured, front);
      EndedStep(Exec(Init(configured), front), front, a, id);
      forall n: nat | n < k ensures EndedAt(configured, run, n, id) <==> EndedAt(configured, front, n, id) {
        assert front[..n] == run[..n] && front[n] == run[n];
      }
      if EndedAt(configured, run, k, id) { assert id in Exec(Init(configured), run).ended; }
      if id in Exec(Init(configured), run).ended {
        if id in Exec(Init(configured), front).ended {
          var n :| EndedAt(configured, front, n, id);
          assert EndedAt(configured, run, n, id);
        } else {
          assert EndedAt(configured, run, k, id);
        }
      }
    }
  }

  /** Every scan for a delivery of the message raises. */
  ghost predicate ScansRaise(run: seq<Action>, m: nat) {
    forall n: nat, w, scan ::
      n < |run| && run[n] == RunScan(w, scan) && Deliver(m, w) in Since(run[..n], w) ==> scan.ScanRaised?
  }

  ghost predicate OnlyRaised(s: State, m: nat) {
    forall w :: w in s.workers && s.workers[w].msg == m && s.workers[w].wire.WellFormed() ==>
      s.workers[w].phase.Scanning? || s.workers[w].phase.Raised?
  }

  lemma RaisedStep(s: State, run: seq<Action>, a: Action, m: nat)
    requires Enabled(s, a) && AllTold(s, run) && OnlyRaised(s, m)
    requires a.RunScan? && Deliver(m, a.worker) in Since(run, a.worker) ==> a.scan.ScanRaised?
    ensures OnlyRaised(Apply(s, a), m)
  {
    hide HostPasses, TargetUrl, Since, Apply;
    var t := Apply(s, a);
    forall w | w in t.workers && t.workers[w].msg == m && t.workers[w].wire.WellFormed()
      ensures t.workers[w].phase.Scanning? || t.workers[w].phase.Raised?
    {
      if !ActsFor(a, w) && !(a.Deliver? && a.worker == w) {
        OthersStay(s, a, w);
      } else {
        ActedPhase(s, a, w);
        if !a.Deliver? { assert Told(s.workers[w], w, Since(run, w)); }
      }
    }
  }

  lemma ActedPhase(s: State, a: Action, w: nat)
    requires Enabled(s, a) && w in Apply(s, a).workers && (ActsFor(a, w) || (a.Deliver? && a.worker == w))
    ensures var worker := Apply(s, a).workers[w];
      && (a.Deliver? ==> worker.phase.Scanning?)
      && (!a.Deliver? ==> w in s.workers && worker.msg == s.workers[w].msg && worker.wire == s.workers[w].wire)
      && (a.RunScan? && a.scan.ScanRaised? && worker.wire.WellFormed() ==> worker.phase.Raised?)
      && (a.Write? || a.WriteLocal? ==> !s.workers[w].phase.Scanning? && !s.workers[w].phase.Raised?)
  {
    hide HostPasses, TargetUrl;
  }

  lemma {:induction false} RaisedOnly(configured: bool, run: seq<Action>, m: nat)
    requires ValidRun(Init(configured), run) && ScansRaise(run, m)
    ensures OnlyRaised(Exec(Init(configured), run), m)
  {
    hide Apply, Enabled, Since, AllTold, OnlyRaised;
    if run == [] {
      NobodyRaised(configured, m);
    } else {
      var k := |run| - 1;
      var front := run[..k];
      LastStep(Init(configured), run);
      forall n: nat | n < k ensures front[..n] == run[..n] && front[n] == run[n] {}
      RaisedOnly(configured, front, m);
      WorkersTold(configured, front);
      RaisedStep(Exec(Init(configured), front), front, run[k], m);
    }
  }

  lemma NobodyRaised(configured: bool, m: nat)
    ensures OnlyRaised(Init(configured), m)
  {}

  /** While every scan of a job's message raises, only the broker takes it off the queue: it is delivered again. */
  lemma {:induction false} RaisingScansKeepMessage(configured: bool, run: seq<Action>, more: seq<Action>, m: nat)
    requires ValidRun(Init(configured), run) && ValidRun(Exec(Init(configured), run), more)
    requires var s := Exec(Init(configured), run); m in s.queue && s.queue[m].WellFormed()
    requires ScansRaise(run + more, m) && DeadLetter(m) !in more
    ensures var s, t := Exec(Init(configured), run), Exec(Exec(Init(configured), run), more);
      m in t.queue && t.queue[m] == s.queue[m]
    decreases |more|
  {
    hide Apply, Enabled, Since, ScansRaise, Inv, OnlyRaised;
    if more != [] {
      var s, k := Exec(Init(configured), run), |more| - 1;
      var front, a := more[..k], more[k];
      LastStep(s, more);
      ExecAppend(Init(configured), run, front);
      PrefixRaises(run + more, run + front, m);
      RaisingScansKeepMessage(configured, run, front, m);
      Reachable(configured, run + front);
      RaisedOnly(configured, run + front, m);
      KeptStep(Exec(s, front), a, m);
    }
  }

  lemma PrefixRaises(run: seq<Action>, front: seq<Action>, m: nat)
    requires ScansRaise(run, m) && front <= run
    ensures ScansRaise(front, m)
  {
    hide Since;
    forall n: nat | n < |front| ensures front[..n] == run[..n] && front[n] == run[n] {}
  }

  lemma KeptStep(s: State, a: Action, m: nat)
    requires Enabled(s, a) && Inv(s) && OnlyRaised(s, m) && a != DeadLetter(m)
    requires m in s.queue && s.queue[m].WellFormed()
    ensures m in Apply(s, a).queue && Apply(s, a).queue[m] == s.queue[m]
  {
    hide HostPasses, TargetUrl, JobsOk, StoresOk, Conserved;
    if a.Settle? { assert WorkerOk(s, s.workers[a.worker]); }
  }

  // ---------------------------------------------------------------- progress

  function CompletingRun(configured: bool, m: nat, w: nat, body: string): seq<Action> {
    [Deliver(m, w), RunScan(w, ScanDone(body)), if configured then Write(w, Works) else WriteLocal(w, true)]
  }

  /**
    In every state, a queued job can still get its result, from any idle worker and whatever the
    other workers are doing.
  */
  lemma {:induction false} QueuedJobsCanComplete(s: State, m: nat, w: nat, body: string)
    requires m in s.queue && s.queue[m].WellFormed() && w !in s.workers
    ensures var run, id := CompletingRun(s.configured, m, w, body), s.queue[m].jobId;
      ValidRun(s, run) && (id in Exec(s, run).cosmos || id in Exec(s, run).local)
  {
    hide HostPasses, TargetUrl;
    var run := CompletingRun(s.configured, m, w, body);
    var s1 := Apply(s, run[0]);
    var s2 := Apply(s1, run[1]);
    ExecCons(s2, run[2], []);
    ExecCons(s1, run[1], [run[2]] + []);
    ExecCons(s, run[0], [run[1]] + ([run[2]] + []));
    assert run == [run[0]] + ([run[1]] + ([run[2]] + []));
  }

  /** A finished delivery can be completed, which takes its message away; a raised one only given back. */
  lemma {:induction false} DeliveriesSettle(s: State, w: nat)
    requires w in s.workers && (s.workers[w].phase.Finished? || s.workers[w].phase.Raised?)
    ensures Enabled(s, Settle(w, true)) <==> s.workers[w].phase.Finished?
    ensures s.workers[w].phase.Finished? ==>
      var t := Apply(s, Settle(w, true));
      w !in t.workers && t.queue == s.queue - {s.workers[w].msg} && t.cosmos == s.cosmos && t.local == s.local
    ensures Enabled(s, Settle(w, false))
    ensures var t := Apply(s, Settle(w, false)); t == s.(workers := s.workers - {w})
  {
    if s.workers[w].msg !in s.queue { assert s.queue - {s.workers[w].msg} == s.queue; }
  }

  /** Nothing is assumed of the outside: workers may crash and messages be lost or malformed at any time. */
  lemma {:induction false} AnythingMayHappen(s: State, w: nat, m: nat, wire: Wire)
    ensures w in s.workers ==> Enabled(s, Crash(w)) && Apply(s, Crash(w)) == s.(workers := s.workers - {w})
    ensures m in s.queue ==> Enabled(s, DeadLetter(m)) && Apply(s, DeadLetter(m)).queue == s.queue - {m}
    ensures m in s.queue && w !in s.workers ==> Enabled(s, Deliver(m, w)) && Apply(s, Deliver(m, w)).queue == s.queue
    ensures !wire.WellFormed() ==> Enabled(s, Inject(wire)) && Apply(s, Inject(wire)).queue == s.queue[s.sent := wire]
  {}

  /** A request answered 503 may still be scanned: an ambiguous send leaves its message in the queue. */
  lemma {:induction false} RefusedYetQueued(id: Id, url: string)
    requires id != "" && url != "" && HostPasses(url)
    ensures var sends := Send(id, Sent(WorksButRaises));
      var run := [Submit(id, url, NoCheck), sends, sends, sends];
      && ValidRun(Init(true), run)
      && id in Exec(Init(true), run).jobs && Exec(Init(true), run).jobs[id].phase == Answered503
      && 0 in Exec(Init(true), run).queue && Exec(Init(true), run).queue[0] == Json(url, id)
  {
    hide HostPasses, TargetUrl;
    var sends := Send(id, Sent(WorksButRaises));
    var run := [Submit(id, url, NoCheck), sends, sends, sends];
    var s0 := Init(true);
    var s1 := Apply(s0, run[0]);
    var s2 := Apply(s1, sends);
    var s3 := Apply(s2, sends);
    ExecCons(s3, sends, []);
    ExecCons(s2, sends, [sends] + []);
    ExecCons(s1, sends, [sends] + ([sends] + []));
    ExecCons(s0, run[0], [sends] + ([sends] + ([sends] + [])));
    assert run == [run[0]] + ([sends] + ([sends] + ([sends] + [])));
  }

  // ---------------------------------------------------------------- blocked targets that are scanned

  function AcceptingRun(id: Id, url: string, body: string): seq<Action> {
    [Submit(id, url, NoCheck), Send(id, Sent(Works))] + CompletingRun(true, 0, 0, body)
  }

  /** Whatever url passes the gateway's check can be scanned and its result stored. */
  lemma {:induction false} PassingUrlIsScanned(id: Id, url: string, body: string)
    requires id != "" && url != "" && HostPasses(url)
    ensures var run := AcceptingRun(id, url, body);
      && ValidRun(Init(true), run) && id in Exec(Init(true), run).cosmos
      && Exec(Init(true), run).cosmos[id] == Doc(id, TargetUrl(url), None, true, body)
  {
    hide HostPasses, TargetUrl;
    var run := AcceptingRun(id, url, body);
    var s0 := Init(true);
    var s1 := Apply(s0, run[0]);
    var s2 := Apply(s1, run[1]);
    var s3 := Apply(s2, run[2]);
    var s4 := Apply(s3, run[3]);
    ExecCons(s4, run[4], []);
    ExecCons(s3, run[3], [run[4]] + []);
    ExecCons(s2, run[2], [run[3]] + ([run[4]] + []));
    ExecCons(s1, run[1], [run[2]] + ([run[3]] + ([run[4]] + [])));
    ExecCons(s0, run[0], [run[1]] + ([run[2]] + ([run[3]] + ([run[4]] + []))));
    assert run == [run[0]] + ([run[1]] + ([run[2]] + ([run[3]] + ([run[4]] + []))));
  }

  /** For every blocklisted host in its usual spelling some url has it scanned and stored. */
  lemma {:induction false} BlockedTargetIsScanned(id: Id, host: string, body: string)
    requires id != "" && PlainHost(host) && IsBlocklisted(host)
    ensures var url := UrlInQuery(host);
      var run := AcceptingRun(id, url, body);
      && TargetHost(url) == Some(host) && TargetBlocked(url)
      && ValidRun(Init(true), run) && id in Exec(Init(true), run).cosmos
      && Exec(Init(true), run).cosmos[id] == Doc(id, TargetUrl(url), None, true, body)
  {
    hide IsBlocklisted, PlainHost, CheckedHost, TargetBlocked, TargetHost, Exec, ValidRun;
    UrlInQueryPasses(host);
    PassingUrlIsScanned(id, UrlInQuery(host), body);
  }
}
