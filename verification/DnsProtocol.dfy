/** The threaded resolver of source/cdns.c as an interleaving of the main thread and one worker:
    two mutex-protected queues, a condition variable and a wake-up pipe.

  Every pthread call and every queue operation is a step of its own. A schedule is any sequence of
  steps; a step that is not enabled (a lock that is taken, say) leaves the state as it is.
 */
module DnsProtocol {
  import opened Lists
  import opened Options

  /** `id` counts submissions; `taken` is how many requests the worker had dequeued at submission. */
  datatype Request = Request(id: nat, urgent: bool, taken: nat)

  datatype Holder = Free | Main | Worker

  /** Where the worker is in the loop of start_dns_thread. */
  datatype WorkerPc =
    | TryQuit                      // about to try the quit mutex
    | LockPending
    | TakePending                  // holds the pending lock
    | Waiting(signalled: bool)     // in pthread_cond_wait
    | Woken                        // holds the pending lock again
    | ReleasePending(job: Request)
    | Lookup(job: Request)
    | LockFinished(job: Request)
    | PutFinished(job: Request)    // holds the finished lock
    | ReleaseFinished
    | WritePipe
    | Dead

  /** What the main thread is doing. At `Rest` it is in its select loop, or in a callback if it holds a job. */
  datatype MainAct =
    | Rest
    | AddLock(urgent: bool)
    | AddPut(urgent: bool)         // holds the pending lock
    | AddSignal
    | AddRelease
    | DrainTry                     // about to try the finished lock
    | DrainTake                    // holds the finished lock
    | DrainRelease
    | StopSignal                   // has released the quit mutex
    | Stopped

  datatype State = State(
    pending: seq<Request>, finished: seq<Request>, delivered: seq<Request>, pipe: nat,
    pendingLock: Holder, finishedLock: Holder, quitReleased: bool,
    worker: WorkerPc, job: Option<Request>, act: MainAct, submitted: nat)

  /** After start_dns: the queues empty, the quit mutex held by main. */
  const START := State([], [], [], 0, Free, Free, false, TryQuit, None, Rest, 0)

  /** A choice of the scheduler. `Submit`, `Poll` and `Stop` begin something main may do at rest. */
  datatype Step = WorkerStep | SpuriousWakeup | Submit(urgent: bool) | Poll | Stop | MainStep

  function ApplyWorker(s: State): State {
    match s.worker
    case TryQuit => s.(worker := if s.quitReleased then Dead else LockPending)
    case LockPending => if s.pendingLock == Free then s.(pendingLock := Worker, worker := TakePending) else s
    case TakePending =>
      // the condition wait gives the lock back and sleeps in one step
      if s.pending == [] then s.(pendingLock := Free, worker := Waiting(false))
      else s.(pending := s.pending[1..], worker := ReleasePending(s.pending[0]))
    case Waiting(signalled) =>
      if signalled && s.pendingLock == Free then s.(pendingLock := Worker, worker := Woken) else s
    case Woken => s.(pendingLock := Free, worker := TryQuit)
    case ReleasePending(r) => s.(pendingLock := Free, worker := Lookup(r))
    case Lookup(r) => s.(worker := LockFinished(r))
    case LockFinished(r) =>
      if s.finishedLock == Free then s.(finishedLock := Worker, worker := PutFinished(r)) else s
    case PutFinished(r) => s.(finished := s.finished + [r], worker := ReleaseFinished)
    case ReleaseFinished => s.(finishedLock := Free, worker := WritePipe)
    case WritePipe => s.(pipe := s.pipe + 1, worker := TryQuit)
    case Dead => s
  }

  /** pthread_cond_signal: it reaches the worker only if it is waiting. */
  function Signal(w: WorkerPc): WorkerPc {
    if w.Waiting? then Waiting(true) else w
  }

  /** Requests the worker has dequeued so far. */
  function Taken(s: State): nat {
    |s.delivered| + |Holding(s.job)| + |s.finished| + |WorkerHolds(s)|
  }

  function ApplyMain(s: State): State {
    match s.act
    case Rest => // a callback returns; the drain goes on
      if s.job.Some? then s.(delivered := s.delivered + [s.job.value], job := None, act := DrainTry) else s
    case AddLock(u) => if s.pendingLock == Free then s.(pendingLock := Main, act := AddPut(u)) else s
    case AddPut(u) =>
      var r := Request(s.submitted, u, Taken(s));
      s.(pending := if u then [r] + s.pending else s.pending + [r], submitted := s.submitted + 1, act := AddSignal)
    case AddSignal => s.(worker := Signal(s.worker), act := AddRelease)
    case AddRelease => s.(pendingLock := Free, act := Rest)
    case DrainTry => if s.finishedLock == Free then s.(finishedLock := Main, act := DrainTake) else s.(act := Rest)
    case DrainTake =>
      if s.finished == [] then s.(act := DrainRelease)
      else s.(job := Some(s.finished[0]), finished := s.finished[1..], act := DrainRelease)
    case DrainRelease => s.(finishedLock := Free, act := Rest)
    case StopSignal => s.(worker := Signal(s.worker), act := Stopped)
    case Stopped => s
  }

  function Apply(s: State, step: Step): State {
    match step
    case WorkerStep => ApplyWorker(s)
    case SpuriousWakeup =>
      if s.worker.Waiting? && s.pendingLock == Free then s.(pendingLock := Worker, worker := Woken) else s
    case Submit(u) => if s.act == Rest then s.(act := AddLock(u)) else s
    case Poll => if s.act == Rest && s.job.None? && s.pipe > 0 then s.(pipe := s.pipe - 1, act := DrainTry) else s
    case Stop => if s.act == Rest && s.job.None? then s.(quitReleased := true, act := StopSignal) else s
    case MainStep => ApplyMain(s)
  }

  function Run(s: State, steps: seq<Step>): State
    decreases |steps|
  {
    if steps == [] then s else Run(Apply(s, steps[0]), steps[1..])
  }

  // ---------- where requests are ----------

  function Holding(job: Option<Request>): seq<Request> {
    if job.Some? then [job.value] else []
  }

  function WorkerHolds(s: State): seq<Request> {
    match s.worker
    case ReleasePending(r) => [r]
    case Lookup(r) => [r]
    case LockFinished(r) => [r]
    case PutFinished(r) => [r]
    case _ => []
  }

  /** Every request there is, in the order of delivery. */
  function Pipeline(s: State): seq<Request> {
    s.delivered + Holding(s.job) + s.finished + WorkerHolds(s) + s.pending
  }

  // ---------- the invariant ----------

  predicate WorkerHasPending(w: WorkerPc) {
    w.TakePending? || w.Woken? || w.ReleasePending?
  }

  predicate WorkerHasFinished(w: WorkerPc) {
    w.PutFinished? || w.ReleaseFinished?
  }

  predicate MainHasPending(a: MainAct) {
    a.AddPut? || a == AddSignal || a == AddRelease
  }

  predicate MainHasFinished(a: MainAct) {
    a == DrainTake || a == DrainRelease
  }

  /** Mutual exclusion: each lock is held by whoever is in its critical section. */
  predicate LocksOk(s: State) {
    && (WorkerHasPending(s.worker) <==> s.pendingLock == Worker)
    && (MainHasPending(s.act) <==> s.pendingLock == Main)
    && (WorkerHasFinished(s.worker) <==> s.finishedLock == Worker)
    && (MainHasFinished(s.act) <==> s.finishedLock == Main)
  }

  /** The worker is past taking the finished lock and will write to the pipe. */
  predicate Committed(w: WorkerPc) {
    w.PutFinished? || w.ReleaseFinished? || w.WritePipe?
  }

  /** Main is going to look at the finished queue (again). */
  predicate Draining(s: State) {
    s.job.Some? || s.act == DrainTry || s.act == DrainTake
  }

  /** A finished lookup is never stranded. */
  predicate NotStranded(s: State) {
    s.finished != [] ==> s.pipe > 0 || Committed(s.worker) || Draining(s)
  }

  /** The worker never sleeps on work it was not told of. */
  predicate NotAsleep(s: State) {
    s.worker == Waiting(false) && s.pending != [] ==> s.act == AddSignal
  }

  /** Who may be ahead of whom. */
  ghost predicate Fair(p: seq<Request>) {
    // only urgent requests overtake
    && (forall i, j | 0 <= i < j < |p| && p[i].id > p[j].id :: p[i].urgent)
    // and an urgent request overtakes every earlier one the worker had not dequeued yet
    && (forall i, j | 0 <= i < j < |p| && p[j].urgent && p[i].id < p[j].id :: i < p[j].taken)
  }

  /** Main takes a job only while it drains, and stops draining only at an empty queue. */
  predicate DrainOk(s: State) {
    && (s.act == DrainTry || s.act == DrainTake || s.act.StopSignal? || s.act.Stopped? ==> s.job.None?)
    && (s.act == DrainRelease && s.job.None? ==> s.finished == [])
  }

  ghost predicate Inv(s: State) {
    && LocksOk(s) && DrainOk(s) && NotStranded(s) && NotAsleep(s)
    && |Pipeline(s)| == s.submitted && Distinct(Pipeline(s))
    && Fair(Pipeline(s)) && TakenBy(Pipeline(s), Taken(s))
  }

  // ---------- every step keeps it ----------

  lemma WorkerPipeline(s: State)
    requires LocksOk(s)
    ensures var t := ApplyWorker(s); Pipeline(t) == Pipeline(s) && t.submitted == s.submitted
  {
    var front := s.delivered + Holding(s.job) + s.finished;
    match s.worker
    case TakePending =>
      if s.pending != [] {
        assert [s.pending[0]] + s.pending[1..] == s.pending;
        assert front + [] + s.pending == front + [s.pending[0]] + s.pending[1..];
      }
    case PutFinished(r) =>
      assert front + [r] + s.pending == s.delivered + Holding(s.job) + (s.finished + [r]) + [] + s.pending;
    case _ =>
  }

  lemma MainPipeline(s: State)
    requires LocksOk(s) && DrainOk(s) && !s.act.AddPut?
    ensures var t := ApplyMain(s); Pipeline(t) == Pipeline(s) && t.submitted == s.submitted
  {
    var back := WorkerHolds(s) + s.pending;
    match s.act
    case Rest =>
      if s.job.Some? {
        assert s.delivered + [s.job.value] == s.delivered + [s.job.value] + [];
      }
    case DrainTake =>
      if s.finished != [] {
        var x := s.finished[0];
        assert s.delivered + [] + s.finished == s.delivered + [x] + s.finished[1..];
      }
    case AddSignal => assert WorkerHolds(ApplyMain(s)) == WorkerHolds(s);
    case StopSignal => assert WorkerHolds(ApplyMain(s)) == WorkerHolds(s);
    case _ =>
  }

  /** Submitting inserts one request: at the end, or where the worker will take it next. */
  lemma SubmitPipeline(s: State)
    requires s.act.AddPut?
    ensures var t := ApplyMain(s); var r := Request(s.submitted, s.act.urgent, Taken(s));
            t.submitted == s.submitted + 1 && Taken(s) <= |Pipeline(s)|
            && Pipeline(t) == (if s.act.urgent then Pipeline(s)[..Taken(s)] + [r] + Pipeline(s)[Taken(s)..]
                               else Pipeline(s) + [r])
  {
    var front := s.delivered + Holding(s.job) + s.finished + WorkerHolds(s);
    assert Pipeline(s) == front + s.pending && |front| == Taken(s);
    var r := Request(s.submitted, s.act.urgent, Taken(s));
    assert Pipeline(ApplyMain(s)) == front + ApplyMain(s).pending;
    assert Pipeline(s)[..Taken(s)] == front && Pipeline(s)[Taken(s)..] == s.pending;
  }

  /** No step takes a request back. */
  lemma TakenGrows(s: State, step: Step)
    requires LocksOk(s) && DrainOk(s)
    ensures Taken(s) <= Taken(Apply(s, step))
  {
    if step == WorkerStep {
      WorkerPipeline(s);
      assert |Pipeline(s)| == Taken(s) + |s.pending|;
      assert |ApplyWorker(s).pending| <= |s.pending|;
    }
  }

  /** Nor does any step move what has been taken: the requests the worker has dequeued, and their places in
      the order of delivery, are settled. */
  lemma TakenStaysStep(s: State, step: Step)
    requires LocksOk(s) && DrainOk(s)
    ensures var t := Apply(s, step);
            && Taken(s) <= Taken(t) && Taken(s) <= |Pipeline(s)| && Taken(t) <= |Pipeline(t)|
            && Pipeline(t)[..Taken(s)] == Pipeline(s)[..Taken(s)]
  {
    hide Pipeline, Taken;
    TakenGrows(s, step);
    TakenInPipeline(s);
    TakenInPipeline(Apply(s, step));
    if step == WorkerStep {
      WorkerPipeline(s);
    } else if step == MainStep && s.act.AddPut? {
      SubmitPipeline(s);
    } else if step == MainStep {
      MainPipeline(s);
    } else {
      SamePipeline(s, step);
    }
  }

  lemma TakenInPipeline(s: State)
    ensures Taken(s) <= |Pipeline(s)|
  {
  }

  lemma {:induction false} TakenStays(s: State, steps: seq<Step>)
    requires LocksOk(s) && DrainOk(s)
    ensures var t := Run(s, steps);
            && Taken(s) <= Taken(t) && Taken(s) <= |Pipeline(s)| && Taken(t) <= |Pipeline(t)|
            && Pipeline(t)[..Taken(s)] == Pipeline(s)[..Taken(s)]
    decreases |steps|
  {
    hide Pipeline, Taken, LocksOk, DrainOk;
    TakenInPipeline(s);
    if steps != [] {
      var t := Apply(s, steps[0]);
      LocksStep(s, steps[0]);
      DrainStep(s, steps[0]);
      TakenStaysStep(s, steps[0]);
      TakenStays(t, steps[1..]);
      PrefixOfPrefix(Pipeline(s), Pipeline(t), Pipeline(Run(s, steps)), Taken(s), Taken(t));
    }
  }

  lemma PrefixOfPrefix(p: seq<Request>, q: seq<Request>, r: seq<Request>, m: nat, n: nat)
    requires m <= n <= |q| && m <= |p| && n <= |r| && q[..m] == p[..m] && r[..n] == q[..n]
    ensures r[..m] == p[..m]
  {
    assert r[..m] == r[..n][..m];
    assert q[..m] == q[..n][..m];
  }

  ghost predicate TakenBy(p: seq<Request>, k: nat) {
    forall i | 0 <= i < |p| :: p[i].taken <= k
  }

  ghost predicate Distinct(p: seq<Request>) {
    && (forall i | 0 <= i < |p| :: p[i].id < |p|)
    && (forall i, j | 0 <= i < j < |p| :: p[i].id != p[j].id)
  }

  lemma InsertDistinct(p: seq<Request>, at: nat, r: Request)
    requires at <= |p| && Distinct(p) && TakenBy(p, r.taken) && r.id == |p|
    ensures Distinct(InsertAt(p, at, r)) && TakenBy(InsertAt(p, at, r), r.taken)
  {
    InsertedAt(p, at, r);
    hide InsertAt;
  }

  /** Inserting the newest request keeps the order fair. */
  lemma InsertFair(p: seq<Request>, at: nat, r: Request)
    requires at <= |p| && Fair(p) && Distinct(p) && TakenBy(p, r.taken)
    requires r.id == |p| && r.taken <= |p| && at == (if r.urgent then r.taken else |p|)
    ensures Fair(InsertAt(p, at, r))
  {
    InsertedAt(p, at, r);
    hide InsertAt;
    var q := InsertAt(p, at, r);
    forall i, j | 0 <= i < j < |q| && q[i].id > q[j].id
      ensures q[i].urgent
    {
    }
    forall i, j | 0 <= i < j < |q| && q[j].urgent && q[i].id < q[j].id
      ensures i < q[j].taken
    {
    }
  }

  lemma WorkerLocks(s: State)
    requires LocksOk(s)
    ensures LocksOk(ApplyWorker(s))
  {
  }

  lemma MainLocks(s: State)
    requires LocksOk(s)
    ensures LocksOk(ApplyMain(s))
  {
    hide Taken;
  }

  lemma LocksStep(s: State, step: Step)
    requires LocksOk(s)
    ensures LocksOk(Apply(s, step))
  {
    hide ApplyWorker, ApplyMain;
    WorkerLocks(s);
    MainLocks(s);
  }

  lemma DrainWorker(s: State)
    requires LocksOk(s) && DrainOk(s)
    ensures DrainOk(ApplyWorker(s))
  {
  }

  lemma DrainMain(s: State)
    requires LocksOk(s) && DrainOk(s)
    ensures DrainOk(ApplyMain(s))
  {
    hide Taken;
  }

  lemma DrainStep(s: State, step: Step)
    requires LocksOk(s) && DrainOk(s)
    ensures DrainOk(Apply(s, step))
  {
    DrainWorker(s);
    DrainMain(s);
    hide ApplyWorker, ApplyMain, LocksOk;
  }

  lemma StrandedWorker(s: State)
    requires LocksOk(s) && NotStranded(s)
    ensures NotStranded(ApplyWorker(s))
  {
  }

  lemma StrandedMain(s: State)
    requires LocksOk(s) && DrainOk(s) && NotStranded(s)
    ensures NotStranded(ApplyMain(s))
  {
    hide Taken;
  }

  lemma StrandedStep(s: State, step: Step)
    requires LocksOk(s) && DrainOk(s) && NotStranded(s)
    ensures NotStranded(Apply(s, step))
  {
    StrandedWorker(s);
    StrandedMain(s);
    hide ApplyWorker, ApplyMain, LocksOk, DrainOk;
  }

  lemma AsleepStep(s: State, step: Step)
    requires LocksOk(s) && NotAsleep(s)
    ensures NotAsleep(Apply(s, step))
  {
    hide Taken;
  }

  lemma OrderStep(s: State, step: Step)
    requires LocksOk(s) && DrainOk(s) && |Pipeline(s)| == s.submitted && Distinct(Pipeline(s))
    requires Fair(Pipeline(s)) && TakenBy(Pipeline(s), Taken(s))
    ensures var t := Apply(s, step);
            |Pipeline(t)| == t.submitted && Distinct(Pipeline(t)) && Fair(Pipeline(t)) && TakenBy(Pipeline(t), Taken(t))
  {
    hide Fair, Distinct, TakenBy, Pipeline, Taken;
    var t := Apply(s, step);
    TakenGrows(s, step);
    if step == WorkerStep {
      WorkerPipeline(s);
    } else if step == MainStep && s.act.AddPut? {
      SubmitPipeline(s);
      var p := Pipeline(s);
      var r := Request(s.submitted, s.act.urgent, Taken(s));
      assert p[|p|..] == [] && p[..|p|] == p && p + [r] + [] == p + [r];
      var at := if r.urgent then r.taken else |p|;
      assert Pipeline(t) == InsertAt(p, at, r);
      InsertDistinct(p, at, r);
      InsertFair(p, at, r);
    } else if step == MainStep {
      MainPipeline(s);
    } else {
      SamePipeline(s, step);
    }
    TakenByMono(Pipeline(t), Taken(s), Taken(t));
  }

  lemma InvStep(s: State, step: Step)
    requires Inv(s)
    ensures Inv(Apply(s, step))
  {
    hide Fair, Distinct, TakenBy, Pipeline, Taken, Apply, LocksOk, DrainOk, NotStranded, NotAsleep;
    LocksStep(s, step);
    DrainStep(s, step);
    StrandedStep(s, step);
    AsleepStep(s, step);
    OrderStep(s, step);
  }

  lemma SamePipeline(s: State, step: Step)
    requires step != WorkerStep && step != MainStep
    ensures Pipeline(Apply(s, step)) == Pipeline(s) && Apply(s, step).submitted == s.submitted
  {
    assert WorkerHolds(Apply(s, step)) == WorkerHolds(s);
  }

  lemma TakenByMono(p: seq<Request>, k: nat, m: nat)
    ensures k <= m && TakenBy(p, k) ==> TakenBy(p, m)
  {
  }

  lemma {:induction false} InvRun(s: State, steps: seq<Step>)
    requires Inv(s)
    ensures Inv(Run(s, steps))
    decreases |steps|
  {
    if steps != [] {
      InvStep(s, steps[0]);
      InvRun(Apply(s, steps[0]), steps[1..]);
    }
  }

  lemma InvStart()
    ensures Inv(START)
  {
  }

  // ---------- what holds in every run ----------

  /** A finished lookup always has a byte in the pipe to announce it, or the worker is past taking the
      finished lock and has yet to write, or main is going to look. */
  lemma NeverStranded(steps: seq<Step>)
    ensures NotStranded(Run(START, steps)) && LocksOk(Run(START, steps))
  {
    InvStart();
    InvRun(START, steps);
  }

  /** The worker never waits unsignalled while work is pending, except between main's enqueue and its signal. */
  lemma NeverAsleep(steps: seq<Step>)
    ensures NotAsleep(Run(START, steps))
  {
    InvStart();
    InvRun(START, steps);
  }

  /** Each submitted request is in exactly one place, exactly once. */
  lemma NothingLost(steps: seq<Step>, id: nat)
    ensures var s := Run(START, steps);
            |Pipeline(s)| == s.submitted && Distinct(Pipeline(s))
            && (id < s.submitted <==> exists i :: 0 <= i < |Pipeline(s)| && Pipeline(s)[i].id == id)
  {
    InvStart();
    InvRun(START, steps);
    var p := Pipeline(Run(START, steps));
    if id < |p| {
      Pigeonhole(p, id);
    }
  }

  /** n distinct ids below n are all of them. */
  lemma Pigeonhole(p: seq<Request>, id: nat)
    requires Distinct(p) && id < |p|
    ensures exists i :: 0 <= i < |p| && p[i].id == id
  {
    if forall i | 0 <= i < |p| :: p[i].id != id {
      var ids := set i | 0 <= i < |p| :: p[i].id;
      IdsCount(p, |p|);
      SubsetOfRange(ids, |p|, id);
    }
  }

  lemma {:induction false} IdsCount(p: seq<Request>, k: nat)
    requires k <= |p| && (forall i, j | 0 <= i < j < |p| :: p[i].id != p[j].id)
    ensures |set i | 0 <= i < k :: p[i].id| == k
  {
    if k > 0 {
      IdsCount(p, k - 1);
      var small := set i | 0 <= i < k - 1 :: p[i].id;
      assert (set i | 0 <= i < k :: p[i].id) == small + {p[k - 1].id};
    }
  }

  function Range(n: nat): (r: set<nat>)
    ensures |r| == n && (forall x | x in r :: x < n) && (forall x: nat | x < n :: x in r)
  {
    if n == 0 then {} else Range(n - 1) + {n - 1}
  }

  lemma SubsetCount(a: set<nat>, b: set<nat>)
    requires a <= b
    ensures |a| <= |b|
  {
    if a != {} {
      var x :| x in a;
      SubsetCount(a - {x}, b - {x});
    }
  }

  lemma SubsetOfRange(ids: set<nat>, n: nat, id: nat)
    requires (forall x | x in ids :: x < n) && id < n && id !in ids
    ensures |ids| < n
  {
    SubsetCount(ids, Range(n) - {id});
  }

  /** What `taken` records: if an earlier request is delivered before an urgent one, it is one of those the
      worker had dequeued when main put the urgent one in the queue. */
  lemma UrgentOvertakes(before: seq<Step>, after: seq<Step>, i: nat, j: nat)
    requires var s := Run(START, before);
             var t := Run(Apply(s, MainStep), after);
             && s.act == AddPut(true) && i < j < |t.delivered|
             && t.delivered[j].id == s.submitted && t.delivered[i].id < s.submitted
    ensures var s := Run(START, before);
            var t := Run(Apply(s, MainStep), after);
            i < Taken(s) <= |Pipeline(s)| && t.delivered[i] == Pipeline(s)[i]
  {
    var s := Run(START, before);
    var s1 := Apply(s, MainStep);
    var t := Run(s1, after);
    InvStart();
    InvRun(START, before);
    InvStep(s, MainStep);
    InvRun(s1, after);
    TakenStays(s, [MainStep] + after);
    assert Run(s, [MainStep] + after) == t;
    var r := Request(s.submitted, true, Taken(s));
    PutInPipeline(s);
    RequestsStay(s1, after, r);
    OneOfEachId(Pipeline(t), j, r);
    assert Pipeline(t)[i] == t.delivered[i];
    assert Pipeline(t)[..Taken(s)][i] == Pipeline(s)[..Taken(s)][i];
  }

  lemma PutInPipeline(s: State)
    requires s.act.AddPut?
    ensures Request(s.submitted, s.act.urgent, Taken(s)) in Pipeline(Apply(s, MainStep))
  {
    SubmitPipeline(s);
  }

  lemma {:induction false} RequestsStay(s: State, steps: seq<Step>, r: Request)
    requires LocksOk(s) && DrainOk(s) && r in Pipeline(s)
    ensures r in Pipeline(Run(s, steps))
    decreases |steps|
  {
    hide LocksOk, DrainOk;
    if steps != [] {
      LocksStep(s, steps[0]);
      DrainStep(s, steps[0]);
      RequestStays(s, steps[0], r);
      RequestsStay(Apply(s, steps[0]), steps[1..], r);
    }
  }

  lemma RequestStays(s: State, step: Step, r: Request)
    requires LocksOk(s) && DrainOk(s) && r in Pipeline(s)
    ensures r in Pipeline(Apply(s, step))
  {
    hide Pipeline, Taken, LocksOk, DrainOk;
    if step == WorkerStep {
      WorkerPipeline(s);
    } else if step == MainStep && s.act.AddPut? {
      SubmitPipeline(s);
      assert Pipeline(s) == Pipeline(s)[..Taken(s)] + Pipeline(s)[Taken(s)..];
    } else if step == MainStep {
      MainPipeline(s);
    } else {
      SamePipeline(s, step);
    }
  }

  lemma OneOfEachId(p: seq<Request>, j: nat, r: Request)
    requires Distinct(p) && j < |p| && r in p && p[j].id == r.id
    ensures p[j] == r
  {
  }

  ghost predicate Reachable(s: State) {
    exists steps :: Run(START, steps) == s
  }

  lemma {:induction false} RunAppend(s: State, a: seq<Step>, b: seq<Step>)
    ensures Run(s, a + b) == Run(Run(s, a), b)
    decreases |a|
  {
    if a == [] {
      assert a + b == b;
    } else {
      assert (a + b)[1..] == a[1..] + b;
      RunAppend(Apply(s, a[0]), a[1..], b);
    }
  }

  lemma Then(s: State, step: Step) returns (t: State)
    requires Reachable(s)
    ensures t == Apply(s, step) && Reachable(t)
  {
    var steps :| Run(START, steps) == s;
    t := Apply(s, step);
    RunAppend(START, steps, [step]);
    assert Run(s, [step]) == Run(t, []);
    assert Run(START, steps + [step]) == t;
  }

  /** Main submits a normal request from its select loop. */
  lemma SubmitOne(s: State) returns (t: State)
    requires Reachable(s) && s.act == Rest && s.job.None? && s.pendingLock == Free && s.worker == TryQuit
    ensures Reachable(t)
    ensures t == s.(pending := s.pending + [Request(s.submitted, false, Taken(s))], submitted := s.submitted + 1)
  {
    t := Then(s, Submit(false));
    t := Then(t, MainStep);
    t := Then(t, MainStep);
    t := Then(t, MainStep);
    t := Then(t, MainStep);
  }

  /** The worker takes the next request as far as the finished queue's lock. */
  lemma WorkOne(s: State) returns (t: State)
    requires Reachable(s) && s.act == Rest && s.job.None? && s.pendingLock == Free && s.finishedLock == Free
    requires s.worker == TryQuit && !s.quitReleased && s.pending != []
    ensures Reachable(t)
    ensures t == s.(pending := s.pending[1..], finishedLock := Worker, worker := PutFinished(s.pending[0]))
  {
    t := Then(s, WorkerStep);
    t := Then(t, WorkerStep);
    t := Then(t, WorkerStep);
    t := Then(t, WorkerStep);
    t := Then(t, WorkerStep);
    t := Then(t, WorkerStep);
  }

  /** The worker hands its result over and announces it. */
  lemma FinishOne(s: State) returns (t: State)
    requires Reachable(s) && s.worker.PutFinished? && s.finishedLock == Worker
    ensures Reachable(t)
    ensures t == s.(finished := s.finished + [s.worker.job], finishedLock := Free, pipe := s.pipe + 1,
            worker := TryQuit)
  {
    t := Then(s, WorkerStep);
    t := Then(t, WorkerStep);
    t := Then(t, WorkerStep);
  }

  /** Only the wider window is right: the worker may hold the finished lock with nothing enqueued yet
      while an earlier result waits, unannounced, after main's drain gave up on the lock. */
  lemma WindowStartsAtTheLock() returns (s: State)
    ensures Reachable(s) && s.finished != [] && s.pipe == 0 && !Draining(s) && s.worker.PutFinished?
  {
    assert Run(START, []) == START;
    s := SubmitOne(START);
    s := SubmitOne(s);
    s := WorkOne(s);
    s := FinishOne(s);
    s := WorkOne(s);
    s := Then(s, Poll);
    s := Then(s, MainStep);
  }

  function WorkerSteps(steps: seq<Step>): nat {
    if steps == [] then 0 else (if steps[0] == WorkerStep then 1 else 0) + WorkerSteps(steps[1..])
  }

  function StepsToWrite(w: WorkerPc): nat {
    match w
    case PutFinished(_) => 3
    case ReleaseFinished => 2
    case _ => 1
  }

  /** The state after the first n steps of a schedule. */
  function After(s: State, steps: seq<Step>, n: nat): State
    requires n <= |steps|
  {
    Run(s, steps[..n])
  }

  lemma AfterTail(s: State, steps: seq<Step>, n: nat)
    requires n < |steps|
    ensures After(s, steps, n + 1) == After(Apply(s, steps[0]), steps[1..], n)
  {
    assert steps[..n + 1][1..] == steps[1..][..n];
  }

  ghost predicate CommittedUntil(s: State, steps: seq<Step>, k: nat)
    requires k <= |steps|
  {
    forall i | 0 <= i <= k :: Committed(After(s, steps, i).worker)
  }

  /** Step k of the schedule is the worker's write, and it was committed all the time before. */
  ghost predicate WritesAt(s: State, steps: seq<Step>, k: nat)
    requires k < |steps|
  {
    var t := After(s, steps, k);
    && CommittedUntil(s, steps, k) && t.worker == WritePipe
    && steps[k] == WorkerStep && Apply(t, steps[k]).pipe == t.pipe + 1
  }

  /** Nothing can block a committed worker, whatever main does in between: in any schedule that gives it
      three steps it writes its byte, and it is committed until then. */
  lemma {:induction false} CommittedWrites(s: State, steps: seq<Step>)
    requires Committed(s.worker) && WorkerSteps(steps) >= StepsToWrite(s.worker)
    ensures exists k | 0 <= k < |steps| :: WritesAt(s, steps, k)
    decreases |steps|
  {
    var t := Apply(s, steps[0]);
    assert After(s, steps, 0) == s;
    if steps[0] == WorkerStep && s.worker == WritePipe {
      assert WritesAt(s, steps, 0);
    } else {
      CommittedWrites(t, steps[1..]);
      var k :| 0 <= k < |steps[1..]| && WritesAt(t, steps[1..], k);
      forall i | 0 <= i <= k + 1
        ensures Committed(After(s, steps, i).worker)
      {
        if i > 0 {
          AfterTail(s, steps, i - 1);
        }
      }
      AfterTail(s, steps, k);
      assert WritesAt(s, steps, k + 1);
    }
  }

  // ---------- submissions ----------

  /** A submission goes where its urgency says: at the head of the queue or at its tail, under the next id. */
  lemma SubmissionPuts(before: seq<Step>, u: bool)
    requires var s := Run(START, before); s.act == Rest && s.pendingLock == Free
    ensures var s := Run(START, before);
            var t := Run(s, [Submit(u), MainStep, MainStep]);
            var r := Request(s.submitted, u, Taken(s));
            && t.pending == (if u then [r] + s.pending else s.pending + [r]) && t.submitted == s.submitted + 1
            && t == s.(pending := t.pending, submitted := t.submitted, pendingLock := Main, act := AddSignal)
  {
    var s := Run(START, before);
    RunThree(s, Submit(u), MainStep, MainStep, []);
    assert [Submit(u), MainStep, MainStep] + [] == [Submit(u), MainStep, MainStep];
    hide Run;
    RunNone(Apply(Apply(Apply(s, Submit(u)), MainStep), MainStep));
  }

  lemma RunNone(s: State)
    ensures Run(s, []) == s
  {
  }

  /** Then the worker is told, if it is waiting, and the lock given back. */
  lemma SubmissionSignals(s: State)
    requires s.act == AddSignal
    ensures Run(s, [MainStep, MainStep])
            == s.(worker := if s.worker.Waiting? then Waiting(true) else s.worker, pendingLock := Free, act := Rest)
  {
    assert [MainStep, MainStep][1..] == [MainStep];
    RunOne(Apply(s, MainStep), MainStep);
  }

  // ---------- rounds with nobody in the way ----------

  const THREE_WORKER_STEPS := [WorkerStep, WorkerStep, WorkerStep]

  /** A round of the worker: the first request pending becomes the last result, with one byte to announce it. */
  lemma WorkerRound(s: State)
    requires s.worker == TryQuit && !s.quitReleased && s.pendingLock == Free && s.finishedLock == Free
    requires s.pending != []
    ensures Run(s, THREE_WORKER_STEPS + THREE_WORKER_STEPS + THREE_WORKER_STEPS)
            == s.(pending := s.pending[1..], finished := s.finished + [s.pending[0]], pipe := s.pipe + 1)
  {
    hide Run;
    var r, w := s.pending[0], THREE_WORKER_STEPS;
    RunAppend(s, w + w, w);
    RunAppend(s, w, w);
    WorkerThree(s);
    var s1 := s.(pending := s.pending[1..], pendingLock := Worker, worker := ReleasePending(r));
    assert Run(s, w) == s1;
    WorkerThree(s1);
    var s2 := s.(pending := s.pending[1..], finishedLock := Worker, worker := PutFinished(r));
    assert Run(s1, w) == s2;
    WorkerThree(s2);
  }

  lemma WorkerThree(s: State)
    ensures Run(s, THREE_WORKER_STEPS) == Apply(Apply(Apply(s, WorkerStep), WorkerStep), WorkerStep)
  {
    RunThree(s, WorkerStep, WorkerStep, WorkerStep, []);
    assert THREE_WORKER_STEPS + [] == THREE_WORKER_STEPS;
    RunNone(Apply(Apply(Apply(s, WorkerStep), WorkerStep), WorkerStep));
    hide Run, Apply;
  }

  /** With nothing pending it goes to sleep, having given the lock back, and, */
  lemma WorkerSleeps(s: State)
    requires s.worker == TryQuit && !s.quitReleased && s.pendingLock == Free && s.pending == []
    ensures Run(s, THREE_WORKER_STEPS) == s.(worker := Waiting(false))
  {
    WorkerThree(s);
    hide Run;
  }

  /** told to wake up, it starts over. */
  lemma WorkerWakes(s: State)
    requires s.worker == Waiting(true) && s.pendingLock == Free
    ensures Run(s, [WorkerStep, WorkerStep]) == s.(worker := TryQuit)
  {
    assert [WorkerStep, WorkerStep][1..] == [WorkerStep];
    RunOne(Apply(s, WorkerStep), WorkerStep);
  }

  /** Main reads one byte and looks for a result: it goes to its callback with the first one, or back to rest if
      there is none, or if the worker has the lock. */
  lemma PollTakes(s: State)
    requires s.act == Rest && s.job.None? && s.pipe > 0 && s.finishedLock != Main
    ensures Run(s, [Poll, MainStep, MainStep, MainStep])
            == if s.finishedLock == Worker || s.finished == [] then s.(pipe := s.pipe - 1)
               else s.(pipe := s.pipe - 1, job := Some(s.finished[0]), finished := s.finished[1..])
  {
    assert [Poll, MainStep, MainStep] + [MainStep] == [Poll, MainStep, MainStep, MainStep];
    RunThree(s, Poll, MainStep, MainStep, [MainStep]);
    RunOne(Apply(Apply(Apply(s, Poll), MainStep), MainStep), MainStep);
    hide Run;
    PollBegins(s);
  }

  lemma PollBegins(s: State)
    requires s.act == Rest && s.job.None? && s.pipe > 0 && s.finishedLock != Main
    ensures Apply(Apply(Apply(s, Poll), MainStep), MainStep)
            == if s.finishedLock == Worker then s.(pipe := s.pipe - 1)
               else if s.finished == [] then s.(pipe := s.pipe - 1, finishedLock := Main, act := DrainRelease)
               else s.(pipe := s.pipe - 1, finishedLock := Main, job := Some(s.finished[0]),
                       finished := s.finished[1..], act := DrainRelease)
  {
    assert Apply(s, Poll) == s.(pipe := s.pipe - 1, act := DrainTry);
  }

  /** What the callback was called with is delivered when it returns, and main looks for more without another
      byte. */
  lemma CallbackReturns(s: State)
    requires s.act == Rest && s.job.Some?
    ensures Run(s, [MainStep]) == s.(delivered := s.delivered + [s.job.value], job := None, act := DrainTry)
  {
    RunOne(s, MainStep);
  }

  // ---------- which are urgent ----------

  /** The urgency of a submission that takes effect: main submits only at rest. */
  function Begun(s: State, step: Step): seq<bool> {
    if step.Submit? && s.act == Rest then [step.urgent] else []
  }

  /** The urgencies of the submissions of a schedule that take effect, in order. */
  function Submissions(s: State, steps: seq<Step>): seq<bool>
    decreases |steps|
  {
    if steps == [] then [] else Begun(s, steps[0]) + Submissions(Apply(s, steps[0]), steps[1..])
  }

  /** Main has begun a submission and not yet enqueued its request. */
  predicate Submitting(a: MainAct) {
    a.AddLock? || a.AddPut?
  }

  ghost predicate UrgencyOk(s: State, us: seq<bool>) {
    && |us| == s.submitted + (if Submitting(s.act) then 1 else 0)
    && (Submitting(s.act) ==> s.act.urgent == us[s.submitted])
    && forall r | r in Pipeline(s) :: r.id < s.submitted && r.urgent == us[r.id]
  }

  lemma UrgencyStep(s: State, step: Step, us: seq<bool>)
    requires LocksOk(s) && DrainOk(s) && UrgencyOk(s, us)
    ensures UrgencyOk(Apply(s, step), us + Begun(s, step))
  {
    hide Pipeline, Taken, LocksOk, DrainOk;
    if step == WorkerStep {
      WorkerPipeline(s);
    } else if step == MainStep && s.act.AddPut? {
      SubmitPipeline(s);
      var p := Pipeline(s);
      assert p == p[..Taken(s)] + p[Taken(s)..];
      assert forall x | x in p[..Taken(s)] || x in p[Taken(s)..] :: x in p;
    } else if step == MainStep {
      MainPipeline(s);
    } else {
      SamePipeline(s, step);
    }
  }

  lemma {:induction false} UrgencyRun(s: State, steps: seq<Step>, us: seq<bool>)
    requires LocksOk(s) && DrainOk(s) && UrgencyOk(s, us)
    ensures UrgencyOk(Run(s, steps), us + Submissions(s, steps))
    decreases |steps|
  {
    hide LocksOk, DrainOk, UrgencyOk, Begun;
    if steps == [] {
      assert us + [] == us;
    } else {
      var t, more := Apply(s, steps[0]), Begun(s, steps[0]);
      LocksStep(s, steps[0]);
      DrainStep(s, steps[0]);
      UrgencyStep(s, steps[0], us);
      UrgencyRun(t, steps[1..], us + more);
      assert us + more + Submissions(t, steps[1..]) == us + (more + Submissions(t, steps[1..]));
    }
  }

  /** In every schedule each request has the urgency of its own submission: that with id n of the n-th. */
  lemma UrgencyKept(steps: seq<Step>)
    ensures var s := Run(START, steps); var us := Submissions(START, steps);
            && |us| == s.submitted + (if Submitting(s.act) then 1 else 0)
            && forall r | r in Pipeline(s) :: r.id < s.submitted && r.urgent == us[r.id]
  {
    UrgencyRun(START, steps, []);
    assert [] + Submissions(START, steps) == Submissions(START, steps);
  }

  /** Delivery order is pipeline order, and the pipeline is fair: a request is delivered before an
      earlier one only if it is urgent, and an urgent one is delivered after an earlier one only if the
      worker had dequeued that one when the urgent one was submitted. What is urgent was submitted as such. */
  lemma DeliveredInOrder(steps: seq<Step>, i: nat, j: nat)
    requires i < j < |Run(START, steps).delivered|
    ensures var d := Run(START, steps).delivered;
            var us := Submissions(START, steps);
            && d[i].id < |us| && d[j].id < |us| && d[i].urgent == us[d[i].id] && d[j].urgent == us[d[j].id]
            && (d[i].id > d[j].id ==> d[i].urgent)
            && (d[j].urgent && d[i].id < d[j].id ==> i < d[j].taken)
  {
    InvStart();
    UrgencyKept(steps);
    InvRun(START, steps);
    var s := Run(START, steps);
    assert Pipeline(s)[i] == s.delivered[i] && Pipeline(s)[j] == s.delivered[j];
  }

  // ---------- progress ----------

  /** Nobody has asked the worker to stop, and it runs. */
  predicate Alive(s: State) {
    !s.quitReleased && s.act != StopSignal && s.act != Stopped && s.worker != Dead
  }

  /** A step that neither begins a submission nor asks the worker to stop. */
  predicate Continues(step: Step) {
    !step.Submit? && step != Stop
  }

  /** Every submitted request has been delivered, and no submission is under way. */
  predicate AllDelivered(s: State) {
    Pipeline(s) == s.delivered && !s.act.AddLock? && !s.act.AddPut?
  }

  /** What the worker has left to do, in steps, before it would wait: a result it enqueues and a byte it
      writes count as work for main. */
  function WorkerWork(w: WorkerPc): nat {
    match w
    case Dead => 0
    case Waiting(signalled) => if signalled then 5 else 0
    case TakePending => 1
    case LockPending => 2
    case TryQuit => 3
    case Woken => 4
    case WritePipe => 8
    case ReleaseFinished => 9
    case PutFinished(_) => 14
    case LockFinished(_) => 15
    case Lookup(_) => 16
    case ReleasePending(_) => 17
  }

  function MainWork(a: MainAct): nat {
    match a
    case DrainRelease => 1
    case DrainTake => 2
    case DrainTry => 3
    case AddRelease => 1
    case AddSignal => 8
    case AddPut(_) => 26
    case AddLock(_) => 27
    case _ => 0
  }

  /** What is left to do for both threads together. */
  function WorkLeft(s: State): nat {
    17 * |s.pending| + WorkerWork(s.worker) + 4 * |s.finished| + 4 * s.pipe
    + (if s.job.Some? then 4 else 0) + MainWork(s.act)
  }

  lemma WorkerWorks(s: State)
    ensures var t := ApplyWorker(s); t == s || WorkLeft(t) < WorkLeft(s)
  {
    hide MainWork;
    var t := ApplyWorker(s);
    match s.worker
    case TakePending =>
      if s.pending != [] {
        assert |t.pending| == |s.pending| - 1 && WorkerWork(t.worker) == 17;
      }
    case PutFinished(_) => assert |t.finished| == |s.finished| + 1 && WorkerWork(t.worker) == 9;
    case WritePipe => assert t.pipe == s.pipe + 1 && WorkerWork(t.worker) == 3;
    case _ => assert t == s || WorkerWork(t.worker) < WorkerWork(s.worker);
  }

  lemma MainWorks(s: State)
    requires DrainOk(s) && Alive(s)
    ensures var t := ApplyMain(s); t == s || WorkLeft(t) < WorkLeft(s)
  {
    hide Taken;
  }

  /** Every step of either thread that does anything is progress, a failed trylock and an idle round
      included; only a spurious wake-up makes work, and no more than four steps of it. */
  lemma StepWorks(s: State, step: Step)
    requires LocksOk(s) && DrainOk(s) && Alive(s) && Continues(step)
    ensures var t := Apply(s, step);
            && Alive(t)
            && if step == SpuriousWakeup then WorkLeft(t) <= WorkLeft(s) + 4
               else t == s || WorkLeft(t) < WorkLeft(s)
  {
    hide ApplyWorker, ApplyMain;
    WorkerWorks(s);
    MainWorks(s);
    StepsAlive(s, step);
  }

  lemma StepsAlive(s: State, step: Step)
    requires Alive(s) && Continues(step)
    ensures Alive(Apply(s, step))
  {
    hide Taken;
  }

  /** The threads cannot block each other for good: if none of the three steps does anything, all has been
      delivered. */
  lemma NoDeadlock(s: State)
    requires Inv(s) && Alive(s)
    requires Apply(s, WorkerStep) == s && Apply(s, MainStep) == s && Apply(s, Poll) == s
    ensures AllDelivered(s)
  {
    hide Fair, Distinct, TakenBy, Taken;
    MainBlocked(s);
    WorkerBlocked(s);
  }

  lemma MainBlocked(s: State)
    requires LocksOk(s) && Alive(s) && ApplyWorker(s) == s && ApplyMain(s) == s && Apply(s, Poll) == s
    ensures s.act == Rest && s.job.None? && s.pipe == 0
  {
    hide Taken;
  }

  lemma WorkerBlocked(s: State)
    requires LocksOk(s) && Alive(s) && ApplyWorker(s) == s && s.act == Rest
    ensures s.worker == Waiting(false)
  {
  }

  /** What is delivered stays so, and a new submission does not come about by itself. */
  lemma DeliveredStays(s: State, step: Step)
    requires LocksOk(s) && DrainOk(s) && AllDelivered(s) && Continues(step)
    ensures AllDelivered(Apply(s, step))
  {
    hide Pipeline, Taken;
    var t := Apply(s, step);
    if step == WorkerStep {
      WorkerPipeline(s);
    } else if step == MainStep {
      MainPipeline(s);
    } else {
      SamePipeline(s, step);
    }
    DeliveredGrows(s, step);
    DeliveredFirst(t);
    assert |t.delivered| == |Pipeline(t)|;
  }

  lemma DeliveredGrows(s: State, step: Step)
    ensures |s.delivered| <= |Apply(s, step).delivered|
    ensures Continues(step) && !s.act.AddLock? && !s.act.AddPut? ==>
              !Apply(s, step).act.AddLock? && !Apply(s, step).act.AddPut?
  {
    hide Taken;
  }

  lemma DeliveredFirst(s: State)
    ensures s.delivered <= Pipeline(s)
  {
  }

  function Wakeups(steps: seq<Step>): nat {
    if steps == [] then 0 else (if steps[0] == SpuriousWakeup then 1 else 0) + Wakeups(steps[1..])
  }

  /** A round of a schedule: each thread gets a step, and main polls, in any order and among other steps. */
  predicate Round(steps: seq<Step>) {
    WorkerStep in steps && MainStep in steps && Poll in steps && forall i | 0 <= i < |steps| :: Continues(steps[i])
  }

  /** No sequence of steps makes more work than its spurious wake-ups do, and one that leaves as much as there
      was without any has done nothing. */
  lemma {:induction false} StepsWork(s: State, steps: seq<Step>)
    requires Inv(s) && Alive(s) && forall i | 0 <= i < |steps| :: Continues(steps[i])
    ensures var t := Run(s, steps);
            && Inv(t) && Alive(t) && WorkLeft(t) <= WorkLeft(s) + 4 * Wakeups(steps)
            && (AllDelivered(s) ==> AllDelivered(t))
            && (Wakeups(steps) == 0 && WorkLeft(t) == WorkLeft(s) ==>
                  forall i | 0 <= i < |steps| :: Apply(s, steps[i]) == s)
    decreases |steps|
  {
    hide Inv, Alive, WorkLeft, AllDelivered, Apply, Continues;
    if steps != [] {
      var t, rest := Apply(s, steps[0]), steps[1..];
      OneStepWorks(s, steps[0]);
      assert forall i | 0 <= i < |rest| :: rest[i] == steps[i + 1];
      StepsWork(t, rest);
      if Wakeups(steps) == 0 && WorkLeft(Run(s, steps)) == WorkLeft(s) {
        forall i | 0 <= i < |steps|
          ensures Apply(s, steps[i]) == s
        {
          assert i > 0 ==> steps[i] == rest[i - 1];
        }
      }
    }
  }

  lemma OneStepWorks(s: State, step: Step)
    requires Inv(s) && Alive(s) && Continues(step)
    ensures var t := Apply(s, step);
            && Inv(t) && Alive(t) && (AllDelivered(s) ==> AllDelivered(t))
            && if step == SpuriousWakeup then WorkLeft(t) <= WorkLeft(s) + 4
               else t == s || WorkLeft(t) < WorkLeft(s)
  {
    hide Alive, Apply, WorkLeft, AllDelivered, Continues, LocksOk, DrainOk, NotStranded, NotAsleep, Fair, Distinct,
         TakenBy, Pipeline, Taken;
    InvStep(s, step);
    StepWorks(s, step);
    if AllDelivered(s) {
      DeliveredStays(s, step);
    }
  }

  /** A round without spurious wake-ups gets something done, unless all has been. */
  lemma RoundWorks(s: State, steps: seq<Step>)
    requires Inv(s) && Alive(s) && Round(steps)
    ensures var t := Run(s, steps);
            && Inv(t) && Alive(t) && WorkLeft(t) <= WorkLeft(s) + 4 * Wakeups(steps)
            && (AllDelivered(s) ==> AllDelivered(t))
            && (Wakeups(steps) == 0 ==> AllDelivered(s) || WorkLeft(t) < WorkLeft(s))
  {
    hide Inv, Alive, WorkLeft, AllDelivered, Apply, Continues, Run;
    StepsWork(s, steps);
    if Wakeups(steps) == 0 && WorkLeft(Run(s, steps)) == WorkLeft(s) {
      NoDeadlock(s);
    }
  }

  function Concat(rounds: seq<seq<Step>>): seq<Step> {
    if rounds == [] then [] else rounds[0] + Concat(rounds[1..])
  }

  lemma {:induction false} RoundsDeliver(s: State, rounds: seq<seq<Step>>)
    requires Inv(s) && Alive(s) && forall i | 0 <= i < |rounds| :: Round(rounds[i])
    requires AllDelivered(s) || |rounds| > WorkLeft(s) + 5 * Wakeups(Concat(rounds))
    ensures var t := Run(s, Concat(rounds)); Inv(t) && AllDelivered(t)
    decreases |rounds|
  {
    hide Inv, Alive, WorkLeft, AllDelivered, Round;
    if rounds != [] {
      var steps, rest := rounds[0], rounds[1..];
      RoundWorks(s, steps);
      RunAppend(s, steps, Concat(rest));
      WakeupsAppend(steps, Concat(rest));
      RoundsDeliver(Run(s, steps), rest);
    }
  }

  lemma {:induction false} WakeupsAppend(a: seq<Step>, b: seq<Step>)
    ensures Wakeups(a + b) == Wakeups(a) + Wakeups(b)
    decreases |a|
  {
    if a == [] {
      assert a + b == b;
    } else {
      assert (a + b)[1..] == a[1..] + b;
      WakeupsAppend(a[1..], b);
    }
  }

  lemma {:induction false} AliveRun(s: State, steps: seq<Step>)
    requires s.worker == Dead || s.act == StopSignal || s.act == Stopped ==> s.quitReleased
    ensures var t := Run(s, steps); t.worker == Dead || t.act == StopSignal || t.act == Stopped ==> t.quitReleased
    decreases |steps|
  {
    hide Taken;
    if steps != [] {
      AliveRun(Apply(s, steps[0]), steps[1..]);
    }
  }

  /** Everything submitted is delivered in the end: after any schedule in which main has not asked the worker to
      stop, any further schedule without submissions that keeps giving both threads steps and main a chance
      to poll delivers all there is, within a number of rounds that can be told beforehand from what is left
      to do; each spurious wake-up may cost five more. */
  lemma EventuallyDelivered(before: seq<Step>, rounds: seq<seq<Step>>)
    requires !Run(START, before).quitReleased && forall i | 0 <= i < |rounds| :: Round(rounds[i])
    requires |rounds| > WorkLeft(Run(START, before)) + 5 * Wakeups(Concat(rounds))
    ensures var s := Run(START, before); var t := Run(s, Concat(rounds));
            && t.delivered == Pipeline(t) && |t.delivered| == t.submitted
            && forall r | r in Pipeline(s) :: r in t.delivered
  {
    hide Fair, Distinct, TakenBy, Pipeline, Taken, WorkLeft, LocksOk, DrainOk, NotStranded, NotAsleep, Run, Round;
    var s := Run(START, before);
    InvStart();
    InvRun(START, before);
    AliveRun(START, before);
    RoundsDeliver(s, rounds);
    var t := Run(s, Concat(rounds));
    forall r | r in Pipeline(s)
      ensures r in t.delivered
    {
      RequestsStay(s, Concat(rounds), r);
    }
  }

  const STARVING := START.(worker := Waiting(false), act := AddLock(false))

  const STARVING_ROUND := [SpuriousWakeup, MainStep, Poll] + ([WorkerStep, WorkerStep, WorkerStep] + [WorkerStep])

  /** That the wake-ups count is no accident of the proof: with one in every round the worker can go round and
      round with the pending lock in its hand whenever main asks for it. */
  lemma WakeupsCanStarve()
    ensures Run(START, [WorkerStep, WorkerStep, WorkerStep] + [Submit(false)]) == STARVING && !AllDelivered(STARVING)
    ensures Round(STARVING_ROUND) && Run(STARVING, STARVING_ROUND) == STARVING
  {
    hide Pipeline, Taken, Run;
    RunThree(START, WorkerStep, WorkerStep, WorkerStep, [Submit(false)]);
    RunOne(START.(worker := Waiting(false)), Submit(false));
    RunThree(STARVING, SpuriousWakeup, MainStep, Poll, [WorkerStep, WorkerStep, WorkerStep] + [WorkerStep]);
    var woken := STARVING.(worker := Woken, pendingLock := Worker);
    RunThree(woken, WorkerStep, WorkerStep, WorkerStep, [WorkerStep]);
    RunOne(woken.(worker := TakePending), WorkerStep);
    StarvingRound();
  }

  lemma StarvingRound()
    ensures Round(STARVING_ROUND)
  {
    var r := STARVING_ROUND;
    assert r[0] == SpuriousWakeup && r[1] == MainStep && r[2] == Poll && r[3] == WorkerStep;
  }

  lemma RunOne(s: State, a: Step)
    ensures Run(s, [a]) == Apply(s, a)
  {
    hide Apply;
    assert [a][1..] == [] && Run(Apply(s, a), []) == Apply(s, a);
  }

  lemma RunThree(s: State, a: Step, b: Step, c: Step, rest: seq<Step>)
    ensures Run(s, [a, b, c] + rest) == Run(Apply(Apply(Apply(s, a), b), c), rest)
  {
    hide Apply;
    var s1 := Apply(s, a);
    assert ([a, b, c] + rest)[1..] == [b, c] + rest;
    assert ([b, c] + rest)[1..] == [c] + rest;
    assert ([c] + rest)[1..] == rest;
    assert Run(s1, [b, c] + rest) == Run(Apply(s1, b), [c] + rest);
  }

  // ---------- stopping ----------

  /** The worker is between trying the quit mutex and the condition wait, with nothing to do. */
  predicate MissesStop(s: State) {
    (s.worker == LockPending || s.worker == TakePending) && s.pending == []
  }

  function Alone(n: nat): (r: seq<Step>)
    ensures |r| == n
  {
    if n == 0 then [] else [WorkerStep] + Alone(n - 1)
  }

  /** Main waits for the worker to die; the worker will get back to the quit mutex. */
  ghost predicate Dying(s: State) {
    && LocksOk(s) && s.act == Stopped && s.quitReleased
    && !MissesStop(s) && s.worker != Waiting(false)
  }

  function StepsLeft(w: WorkerPc): nat {
    match w
    case Dead => 0
    case TryQuit => 1
    case Woken => 2
    case Waiting(_) => 3
    case WritePipe => 2
    case ReleaseFinished => 3
    case PutFinished(_) => 4
    case LockFinished(_) => 5
    case Lookup(_) => 6
    case ReleasePending(_) => 7
    case TakePending => 8
    case LockPending => 9
  }

  lemma {:induction false} DyingDies(s: State)
    requires Dying(s)
    ensures Run(s, Alone(StepsLeft(s.worker))).worker == Dead
    decreases StepsLeft(s.worker)
  {
    if s.worker != Dead {
      var t := ApplyWorker(s);
      assert StepsLeft(t.worker) == StepsLeft(s.worker) - 1;
      DyingDies(t);
      assert Alone(StepsLeft(s.worker))[1..] == Alone(StepsLeft(t.worker));
    }
  }

  /** It sleeps, or is about to, and nobody is left to wake it. */
  ghost predicate Stuck(s: State) {
    LocksOk(s) && s.act == Stopped && (MissesStop(s) || (s.worker == Waiting(false) && s.pending == []))
  }

  lemma {:induction false} StuckStays(s: State, n: nat)
    requires Stuck(s)
    ensures Stuck(Run(s, Alone(n)))
    decreases n
  {
    if n > 0 {
      assert Alone(n)[1..] == Alone(n - 1);
      StuckStays(ApplyWorker(s), n - 1);
    }
  }

  /** stop_dns is not always seen. Main signals without holding the pending mutex, so the wake-up is
      lost exactly when the worker has passed the quit mutex and is about to wait: then it sleeps on. */
  lemma StopSeenIff(steps: seq<Step>)
    requires Run(START, steps).act == StopSignal
    ensures var s := Run(START, steps); var t := Apply(s, MainStep);
            (exists n :: Run(t, Alone(n)).worker == Dead) <==> !MissesStop(s)
  {
    hide Fair, Distinct, TakenBy, Pipeline, Taken, Run;
    InvStart();
    InvRun(START, steps);
    StopReleased(START, steps);
    var s := Run(START, steps);
    var t := Apply(s, MainStep);
    LocksStep(s, MainStep);
    if MissesStop(s) {
      forall n ensures Run(t, Alone(n)).worker != Dead {
        StuckStays(t, n);
      }
    } else {
      DyingDies(t);
      assert Run(t, Alone(StepsLeft(t.worker))).worker == Dead;
    }
  }

  lemma {:induction false} StopReleased(s: State, steps: seq<Step>)
    requires s.act == StopSignal || s.act == Stopped ==> s.quitReleased
    ensures var t := Run(s, steps); t.act == StopSignal || t.act == Stopped ==> t.quitReleased
    decreases |steps|
  {
    if steps != [] {
      StopReleased(Apply(s, steps[0]), steps[1..]);
    }
  }

  /** And it does happen. */
  lemma StopCanBeMissed()
    ensures var s := Run(START, [WorkerStep, Stop]); s.act == StopSignal && MissesStop(s)
  {
  }
}
