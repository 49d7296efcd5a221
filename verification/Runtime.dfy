/** The worker runtime as atomic steps under its queue lock (src/runtime.cpp).

    A step is what one thread does between taking the lock and releasing it, or a
    notification sent after releasing it. Threads interleave in any order. A thread waiting on
    a condition variable runs again only after a notification or a spurious wake-up. */
module Runtime {

  datatype Backpressure = Reject | DropOldest

  datatype Config = Config(workers: nat, capacity: nat, policy: Backpressure)

  ghost predicate ValidConfig(c: Config) {
    1 <= c.workers <= 32 && 1 <= c.capacity <= 65536
  }

  // Where a worker is: blocked on work_available_, about to look at the queue, running a
  // job outside the lock, or returned.
  datatype Worker = Asleep | Awake | Running(job: nat) | Exited

  // Where a thread that may call drain is.
  datatype Drainer = Outside | Sleeping | Checking

  // How far shutdown has come: not called, stopping_ set but nobody told, joining the
  // workers, returned.
  datatype Phase = Open | Flagged | Joining | Closed

  /** The queue and the counters. Jobs are numbered in the order they are accepted; done,
      dropped and discarded record where they went. */
  datatype Ledger = Ledger(
    queue: seq<nat>, submitted: nat, inFlight: nat, completed: nat, droppedOldest: nat,
    peakQueueDepth: nat, done: multiset<nat>, dropped: multiset<nat>, discarded: multiset<nat>)

  datatype State = State(
    phase: Phase, ledger: Ledger, workers: seq<Worker>, drainers: seq<Drainer>,
    notifies: nat, // notify_one calls still to be made by submitters
    rejectedBackpressure: nat, rejectedAfterShutdown: nat)

  predicate Quiescent(l: Ledger) { l.queue == [] && l.inFlight == 0 }
  predicate Stopping(p: Phase) { p.Flagged? || p.Joining? }

  datatype Step =
    | Submit
    | NotifyOne(w: nat)      // wakes worker w
    | NotifyNobody           // no worker was waiting
    | Take(w: nat)
    | GoToSleep(w: nat)
    | Finish(w: nat)
    | Exit(w: nat)
    | SpuriousWorker(w: nat)
    | Drain(d: nat)          // drain is called
    | Recheck(d: nat)        // a woken drainer evaluates its condition again
    | SpuriousDrainer(d: nat)
    | Shutdown(discard: bool)
    | NotifyAll              // shutdown tells the workers
    | Join                   // shutdown has joined every worker
    | Start

  function WakeDrainers(ds: seq<Drainer>): (r: seq<Drainer>)
    ensures |r| == |ds|
    ensures forall i :: 0 <= i < |ds| ==> r[i] == if ds[i].Sleeping? then Checking else ds[i]
  {
    seq(|ds|, i requires 0 <= i < |ds| => if ds[i].Sleeping? then Checking else ds[i])
  }

  function WakeWorkers(ws: seq<Worker>): (r: seq<Worker>)
    ensures |r| == |ws|
    ensures forall i :: 0 <= i < |ws| ==> r[i] == if ws[i].Asleep? then Awake else ws[i]
  {
    seq(|ws|, i requires 0 <= i < |ws| => if ws[i].Asleep? then Awake else ws[i])
  }

  function Idle(n: nat): (r: seq<Worker>)
    ensures |r| == n && forall i :: 0 <= i < n ==> r[i] == Awake
  {
    seq(n, _ => Awake)
  }

  predicate AllExited(ws: seq<Worker>) {
    forall i :: 0 <= i < |ws| ==> ws[i].Exited?
  }

  predicate NoneAsleep(ws: seq<Worker>) {
    forall i :: 0 <= i < |ws| ==> !ws[i].Asleep?
  }

  predicate NobodyWaits(ds: seq<Drainer>) {
    forall i :: 0 <= i < |ds| ==> !ds[i].Sleeping?
  }

  function Max(a: nat, b: nat): nat { if a < b then b else a }

  // ---------------------------------------------------------------------------
  // The steps
  // ---------------------------------------------------------------------------

  predicate Full(c: Config, l: Ledger) { |l.queue| >= c.capacity }

  /** Queue the next job, first dropping the oldest when the queue is full. */
  function Enqueue(c: Config, l: Ledger): Ledger {
    var drop := Full(c, l) && l.queue != [];
    var queue := (if drop then l.queue[1..] else l.queue) + [l.submitted];
    Ledger(queue, l.submitted + 1, l.inFlight, l.completed,
           if drop then l.droppedOldest + 1 else l.droppedOldest,
           Max(l.peakQueueDepth, |queue|), l.done,
           if drop then l.dropped + multiset{l.queue[0]} else l.dropped, l.discarded)
  }

  function Dequeue(l: Ledger): Ledger
    requires l.queue != []
  {
    l.(queue := l.queue[1..], inFlight := l.inFlight + 1)
  }

  function Complete(l: Ledger, job: nat): Ledger
    requires l.inFlight > 0
  {
    l.(inFlight := l.inFlight - 1, completed := l.completed + 1, done := l.done + multiset{job})
  }

  function Discard(l: Ledger): Ledger {
    l.(queue := [], discarded := l.discarded + multiset(l.queue))
  }

  predicate Enabled(s: State, step: Step) {
    match step
    case Submit => true
    case NotifyOne(w) => s.notifies > 0 && w < |s.workers| && s.workers[w].Asleep?
    case NotifyNobody => s.notifies > 0 && NoneAsleep(s.workers)
    case Take(w) => w < |s.workers| && s.workers[w].Awake? && s.ledger.queue != []
    case GoToSleep(w) => w < |s.workers| && s.workers[w].Awake? && s.ledger.queue == [] && s.phase.Open?
    case Finish(w) => w < |s.workers| && s.workers[w].Running? && s.ledger.inFlight > 0
    case Exit(w) => w < |s.workers| && s.workers[w].Awake? && s.ledger.queue == [] && !s.phase.Open?
    case SpuriousWorker(w) => w < |s.workers| && s.workers[w].Asleep?
    case Drain(d) => d < |s.drainers| && s.drainers[d].Outside?
    case Recheck(d) => d < |s.drainers| && s.drainers[d].Checking?
    case SpuriousDrainer(d) => d < |s.drainers| && s.drainers[d].Sleeping?
    case Shutdown(_) => s.phase.Open?
    case NotifyAll => s.phase.Flagged?
    case Join => s.phase.Joining? && AllExited(s.workers)
    case Start => s.phase.Closed?
  }

  function Next(c: Config, s: State, step: Step): State
    requires Enabled(s, step)
  {
    match step
    case Submit =>
      if !s.phase.Open? then
        s.(rejectedAfterShutdown := s.rejectedAfterShutdown + 1)
      else if Full(c, s.ledger) && c.policy.Reject? then
        s.(rejectedBackpressure := s.rejectedBackpressure + 1)
      else
        s.(ledger := Enqueue(c, s.ledger), notifies := s.notifies + 1)
    case NotifyOne(w) => s.(notifies := s.notifies - 1, workers := s.workers[w := Awake])
    case NotifyNobody => s.(notifies := s.notifies - 1)
    case Take(w) =>
      s.(workers := s.workers[w := Running(s.ledger.queue[0])], ledger := Dequeue(s.ledger))
    case GoToSleep(w) => s.(workers := s.workers[w := Asleep])
    case Finish(w) =>
      var ledger := Complete(s.ledger, s.workers[w].job);
      s.(workers := s.workers[w := Awake], ledger := ledger,
         drainers := if Quiescent(ledger) then WakeDrainers(s.drainers) else s.drainers)
    case Exit(w) => s.(workers := s.workers[w := Exited], drainers := WakeDrainers(s.drainers))
    case SpuriousWorker(w) => s.(workers := s.workers[w := Awake])
    // drain refuses when the runtime is not running and returns at once when it is quiescent
    case Drain(d) =>
      if s.phase.Closed? || Quiescent(s.ledger) then s else s.(drainers := s.drainers[d := Sleeping])
    case Recheck(d) =>
      s.(drainers := s.drainers[d := if Quiescent(s.ledger) then Outside else Sleeping])
    case SpuriousDrainer(d) => s.(drainers := s.drainers[d := Checking])
    case Shutdown(discard) =>
      s.(phase := Flagged, ledger := if discard then Discard(s.ledger) else s.ledger)
    case NotifyAll => s.(phase := Joining, workers := WakeWorkers(s.workers))
    case Join => s.(phase := Closed, workers := [])
    case Start => s.(phase := Open, workers := Idle(c.workers))
  }

  /** A runtime just started, with any number of threads that may drain. */
  function Initial(c: Config, drainers: nat): State {
    State(Open, Ledger([], 0, 0, 0, 0, 0, multiset{}, multiset{}, multiset{}),
          Idle(c.workers), seq(drainers, _ => Outside), 0, 0, 0)
  }

  /** A run is a list of steps, each enabled where it happens. */
  ghost predicate IsRun(c: Config, s: State, steps: seq<Step>)
    decreases |steps|, 0
  {
    steps == [] || (IsRun(c, s, steps[..|steps| - 1]) &&
                    Enabled(After(c, s, steps[..|steps| - 1]), steps[|steps| - 1]))
  }

  ghost function After(c: Config, s: State, steps: seq<Step>): State
    requires IsRun(c, s, steps)
    decreases |steps|, 1
  {
    if steps == [] then s else Next(c, After(c, s, steps[..|steps| - 1]), steps[|steps| - 1])
  }

  // ---------------------------------------------------------------------------
  // The invariant
  // ---------------------------------------------------------------------------

  /** The jobs being run. */
  function JobsOf(ws: seq<Worker>): multiset<nat> {
    if ws == [] then multiset{}
    else JobsOf(ws[..|ws| - 1]) + JobOf(ws[|ws| - 1])
  }

  function JobOf(w: Worker): multiset<nat> {
    if w.Running? then multiset{w.job} else multiset{}
  }

  /** Every job accepted so far, once each. */
  function Accepted(n: nat): multiset<nat> {
    if n == 0 then multiset{} else Accepted(n - 1) + multiset{n - 1}
  }

  /** Each accepted job is in exactly one place, and the counters say how many are where. */
  ghost predicate Books(l: Ledger, running: multiset<nat>) {
    && Accepted(l.submitted) == multiset(l.queue) + running + l.done + l.dropped + l.discarded
    && l.inFlight == |running|
    && l.completed == |l.done|
    && l.droppedOldest == |l.dropped|
  }

  /** The queue holds the jobs accepted last, in the order they were accepted. */
  ghost predicate QueueInOrder(c: Config, l: Ledger) {
    && |l.queue| <= l.peakQueueDepth <= c.capacity
    && |l.queue| <= l.submitted
    && (forall i :: 0 <= i < |l.queue| ==> l.queue[i] == l.submitted - |l.queue| + i)
  }

  ghost predicate PhaseAgrees(c: Config, p: Phase, queue: seq<nat>, ws: seq<Worker>) {
    && |ws| == (if p.Closed? then 0 else c.workers)
    && (p.Open? ==> forall w :: 0 <= w < |ws| ==> !ws[w].Exited?)
    && ((exists w :: 0 <= w < |ws| && ws[w].Exited?) ==> queue == [])
    && (p.Joining? ==> NoneAsleep(ws))
    && (p.Closed? ==> queue == [])
  }

  ghost predicate SomeoneWorks(ws: seq<Worker>) {
    exists w :: 0 <= w < |ws| && (ws[w].Awake? || ws[w].Running?)
  }

  /** Queued work has a worker that will look, or a notification due. */
  ghost predicate WorkIsSeen(p: Phase, queue: seq<nat>, notifies: nat, ws: seq<Worker>) {
    queue != [] ==> notifies > 0 || SomeoneWorks(ws) || p.Flagged?
  }

  /** A sleeping drainer has something to wait for, or a worker whose exit will wake it. */
  ghost predicate DrainersAreSeen(p: Phase, l: Ledger, ws: seq<Worker>, ds: seq<Drainer>) {
    NobodyWaits(ds) || !Quiescent(l) || (Stopping(p) && !AllExited(ws))
  }

  ghost predicate Inv(c: Config, s: State) {
    && Books(s.ledger, JobsOf(s.workers))
    && QueueInOrder(c, s.ledger)
    && PhaseAgrees(c, s.phase, s.ledger.queue, s.workers)
    && WorkIsSeen(s.phase, s.ledger.queue, s.notifies, s.workers)
    && DrainersAreSeen(s.phase, s.ledger, s.workers, s.drainers)
  }

  // ---------------------------------------------------------------------------
  // Job bookkeeping
  // ---------------------------------------------------------------------------

  lemma {:induction false} JobsAfterUpdate(ws: seq<Worker>, w: nat, pc: Worker)
    requires w < |ws|
    ensures JobOf(ws[w]) <= JobsOf(ws)
    ensures JobsOf(ws[w := pc]) == JobsOf(ws) - JobOf(ws[w]) + JobOf(pc)
  {
    var n := |ws| - 1;
    var us := ws[w := pc];
    if w == n {
      assert us[..n] == ws[..n];
    } else {
      JobsAfterUpdate(ws[..n], w, pc);
      assert us[..n] == ws[..n][w := pc];
    }
  }

  lemma JobsUnchanged(ws: seq<Worker>, w: nat, pc: Worker)
    requires w < |ws| && !ws[w].Running? && !pc.Running?
    ensures JobsOf(ws[w := pc]) == JobsOf(ws)
  {
    hide JobsOf;
    JobsAfterUpdate(ws, w, pc);
  }

  lemma JobTaken(ws: seq<Worker>, w: nat, job: nat)
    requires w < |ws| && !ws[w].Running?
    ensures JobsOf(ws[w := Running(job)]) == JobsOf(ws) + multiset{job}
  {
    hide JobsOf;
    JobsAfterUpdate(ws, w, Running(job));
  }

  lemma JobEnded(ws: seq<Worker>, w: nat)
    requires w < |ws| && ws[w].Running?
    ensures ws[w].job in JobsOf(ws)
    ensures JobsOf(ws[w := Awake]) == JobsOf(ws) - multiset{ws[w].job}
  {
    hide JobsOf;
    JobsAfterUpdate(ws, w, Awake);
    assert ws[w].job in JobOf(ws[w]);
  }

  lemma {:induction false} NoJobs(ws: seq<Worker>)
    requires forall i :: 0 <= i < |ws| ==> !ws[i].Running?
    ensures JobsOf(ws) == multiset{}
  {
    if ws != [] {
      NoJobs(ws[..|ws| - 1]);
    }
  }

  lemma {:induction false} JobsAfterWaking(ws: seq<Worker>)
    ensures JobsOf(WakeWorkers(ws)) == JobsOf(ws)
  {
    if ws != [] {
      JobsAfterWaking(ws[..|ws| - 1]);
      assert WakeWorkers(ws)[..|ws| - 1] == WakeWorkers(ws[..|ws| - 1]);
    }
  }

  lemma QueueSplit(q: seq<nat>)
    requires q != []
    ensures multiset(q) == multiset{q[0]} + multiset(q[1..])
  {
    assert q == [q[0]] + q[1..];
  }

  // Jobs n join the queue q.
  lemma BalanceAdd(q: multiset<nat>, r: multiset<nat>, d: multiset<nat>, x: multiset<nat>,
                   c: multiset<nat>, n: multiset<nat>)
    ensures (q + r + d + x + c) + n == (q + n) + r + d + x + c
  {
  }

  // Jobs h leave the front of the queue for the dropped ones.
  lemma BalanceMove(q: multiset<nat>, r: multiset<nat>, d: multiset<nat>, x: multiset<nat>,
                    c: multiset<nat>, h: multiset<nat>)
    ensures (h + q) + r + d + x + c == q + r + d + (x + h) + c
  {
  }

  // Jobs j leave the running ones r for the completed ones.
  lemma BalanceComplete(q: multiset<nat>, r: multiset<nat>, d: multiset<nat>, x: multiset<nat>,
                        c: multiset<nat>, j: multiset<nat>)
    requires j <= r
    ensures q + r + d + x + c == q + (r - j) + (d + j) + x + c
  {
  }

  lemma QueueGrown(q: seq<nat>, n: nat)
    ensures multiset(q + [n]) == multiset(q) + multiset{n}
  {
  }

  lemma BooksDropOldest(l: Ledger, running: multiset<nat>)
    requires Books(l, running) && l.queue != []
    ensures Books(l.(queue := l.queue[1..], droppedOldest := l.droppedOldest + 1,
                     dropped := l.dropped + multiset{l.queue[0]}), running)
  {
    hide Accepted;
    QueueSplit(l.queue);
    BalanceMove(multiset(l.queue[1..]), running, l.done, l.dropped, l.discarded, multiset{l.queue[0]});
  }

  lemma BooksAccept(l: Ledger, peak: nat, running: multiset<nat>)
    requires Books(l, running)
    ensures Books(l.(queue := l.queue + [l.submitted], submitted := l.submitted + 1, peakQueueDepth := peak),
                  running)
  {
    var n := l.submitted;
    assert Accepted(n + 1) == Accepted(n) + multiset{n};
    hide Accepted;
    QueueGrown(l.queue, n);
    BalanceAdd(multiset(l.queue), running, l.done, l.dropped, l.discarded, multiset{n});
  }

  lemma BooksEnqueue(c: Config, l: Ledger, running: multiset<nat>)
    requires Books(l, running)
    ensures Books(Enqueue(c, l), running)
  {
    hide Books, Full, Max;
    if Full(c, l) && l.queue != [] {
      BooksDropOldest(l, running);
      BooksAccept(l.(queue := l.queue[1..], droppedOldest := l.droppedOldest + 1,
                     dropped := l.dropped + multiset{l.queue[0]}), Enqueue(c, l).peakQueueDepth, running);
    } else {
      BooksAccept(l, Enqueue(c, l).peakQueueDepth, running);
    }
  }

  lemma BooksDequeue(l: Ledger, running: multiset<nat>)
    requires Books(l, running) && l.queue != []
    ensures Books(Dequeue(l), running + multiset{l.queue[0]})
  {
    hide Accepted;
    QueueSplit(l.queue);
  }

  lemma BooksComplete(l: Ledger, running: multiset<nat>, job: nat)
    requires Books(l, running) && job in running && l.inFlight > 0
    ensures Books(Complete(l, job), running - multiset{job})
  {
    hide Accepted;
    BalanceComplete(multiset(l.queue), running, l.done, l.dropped, l.discarded, multiset{job});
  }

  lemma BooksDiscard(l: Ledger, running: multiset<nat>)
    requires Books(l, running)
    ensures Books(Discard(l), running)
  {
    hide Accepted;
  }

  // ---------------------------------------------------------------------------
  // Every step keeps the invariant
  // ---------------------------------------------------------------------------

  lemma BooksKept(c: Config, s: State, step: Step)
    requires Inv(c, s) && Enabled(s, step)
    ensures var t := Next(c, s, step); Books(t.ledger, JobsOf(t.workers))
  {
    hide JobsOf, Books, Enqueue, Dequeue, Discard, Complete, QueueInOrder, WorkIsSeen, DrainersAreSeen, PhaseAgrees;
    match step {
      case Submit => BooksEnqueue(c, s.ledger, JobsOf(s.workers));
      case NotifyOne(w) => JobsUnchanged(s.workers, w, Awake);
      case NotifyNobody =>
      case Take(w) =>
        JobTaken(s.workers, w, s.ledger.queue[0]);
        BooksDequeue(s.ledger, JobsOf(s.workers));
      case GoToSleep(w) => JobsUnchanged(s.workers, w, Asleep);
      case Finish(w) =>
        JobEnded(s.workers, w);
        BooksComplete(s.ledger, JobsOf(s.workers), s.workers[w].job);
      case Exit(w) => JobsUnchanged(s.workers, w, Exited);
      case SpuriousWorker(w) => JobsUnchanged(s.workers, w, Awake);
      case Drain(d) =>
      case Recheck(d) =>
      case SpuriousDrainer(d) =>
      case Shutdown(discard) => BooksDiscard(s.ledger, JobsOf(s.workers));
      case NotifyAll => JobsAfterWaking(s.workers);
      case Join => NoJobs(s.workers); NoJobs([]);
      case Start => ClosedHasNoWorkers(c, s); NoJobs([]); NoJobs(Idle(c.workers));
    }
  }

  lemma ClosedHasNoWorkers(c: Config, s: State)
    requires Inv(c, s) && s.phase.Closed?
    ensures s.workers == [] && s.ledger.queue == []
  {
  }

  lemma QueueOrderKept(c: Config, s: State, step: Step)
    requires ValidConfig(c) && Inv(c, s) && Enabled(s, step)
    ensures QueueInOrder(c, Next(c, s, step).ledger)
  {
    hide JobsOf, Books, PhaseAgrees, WorkIsSeen, DrainersAreSeen, WakeDrainers;
  }

  lemma SameQueue(l: Ledger, job: nat)
    requires l.inFlight > 0
    ensures Complete(l, job).queue == l.queue
  {
  }

  lemma PhaseKept(c: Config, s: State, step: Step)
    requires ValidConfig(c) && Inv(c, s) && Enabled(s, step)
    ensures var t := Next(c, s, step); PhaseAgrees(c, t.phase, t.ledger.queue, t.workers)
  {
    hide JobsOf, Books, QueueInOrder, WorkIsSeen, DrainersAreSeen, Enqueue, WakeDrainers, Quiescent, Full, Complete;
    match step {
      case Finish(w) => SameQueue(s.ledger, s.workers[w].job);
      case Join => assert s.workers[0].Exited?;
      case _ =>
    }
  }

  lemma WorkStaysSeen(c: Config, s: State, step: Step)
    requires ValidConfig(c) && Inv(c, s) && Enabled(s, step)
    ensures var t := Next(c, s, step); WorkIsSeen(t.phase, t.ledger.queue, t.notifies, t.workers)
  {
    hide JobsOf, Books, QueueInOrder, DrainersAreSeen, Enqueue, WakeDrainers;
    var t := Next(c, s, step);
    if step.NotifyOne? || step.Take? || step.Finish? || step.SpuriousWorker? {
      assert t.workers[step.w].Awake? || t.workers[step.w].Running?;
    } else if (step.NotifyNobody? || step.NotifyAll?) && s.ledger.queue != [] {
      assert !s.workers[0].Exited?;
      assert t.workers[0].Awake? || t.workers[0].Running?;
    }
  }

  lemma DrainersStaySeen(c: Config, s: State, step: Step)
    requires ValidConfig(c) && Inv(c, s) && Enabled(s, step)
    ensures var t := Next(c, s, step); DrainersAreSeen(t.phase, t.ledger, t.workers, t.drainers)
  {
    hide JobsOf, QueueInOrder, WorkIsSeen, Books, PhaseAgrees, AllExited, NobodyWaits;
    var t := Next(c, s, step);
    match step {
      case Submit =>
      case NotifyOne(w) => StillSomeone(s.workers, w, Awake);
      case NotifyNobody =>
      case Take(w) =>
      case GoToSleep(w) => StillSomeone(s.workers, w, Asleep);
      case Finish(w) => StillSomeone(s.workers, w, Awake); EveryoneWoken(s.drainers);
      case Exit(w) => EveryoneWoken(s.drainers);
      case SpuriousWorker(w) => StillSomeone(s.workers, w, Awake);
      case Drain(d) =>
      case Recheck(d) => FewerWait(s.drainers, d, Outside);
      case SpuriousDrainer(d) => FewerWait(s.drainers, d, Checking);
      case Shutdown(discard) => OpenHasSomeone(c, s);
      case NotifyAll => WokenNotExited(s.workers);
      case Join => NothingLeft(c, s);
      case Start => NothingLeft(c, s);
    }
  }

  lemma StillSomeone(ws: seq<Worker>, w: nat, pc: Worker)
    requires w < |ws| && !pc.Exited?
    ensures !AllExited(ws[w := pc])
  {
    assert !ws[w := pc][w].Exited?;
  }

  lemma EveryoneWoken(ds: seq<Drainer>)
    ensures NobodyWaits(WakeDrainers(ds))
  {
  }

  lemma FewerWait(ds: seq<Drainer>, d: nat, pc: Drainer)
    requires d < |ds| && !pc.Sleeping?
    ensures NobodyWaits(ds) ==> NobodyWaits(ds[d := pc])
  {
  }

  lemma OpenHasSomeone(c: Config, s: State)
    requires ValidConfig(c) && Inv(c, s) && s.phase.Open?
    ensures !AllExited(s.workers)
  {
    assert !s.workers[0].Exited?;
  }

  // Once every worker has exited, no job is queued or running.
  lemma NothingLeft(c: Config, s: State)
    requires ValidConfig(c) && Inv(c, s) && (s.phase.Closed? || AllExited(s.workers))
    ensures Quiescent(s.ledger) && AllExited(s.workers)
  {
    NoJobs(s.workers);
    if !s.phase.Closed? {
      assert s.workers[0].Exited?;
    }
  }

  lemma WokenNotExited(ws: seq<Worker>)
    ensures AllExited(WakeWorkers(ws)) <==> AllExited(ws)
  {
    forall i | 0 <= i < |ws|
      ensures WakeWorkers(ws)[i].Exited? <==> ws[i].Exited?
    {
    }
  }

  lemma InvKept(c: Config, s: State, step: Step)
    requires ValidConfig(c) && Inv(c, s) && Enabled(s, step)
    ensures Inv(c, Next(c, s, step))
  {
    BooksKept(c, s, step);
    QueueOrderKept(c, s, step);
    PhaseKept(c, s, step);
    WorkStaysSeen(c, s, step);
    DrainersStaySeen(c, s, step);
    hide *;
  }

  lemma InitialInv(c: Config, drainers: nat)
    requires ValidConfig(c)
    ensures Inv(c, Initial(c, drainers))
  {
    NoJobs(Idle(c.workers));
  }

  lemma {:induction false} RunKeepsInv(c: Config, s: State, steps: seq<Step>)
    requires ValidConfig(c) && Inv(c, s) && IsRun(c, s, steps)
    ensures Inv(c, After(c, s, steps))
  {
    hide Inv;
    if steps != [] {
      RunKeepsInv(c, s, steps[..|steps| - 1]);
      InvKept(c, After(c, s, steps[..|steps| - 1]), steps[|steps| - 1]);
    }
  }

  // ---------------------------------------------------------------------------
  // What holds over all interleavings
  // ---------------------------------------------------------------------------

  lemma {:induction false} AcceptedOnce(n: nat, j: nat)
    ensures |Accepted(n)| == n
    ensures Accepted(n)[j] == if j < n then 1 else 0
  {
    if n > 0 {
      AcceptedOnce(n - 1, j);
    }
  }

  /** In how many places job j is. */
  ghost function Places(s: State, j: nat): nat {
    multiset(s.ledger.queue)[j] + JobsOf(s.workers)[j] + s.ledger.done[j] + s.ledger.dropped[j] +
    s.ledger.discarded[j]
  }

  /** Whatever the interleaving: every accepted job is in exactly one place, the counters add
      up, the queue never exceeds its capacity and is served first in, first out. */
  lemma JobsConserved(c: Config, drainers: nat, steps: seq<Step>)
    requires ValidConfig(c) && IsRun(c, Initial(c, drainers), steps)
    ensures var s := After(c, Initial(c, drainers), steps);
      && s.ledger.submitted == |s.ledger.queue| + s.ledger.inFlight + s.ledger.completed
                               + s.ledger.droppedOldest + |s.ledger.discarded|
      && (forall j: nat :: Places(s, j) == if j < s.ledger.submitted then 1 else 0)
      && |s.ledger.queue| <= s.ledger.peakQueueDepth <= c.capacity
      && (forall i :: 0 <= i < |s.ledger.queue| ==>
            s.ledger.queue[i] == s.ledger.submitted - |s.ledger.queue| + i)
  {
    hide IsRun, After, Initial, JobsOf, PhaseAgrees, WorkIsSeen, DrainersAreSeen;
    InitialInv(c, drainers);
    RunKeepsInv(c, Initial(c, drainers), steps);
    var s := After(c, Initial(c, drainers), steps);
    forall j: nat
      ensures Places(s, j) == if j < s.ledger.submitted then 1 else 0
      ensures |Accepted(s.ledger.submitted)| == s.ledger.submitted
    {
      AcceptedOnce(s.ledger.submitted, j);
    }
    AcceptedOnce(s.ledger.submitted, 0);
  }

  /** drain succeeds only at a quiescent point, where every accepted job has been completed,
      dropped or discarded; that a thread already inside it is woken after shutdown changes
      nothing. */
  lemma DrainReturnsQuiescent(c: Config, s: State, step: Step)
    requires Enabled(s, step) && (step.Recheck? || (step.Drain? && !s.phase.Closed?))
    requires Next(c, s, step).drainers[step.d] == Outside
    requires ValidConfig(c) && Inv(c, s)
    ensures Quiescent(s.ledger) && JobsOf(s.workers) == multiset{}
    ensures Accepted(s.ledger.submitted) == s.ledger.done + s.ledger.dropped + s.ledger.discarded
  {
    hide JobsOf, QueueInOrder, PhaseAgrees, WorkIsSeen, DrainersAreSeen, Books, Accepted, Quiescent;
    ReturnsQuiescent(c, s, step);
    QuiescentBooks(s.ledger, JobsOf(s.workers));
  }

  lemma ReturnsQuiescent(c: Config, s: State, step: Step)
    requires Enabled(s, step) && (step.Recheck? || (step.Drain? && !s.phase.Closed?))
    requires Next(c, s, step).drainers[step.d] == Outside
    ensures Quiescent(s.ledger)
  {
    hide Quiescent, Enqueue, Dequeue, Complete, Discard, WakeDrainers, WakeWorkers, Idle;
  }

  lemma QuiescentBooks(l: Ledger, running: multiset<nat>)
    requires Books(l, running) && Quiescent(l)
    ensures running == multiset{} && Accepted(l.submitted) == l.done + l.dropped + l.discarded
  {
    hide Accepted;
  }

  lemma {:induction false} RunningWorker(ws: seq<Worker>) returns (w: nat)
    requires JobsOf(ws) != multiset{}
    ensures w < |ws| && ws[w].Running?
  {
    if ws[|ws| - 1].Running? {
      w := |ws| - 1;
    } else {
      w := RunningWorker(ws[..|ws| - 1]);
    }
  }

  // A worker that can move: it finishes, takes a job, or exits.
  function MoveOf(s: State, w: nat): Step
    requires w < |s.workers|
  {
    if s.workers[w].Running? then Finish(w) else if s.ledger.queue != [] then Take(w) else Exit(w)
  }

  /** Steps the runtime takes by itself, with no thread outside it doing anything: those of a
      worker that is not asleep and those of whoever still has to notify one. */
  predicate IsDriven(step: Step) {
    step.NotifyOne? || step.NotifyNobody? || step.Take? || step.Finish? || step.Exit? ||
    step.NotifyAll?
  }

  /** Steps of the workers side: these, going to sleep and waking up for no reason. */
  predicate IsWork(step: Step) {
    IsDriven(step) || step.SpuriousWorker? || step.GoToSleep?
  }

  lemma CanFinish(s: State, w: nat)
    requires Books(s.ledger, JobsOf(s.workers)) && w < |s.workers| && s.workers[w].Running?
    ensures Enabled(s, Finish(w)) && s.ledger.inFlight > 0
  {
    hide JobsOf;
    JobEnded(s.workers, w);
  }

  /** No drainer is stranded: while one sleeps, a worker that is awake, a due notification or
      shutdown can move, without waiting for a spurious wake-up. This covers shutdown emptying
      the queue under a sleeping drainer. */
  lemma NoDrainerStranded(c: Config, s: State) returns (step: Step)
    requires ValidConfig(c) && Inv(c, s) && !NobodyWaits(s.drainers)
    ensures Enabled(s, step) && IsDriven(step)
  {
    hide JobsOf, QueueInOrder, NobodyWaits;
    if s.ledger.inFlight > 0 {
      var w := RunningWorker(s.workers);
      CanFinish(s, w);
      step := Finish(w);
    } else if s.ledger.queue != [] {
      if s.phase.Flagged? {
        step := NotifyAll;
      } else if SomeoneWorks(s.workers) {
        var w :| 0 <= w < |s.workers| && (s.workers[w].Awake? || s.workers[w].Running?);
        step := MoveOf(s, w);
        if s.workers[w].Running? {
          CanFinish(s, w);
        }
      } else if w: nat :| w < |s.workers| && s.workers[w].Asleep? {
        step := NotifyOne(w);
      } else {
        step := NotifyNobody;
      }
    } else {
      step := StoppingCanMove(c, s);
    }
  }

  lemma StoppingCanMove(c: Config, s: State) returns (step: Step)
    requires ValidConfig(c) && Inv(c, s) && Stopping(s.phase) && !AllExited(s.workers)
    ensures Enabled(s, step) && IsDriven(step)
  {
    hide JobsOf, QueueInOrder, WorkIsSeen, DrainersAreSeen, Books;
    var w: nat :| w < |s.workers| && !s.workers[w].Exited?;
    if s.phase.Flagged? {
      step := NotifyAll;
    } else {
      step := MoveOf(s, w);
      if s.workers[w].Running? {
        CanFinish(s, w);
      }
    }
  }

  // ---------------------------------------------------------------------------
  // Progress while the runtime is open
  // ---------------------------------------------------------------------------

  /** What the runtime does by itself while it is open. */
  predicate IsPace(step: Step) {
    step.Take? || step.Finish? || step.GoToSleep? || step.NotifyOne? || step.NotifyNobody?
  }

  function OpenWeight(w: Worker): nat {
    match w
    case Exited => 0
    case Asleep => 0
    case Awake => 1
    case Running(_) => 2
  }

  function OpenWeights(ws: seq<Worker>): nat {
    if ws == [] then 0 else OpenWeights(ws[..|ws| - 1]) + OpenWeight(ws[|ws| - 1])
  }

  /** An upper bound on the steps left before an open runtime has nothing to do. */
  function OpenMeasure(s: State): nat {
    3 * |s.ledger.queue| + 2 * s.notifies + OpenWeights(s.workers)
  }

  lemma {:induction false} OpenWeightsAfterUpdate(ws: seq<Worker>, w: nat, pc: Worker)
    requires w < |ws|
    ensures OpenWeights(ws[w := pc]) == OpenWeights(ws) - OpenWeight(ws[w]) + OpenWeight(pc)
  {
    var n := |ws| - 1;
    if w == n {
      assert ws[w := pc][..n] == ws[..n];
    } else {
      OpenWeightsAfterUpdate(ws[..n], w, pc);
      assert ws[w := pc][..n] == ws[..n][w := pc];
    }
  }

  /** Every step of an open runtime brings it closer to having nothing to do, except that an
      accepted job takes it at most 5 further away and a spurious wake-up of a worker 1. */
  lemma OpenStep(c: Config, s: State, step: Step)
    requires s.phase.Open? && Enabled(s, step) && !step.Shutdown?
    ensures var t := Next(c, s, step);
      && t.phase.Open?
      && (IsPace(step) ==> OpenMeasure(t) < OpenMeasure(s))
      && (step.Submit? ==> OpenMeasure(t) <= OpenMeasure(s) + 5)
      && (step.SpuriousWorker? ==> OpenMeasure(t) == OpenMeasure(s) + 1)
      && (!IsPace(step) && !step.Submit? && !step.SpuriousWorker? ==> OpenMeasure(t) == OpenMeasure(s))
  {
    hide OpenWeights;
    match step {
      case NotifyOne(w) => OpenWeightsAfterUpdate(s.workers, w, Awake);
      case Take(w) => OpenWeightsAfterUpdate(s.workers, w, Running(s.ledger.queue[0]));
      case GoToSleep(w) => OpenWeightsAfterUpdate(s.workers, w, Asleep);
      case Finish(w) => OpenWeightsAfterUpdate(s.workers, w, Awake);
      case SpuriousWorker(w) => OpenWeightsAfterUpdate(s.workers, w, Awake);
      case _ =>
    }
  }

  function PaceSteps(steps: seq<Step>): nat {
    if steps == [] then 0
    else PaceSteps(steps[..|steps| - 1]) + if IsPace(steps[|steps| - 1]) then 1 else 0
  }

  /** What the threads outside the runtime add: 5 for a call of submit, 1 for a spurious
      wake-up of a worker. */
  function Load(steps: seq<Step>): nat {
    if steps == [] then 0
    else Load(steps[..|steps| - 1]) +
         match steps[|steps| - 1] case Submit => 5 case SpuriousWorker(_) => 1 case _ => 0
  }

  predicate NoShutdown(steps: seq<Step>) {
    forall i :: 0 <= i < |steps| ==> !steps[i].Shutdown?
  }

  /** An open runtime does not spin: however the threads interleave, the steps it takes by
      itself are bounded by where it started and by what was submitted meanwhile. */
  lemma {:induction false} OpenBounded(c: Config, s: State, steps: seq<Step>)
    requires s.phase.Open? && IsRun(c, s, steps) && NoShutdown(steps)
    ensures After(c, s, steps).phase.Open?
    ensures PaceSteps(steps) + OpenMeasure(After(c, s, steps)) <= OpenMeasure(s) + Load(steps)
  {
    hide OpenMeasure, Next, Enabled;
    if steps != [] {
      var front := steps[..|steps| - 1];
      OpenBounded(c, s, front);
      OpenStep(c, After(c, s, front), steps[|steps| - 1]);
    }
  }

  /** While an open runtime has a job queued or running, or a thread asleep in drain, it can
      take such a step. */
  lemma OpenMoves(c: Config, s: State) returns (step: Step)
    requires ValidConfig(c) && Inv(c, s) && s.phase.Open?
    requires !Quiescent(s.ledger) || !NobodyWaits(s.drainers)
    ensures Enabled(s, step) && IsPace(step)
  {
    hide JobsOf, QueueInOrder, NobodyWaits;
    if s.ledger.inFlight > 0 {
      var w := RunningWorker(s.workers);
      CanFinish(s, w);
      step := Finish(w);
    } else if w: nat :| w < |s.workers| && s.workers[w].Awake? {
      step := Take(w);
    } else if w: nat :| w < |s.workers| && s.workers[w].Running? {
      CanFinish(s, w);
      step := Finish(w);
    } else if w: nat :| w < |s.workers| && s.workers[w].Asleep? {
      step := NotifyOne(w);
    } else {
      step := NotifyNobody;
    }
  }

  /** So after at most OpenMeasure steps of its own an open runtime that is left alone comes to
      rest: when it can take none, every accepted job is completed, dropped or discarded, no
      thread sleeps in drain, and one that is checking or calls drain returns. */
  lemma OpenSettles(c: Config, s: State)
    requires ValidConfig(c) && Inv(c, s) && s.phase.Open?
    requires forall step: Step :: IsPace(step) ==> !Enabled(s, step)
    ensures Quiescent(s.ledger) && NobodyWaits(s.drainers)
    ensures Accepted(s.ledger.submitted) == s.ledger.done + s.ledger.dropped + s.ledger.discarded
    ensures forall d: nat :: d < |s.drainers| ==>
      && (Enabled(s, Recheck(d)) ==> Next(c, s, Recheck(d)).drainers[d].Outside?)
      && (Enabled(s, Drain(d)) ==> Next(c, s, Drain(d)) == s)
  {
    if !Quiescent(s.ledger) || !NobodyWaits(s.drainers) {
      var step := OpenMoves(c, s);
    } else {
      QuiescentBooks(s.ledger, JobsOf(s.workers));
    }
  }

  // ---------------------------------------------------------------------------
  // Shutdown
  // ---------------------------------------------------------------------------

  function Weight(w: Worker): nat {
    match w
    case Exited => 0
    case Awake => 1
    case Asleep => 2
    case Running(_) => 2
  }

  function Weights(ws: seq<Worker>): nat {
    if ws == [] then 0 else Weights(ws[..|ws| - 1]) + Weight(ws[|ws| - 1])
  }

  /** An upper bound on the work left once shutdown has begun. */
  function Measure(s: State): nat {
    2 * |s.ledger.queue| + Weights(s.workers) + s.notifies + if s.phase.Flagged? then 1 else 0
  }

  lemma {:induction false} WeightsAfterUpdate(ws: seq<Worker>, w: nat, pc: Worker)
    requires w < |ws|
    ensures Weights(ws[w := pc]) == Weights(ws) - Weight(ws[w]) + Weight(pc)
  {
    var n := |ws| - 1;
    if w == n {
      assert ws[w := pc][..n] == ws[..n];
    } else {
      WeightsAfterUpdate(ws[..n], w, pc);
      assert ws[w := pc][..n] == ws[..n][w := pc];
    }
  }

  lemma {:induction false} WeightsAfterWaking(ws: seq<Worker>)
    ensures Weights(WakeWorkers(ws)) <= Weights(ws)
  {
    if ws != [] {
      var n := |ws| - 1;
      WeightsAfterWaking(ws[..n]);
      assert WakeWorkers(ws)[..n] == WakeWorkers(ws[..n]);
    }
  }

  /** Once stopping, every step of the workers side brings the end closer and no other step
      delays it; nothing is accepted, dropped or discarded any more. */
  lemma StoppingStep(c: Config, s: State, step: Step)
    requires Stopping(s.phase) && Enabled(s, step) && !step.Join?
    ensures var t := Next(c, s, step);
      && Stopping(t.phase)
      && (if IsWork(step) then Measure(t) < Measure(s) else Measure(t) == Measure(s))
      && t.ledger.submitted == s.ledger.submitted
      && t.ledger.dropped == s.ledger.dropped && t.ledger.discarded == s.ledger.discarded
  {
    hide Weights;
    match step {
      case NotifyOne(w) => WeightsAfterUpdate(s.workers, w, Awake);
      case Take(w) => WeightsAfterUpdate(s.workers, w, Running(s.ledger.queue[0]));
      case Finish(w) => WeightsAfterUpdate(s.workers, w, Awake);
      case Exit(w) => WeightsAfterUpdate(s.workers, w, Exited);
      case SpuriousWorker(w) => WeightsAfterUpdate(s.workers, w, Awake);
      case NotifyAll => WeightsAfterWaking(s.workers);
      case _ =>
    }
  }

  function WorkSteps(steps: seq<Step>): nat {
    if steps == [] then 0
    else WorkSteps(steps[..|steps| - 1]) + if IsWork(steps[|steps| - 1]) then 1 else 0
  }

  /** From the moment shutdown begins, at most Measure more steps of the workers side can
      happen before it joins, however the other threads interleave. */
  lemma {:induction false} ShutdownBounded(c: Config, s: State, steps: seq<Step>)
    requires Stopping(s.phase) && IsRun(c, s, steps) && Join !in steps
    ensures var t := After(c, s, steps);
      && Stopping(t.phase)
      && WorkSteps(steps) + Measure(t) <= Measure(s)
      && t.ledger.submitted == s.ledger.submitted
      && t.ledger.dropped == s.ledger.dropped && t.ledger.discarded == s.ledger.discarded
  {
    hide Measure, Next, Enabled;
    if steps != [] {
      var front := steps[..|steps| - 1];
      ShutdownBounded(c, s, front);
      StoppingStep(c, After(c, s, front), steps[|steps| - 1]);
    }
  }

  /** While a worker is left, a step that needs no spurious wake-up is enabled; when none is enabled any more,
      every worker has exited, nothing is queued or running and no drainer sleeps. */
  lemma ShutdownCompletes(c: Config, s: State)
    requires ValidConfig(c) && Inv(c, s) && Stopping(s.phase)
    ensures !AllExited(s.workers) ==> exists step: Step :: Enabled(s, step) && IsDriven(step)
    ensures AllExited(s.workers) ==> Quiescent(s.ledger) && NobodyWaits(s.drainers)
  {
    if AllExited(s.workers) {
      NothingLeft(c, s);
    } else {
      var step := StoppingCanMove(c, s);
    }
  }

  /** Shutting down without discarding loses no queued job: when the workers have exited, the
      jobs done are those done before, those that were queued and those that were running. With
      discarding, the queued ones are the only ones missing. */
  lemma ShutdownAccounts(c: Config, s: State, discard: bool, steps: seq<Step>)
    requires ValidConfig(c) && Inv(c, s) && s.phase.Open?
    requires var s1 := Next(c, s, Shutdown(discard));
      IsRun(c, s1, steps) && Join !in steps && AllExited(After(c, s1, steps).workers)
    ensures var t := After(c, Next(c, s, Shutdown(discard)), steps);
      && t.ledger.done + (if discard then multiset(s.ledger.queue) else multiset{}) ==
           s.ledger.done + multiset(s.ledger.queue) + JobsOf(s.workers)
      && t.ledger.discarded == s.ledger.discarded + (if discard then multiset(s.ledger.queue) else multiset{})
      && t.ledger.dropped == s.ledger.dropped
      && t.ledger.queue == []
  {
    hide JobsOf, IsRun, After, Accepted, PhaseAgrees, QueueInOrder, WorkIsSeen, DrainersAreSeen, Books,
      NobodyWaits, AllExited, Measure, WorkSteps;
    var s1 := Next(c, s, Shutdown(discard));
    var t := After(c, s1, steps);
    InvKept(c, s, Shutdown(discard));
    ShutdownBounded(c, s1, steps);
    RunKeepsInv(c, s1, steps);
    NothingLeft(c, t);
    NoJobs(t.workers);
    assert s1.workers == s.workers;
    DoneAtLast(s1.ledger, t.ledger, JobsOf(s.workers));
  }

  // The two balances of the ledger, when shutdown begins and after the last exit.
  lemma DoneAtLast(l: Ledger, m: Ledger, running: multiset<nat>)
    requires Books(l, running) && Books(m, multiset{}) && m.queue == [] && m.submitted == l.submitted
    requires m.dropped == l.dropped && m.discarded == l.discarded
    ensures m.done == l.done + multiset(l.queue) + running
  {
    hide Accepted;
    var settled := l.dropped + l.discarded;
    assert m.done + settled == Accepted(m.submitted);
    assert (l.done + multiset(l.queue) + running) + settled == Accepted(l.submitted);
    Cancel(m.done, l.done + multiset(l.queue) + running, settled);
  }

  lemma Cancel(a: multiset<nat>, b: multiset<nat>, c: multiset<nat>)
    requires a + c == b + c
    ensures a == b
  {
    assert a == (a + c) - c;
    assert b == (b + c) - c;
  }
}
