/** What the backpressure policy means: who is admitted, which job is thrown away, and what the
    counters say about all of this over any interleaving (src/runtime.cpp). */
module RuntimePolicy {
  import opened Runtime

  // ---------------------------------------------------------------------------
  // One call of submit
  // ---------------------------------------------------------------------------

  /** Jobs are numbered in the order they were accepted, so the smallest queued one is the oldest. */
  ghost predicate Oldest(queue: seq<nat>, job: nat) {
    job in queue && forall i :: 0 <= i < |queue| ==> job <= queue[i]
  }

  /** While the runtime is open, submit accepts exactly when there is room or the policy drops the
      oldest job. A refusal leaves every job where it was and counts for its own reason: no room,
      or not open. */
  lemma AdmittedIff(c: Config, s: State)
    requires ValidConfig(c) && Inv(c, s)
    ensures var t := Next(c, s, Submit);
      && (t.ledger.submitted == s.ledger.submitted + 1 <==>
            s.phase.Open? && (|s.ledger.queue| < c.capacity || c.policy == DropOldest))
      && (t.ledger.submitted != s.ledger.submitted + 1 ==> t.ledger == s.ledger && t.notifies == s.notifies)
      && t.rejectedBackpressure == s.rejectedBackpressure +
           (if s.phase.Open? && |s.ledger.queue| == c.capacity && c.policy == Reject then 1 else 0)
      && t.rejectedAfterShutdown == s.rejectedAfterShutdown + (if s.phase.Open? then 0 else 1)
  {
    hide JobsOf, PhaseAgrees, WorkIsSeen, DrainersAreSeen, Books;
  }

  /** A job is thrown away only by a submit into a full queue of an open runtime that drops the
      oldest; then it is exactly the oldest queued job, and every other job stays, in order, ahead
      of the new one. */
  lemma DropsOldest(c: Config, s: State, step: Step)
    requires ValidConfig(c) && Inv(c, s) && Enabled(s, step)
    ensures var t := Next(c, s, step);
      && (t.ledger.dropped != s.ledger.dropped <==>
            step.Submit? && s.phase.Open? && c.policy == DropOldest && |s.ledger.queue| == c.capacity)
      && (t.ledger.dropped != s.ledger.dropped ==>
            exists job :: Oldest(s.ledger.queue, job)
              && t.ledger.dropped == s.ledger.dropped + multiset{job}
              && [job] + t.ledger.queue == s.ledger.queue + [s.ledger.submitted])
      && (t.ledger.submitted != s.ledger.submitted && t.ledger.dropped == s.ledger.dropped ==>
            t.ledger.queue == s.ledger.queue + [s.ledger.submitted])
  {
    hide JobsOf, PhaseAgrees, WorkIsSeen, DrainersAreSeen, Books, WakeDrainers, WakeWorkers, Idle;
    var q := s.ledger.queue;
    if step.Submit? && s.phase.Open? && c.policy == DropOldest && |q| == c.capacity {
      assert Oldest(q, q[0]);
      MoreOfOne(s.ledger.dropped, q[0]);
      assert [q[0]] + q[1..] == q;
      assert [q[0]] + (q[1..] + [s.ledger.submitted]) == q + [s.ledger.submitted];
    }
  }

  lemma MoreOfOne(m: multiset<nat>, j: nat)
    ensures m + multiset{j} != m
  {
    assert (m + multiset{j})[j] == m[j] + 1;
  }

  // ---------------------------------------------------------------------------
  // Whole runs
  // ---------------------------------------------------------------------------

  /** Under Reject no job is ever thrown away, under DropOldest none is ever refused for want of
      room, however the threads interleave. */
  lemma {:induction false} PolicyObeyed(c: Config, drainers: nat, steps: seq<Step>)
    requires IsRun(c, Initial(c, drainers), steps)
    ensures var s := After(c, Initial(c, drainers), steps);
      && (c.policy == Reject ==> s.ledger.droppedOldest == 0 && s.ledger.dropped == multiset{})
      && (c.policy == DropOldest ==> s.rejectedBackpressure == 0)
  {
    hide Next, Enabled;
    if steps != [] {
      var front := steps[..|steps| - 1];
      PolicyObeyed(c, drainers, front);
      PolicyStep(c, After(c, Initial(c, drainers), front), steps[|steps| - 1]);
    }
  }

  lemma PolicyStep(c: Config, s: State, step: Step)
    requires Enabled(s, step)
    ensures var t := Next(c, s, step);
      && (c.policy == Reject ==>
            t.ledger.droppedOldest == s.ledger.droppedOldest && t.ledger.dropped == s.ledger.dropped)
      && (c.policy == DropOldest ==> t.rejectedBackpressure == s.rejectedBackpressure)
  {
    hide WakeDrainers, WakeWorkers, Idle, Max;
  }

  /** How often submit was called. */
  function Submissions(steps: seq<Step>): nat {
    if steps == [] then 0
    else Submissions(steps[..|steps| - 1]) + if steps[|steps| - 1] == Submit then 1 else 0
  }

  /** Every call of submit is counted exactly once: accepted, refused for want of room, or refused
      because the runtime was not open. */
  lemma {:induction false} EverySubmitCounted(c: Config, drainers: nat, steps: seq<Step>)
    requires IsRun(c, Initial(c, drainers), steps)
    ensures var s := After(c, Initial(c, drainers), steps);
      Submissions(steps) == s.ledger.submitted + s.rejectedBackpressure + s.rejectedAfterShutdown
  {
    hide Next, Enabled;
    if steps != [] {
      var front := steps[..|steps| - 1];
      EverySubmitCounted(c, drainers, front);
      SubmitCounted(c, After(c, Initial(c, drainers), front), steps[|steps| - 1]);
    }
  }

  lemma SubmitCounted(c: Config, s: State, step: Step)
    requires Enabled(s, step)
    ensures var t := Next(c, s, step);
      t.ledger.submitted + t.rejectedBackpressure + t.rejectedAfterShutdown ==
        s.ledger.submitted + s.rejectedBackpressure + s.rejectedAfterShutdown + if step == Submit then 1 else 0
  {
    hide WakeDrainers, WakeWorkers, Idle, Max;
  }

  /** How often a submitter notified a worker, or found none to notify. */
  function Notifications(steps: seq<Step>): nat {
    if steps == [] then 0
    else Notifications(steps[..|steps| - 1]) +
         if steps[|steps| - 1].NotifyOne? || steps[|steps| - 1].NotifyNobody? then 1 else 0
  }

  /** Every accepted job is followed by one notification, sent or still owed, and by no other. */
  lemma {:induction false} OneNotificationEach(c: Config, drainers: nat, steps: seq<Step>)
    requires IsRun(c, Initial(c, drainers), steps)
    ensures var s := After(c, Initial(c, drainers), steps);
      s.ledger.submitted == s.notifies + Notifications(steps)
  {
    hide Next, Enabled;
    if steps != [] {
      var front := steps[..|steps| - 1];
      OneNotificationEach(c, drainers, front);
      NotificationStep(c, After(c, Initial(c, drainers), front), steps[|steps| - 1]);
    }
  }

  lemma NotificationStep(c: Config, s: State, step: Step)
    requires Enabled(s, step)
    ensures var t := Next(c, s, step);
      t.notifies + (if step.NotifyOne? || step.NotifyNobody? then 1 else 0) - s.notifies ==
        t.ledger.submitted - s.ledger.submitted
  {
    hide WakeDrainers, WakeWorkers, Idle, Max;
  }

  /** The longest the queue has been at any point of the run. */
  ghost function LongestQueue(c: Config, s: State, steps: seq<Step>): nat
    requires IsRun(c, s, steps)
  {
    if steps == [] then |s.ledger.queue|
    else Max(LongestQueue(c, s, steps[..|steps| - 1]), |After(c, s, steps).ledger.queue|)
  }

  /** The peak reported is the peak reached. */
  lemma {:induction false} PeakIsReached(c: Config, drainers: nat, steps: seq<Step>)
    requires IsRun(c, Initial(c, drainers), steps)
    ensures After(c, Initial(c, drainers), steps).ledger.peakQueueDepth ==
      LongestQueue(c, Initial(c, drainers), steps)
  {
    hide Next, Enabled;
    if steps != [] {
      var front := steps[..|steps| - 1];
      PeakIsReached(c, drainers, front);
      QueueWithinPeak(c, Initial(c, drainers), front);
      PeakGrows(c, After(c, Initial(c, drainers), front), steps[|steps| - 1]);
    }
  }

  lemma PeakGrows(c: Config, s: State, step: Step)
    requires Enabled(s, step) && |s.ledger.queue| <= s.ledger.peakQueueDepth
    ensures var t := Next(c, s, step);
      t.ledger.peakQueueDepth == Max(s.ledger.peakQueueDepth, |t.ledger.queue|)
  {
    hide WakeDrainers, WakeWorkers, Idle;
  }

  lemma QueueWithinPeak(c: Config, s: State, steps: seq<Step>)
    requires IsRun(c, s, steps)
    ensures |After(c, s, steps).ledger.queue| <= LongestQueue(c, s, steps)
  {
  }

  /** The jobs that workers started, in the order they started them. */
  ghost function Started(c: Config, s: State, steps: seq<Step>): seq<nat>
    requires IsRun(c, s, steps)
  {
    if steps == [] then []
    else
      var front, last := steps[..|steps| - 1], steps[|steps| - 1];
      Started(c, s, front) + if last.Take? then [After(c, s, front).ledger.queue[0]] else []
  }

  predicate Climbing(jobs: seq<nat>) {
    forall i, j :: 0 <= i < j < |jobs| ==> jobs[i] < jobs[j]
  }

  /** Jobs are started in the order they were accepted, each at most once, and always ahead of
      everything still queued, however many workers compete. */
  lemma {:induction false} StartedInOrder(c: Config, drainers: nat, steps: seq<Step>)
    requires ValidConfig(c) && IsRun(c, Initial(c, drainers), steps)
    ensures var s, jobs := After(c, Initial(c, drainers), steps), Started(c, Initial(c, drainers), steps);
      && Climbing(jobs)
      && (forall i, j :: 0 <= i < |jobs| && 0 <= j < |s.ledger.queue| ==> jobs[i] < s.ledger.queue[j])
  {
    StartedBehindQueue(c, drainers, steps);
    InitialInv(c, drainers);
    RunKeepsInv(c, Initial(c, drainers), steps);
    hide IsRun, After, Initial, Started, Books, PhaseAgrees, WorkIsSeen, DrainersAreSeen, Climbing;
  }

  lemma {:induction false} StartedBehindQueue(c: Config, drainers: nat, steps: seq<Step>)
    requires ValidConfig(c) && IsRun(c, Initial(c, drainers), steps)
    ensures var l, jobs := After(c, Initial(c, drainers), steps).ledger, Started(c, Initial(c, drainers), steps);
      && |l.queue| <= l.submitted && Climbing(jobs)
      && (forall i :: 0 <= i < |jobs| ==> jobs[i] < l.submitted - |l.queue|)
  {
    hide WakeDrainers, WakeWorkers, Idle, Inv;
    if steps != [] {
      var front := steps[..|steps| - 1];
      StartedBehindQueue(c, drainers, front);
      InitialInv(c, drainers);
      RunKeepsInv(c, Initial(c, drainers), front);
      FrontOfQueue(c, After(c, Initial(c, drainers), front), steps[|steps| - 1]);
    }
  }

  // No step moves the queue's front back, and taking a job moves it past that job.
  lemma FrontOfQueue(c: Config, s: State, step: Step)
    requires ValidConfig(c) && Inv(c, s) && Enabled(s, step)
    ensures var l, m := s.ledger, Next(c, s, step).ledger;
      && |l.queue| <= l.submitted && |m.queue| <= m.submitted
      && l.submitted - |l.queue| <= m.submitted - |m.queue|
      && (step.Take? ==> l.queue[0] == l.submitted - |l.queue| < m.submitted - |m.queue|)
  {
    hide JobsOf, PhaseAgrees, WorkIsSeen, DrainersAreSeen, Books, WakeDrainers, WakeWorkers, Idle;
  }

  // ---------------------------------------------------------------------------
  // Who is woken
  // ---------------------------------------------------------------------------

  /** A thread asleep in drain is woken only where it can return, where a worker exits, or for no
      reason; an exit and the last job's end wake every one of them. */
  lemma DrainersWoken(c: Config, s: State, step: Step, d: nat)
    requires Enabled(s, step) && d < |s.drainers| && s.drainers[d].Sleeping?
    ensures var t := Next(c, s, step);
      && |t.drainers| == |s.drainers| && (t.drainers[d].Sleeping? || t.drainers[d].Checking?)
      && (t.drainers[d].Checking? <==>
            step == SpuriousDrainer(d) || step.Exit? || (step.Finish? && Quiescent(t.ledger)))
  {
    hide Enqueue, WakeWorkers, Idle, Max, Full;
  }
}
