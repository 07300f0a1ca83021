/** The lock-ordering simulation: two workers take two locks in opposite order, meet at a barrier, and try
    the other's lock with a timeout. Every round in which a worker reports detects the deadlock. */
module DeadlockSimulation {

  datatype Report = DeadlockDetected | Finished

  /** Where a worker is; worker 0 owns the first lock and tries the second, worker 1 the other way round. */
  datatype Point =
    | Entering       // with a:
    | AtBarrier      // barrier.wait()
    | Trying         // b.acquire(timeout=0.02)
    | Reporting      // outcomes.append("deadlock_detected")
    | Releasing      // b.release()
    | Completing     // outcomes.append("completed")
    | Leaving        // the end of the with block
    | Gone

  /** `holders[l]` is the worker that holds lock l, or 2 if nobody does. */
  datatype Round = Round(points: seq<Point>, holders: seq<nat>, arrived: nat, outcomes: seq<Report>)

  const FREE: nat := 2

  /** A worker takes its next step; `timedOut` is the other way acquire(timeout) can end. */
  datatype Event = Event(worker: nat, timedOut: bool)

  const START := Round([Entering, Entering], [FREE, FREE], 0, [])

  predicate Shaped(s: Round) {
    |s.points| == 2 && |s.holders| == 2
  }

  function Move(s: Round, w: nat, p: Point): Round
    requires Shaped(s) && w < 2
  {
    s.(points := s.points[w := p])
  }

  function Step(s: Round, e: Event): (s': Round)
    requires Shaped(s)
    ensures Shaped(s')
  {
    if e.worker >= 2 then s
    else
      var w, other := e.worker, 1 - e.worker;
      match s.points[w]
      case Entering =>
        if s.holders[w] == FREE then Move(s, w, AtBarrier).(holders := s.holders[w := w], arrived := s.arrived + 1) else s
      case AtBarrier => if s.arrived == 2 then Move(s, w, Trying) else s
      case Trying =>
        if e.timedOut then Move(s, w, Reporting)
        else if s.holders[other] == FREE then Move(s, w, Releasing).(holders := s.holders[other := w])
        else s
      case Reporting => Move(s, w, Leaving).(outcomes := s.outcomes + [DeadlockDetected])
      case Releasing => Move(s, w, Completing).(holders := s.holders[other := FREE])
      case Completing => Move(s, w, Leaving).(outcomes := s.outcomes + [Finished])
      case Leaving => Move(s, w, Gone).(holders := s.holders[w := FREE])
      case Gone => s
  }

  function Run(s: Round, events: seq<Event>): (s': Round)
    requires Shaped(s)
    ensures Shaped(s')
  {
    if events == [] then s else Step(Run(s, events[..|events| - 1]), events[|events| - 1])
  }

  predicate Reported(p: Point) {
    p.Leaving? || p.Gone?
  }

  /** Holds its own lock, unless it has not entered or has left. */
  predicate Inside(p: Point) {
    !p.Entering? && !p.Gone?
  }

  function Bit(b: bool): nat {
    if b then 1 else 0
  }

  predicate WorkerInv(s: Round, w: nat)
    requires Shaped(s) && w < 2
  {
    var other := 1 - w;
    && (s.holders[w] == w <==> Inside(s.points[w]))
    && (s.holders[w] == w || s.holders[w] == FREE || (s.holders[w] == other && s.points[other].Releasing?))
    // beyond the barrier, both have entered, and the other's lock is free only once the other is gone
    && (!s.points[w].Entering? && !s.points[w].AtBarrier? ==> !s.points[other].Entering?)
    && (s.points[w].Releasing? || s.points[w].Completing? ==> s.points[other].Gone?)
  }

  ghost predicate Inv(s: Round) {
    && Shaped(s)
    && WorkerInv(s, 0) && WorkerInv(s, 1)
    && s.arrived == Bit(!s.points[0].Entering?) + Bit(!s.points[1].Entering?)
    && |s.outcomes| == Bit(Reported(s.points[0])) + Bit(Reported(s.points[1]))
    && (|s.outcomes| > 0 ==> s.outcomes[0] == DeadlockDetected)
  }

  lemma StepKeepsMover(s: Round, e: Event)
    requires Inv(s) && e.worker < 2
    ensures WorkerInv(Step(s, e), e.worker)
  {
  }

  lemma StepKeepsOther(s: Round, e: Event)
    requires Inv(s) && e.worker < 2
    ensures WorkerInv(Step(s, e), 1 - e.worker)
  {
  }

  lemma StepKeepsInv(s: Round, e: Event)
    requires Inv(s)
    ensures Inv(Step(s, e))
  {
    if e.worker < 2 {
      StepKeepsMover(s, e);
      StepKeepsOther(s, e);
    }
  }

  lemma {:induction false} RunKeepsInv(events: seq<Event>)
    ensures Inv(Run(START, events))
  {
    if events != [] {
      RunKeepsInv(events[..|events| - 1]);
      StepKeepsInv(Run(START, events[..|events| - 1]), events[|events| - 1]);
    }
  }

  /** The first worker to report cannot have had the other's lock: whatever the interleaving, the first outcome
      is a detection, and there are never two completions. */
  lemma FirstReportIsDetection(events: seq<Event>)
    ensures var s := Run(START, events);
            && |s.outcomes| == Bit(Reported(s.points[0])) + Bit(Reported(s.points[1]))
            && (|s.outcomes| > 0 ==> s.outcomes[0] == DeadlockDetected)
            && Count(s.outcomes, Finished) <= 1
  {
    RunKeepsInv(events);
    var o := Run(START, events).outcomes;
    if |o| > 0 {
      assert Count([o[0]], Finished) == 0;
      assert |o| == 1 ==> o == [o[0]];
      assert |o| == 2 ==> o[..1] == [o[0]];
    }
  }

  // ---------- Every round ends ----------

  /** How many more steps a worker can take. */
  function StepsLeft(p: Point): nat {
    match p
    case Entering => 6
    case AtBarrier => 5
    case Trying => 4
    case Releasing => 3
    case Completing => 2
    case Reporting => 2
    case Leaving => 1
    case Gone => 0
  }

  function RoundLeft(s: Round): nat
    requires Shaped(s)
  {
    StepsLeft(s.points[0]) + StepsLeft(s.points[1])
  }

  lemma StepUsesUp(s: Round, e: Event)
    requires Shaped(s)
    ensures Step(s, e) == s || RoundLeft(Step(s, e)) < RoundLeft(s)
  {
  }

  /** How many of the events moved a worker. */
  function Moves(events: seq<Event>): nat {
    if events == [] then 0
    else
      var before := Run(START, events[..|events| - 1]);
      Moves(events[..|events| - 1]) + Bit(Step(before, events[|events| - 1]) != before)
  }

  /** No schedule keeps a round going for more than twelve steps. */
  lemma {:induction false} MovesAreBounded(events: seq<Event>)
    ensures Moves(events) + RoundLeft(Run(START, events)) <= 12
  {
    if events != [] {
      MovesAreBounded(events[..|events| - 1]);
      StepUsesUp(Run(START, events[..|events| - 1]), events[|events| - 1]);
    }
  }

  predicate Over(s: Round)
    requires Shaped(s)
  {
    s.points[0].Gone? && s.points[1].Gone?
  }

  /** No round is stuck: until both workers are gone, one of them can move. */
  lemma NeverStuck(s: Round) returns (w: nat)
    requires Inv(s) && !Over(s)
    ensures Step(s, Event(w, true)) != s
  {
    w := if s.points[0].Gone? || (s.points[0].AtBarrier? && s.points[1].Entering?) then 1 else 0;
    var s' := Step(s, Event(w, true));
    assert s'.points[w] != s.points[w];
  }

  lemma {:induction false} RunConcat(s: Round, a: seq<Event>, b: seq<Event>)
    requires Shaped(s)
    ensures Run(s, a + b) == Run(Run(s, a), b)
  {
    if b == [] {
      assert a + b == a;
    } else {
      assert (a + b)[..|a + b| - 1] == a + b[..|b| - 1];
      RunConcat(s, a, b[..|b| - 1]);
    }
  }

  lemma RunOne(s: Round, e: Event)
    requires Shaped(s)
    ensures Run(s, [e]) == Step(s, e)
  {
    assert [e][..0] == [];
  }

  lemma {:induction false} CanEnd(s: Round) returns (more: seq<Event>)
    requires Inv(s)
    ensures |more| <= RoundLeft(s) && Over(Run(s, more))
    decreases RoundLeft(s)
  {
    if Over(s) {
      more := [];
    } else {
      var w := NeverStuck(s);
      var e := Event(w, true);
      StepKeepsInv(s, e);
      StepUsesUp(s, e);
      var rest := CanEnd(Step(s, e));
      RunOne(s, e);
      RunConcat(s, [e], rest);
      more := [e] + rest;
    }
  }

  lemma OverDetects(events: seq<Event>)
    requires Over(Run(START, events))
    ensures Count(Run(START, events).outcomes, DeadlockDetected) >= 1
  {
    FirstReportIsDetection(events);
    CountPositive(Run(START, events).outcomes);
  }

  /** However a round has begun, it can go on until both workers are gone, and then it has detected a deadlock. */
  lemma RoundEnds(events: seq<Event>) returns (more: seq<Event>)
    ensures |more| <= RoundLeft(Run(START, events))
    ensures Over(Run(START, events + more))
    ensures Count(Run(START, events + more).outcomes, DeadlockDetected) >= 1
  {
    RunKeepsInv(events);
    more := CanEnd(Run(START, events));
    RunConcat(START, events, more);
    OverDetects(events + more);
  }

  function Count(outcomes: seq<Report>, report: Report): nat {
    if outcomes == [] then 0
    else Count(outcomes[..|outcomes| - 1], report) + Bit(outcomes[|outcomes| - 1] == report)
  }

  lemma {:induction false} CountPositive(outcomes: seq<Report>)
    requires |outcomes| > 0 && outcomes[0] == DeadlockDetected
    ensures Count(outcomes, DeadlockDetected) >= 1
  {
    if |outcomes| > 1 {
      CountPositive(outcomes[..|outcomes| - 1]);
    }
  }

  lemma {:induction false} CountAtMostAll(outcomes: seq<Report>, report: Report)
    ensures Count(outcomes, report) <= |outcomes|
  {
    if outcomes != [] {
      CountAtMostAll(outcomes[..|outcomes| - 1], report);
    }
  }

  // ---------- What is reported is what happened ----------

  /** How often acquire ran into its timeout, and how often it got the other's lock. */
  function Timeouts(events: seq<Event>): nat {
    if events == [] then 0
    else
      var before, e := events[..|events| - 1], events[|events| - 1];
      Timeouts(before) + Bit(e.worker < 2 && Run(START, before).points[e.worker].Trying? && e.timedOut)
  }

  function Acquisitions(events: seq<Event>): nat {
    if events == [] then 0
    else
      var before, e := events[..|events| - 1], events[|events| - 1];
      Acquisitions(before)
      + Bit(e.worker < 2 && Run(START, before).points[e.worker].Trying? && !e.timedOut
            && Run(START, before).holders[1 - e.worker] == FREE)
  }

  predicate HasLock(p: Point) {
    p.Releasing? || p.Completing?
  }

  /** Reported, or about to be. */
  predicate Accounted(s: Round, timeouts: nat, acquisitions: nat)
    requires Shaped(s)
  {
    && Count(s.outcomes, DeadlockDetected) + Bit(s.points[0].Reporting?) + Bit(s.points[1].Reporting?) == timeouts
    && Count(s.outcomes, Finished) + Bit(HasLock(s.points[0])) + Bit(HasLock(s.points[1])) == acquisitions
  }

  lemma CountOneMore(outcomes: seq<Report>, report: Report, other: Report)
    ensures Count(outcomes + [report], other) == Count(outcomes, other) + Bit(report == other)
  {
    assert (outcomes + [report])[..|outcomes|] == outcomes;
  }

  lemma StepReports(s: Round, e: Event)
    requires Shaped(s) && e.worker < 2
    ensures var s', w, p := Step(s, e), e.worker, s.points[e.worker];
            && s'.points[1 - w] == s.points[1 - w]
            && s'.outcomes == s.outcomes + (if p.Reporting? then [DeadlockDetected] else if p.Completing? then [Finished] else [])
            && (s'.points[w].Reporting? <==> p.Trying? && e.timedOut)
            && (HasLock(s'.points[w]) <==> p.Releasing? || (p.Trying? && !e.timedOut && s.holders[1 - w] == FREE))
  {
  }

  lemma StepIsAccounted(s: Round, e: Event, timeouts: nat, acquisitions: nat)
    requires Shaped(s) && e.worker < 2 && Accounted(s, timeouts, acquisitions)
    ensures Accounted(Step(s, e),
                      timeouts + Bit(s.points[e.worker].Trying? && e.timedOut),
                      acquisitions + Bit(s.points[e.worker].Trying? && !e.timedOut && s.holders[1 - e.worker] == FREE))
  {
    StepReports(s, e);
    var p := s.points[e.worker];
    if p.Reporting? || p.Completing? {
      var report := if p.Reporting? then DeadlockDetected else Finished;
      CountOneMore(s.outcomes, report, DeadlockDetected);
      CountOneMore(s.outcomes, report, Finished);
    } else {
      assert s.outcomes + [] == s.outcomes;
    }
  }

  lemma {:induction false} RunIsAccounted(events: seq<Event>)
    ensures Accounted(Run(START, events), Timeouts(events), Acquisitions(events))
  {
    if events != [] {
      var before, e := events[..|events| - 1], events[|events| - 1];
      RunIsAccounted(before);
      if e.worker < 2 {
        StepIsAccounted(Run(START, before), e, Timeouts(before), Acquisitions(before));
      }
    }
  }

  /** At the end of a round, the detections are exactly the timeouts, and the completions exactly the cases in which a
      worker got the other's lock; each worker reported one or the other. */
  lemma ReportsAreTrue(events: seq<Event>)
    requires Over(Run(START, events))
    ensures Count(Run(START, events).outcomes, DeadlockDetected) == Timeouts(events)
    ensures Count(Run(START, events).outcomes, Finished) == Acquisitions(events)
    ensures Timeouts(events) + Acquisitions(events) == 2
  {
    RunIsAccounted(events);
    FirstReportIsDetection(events);
    EveryReportCounts(Run(START, events).outcomes);
  }

  lemma {:induction false} EveryReportCounts(outcomes: seq<Report>)
    ensures Count(outcomes, DeadlockDetected) + Count(outcomes, Finished) == |outcomes|
  {
    if outcomes != [] {
      EveryReportCounts(outcomes[..|outcomes| - 1]);
    }
  }

  /** How many of the rounds ended with some report before their threads were joined. */
  function RoundsReported(schedules: seq<seq<Event>>): nat {
    if schedules == [] then 0
    else RoundsReported(schedules[..|schedules| - 1]) + Bit(Run(START, schedules[|schedules| - 1]).outcomes != [])
  }

  /** The detections in the outcomes of all rounds. */
  function Detections(schedules: seq<seq<Event>>): nat {
    if schedules == [] then 0
    else Detections(schedules[..|schedules| - 1]) + Count(Run(START, schedules[|schedules| - 1]).outcomes, DeadlockDetected)
  }

  /** A round detects at least once, and at most twice, if some worker reported, and nothing otherwise. */
  lemma {:induction false} EachReportedRoundDetects(schedules: seq<seq<Event>>)
    ensures RoundsReported(schedules) <= Detections(schedules) <= 2 * RoundsReported(schedules)
  {
    if schedules != [] {
      var events := schedules[|schedules| - 1];
      EachReportedRoundDetects(schedules[..|schedules| - 1]);
      FirstReportIsDetection(events);
      CountAtMostAll(Run(START, events).outcomes, DeadlockDetected);
      if Run(START, events).outcomes != [] {
        CountPositive(Run(START, events).outcomes);
      }
    }
  }

  /** run_deadlock_simulation: one schedule per round, as far as the joins waited for it. A round in which
      nobody reported detects nothing; every other round detects at least once. */
  method RunDeadlockSimulation(schedules: seq<seq<Event>>) returns (deadlocks: nat, passed: bool)
    ensures deadlocks == Detections(schedules) >= RoundsReported(schedules)
    ensures passed <==> deadlocks >= |schedules|
    ensures RoundsReported(schedules) == |schedules| ==> passed
  {
    deadlocks := 0;
    for i := 0 to |schedules|
      invariant deadlocks == Detections(schedules[..i])
    {
      var round := Run(START, schedules[i]);
      deadlocks := deadlocks + Count(round.outcomes, DeadlockDetected);
      assert schedules[..i + 1][..i] == schedules[..i];
    }
    assert schedules[..|schedules|] == schedules;
    EachReportedRoundDetects(schedules);
    passed := deadlocks >= |schedules|;
  }
}
