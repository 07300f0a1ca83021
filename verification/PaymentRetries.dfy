/** Which errors execute_payment tries again: lock errors until its attempts are used up, and no others. */
module PaymentRetries {
  import opened Wrappers
  import opened PaymentTables
  import opened PaymentThreads

  // ---------- What the steps of other threads leave alone ----------

  /** Where thread t is and whether it holds the lock. */
  predicate SameFor(m: Machine, m': Machine, t: nat) {
    && m'.maxRetries == m.maxRetries && |m'.threads| == |m.threads|
    && (t < |m.threads| ==> m'.threads[t] == m.threads[t])
    && (m'.writer == Some(t) <==> m.writer == Some(t))
  }

  lemma AdvanceLeaves(m: Machine, u: nat, t: nat)
    requires |m.threads| == |m.requests| && u < |m.threads| && t != u
    ensures SameFor(m, Advance(m, u), t)
  {
  }

  lemma InterruptLeaves(m: Machine, u: nat, locked: bool, aborts: bool, t: nat)
    requires u < |m.threads| && t != u
    ensures SameFor(m, Interrupt(m, u, locked, aborts), t)
  {
  }

  lemma OthersLeave(m: Machine, e: Event, t: nat)
    requires |m.threads| == |m.requests| && e.thread != t
    ensures SameFor(m, Step(m, e), t)
  {
    if e.thread < |m.threads| {
      match e
      case Proceed(u) => AdvanceLeaves(m, u, t);
      case Fault(u, locked, aborts) => InterruptLeaves(m, u, locked, aborts, t);
    }
  }

  // ---------- Lock errors are tried again ----------

  /** The error ends the attempt of thread t, rather than the ROLLBACK after such an error. */
  predicate EndsAttempt(m: Machine, e: Event, t: nat) {
    e.Fault? && e.thread == t < |m.threads| && !m.threads[t].pc.RollbackFault?
  }

  predicate FailsRollback(m: Machine, e: Event, t: nat) {
    e.Fault? && e.thread == t < |m.threads| && m.threads[t].pc.RollbackFault?
  }

  /** Every error that ends an attempt of thread t says "locked"; one at the ROLLBACK after it may say anything, but
      ends the transaction. */
  ghost predicate OnlyLockErrors(m: Machine, events: seq<Event>, t: nat)
    requires |m.threads| == |m.requests|
  {
    forall n :: 0 <= n < |events| ==>
      && (EndsAttempt(Run(m, events[..n]), events[n], t) ==> events[n].locked)
      && (FailsRollback(Run(m, events[..n]), events[n], t) ==> events[n].aborts)
  }

  lemma PrefixLocks(m: Machine, events: seq<Event>, t: nat)
    requires |m.threads| == |m.requests| && events != [] && OnlyLockErrors(m, events, t)
    ensures OnlyLockErrors(m, events[..|events| - 1], t)
  {
    var before := events[..|events| - 1];
    forall n | 0 <= n < |before|
      ensures before[..n] == events[..n] && before[n] == events[n]
    {
    }
  }

  /** Thread t has met lock errors only. */
  predicate MetLocksOnly(m: Machine, t: nat)
    requires t < |m.threads|
  {
    var pc := m.threads[t].pc;
    && pc != RollbackFault(false)
    && (pc.Begin? ==> m.writer != Some(t))
    && (Final(pc) && pc.answer.OperationalFailure? ==> pc.answer.locked)
  }

  lemma AdvanceMeetsLocks(m: Machine, t: nat)
    requires ThreadsInv(m) && t < |m.threads| && MetLocksOnly(m, t)
    ensures MetLocksOnly(Advance(m, t), t)
  {
    if InTransaction(m.threads[t].pc) && !Ends(m.threads[t].pc) {
      StaysInTransaction(m.threads[t].pc, m.working, m.requests[t]);
    }
  }

  lemma StaysInTransaction(pc: Pc, w: Tables, r: Request)
    requires InTransaction(pc) && !Ends(pc)
    ensures InTransaction(Statement(pc, w, r).0)
  {
  }

  lemma InterruptMeetsLocks(m: Machine, t: nat, locked: bool, aborts: bool)
    requires ThreadsInv(m) && t < |m.threads| && MetLocksOnly(m, t)
    requires if m.threads[t].pc.RollbackFault? then aborts else locked
    ensures MetLocksOnly(Interrupt(m, t, locked, aborts), t)
  {
  }

  lemma {:induction false} RunMeetsLocks(start: Tables, requests: seq<Request>, maxRetries: seq<nat>, events: seq<Event>, t: nat)
    requires NonNegative(start) && t < |requests| && OnlyLockErrors(Start(start, requests, maxRetries), events, t)
    ensures MetLocksOnly(Run(Start(start, requests, maxRetries), events), t)
  {
    if events != [] {
      var before, e := events[..|events| - 1], events[|events| - 1];
      var m := Run(Start(start, requests, maxRetries), before);
      PrefixLocks(Start(start, requests, maxRetries), events, t);
      RunMeetsLocks(start, requests, maxRetries, before, t);
      RunKeepsInv(start, requests, maxRetries, before);
      if e.thread != t {
        OthersLeave(m, e, t);
      } else if e.Proceed? {
        AdvanceMeetsLocks(m, t);
      } else {
        assert events[..|events| - 1] == before;
        assert EndsAttempt(m, e, t) || FailsRollback(m, e, t);
        InterruptMeetsLocks(m, t, e.locked, e.aborts);
      }
    }
  }

  /** A caller that meets lock errors only is not answered a failure before it has used every attempt it was
      allowed, each but the last tried again. */
  lemma LockErrorsUseEveryAttempt(start: Tables, requests: seq<Request>, maxRetries: seq<nat>, events: seq<Event>, t: nat)
    requires NonNegative(start) && t < |requests| && OnlyLockErrors(Start(start, requests, maxRetries), events, t)
    requires Final(Run(Start(start, requests, maxRetries), events).threads[t].pc)
    ensures var answer, limit := Run(Start(start, requests, maxRetries), events).threads[t].pc.answer, Limit(maxRetries, t);
            || answer.Decided()
            || answer == Raised
            || (limit == 0 && answer == RetryExhausted(0))
            || (limit > 0 && answer == OperationalFailure(true, limit, limit - 1))
    ensures Limit(maxRetries, t) == if t < |maxRetries| then maxRetries[t] else 8
  {
    RunMeetsLocks(start, requests, maxRetries, events, t);
    RunKeepsInv(start, requests, maxRetries, events);
    assert ThreadInv(Run(Start(start, requests, maxRetries), events), t);
  }

  // ---------- Other errors are not ----------

  /** No error that ends an attempt of thread t says "locked". */
  ghost predicate NoLockErrors(m: Machine, events: seq<Event>, t: nat)
    requires |m.threads| == |m.requests|
  {
    forall n :: 0 <= n < |events| ==> EndsAttempt(Run(m, events[..n]), events[n], t) ==> !events[n].locked
  }

  lemma PrefixHasNoLocks(m: Machine, events: seq<Event>, t: nat)
    requires |m.threads| == |m.requests| && events != [] && NoLockErrors(m, events, t)
    ensures NoLockErrors(m, events[..|events| - 1], t)
  {
    var before := events[..|events| - 1];
    forall n | 0 <= n < |before|
      ensures before[..n] == events[..n] && before[n] == events[n]
    {
    }
  }

  predicate FirstAttempt(th: Thread) {
    && th.attempt == 0 && th.pc != RollbackFault(true)
    && (Final(th.pc) && th.pc.answer.OperationalFailure? ==> th.pc.answer == OperationalFailure(false, 1, 0))
  }

  lemma AdvanceStaysFirst(m: Machine, t: nat)
    requires ThreadsInv(m) && t < |m.threads| && FirstAttempt(m.threads[t])
    ensures FirstAttempt(Advance(m, t).threads[t])
  {
    assert ThreadInv(m, t);
    if InTransaction(m.threads[t].pc) && !Ends(m.threads[t].pc) {
      StaysInTransaction(m.threads[t].pc, m.working, m.requests[t]);
    }
  }

  lemma InterruptStaysFirst(m: Machine, t: nat, locked: bool, aborts: bool)
    requires ThreadsInv(m) && t < |m.threads| && FirstAttempt(m.threads[t])
    requires m.threads[t].pc.RollbackFault? || !locked
    ensures FirstAttempt(Interrupt(m, t, locked, aborts).threads[t])
  {
    assert ThreadInv(m, t);
  }

  /** A caller that meets no lock error never begins a second attempt; any failure it is answered says so. */
  lemma {:induction false} OtherErrorsAreNotRetried(start: Tables, requests: seq<Request>, maxRetries: seq<nat>, events: seq<Event>, t: nat)
    requires NonNegative(start) && t < |requests| && NoLockErrors(Start(start, requests, maxRetries), events, t)
    ensures FirstAttempt(Run(Start(start, requests, maxRetries), events).threads[t])
  {
    if events != [] {
      var before, e := events[..|events| - 1], events[|events| - 1];
      var m := Run(Start(start, requests, maxRetries), before);
      PrefixHasNoLocks(Start(start, requests, maxRetries), events, t);
      OtherErrorsAreNotRetried(start, requests, maxRetries, before, t);
      RunKeepsInv(start, requests, maxRetries, before);
      if e.thread != t {
        OthersLeave(m, e, t);
      } else if e.Proceed? {
        AdvanceStaysFirst(m, t);
      } else {
        assert events[..|events| - 1] == before;
        assert EndsAttempt(m, e, t) || FailsRollback(m, e, t);
        InterruptStaysFirst(m, t, e.locked, e.aborts);
      }
    }
  }

  /** A caller without operational errors, if allowed an attempt, is answered by a serial transaction. */
  lemma NoErrorsNoFailure(start: Tables, requests: seq<Request>, maxRetries: seq<nat>, events: seq<Event>, t: nat)
    requires NonNegative(start) && t < |requests| && Limit(maxRetries, t) > 0
    requires forall n :: 0 <= n < |events| && events[n].Fault? ==> events[n].thread != t
    requires Final(Run(Start(start, requests, maxRetries), events).threads[t].pc)
    ensures ThreadDecided(Run(Start(start, requests, maxRetries), events).threads[t])
  {
    LockErrorsUseEveryAttempt(start, requests, maxRetries, events, t);
    OtherErrorsAreNotRetried(start, requests, maxRetries, events, t);
    NeverRaisedWithoutErrors(start, requests, maxRetries, events, t);
  }

  predicate NotRaised(th: Thread) {
    Final(th.pc) ==> th.pc.answer != Raised
  }

  lemma AdvanceRaisesNothing(m: Machine, t: nat)
    requires |m.threads| == |m.requests| && t < |m.threads| && NotRaised(m.threads[t])
    ensures NotRaised(Advance(m, t).threads[t])
  {
    if InTransaction(m.threads[t].pc) && !Ends(m.threads[t].pc) {
      StaysInTransaction(m.threads[t].pc, m.working, m.requests[t]);
    }
  }

  lemma {:induction false} NeverRaisedWithoutErrors(start: Tables, requests: seq<Request>, maxRetries: seq<nat>, events: seq<Event>, t: nat)
    requires t < |requests|
    requires forall n :: 0 <= n < |events| && events[n].Fault? ==> events[n].thread != t
    ensures t < |Run(Start(start, requests, maxRetries), events).threads|
    ensures NotRaised(Run(Start(start, requests, maxRetries), events).threads[t])
  {
    if events != [] {
      var before, e := events[..|events| - 1], events[|events| - 1];
      NeverRaisedWithoutErrors(start, requests, maxRetries, before, t);
      if e.thread != t {
        OthersLeave(Run(Start(start, requests, maxRetries), before), e, t);
      } else {
        AdvanceRaisesNothing(Run(Start(start, requests, maxRetries), before), t);
      }
    }
  }

  /** An operational error decides no caller and commits nothing, at whatever statement it comes; at the ROLLBACK
      after an integrity error it leaves the function. */
  lemma ErrorsDecideNothing(m: Machine, t: nat, locked: bool, aborts: bool)
    requires |m.threads| == |m.requests| && t < |m.threads|
    ensures var m' := Step(m, Fault(t, locked, aborts));
            && m'.order == m.order && m'.committed == m.committed
            && (m.threads[t].pc.RollbackIntegrity? ==> m'.threads[t].pc == Closing(Raised))
  {
  }
}
