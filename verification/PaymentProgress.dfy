/** Progress of the threads inside execute_payment: the write lock never blocks everyone, and no schedule and no
    operational errors keep a caller going for more than twelve statements an attempt. */
module PaymentProgress {
  import opened Wrappers
  import opened PaymentTables
  import opened PaymentThreads

  // ---------- Somebody can move ----------

  /** A thread that holds the lock, or finds it free, moves. */
  lemma AdvanceMoves(m: Machine, t: nat)
    requires ThreadsInv(m) && t < |m.threads| && !m.threads[t].pc.Returned?
    requires m.writer.None? || m.writer == Some(t)
    ensures Advance(m, t).threads[t] != m.threads[t]
  {
    if InTransaction(m.threads[t].pc) && !Ends(m.threads[t].pc) {
      StatementUsesUp(m.threads[t].pc, m.working, m.requests[t]);
    }
  }

  lemma NeverStuck(m: Machine, t: nat) returns (u: nat)
    requires ThreadsInv(m) && t < |m.threads| && !m.threads[t].pc.Returned?
    ensures u < |m.threads| && Step(m, Proceed(u)) != m
  {
    u := if m.writer.Some? then m.writer.value else t;
    assert ThreadInv(m, u);
    AdvanceMoves(m, u);
    assert Step(m, Proceed(u)) == Advance(m, u);
  }

  /** The write lock never blocks everyone: while some thread has not returned, some thread can move. */
  lemma SomeThreadCanMove(start: Tables, requests: seq<Request>, maxRetries: seq<nat>, events: seq<Event>, t: nat)
    requires NonNegative(start)
    requires t < |requests| && !Run(Start(start, requests, maxRetries), events).threads[t].pc.Returned?
    ensures var m := Run(Start(start, requests, maxRetries), events);
            exists u :: 0 <= u < |requests| && Step(m, Proceed(u)) != m
  {
    RunKeepsInv(start, requests, maxRetries, events);
    var u := NeverStuck(Run(Start(start, requests, maxRetries), events), t);
  }

  // ---------- Nobody moves for ever ----------

  /** The most statements of one attempt, from BEGIN to the ROLLBACK after an error at COMMIT. */
  const STATEMENTS := 12

  /** How many statements of its attempt a thread may still execute after the next one. */
  function StatementsLeft(pc: Pc): nat {
    match pc
    case Begin => 11
    case SelectWorkflow => 10
    case WorkflowInsert => 9
    case PaymentInsert => 8
    case SelectSource => 7
    case TransferInsert => 6
    case Debit => 5
    case Credit => 4
    case CompletePayment => 3
    case CompleteWorkflow | MarkFailed => 2
    case CommitCompleted | CommitFailed | RollbackReplay(_) | RollbackIntegrity => 1
    case _ => 0
  }

  /** How many more steps a thread can take, all its attempts and closing the connection included. */
  function Left(th: Thread, maxRetries: nat): nat {
    if th.pc.Returned? || (th.attempt >= maxRetries && !th.pc.Closing?) then 0
    else if th.pc.Closing? then 1
    else (maxRetries - th.attempt - 1) * STATEMENTS + StatementsLeft(th.pc) + 2
  }

  lemma StatementUsesUp(pc: Pc, w: Tables, r: Request)
    requires InTransaction(pc) && !Ends(pc)
    ensures InTransaction(Statement(pc, w, r).0) && StatementsLeft(Statement(pc, w, r).0) < StatementsLeft(pc)
  {
  }

  lemma AdvanceUsesUp(m: Machine, t: nat)
    requires |m.threads| == |m.requests| && t < |m.threads| && Advance(m, t) != m
    requires CountersOk(m.threads[t], Limit(m.maxRetries, t))
    ensures Left(Advance(m, t).threads[t], Limit(m.maxRetries, t)) < Left(m.threads[t], Limit(m.maxRetries, t))
  {
    if InTransaction(m.threads[t].pc) && !Ends(m.threads[t].pc) {
      StatementUsesUp(m.threads[t].pc, m.working, m.requests[t]);
    }
  }

  lemma InterruptUsesUp(m: Machine, t: nat, locked: bool, aborts: bool)
    requires t < |m.threads| && Interrupt(m, t, locked, aborts) != m
    requires CountersOk(m.threads[t], Limit(m.maxRetries, t))
    ensures Left(Interrupt(m, t, locked, aborts).threads[t], Limit(m.maxRetries, t)) < Left(m.threads[t], Limit(m.maxRetries, t))
  {
  }

  /** Everything but what the thread itself and the tables go through. */
  predicate LeavesOthers(m: Machine, m': Machine, t: nat) {
    && m'.maxRetries == m.maxRetries && |m'.threads| == |m.threads|
    && forall u :: 0 <= u < |m.threads| && u != t ==> m'.threads[u] == m.threads[u]
  }

  lemma AdvanceLeavesOthers(m: Machine, t: nat)
    requires |m.threads| == |m.requests| && t < |m.threads|
    ensures LeavesOthers(m, Advance(m, t), t)
  {
  }

  lemma InterruptLeavesOthers(m: Machine, t: nat, locked: bool, aborts: bool)
    requires t < |m.threads|
    ensures LeavesOthers(m, Interrupt(m, t, locked, aborts), t)
  {
  }

  /** A step that changes anything takes its own thread nearer to the end, and leaves every other where it is. */
  lemma StepUsesUp(m: Machine, e: Event)
    requires ThreadsInv(m) && Step(m, e) != m
    ensures e.thread < |m.threads| && LeavesOthers(m, Step(m, e), e.thread)
    ensures Left(Step(m, e).threads[e.thread], Limit(m.maxRetries, e.thread)) < Left(m.threads[e.thread], Limit(m.maxRetries, e.thread))
  {
    assert ThreadInv(m, e.thread);
    match e
    case Proceed(t) =>
      AdvanceLeavesOthers(m, t);
      AdvanceUsesUp(m, t);
    case Fault(t, locked, aborts) =>
      InterruptLeavesOthers(m, t, locked, aborts);
      InterruptUsesUp(m, t, locked, aborts);
  }

  /** How many of the events moved thread t. */
  function Moves(m: Machine, events: seq<Event>, t: nat): nat
    requires |m.threads| == |m.requests|
  {
    if events == [] then 0
    else
      var before, e := Run(m, events[..|events| - 1]), events[|events| - 1];
      Moves(m, events[..|events| - 1], t) + if e.thread == t && Step(before, e) != before then 1 else 0
  }

  /** Whatever the schedule and the errors, a caller takes at most twelve steps an attempt, and one to close. */
  lemma {:induction false} MovesAreBounded(start: Tables, requests: seq<Request>, maxRetries: seq<nat>, events: seq<Event>, t: nat)
    requires NonNegative(start) && t < |requests|
    ensures var m := Start(start, requests, maxRetries);
            Moves(m, events, t) + Left(Run(m, events).threads[t], Limit(maxRetries, t)) <= STATEMENTS * Limit(maxRetries, t) + 1
  {
    if events != [] {
      var m := Run(Start(start, requests, maxRetries), events[..|events| - 1]);
      MovesAreBounded(start, requests, maxRetries, events[..|events| - 1], t);
      RunKeepsInv(start, requests, maxRetries, events[..|events| - 1]);
      if Step(m, events[|events| - 1]) != m {
        StepUsesUp(m, events[|events| - 1]);
      }
    }
  }

  // ---------- Everybody can return ----------

  /** What is left for the first n threads. */
  function TotalLeft(threads: seq<Thread>, maxRetries: seq<nat>, n: nat): nat
    requires n <= |threads|
  {
    if n == 0 then 0 else TotalLeft(threads, maxRetries, n - 1) + Left(threads[n - 1], Limit(maxRetries, n - 1))
  }

  lemma {:induction false} OneLess(threads: seq<Thread>, threads': seq<Thread>, maxRetries: seq<nat>, t: nat, n: nat)
    requires n <= |threads'| == |threads|
    requires t < |threads| && Left(threads'[t], Limit(maxRetries, t)) < Left(threads[t], Limit(maxRetries, t))
    requires forall u :: 0 <= u < |threads| && u != t ==> threads'[u] == threads[u]
    ensures if t < n then TotalLeft(threads', maxRetries, n) < TotalLeft(threads, maxRetries, n)
            else TotalLeft(threads', maxRetries, n) == TotalLeft(threads, maxRetries, n)
  {
    if n > 0 {
      OneLess(threads, threads', maxRetries, t, n - 1);
    }
  }

  lemma {:induction false} RunConcat(m: Machine, a: seq<Event>, b: seq<Event>)
    requires |m.threads| == |m.requests|
    ensures Run(m, a + b) == Run(Run(m, a), b)
  {
    if b == [] {
      assert a + b == a;
    } else {
      assert (a + b)[..|a + b| - 1] == a + b[..|b| - 1];
      RunConcat(m, a, b[..|b| - 1]);
    }
  }

  lemma RunOne(m: Machine, e: Event)
    requires |m.threads| == |m.requests|
    ensures Run(m, [e]) == Step(m, e)
  {
    assert [e][..0] == [];
  }

  predicate AllReturned(m: Machine) {
    forall t :: 0 <= t < |m.threads| ==> m.threads[t].pc.Returned?
  }

  function MachineLeft(m: Machine): nat {
    TotalLeft(m.threads, m.maxRetries, |m.threads|)
  }

  lemma StepLowersTotal(m: Machine, e: Event)
    requires ThreadsInv(m) && Step(m, e) != m
    ensures Step(m, e).maxRetries == m.maxRetries && |Step(m, e).threads| == |m.threads|
    ensures MachineLeft(Step(m, e)) < MachineLeft(m)
  {
    StepUsesUp(m, e);
    OneLess(m.threads, Step(m, e).threads, m.maxRetries, e.thread, |m.threads|);
  }

  /** The step of some thread that has not returned. */
  lemma NextStep(start: Tables, m: Machine) returns (e: Event)
    requires Inv(start, m) && !AllReturned(m)
    ensures Step(m, e) != m && Inv(start, Step(m, e))
  {
    var t :| 0 <= t < |m.threads| && !m.threads[t].pc.Returned?;
    var u := NeverStuck(m, t);
    e := Proceed(u);
    StepKeepsInv(start, m, e);
  }

  lemma {:induction false} CanReturn(start: Tables, m: Machine) returns (more: seq<Event>)
    requires Inv(start, m)
    ensures |more| <= MachineLeft(m) && AllReturned(Run(m, more))
    decreases MachineLeft(m)
  {
    if AllReturned(m) {
      more := [];
    } else {
      var e := NextStep(start, m);
      StepLowersTotal(m, e);
      var rest := CanReturn(start, Step(m, e));
      RunOne(m, e);
      RunConcat(m, [e], rest);
      more := [e] + rest;
    }
  }

  /** From every state that any interleaving reaches, all callers can go on until each has its answer. */
  lemma EveryCallerCanReturn(start: Tables, requests: seq<Request>, maxRetries: seq<nat>, events: seq<Event>) returns (more: seq<Event>)
    requires NonNegative(start)
    ensures AllReturned(Run(Start(start, requests, maxRetries), events + more))
  {
    var m := Start(start, requests, maxRetries);
    RunKeepsInv(start, requests, maxRetries, events);
    more := CanReturn(start, Run(m, events));
    RunConcat(m, events, more);
  }
}
