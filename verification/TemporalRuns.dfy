/** Many executions of the two-leg workflow interleaved on one ledger, some of them sharing a workflow id.
    An activity once scheduled may run any number of times, its result may be lost, and an attempt may land
    after its execution has moved on or failed. */
module TemporalRuns {
  import opened Wrappers
  import opened TemporalLedger

  datatype Activity = EnsureAccounts | CreateFirst | CreateSecond | VerifyFirst | ReconcileAccounts

  function Index(a: Activity): nat {
    match a
    case EnsureAccounts => 0
    case CreateFirst => 1
    case CreateSecond => 2
    case VerifyFirst => 3
    case ReconcileAccounts => 4
  }

  datatype Execution = Execution(workflow: nat, amount: int)

  /** An execution waits for the result of one activity, or has ended. */
  datatype Progress = Waiting(activity: Activity) | Succeeded | Failed(activity: Activity)

  datatype System = System(ledger: Ledger, executions: seq<Execution>, progress: seq<Progress>)

  /** One attempt of an activity reaches the ledger; its result reaches the workflow or is lost. */
  datatype Event = Event(execution: nat, activity: Activity, delivered: bool)

  function Scheduled(p: Progress): nat {
    if p.Succeeded? then 4 else Index(p.activity)
  }

  /** The ledger after an attempt. */
  function Effect(l: Ledger, e: Execution, a: Activity): Ledger {
    match a
    case EnsureAccounts => WithAccounts(l, AccountsOf(e.workflow), 1)
    case CreateFirst => TransferCreated(l, FirstLeg(e.workflow, e.amount)).0
    case CreateSecond => TransferCreated(l, SecondLeg(e.workflow, e.amount)).0
    case VerifyFirst => DuplicateVerified(l, FirstLeg(e.workflow, e.amount)).0
    case ReconcileAccounts => l
  }

  function Balanced(l: Ledger, e: Execution): Option<bool> {
    Reconcile(l, SourceOf(e.workflow), ClearingOf(e.workflow), BeneficiaryOf(e.workflow), e.amount)
  }

  /** What the workflow does with the result; an activity that raises is tried again. */
  function Continue(l: Ledger, e: Execution, a: Activity): Progress {
    match a
    case EnsureAccounts => Waiting(CreateFirst)
    case CreateFirst =>
      if TransferCreated(l, FirstLeg(e.workflow, e.amount)).1 == Committed then Waiting(CreateSecond) else Failed(a)
    case CreateSecond =>
      if TransferCreated(l, SecondLeg(e.workflow, e.amount)).1 == Committed then Waiting(VerifyFirst) else Failed(a)
    case VerifyFirst =>
      if DuplicateVerified(l, FirstLeg(e.workflow, e.amount)).1 == AlreadyExists then Waiting(ReconcileAccounts) else Failed(a)
    case ReconcileAccounts =>
      match Balanced(l, e)
      case None => Waiting(a)
      case Some(true) => Succeeded
      case Some(false) => Failed(a)
  }

  function Step(s: System, event: Event): System
    requires |s.executions| == |s.progress|
  {
    if event.execution >= |s.executions| || Index(event.activity) > Scheduled(s.progress[event.execution]) then s
    else
      var e, p := s.executions[event.execution], s.progress[event.execution];
      var next := if event.delivered && p == Waiting(event.activity) then Continue(s.ledger, e, event.activity) else p;
      System(Effect(s.ledger, e, event.activity), s.executions, s.progress[event.execution := next])
  }

  function Run(s: System, events: seq<Event>): (s': System)
    requires |s.executions| == |s.progress|
    ensures |s'.progress| == |s.progress| && s'.executions == s.executions
  {
    if events == [] then s else Step(Run(s, events[..|events| - 1]), events[|events| - 1])
  }

  function Begin(l: Ledger, executions: seq<Execution>): System {
    System(l, executions, seq(|executions|, i => Waiting(EnsureAccounts)))
  }

  // ---------- Invariants ----------

  predicate FirstPosted(l: Ledger, e: Execution) {
    e.workflow * 100 + 1 in l.transfers && FirstAmount(l, e.workflow) == e.amount
  }

  predicate SecondPosted(l: Ledger, e: Execution) {
    e.workflow * 100 + 2 in l.transfers && FirstPosted(l, e)
  }

  /** How far the ledger must be for an execution to have come as far as it has; the only way to fail is to be
      refused the first leg, because it is taken with another amount or the amount is not positive. */
  ghost predicate ExecutionInv(l: Ledger, e: Execution, p: Progress) {
    && Legs(l, e.workflow)
    && (Scheduled(p) >= 1 ==> HasAccounts(l, e.workflow))
    && (Scheduled(p) >= 2 ==> FirstPosted(l, e))
    && (Scheduled(p) >= 3 ==> SecondPosted(l, e))
    && (p.Failed? ==> p.activity == CreateFirst && !FirstPosted(l, e) && (e.amount <= 0 || e.workflow * 100 + 1 in l.transfers))
  }

  /** The amount that moved is the amount of one of the executions with this id. */
  predicate SomebodysAmount(s: System, w: nat) {
    w * 100 + 1 in s.ledger.transfers ==>
      exists j :: 0 <= j < |s.executions| && s.executions[j] == Execution(w, FirstAmount(s.ledger, w))
  }

  predicate LegOf(t: Transfer, e: Execution) {
    t == FirstLeg(e.workflow, e.amount) || t == SecondLeg(e.workflow, e.amount)
  }

  /** Every transfer is an old one or a leg of some execution, filed under its own id. */
  predicate OnlyLegs(start: Ledger, s: System) {
    && (forall id :: id in start.transfers ==> id in s.ledger.transfers && s.ledger.transfers[id] == start.transfers[id])
    && (forall id :: id in s.ledger.transfers && id !in start.transfers ==>
          s.ledger.transfers[id].id == id
          && exists j :: 0 <= j < |s.executions| && LegOf(s.ledger.transfers[id], s.executions[j]))
  }

  ghost predicate Inv(start: Ledger, s: System) {
    && |s.executions| == |s.progress|
    && (forall i :: 0 <= i < |s.executions| ==>
          ExecutionInv(s.ledger, s.executions[i], s.progress[i]) && SomebodysAmount(s, s.executions[i].workflow))
    && OnlyLegs(start, s)
  }

  // ---------- One attempt ----------

  /** An attempt of a scheduled activity, early, late or repeated, keeps the legs of its own workflow, what its
      executions rely on, and everything of other workflows. */
  lemma EffectKeeps(l: Ledger, e: Execution, p: Progress, a: Activity)
    requires ExecutionInv(l, e, p) && Index(a) <= Scheduled(p)
    ensures var l' := Effect(l, e, a);
            && Legs(l', e.workflow)
            && (a == EnsureAccounts || HasAccounts(l, e.workflow) ==> HasAccounts(l', e.workflow))
            && (forall id :: id in l.transfers ==> id in l'.transfers && l'.transfers[id] == l.transfers[id])
            && (forall id :: id in l'.transfers && id !in l.transfers ==> l'.transfers[id].id == id && LegOf(l'.transfers[id], e))
            && (forall other: nat :: other != e.workflow ==> SameFor(l, l', other))
  {
    match a
    case EnsureAccounts => EnsureKeepsLegs(l, e.workflow);
    case CreateFirst => FirstKeepsLegs(l, e.workflow, e.amount);
    case CreateSecond => SecondKeepsLegs(l, e.workflow, e.amount);
    case _ =>
  }

  lemma ContinueKeeps(l: Ledger, e: Execution, a: Activity)
    requires ExecutionInv(l, e, Waiting(a))
    ensures ExecutionInv(Effect(l, e, a), e, Continue(l, e, a))
    ensures Continue(l, e, a) != Waiting(a)
  {
    EffectKeeps(l, e, Waiting(a), a);
    match a
    case EnsureAccounts =>
    case CreateFirst => FirstKeepsLegs(l, e.workflow, e.amount);
    case CreateSecond => SecondKeepsLegs(l, e.workflow, e.amount);
    case VerifyFirst =>
    case ReconcileAccounts => LegsSquareClearing(l, e.workflow);
  }

  /** An execution that takes no part in an attempt keeps its invariant. */
  lemma OthersKeep(l: Ledger, l': Ledger, e: Execution, p: Progress)
    requires ExecutionInv(l, e, p) && Legs(l', e.workflow)
    requires HasAccounts(l, e.workflow) ==> HasAccounts(l', e.workflow)
    requires forall id :: id in l.transfers ==> id in l'.transfers && l'.transfers[id] == l.transfers[id]
    ensures ExecutionInv(l', e, p)
  {
  }

  lemma SameForKeepsLegs(l: Ledger, l': Ledger, w: nat)
    requires Legs(l, w) && SameFor(l, l', w)
    ensures Legs(l', w) && (HasAccounts(l, w) ==> HasAccounts(l', w))
  {
    assert Owns(w, SourceOf(w)) && Owns(w, ClearingOf(w)) && Owns(w, BeneficiaryOf(w));
  }

  lemma StepKeepsExecution(start: Ledger, s: System, event: Event, i: nat)
    requires Inv(start, s) && Step(s, event) != s && i < |s.executions|
    ensures ExecutionInv(Step(s, event).ledger, s.executions[i], Step(s, event).progress[i])
    ensures SomebodysAmount(Step(s, event), s.executions[i].workflow)
  {
    var s', k, a := Step(s, event), event.execution, event.activity;
    var e, p, w := s.executions[k], s.progress[k], s.executions[i].workflow;
    assert ExecutionInv(s.ledger, e, p);
    EffectKeeps(s.ledger, e, p, a);
    assert ExecutionInv(s.ledger, s.executions[i], s.progress[i]) && SomebodysAmount(s, w);
    if w != e.workflow {
      assert SameFor(s.ledger, s'.ledger, w);
      SameForKeepsLegs(s.ledger, s'.ledger, w);
    }
    if i == k && s'.progress[k] != p {
      ContinueKeeps(s.ledger, e, a);
    } else {
      OthersKeep(s.ledger, s'.ledger, s.executions[i], s.progress[i]);
    }
    AmountKept(s, s', k, w);
  }

  lemma StepKeepsOnlyLegs(start: Ledger, s: System, event: Event)
    requires Inv(start, s) && Step(s, event) != s
    ensures OnlyLegs(start, Step(s, event))
  {
    var s', k := Step(s, event), event.execution;
    assert ExecutionInv(s.ledger, s.executions[k], s.progress[k]);
    EffectKeeps(s.ledger, s.executions[k], s.progress[k], event.activity);
    forall id | id in s'.ledger.transfers && id !in start.transfers
      ensures s'.ledger.transfers[id].id == id
      ensures exists j :: 0 <= j < |s'.executions| && LegOf(s'.ledger.transfers[id], s'.executions[j])
    {
      if id !in s.ledger.transfers {
        assert LegOf(s'.ledger.transfers[id], s'.executions[k]);
      }
    }
  }

  lemma StepKeepsInv(start: Ledger, s: System, event: Event)
    requires Inv(start, s)
    ensures Inv(start, Step(s, event))
  {
    var s' := Step(s, event);
    if s' != s {
      forall i | 0 <= i < |s.executions|
        ensures ExecutionInv(s'.ledger, s.executions[i], s'.progress[i])
        ensures SomebodysAmount(s', s.executions[i].workflow)
      {
        StepKeepsExecution(start, s, event, i);
      }
      StepKeepsOnlyLegs(start, s, event);
    }
  }

  lemma AmountKept(s: System, s': System, k: nat, w: nat)
    requires s'.executions == s.executions && k < |s.executions|
    requires SomebodysAmount(s, w) && Legs(s'.ledger, w)
    requires forall id :: id in s.ledger.transfers ==> id in s'.ledger.transfers && s'.ledger.transfers[id] == s.ledger.transfers[id]
    requires forall id :: id in s'.ledger.transfers && id !in s.ledger.transfers ==> LegOf(s'.ledger.transfers[id], s.executions[k])
    ensures SomebodysAmount(s', w)
  {
    var id := w * 100 + 1;
    if id in s'.ledger.transfers && id !in s.ledger.transfers {
      assert s'.ledger.transfers[id] == FirstLeg(w, FirstAmount(s'.ledger, w));
      assert s.executions[k] == Execution(w, FirstAmount(s'.ledger, w));
    }
  }

  lemma {:induction false} RunKeepsInv(start: Ledger, executions: seq<Execution>, events: seq<Event>)
    requires forall i :: 0 <= i < |executions| ==> Fresh(start, executions[i].workflow)
    ensures Inv(start, Run(Begin(start, executions), events))
  {
    if events == [] {
      forall i | 0 <= i < |executions|
        ensures Legs(start, executions[i].workflow)
      {
        FreshHasNoLegs(start, executions[i].workflow);
      }
    } else {
      RunKeepsInv(start, executions, events[..|events| - 1]);
      StepKeepsInv(start, Run(Begin(start, executions), events[..|events| - 1]), events[|events| - 1]);
    }
  }

  // ---------- Main results ----------

  lemma ExecutionKeepsInv(start: Ledger, executions: seq<Execution>, events: seq<Event>, i: nat)
    requires forall k :: 0 <= k < |executions| ==> Fresh(start, executions[k].workflow)
    requires i < |executions|
    ensures var s := Run(Begin(start, executions), events);
            ExecutionInv(s.ledger, executions[i], s.progress[i]) && OnlyLegs(start, s)
  {
    RunKeepsInv(start, executions, events);
  }

  /** The second leg only with the first, both with one amount, and in numbers: from account 10 w + 1 to 10 w + 2,
      and from there to 10 w + 3. */
  predicate LegsInOrder(l: Ledger, w: nat) {
    && (w * 100 + 1 in l.transfers ==>
          l.transfers[w * 100 + 1] == Transfer(w * 100 + 1, w * 10 + 1, w * 10 + 2, l.transfers[w * 100 + 1].amount, 1, 1))
    && (w * 100 + 2 in l.transfers ==>
          && w * 100 + 1 in l.transfers
          && l.transfers[w * 100 + 2] == Transfer(w * 100 + 2, w * 10 + 2, w * 10 + 3, l.transfers[w * 100 + 1].amount, 1, 1))
  }

  predicate ClearingCovered(l: Ledger, w: nat) {
    w * 10 + 2 in l.accounts ==> l.accounts[w * 10 + 2].debitsPosted <= l.accounts[w * 10 + 2].creditsPosted
  }

  lemma LegsAreInOrder(l: Ledger, w: nat)
    requires Legs(l, w)
    ensures LegsInOrder(l, w)
  {
  }

  lemma LegsCoverClearing(l: Ledger, w: nat)
    requires Legs(l, w)
    ensures ClearingCovered(l, w)
  {
  }

  lemma ReachedReconcileBalances(l: Ledger, e: Execution, p: Progress)
    requires ExecutionInv(l, e, p) && (p == Waiting(ReconcileAccounts) || p == Succeeded)
    ensures Balanced(l, e) == Some(true) && MovedForward(l, e.workflow, e.amount)
  {
    LegsSquareClearing(l, e.workflow);
    BothLegsMoveForward(l, e.workflow);
  }

  /** Whatever is repeated, lost or late: each workflow posts at most its two legs, both with one amount and the
      second only after the first; its clearing account is never over-drawn; and an execution that reaches the
      reconciliation, or has passed it, finds its accounts balanced. */
  lemma TwoLegs(start: Ledger, executions: seq<Execution>, events: seq<Event>, i: nat)
    requires forall j :: 0 <= j < |executions| ==> Fresh(start, executions[j].workflow)
    requires i < |executions|
    ensures var s, w := Run(Begin(start, executions), events), executions[i].workflow;
            && OnlyLegs(start, s)
            && LegsInOrder(s.ledger, w)
            && ClearingCovered(s.ledger, w)
            && (s.progress[i] == Waiting(ReconcileAccounts) || s.progress[i] == Succeeded ==>
                  Balanced(s.ledger, executions[i]) == Some(true) && MovedForward(s.ledger, w, executions[i].amount))
  {
    ExecutionKeepsInv(start, executions, events, i);
    var s := Run(Begin(start, executions), events);
    LegsAreInOrder(s.ledger, executions[i].workflow);
    LegsCoverClearing(s.ledger, executions[i].workflow);
    if s.progress[i] == Waiting(ReconcileAccounts) || s.progress[i] == Succeeded {
      ReachedReconcileBalances(s.ledger, executions[i], s.progress[i]);
    }
  }

  predicate NoLegCarries(l: Ledger, w: nat, amount: int) {
    && (w * 100 + 1 in l.transfers ==> l.transfers[w * 100 + 1].amount != amount)
    && (w * 100 + 2 in l.transfers ==> l.transfers[w * 100 + 2].amount != amount)
  }

  lemma FailedCarriesNothing(l: Ledger, e: Execution, p: Progress)
    requires ExecutionInv(l, e, p) && p.Failed?
    ensures p == Failed(CreateFirst) && NoLegCarries(l, e.workflow, e.amount)
  {
  }

  /** Executions that share an id never move more than one amount between them: two that got past the first leg
      have the same amount, and one that failed did so before it posted anything: no leg of its id carries its amount. */
  lemma OneAmountPerId(start: Ledger, executions: seq<Execution>, events: seq<Event>, i: nat, j: nat)
    requires forall k :: 0 <= k < |executions| ==> Fresh(start, executions[k].workflow)
    requires i < |executions| && j < |executions| && executions[i].workflow == executions[j].workflow
    ensures var s := Run(Begin(start, executions), events);
            && (Scheduled(s.progress[i]) >= 2 && Scheduled(s.progress[j]) >= 2 ==> executions[i].amount == executions[j].amount)
            && (s.progress[i].Failed? ==>
                  s.progress[i] == Failed(CreateFirst) && NoLegCarries(s.ledger, executions[i].workflow, executions[i].amount))
  {
    ExecutionKeepsInv(start, executions, events, i);
    ExecutionKeepsInv(start, executions, events, j);
    var s := Run(Begin(start, executions), events);
    if s.progress[i].Failed? {
      FailedCarriesNothing(s.ledger, executions[i], s.progress[i]);
    }
  }

  /** With distinct ids and positive amounts no execution ever fails, and a delivered result always takes it on. */
  lemma DistinctIdsNeverFail(start: Ledger, executions: seq<Execution>, events: seq<Event>, i: nat)
    requires forall j :: 0 <= j < |executions| ==> Fresh(start, executions[j].workflow)
    requires forall j, k :: 0 <= j < k < |executions| ==> executions[j].workflow != executions[k].workflow
    requires i < |executions| && executions[i].amount > 0
    ensures var s := Run(Begin(start, executions), events);
            && !s.progress[i].Failed?
            && (s.progress[i].Waiting? ==> !Step(s, Event(i, s.progress[i].activity, true)).progress[i].Failed?
                                           && Step(s, Event(i, s.progress[i].activity, true)).progress[i] != s.progress[i])
  {
    RunKeepsInv(start, executions, events);
    var s := Run(Begin(start, executions), events);
    NotFailed(start, s, i);
    if s.progress[i].Waiting? {
      var event := Event(i, s.progress[i].activity, true);
      StepKeepsInv(start, s, event);
      NotFailed(start, Step(s, event), i);
      ContinueKeeps(s.ledger, executions[i], s.progress[i].activity);
    }
  }

  lemma NotFailed(start: Ledger, s: System, i: nat)
    requires Inv(start, s) && i < |s.executions| && s.executions[i].amount > 0
    requires forall j, k :: 0 <= j < k < |s.executions| ==> s.executions[j].workflow != s.executions[k].workflow
    ensures !s.progress[i].Failed?
  {
    assert ExecutionInv(s.ledger, s.executions[i], s.progress[i]) && SomebodysAmount(s, s.executions[i].workflow);
  }

  // ---------- What a result means, on any ledger ----------

  /** When an execution goes on, whatever else the ledger holds: past the first leg exactly if it is recorded, past the
      second exactly if that is, past the duplicate check exactly if the first leg's id is known; and it succeeds exactly
      if the totals of its three accounts are those of the two legs, failing if they are not. */
  lemma ResultsAreTrue(l: Ledger, e: Execution)
    ensures var w, amount := e.workflow, e.amount;
            && Continue(l, e, EnsureAccounts) == Waiting(CreateFirst)
            && Continue(l, e, CreateFirst) ==
               (if Recorded(Effect(l, e, CreateFirst), Transfer(w * 100 + 1, w * 10 + 1, w * 10 + 2, amount, 1, 1))
                then Waiting(CreateSecond) else Failed(CreateFirst))
            && Continue(l, e, CreateSecond) ==
               (if Recorded(Effect(l, e, CreateSecond), Transfer(w * 100 + 2, w * 10 + 2, w * 10 + 3, amount, 1, 1))
                then Waiting(VerifyFirst) else Failed(CreateSecond))
            && Continue(l, e, VerifyFirst) == (if w * 100 + 1 in l.transfers then Waiting(ReconcileAccounts) else Failed(VerifyFirst))
            && Continue(l, e, ReconcileAccounts) ==
               (if !(w * 10 + 1 in l.accounts && w * 10 + 2 in l.accounts && w * 10 + 3 in l.accounts) then Waiting(ReconcileAccounts)
                else if (PostedTo(l, w * 10 + 1), PostedTo(l, w * 10 + 2), PostedTo(l, w * 10 + 3))
                        == ((amount, 0), (amount, amount), (0, amount)) then Succeeded
                else Failed(ReconcileAccounts))
  {
    CommittedExactlyIfPosted(l, FirstLeg(e.workflow, e.amount));
    CommittedExactlyIfPosted(l, SecondLeg(e.workflow, e.amount));
    ReconciledExactly(l, e.workflow * 10 + 1, e.workflow * 10 + 2, e.workflow * 10 + 3, e.amount);
  }

  /** Setting up adds empty accounts only, whatever else the ledger holds. */
  lemma SetupAddsAccounts(l: Ledger, e: Execution)
    ensures var w, l' := e.workflow, Effect(l, e, EnsureAccounts);
            && l'.transfers == l.transfers
            && (forall a :: a in l'.accounts <==> a in l.accounts || a == w * 10 + 1 || a == w * 10 + 2 || a == w * 10 + 3)
            && (forall a :: a in l'.accounts ==> l'.accounts[a] == if a in l.accounts then l.accounts[a] else LedgerAccount(1, 0, 0))
  {
    var ids := AccountsOf(e.workflow);
    EnsuredExactly(l, ids, 1);
    assert forall a :: a in ids <==> a == e.workflow * 10 + 1 || a == e.workflow * 10 + 2 || a == e.workflow * 10 + 3;
  }

  /** A leg adds its own transfer only, if its id is not known, and checking for a duplicate is the first leg again;
      reconciling only reads. */
  lemma LegsAddTransfers(l: Ledger, e: Execution)
    ensures var w := e.workflow;
            && (w * 100 + 1 in l.transfers ==> Effect(l, e, CreateFirst) == l)
            && (forall id :: id != w * 100 + 1 ==> (id in Effect(l, e, CreateFirst).transfers <==> id in l.transfers))
            && (w * 100 + 2 in l.transfers ==> Effect(l, e, CreateSecond) == l)
            && (forall id :: id != w * 100 + 2 ==> (id in Effect(l, e, CreateSecond).transfers <==> id in l.transfers))
            && Effect(l, e, VerifyFirst) == Effect(l, e, CreateFirst)
            && Effect(l, e, ReconcileAccounts) == l
  {
    AcceptedTransferMoves(l, FirstLeg(e.workflow, e.amount));
    AcceptedTransferMoves(l, SecondLeg(e.workflow, e.amount));
  }

  // ---------- A result has every activity behind it ----------

  /** The result of the activity has been delivered to the execution. */
  predicate Delivered(events: seq<Event>, i: nat, a: Activity) {
    exists n :: 0 <= n < |events| && events[n] == Event(i, a, true)
  }

  /** The activities before the one an execution waits for, all if it has succeeded. */
  predicate Behind(p: Progress, a: Activity) {
    p.Succeeded? || Index(a) < Index(p.activity)
  }

  lemma DeliveredStays(events: seq<Event>, i: nat, a: Activity)
    requires events != [] && Delivered(events[..|events| - 1], i, a)
    ensures Delivered(events, i, a)
  {
    var n :| 0 <= n < |events| - 1 && events[..|events| - 1][n] == Event(i, a, true);
    assert events[n] == Event(i, a, true);
  }

  /** Whatever is late or repeated, an execution never skips an activity: the results of all the activities before the
      one it waits for, and of all five if it has succeeded, have been delivered to it. */
  lemma {:induction false} NoActivityIsSkipped(start: Ledger, executions: seq<Execution>, events: seq<Event>, i: nat, a: Activity)
    requires i < |executions| && Behind(Run(Begin(start, executions), events).progress[i], a)
    ensures Delivered(events, i, a)
  {
    if events != [] {
      var before, e := events[..|events| - 1], events[|events| - 1];
      var s := Run(Begin(start, executions), before);
      if Behind(s.progress[i], a) {
        NoActivityIsSkipped(start, executions, before, i, a);
        DeliveredStays(events, i, a);
      } else {
        assert events[|events| - 1] == Event(i, a, true);
      }
    }
  }
}
