/** Any number of threads inside execute_payment on one database, one SQL statement at a time.
    Every interleaving, with operational errors at any statement, is a serial run of whole payments. */
module PaymentThreads {
  import opened Wrappers
  import opened PaymentTables

  /** What execute_payment returns; OperationalFailure reports a sqlite3.OperationalError, Raised is the
      exception that leaves the function when the ROLLBACK after an IntegrityError fails. */
  datatype Answer =
    | Answered(outcome: Outcome)
    | AnsweredCommitted(attempt: nat, lockRetries: nat)
    | OperationalFailure(locked: bool, attempt: nat, lockRetries: nat)
    | RetryExhausted(lockRetries: nat)
    | Raised
  {
    predicate Decided() {
      Answered? || AnsweredCommitted?
    }

    function Outcome(): Outcome
      requires Decided()
    {
      if Answered? then outcome else Committed
    }
  }

  /** The statement a thread executes next. */
  datatype Pc =
    | Begin
    | SelectWorkflow
    | RollbackReplay(status: Status)
    | WorkflowInsert
    | PaymentInsert
    | SelectSource
    | MarkFailed
    | CommitFailed
    | TransferInsert
    | Debit
    | Credit
    | CompletePayment
    | CompleteWorkflow
    | CommitCompleted
    | RollbackIntegrity
    | RollbackFault(locked: bool)
    | Closing(answer: Answer)
    | Returned(answer: Answer)

  /** The statements inside a transaction other than the ones that end it: the next statement and the
      tables as the transaction then sees them. */
  function Statement(pc: Pc, w: Tables, r: Request): (Pc, Tables) {
    match pc
    case SelectWorkflow =>
      if r.workflow in w.workflows then (RollbackReplay(w.workflows[r.workflow].status), w) else (WorkflowInsert, w)
    case WorkflowInsert => AfterUpdate(InsertWorkflow(w, r), w, PaymentInsert)
    case PaymentInsert => AfterUpdate(InsertPayment(w, r), w, SelectSource)
    case SelectSource =>
      if r.source !in w.accounts || w.accounts[r.source].balance < r.amount then (MarkFailed, w) else (TransferInsert, w)
    case MarkFailed => (CommitFailed, SetWorkflow(w, r.workflow, Failed))
    case TransferInsert => AfterUpdate(InsertTransfer(w, r), w, Debit)
    case Debit => AfterUpdate(AddToBalance(w, r.source, -r.amount), w, Credit)
    case Credit => AfterUpdate(AddToBalance(w, r.destination, r.amount), w, CompletePayment)
    case CompletePayment => (CompleteWorkflow, SetPayment(w, r.transaction, Completed))
    case CompleteWorkflow => (CommitCompleted, SetWorkflow(w, r.workflow, Completed))
    case _ => (pc, w)
  }

  function AfterUpdate(updated: Option<Tables>, w: Tables, next: Pc): (Pc, Tables) {
    if updated.Some? then (next, updated.value) else (RollbackIntegrity, w)
  }

  datatype Thread = Thread(pc: Pc, attempt: nat, lockRetries: nat)

  /** `writer` holds the write lock from BEGIN IMMEDIATE on and alone sees `working`;
      `order` lists the threads that got a decided answer, in the order they gave up the lock. */
  datatype Machine = Machine(requests: seq<Request>, maxRetries: seq<nat>, committed: Tables, writer: Option<nat>,
                             working: Tables, threads: seq<Thread>, order: seq<nat>)

  /** A statement succeeds, or raises an operational error ("locked" or not) that may also have rolled
      the transaction back. */
  datatype Event = Proceed(thread: nat) | Fault(thread: nat, locked: bool, aborts: bool)

  /** The max_retries argument of the t-th call; calls beyond the list leave it at its default. */
  function Limit(maxRetries: seq<nat>, t: nat): nat {
    if t < |maxRetries| then maxRetries[t] else 8
  }

  function Start(tables: Tables, requests: seq<Request>, maxRetries: seq<nat>): Machine {
    Machine(requests, maxRetries, tables, None, tables,
            seq(|requests|, t requires 0 <= t => Thread(if Limit(maxRetries, t) == 0 then Closing(RetryExhausted(0)) else Begin, 0, 0)), [])
  }

  function Goto(m: Machine, t: nat, pc: Pc): Machine
    requires t < |m.threads|
  {
    m.(threads := m.threads[t := m.threads[t].(pc := pc)])
  }

  function Release(m: Machine, t: nat): Machine {
    if m.writer == Some(t) then m.(writer := None) else m
  }

  function Decide(m: Machine, t: nat, answer: Answer): Machine
    requires t < |m.threads|
  {
    Goto(Release(m, t).(order := m.order + [t]), t, Closing(answer))
  }

  /** The tail of the handler for OperationalError: give up, or count a retry and go round the loop. */
  function AfterFault(m: Machine, t: nat, locked: bool): Machine
    requires t < |m.threads|
  {
    var th := m.threads[t];
    if !locked || th.attempt + 1 >= Limit(m.maxRetries, t) then
      Goto(m, t, Closing(OperationalFailure(locked, th.attempt + 1, th.lockRetries)))
    else
      m.(threads := m.threads[t := Thread(Begin, th.attempt + 1, th.lockRetries + 1)])
  }

  function Advance(m: Machine, t: nat): Machine
    requires t < |m.threads| == |m.requests|
  {
    var th := m.threads[t];
    match th.pc
    case Begin =>
      if m.writer.None? then Goto(m.(writer := Some(t), working := m.committed), t, SelectWorkflow)
      else if m.writer == Some(t) then Goto(m, t, RollbackFault(false))
      else m
    case RollbackReplay(status) => Decide(m, t, Answered(Replayed(status)))
    case RollbackIntegrity => Decide(m, t, Answered(AlreadyExists))
    case CommitFailed => Decide(m.(committed := m.working), t, Answered(Insufficient))
    case CommitCompleted =>
      Decide(m.(committed := m.working), t, AnsweredCommitted(th.attempt + 1, th.lockRetries))
    case RollbackFault(locked) => AfterFault(Release(m, t), t, locked)
    case Closing(answer) => Goto(Release(m, t), t, Returned(answer))
    case Returned(_) => m
    case _ =>
      var (next, working) := Statement(th.pc, m.working, m.requests[t]);
      Goto(m.(working := working), t, next)
  }

  function Interrupt(m: Machine, t: nat, locked: bool, aborts: bool): Machine
    requires t < |m.threads|
  {
    var m' := if aborts then Release(m, t) else m;
    match m.threads[t].pc
    case RollbackFault(first) => AfterFault(m', t, first)
    case RollbackIntegrity => Goto(m', t, Closing(Raised))
    case Closing(_) => m
    case Returned(_) => m
    case _ => Goto(m', t, RollbackFault(locked))
  }

  function Step(m: Machine, e: Event): Machine
    requires |m.threads| == |m.requests|
  {
    if e.thread >= |m.threads| then m
    else match e
      case Proceed(t) => Advance(m, t)
      case Fault(t, locked, aborts) => Interrupt(m, t, locked, aborts)
  }

  function Run(m: Machine, events: seq<Event>): (m': Machine)
    requires |m.threads| == |m.requests|
    ensures |m'.threads| == |m'.requests|
    ensures m'.requests == m.requests && m'.maxRetries == m.maxRetries
  {
    if events == [] then m else Step(Run(m, events[..|events| - 1]), events[|events| - 1])
  }

  // ---------- One transaction, statement by statement, is the serial transaction ----------

  predicate InTransaction(pc: Pc) {
    !(pc.Begin? || pc.RollbackFault? || pc.Closing? || pc.Returned?)
  }

  predicate Payable(c: Tables, r: Request) {
    r.workflow !in c.workflows && !Refused(c, r)
  }

  predicate Funded(c: Tables, r: Request) {
    Payable(c, r) && c.accounts[r.source].balance >= r.amount
  }

  /** A payment that a transaction running alone would commit. */
  predicate Transferable(c: Tables, r: Request) {
    Funded(c, r) && !HasTransfer(c, r.transaction)
  }

  function Listed(t: Tables, r: Request): Tables {
    t.(transfers := t.transfers + [Transfer(r.transaction, r.source, r.destination, r.amount)])
  }

  function Debited(accounts: map<string, Account>, r: Request): map<string, Account>
    requires r.source in accounts
  {
    accounts[r.source := accounts[r.source].(balance := accounts[r.source].balance - r.amount)]
  }

  /** What the open transaction sees before statement `pc`, in terms of the committed tables `c`. */
  ghost predicate Midway(pc: Pc, c: Tables, w: Tables, r: Request) {
    match pc
    case SelectWorkflow => w == c
    case RollbackReplay(status) => r.workflow in c.workflows && status == c.workflows[r.workflow].status
    case WorkflowInsert => r.workflow !in c.workflows && w == c
    case PaymentInsert =>
      r.workflow !in c.workflows && w == c.(workflows := c.workflows[r.workflow := Workflow(r.transaction, Running)])
    case SelectSource => Payable(c, r) && w == Recorded(c, r, Pending, Running)
    case MarkFailed => Payable(c, r) && !Funded(c, r) && w == Recorded(c, r, Pending, Running)
    case CommitFailed => Payable(c, r) && !Funded(c, r) && w == Recorded(c, r, Pending, Failed)
    case TransferInsert => Funded(c, r) && w == Recorded(c, r, Pending, Running)
    case Debit => Transferable(c, r) && w == Listed(Recorded(c, r, Pending, Running), r)
    case Credit =>
      Transferable(c, r) && w == Listed(Recorded(c, r, Pending, Running), r).(accounts := Debited(c.accounts, r))
    case CompletePayment =>
      Transferable(c, r) && w == Listed(Recorded(c, r, Pending, Running), r).(accounts := Moved(c.accounts, r))
    case CompleteWorkflow =>
      Transferable(c, r) && w == Listed(Recorded(c, r, Completed, Running), r).(accounts := Moved(c.accounts, r))
    case CommitCompleted =>
      Transferable(c, r) && w == Listed(Recorded(c, r, Completed, Completed), r).(accounts := Moved(c.accounts, r))
    case RollbackIntegrity => Serial(c, r) == (c, AlreadyExists)
    case _ => false
  }

  predicate Ends(pc: Pc) {
    pc.RollbackReplay? || pc.RollbackIntegrity? || pc.CommitFailed? || pc.CommitCompleted?
  }

  lemma UpdateRecorded(c: Tables, r: Request, payment: Status, workflow: Status)
    ensures SetPayment(Recorded(c, r, Pending, workflow), r.transaction, payment) == Recorded(c, r, payment, workflow)
    ensures SetWorkflow(Recorded(c, r, payment, Running), r.workflow, workflow) == Recorded(c, r, payment, workflow)
  {
    assert SetPayment(Recorded(c, r, Pending, workflow), r.transaction, payment).payments == Recorded(c, r, payment, workflow).payments;
    assert SetWorkflow(Recorded(c, r, payment, Running), r.workflow, workflow).workflows == Recorded(c, r, payment, workflow).workflows;
  }

  /** Debiting one account and then crediting the other moves the money, also when both are one account. */
  lemma CreditMoves(accounts: map<string, Account>, r: Request)
    requires r.source in accounts && r.destination in accounts
    ensures var d := Debited(accounts, r);
            d[r.destination := d[r.destination].(balance := d[r.destination].balance + r.amount)] == Moved(accounts, r)
  {
  }

  ghost predicate MidwayAfter(pc: Pc, c: Tables, w: Tables, r: Request) {
    var (next, w') := Statement(pc, w, r);
    InTransaction(next) && Midway(next, c, w', r)
  }

  lemma PaymentInsertKeepsMidway(c: Tables, w: Tables, r: Request)
    requires Midway(PaymentInsert, c, w, r)
    ensures MidwayAfter(PaymentInsert, c, w, r)
  {
    assert w.payments == c.payments && w.accounts == c.accounts;
    assert KeyTaken(w, r.key) == KeyTaken(c, r.key);
    assert InsertPayment(w, r).Some? ==> InsertPayment(w, r).value == Recorded(c, r, Pending, Running);
  }

  lemma SelectSourceKeepsMidway(c: Tables, w: Tables, r: Request)
    requires Midway(SelectSource, c, w, r)
    ensures MidwayAfter(SelectSource, c, w, r)
  {
    assert w.accounts == c.accounts;
  }

  lemma TransferInsertKeepsMidway(c: Tables, w: Tables, r: Request)
    requires Midway(TransferInsert, c, w, r)
    ensures MidwayAfter(TransferInsert, c, w, r)
  {
    assert w.transfers == c.transfers;
    assert HasTransfer(w, r.transaction) == HasTransfer(c, r.transaction);
  }

  lemma DebitKeepsMidway(c: Tables, w: Tables, r: Request)
    requires Midway(Debit, c, w, r)
    ensures MidwayAfter(Debit, c, w, r)
  {
    assert w.accounts == c.accounts;
  }

  lemma CreditKeepsMidway(c: Tables, w: Tables, r: Request)
    requires Midway(Credit, c, w, r)
    requires NonNegative(c)
    ensures MidwayAfter(Credit, c, w, r)
  {
    CreditMoves(c.accounts, r);
    assert w.accounts == Debited(c.accounts, r);
  }

  lemma StatusUpdatesKeepMidway(pc: Pc, c: Tables, w: Tables, r: Request)
    requires pc == MarkFailed || pc == CompletePayment || pc == CompleteWorkflow
    requires Midway(pc, c, w, r)
    ensures MidwayAfter(pc, c, w, r)
  {
    UpdateRecorded(c, r, Completed, Running);
    UpdateRecorded(c, r, Completed, Completed);
    UpdateRecorded(c, r, Pending, Failed);
  }

  /** Every statement leads from what it expects to what the next statement expects. */
  lemma StatementKeepsMidway(pc: Pc, c: Tables, w: Tables, r: Request)
    requires InTransaction(pc) && !Ends(pc) && Midway(pc, c, w, r)
    requires NonNegative(c)
    ensures MidwayAfter(pc, c, w, r)
  {
    match pc
    case PaymentInsert => PaymentInsertKeepsMidway(c, w, r);
    case SelectSource => SelectSourceKeepsMidway(c, w, r);
    case TransferInsert => TransferInsertKeepsMidway(c, w, r);
    case Debit => DebitKeepsMidway(c, w, r);
    case Credit => CreditKeepsMidway(c, w, r);
    case SelectWorkflow =>
    case WorkflowInsert =>
    case _ => StatusUpdatesKeepMidway(pc, c, w, r);
  }

  // ---------- Interleavings ----------

  predicate Distinct(order: seq<nat>) {
    forall i, j :: 0 <= i < j < |order| ==> order[i] != order[j]
  }

  predicate InRange(order: seq<nat>, n: nat) {
    forall k :: 0 <= k < |order| ==> order[k] < n
  }

  /** The requests of the listed threads. */
  function Requests(requests: seq<Request>, order: seq<nat>): seq<Request>
    requires InRange(order, |requests|)
  {
    seq(|order|, k requires 0 <= k < |order| => requests[order[k]])
  }

  /** The answer of the k-th transaction when the listed threads run one after another. */
  function SerialAnswer(start: Tables, requests: seq<Request>, order: seq<nat>, k: nat): Outcome
    requires InRange(order, |requests|) && k < |order|
  {
    Serial(SerialRun(start, Requests(requests, order[..k])), requests[order[k]]).1
  }

  predicate Final(pc: Pc) {
    pc.Closing? || pc.Returned?
  }

  predicate ThreadDecided(th: Thread) {
    Final(th.pc) && th.pc.answer.Decided()
  }

  /** A commit on attempt a had a - 1 lock retries, a caller blocked by the lock used every attempt, and
      "retry_exhausted" is the answer only when no attempt was allowed. */
  predicate CountersTruthful(answer: Answer, maxRetries: nat) {
    match answer
    case AnsweredCommitted(attempt, retries) => 1 <= attempt <= maxRetries && retries == attempt - 1
    case OperationalFailure(locked, attempt, retries) =>
      1 <= attempt <= maxRetries && retries == attempt - 1 && (locked ==> attempt == maxRetries)
    case RetryExhausted(retries) => retries == 0 == maxRetries
    case Answered(outcome) => maxRetries > 0 && outcome != Committed
    case Raised => maxRetries > 0
  }

  predicate CountersOk(th: Thread, maxRetries: nat) {
    && th.lockRetries == th.attempt
    && (!Final(th.pc) ==> th.attempt < maxRetries)
    && (Final(th.pc) ==> CountersTruthful(th.pc.answer, maxRetries))
  }

  /** Who holds the lock, what the counters say, and that exactly the decided threads are in the order. */
  predicate ThreadInv(m: Machine, t: nat)
    requires t < |m.threads|
  {
    var th := m.threads[t];
    && (InTransaction(th.pc) ==> m.writer == Some(t))
    && (th.pc.Returned? ==> m.writer != Some(t))
    && CountersOk(th, Limit(m.maxRetries, t))
    && (ThreadDecided(th) <==> t in m.order)
  }

  predicate ThreadsInv(m: Machine) {
    && |m.threads| == |m.requests|
    && Distinct(m.order) && InRange(m.order, |m.requests|)
    && (m.writer.Some? ==> m.writer.value < |m.threads|)
    && (forall t :: 0 <= t < |m.threads| ==> ThreadInv(m, t))
  }

  ghost predicate WriterInv(m: Machine)
    requires |m.threads| == |m.requests|
  {
    m.writer.Some? && m.writer.value < |m.threads| && InTransaction(m.threads[m.writer.value].pc) ==>
      Midway(m.threads[m.writer.value].pc, m.committed, m.working, m.requests[m.writer.value])
  }

  predicate AnswerIs(th: Thread, outcome: Outcome) {
    ThreadDecided(th) && th.pc.answer.Outcome() == outcome
  }

  /** The committed tables and the decided answers are those of the serial run. */
  ghost predicate SerialInv(start: Tables, m: Machine)
    requires InRange(m.order, |m.requests|) && |m.threads| == |m.requests|
  {
    && m.committed == SerialRun(start, Requests(m.requests, m.order))
    && (forall k :: 0 <= k < |m.order| ==>
          AnswerIs(m.threads[m.order[k]], SerialAnswer(start, m.requests, m.order, k)))
  }

  ghost predicate Inv(start: Tables, m: Machine) {
    && ThreadsInv(m)
    && NonNegative(m.committed)
    && WriterInv(m)
    && SerialInv(start, m)
  }

  /** A step of thread t changes nothing of the other threads, and hands the lock only from or to t. */
  predicate StepOf(m: Machine, m': Machine, t: nat)
    requires t < |m.threads|
  {
    && m'.requests == m.requests && m'.maxRetries == m.maxRetries
    && |m'.threads| == |m.threads|
    && (forall u :: 0 <= u < |m.threads| && u != t ==> m'.threads[u] == m.threads[u])
    && (m'.writer == m.writer || (m.writer == Some(t) && m'.writer == None) || (m.writer == None && m'.writer == Some(t)))
  }

  /** A step of thread t that leaves the committed tables and the order alone. */
  lemma LocalStepKeepsThreads(m: Machine, m': Machine, t: nat)
    requires ThreadsInv(m) && t < |m.threads| && StepOf(m, m', t) && m'.order == m.order
    requires ThreadInv(m', t)
    ensures ThreadsInv(m')
  {
    forall u | 0 <= u < |m'.threads|
      ensures ThreadInv(m', u)
    {
      assert ThreadInv(m, u);
    }
  }

  lemma LocalStepKeepsSerial(start: Tables, m: Machine, m': Machine, t: nat)
    requires ThreadsInv(m) && t < |m.threads| && StepOf(m, m', t) && m'.order == m.order
    requires SerialInv(start, m) && m'.committed == m.committed
    requires ThreadDecided(m.threads[t]) ==> AnswerIs(m'.threads[t], m.threads[t].pc.answer.Outcome())
    ensures SerialInv(start, m')
  {
    forall k | 0 <= k < |m.order|
      ensures AnswerIs(m'.threads[m.order[k]], SerialAnswer(start, m.requests, m.order, k))
    {
      assert AnswerIs(m.threads[m.order[k]], SerialAnswer(start, m.requests, m.order, k));
    }
  }

  /** A thread gives up the lock with a decided answer. */
  lemma DecideKeepsThreads(m: Machine, t: nat, tables: Tables, answer: Answer)
    requires ThreadsInv(m) && t < |m.threads| && InTransaction(m.threads[t].pc) && answer.Decided()
    requires CountersOk(m.threads[t].(pc := Closing(answer)), Limit(m.maxRetries, t))
    ensures ThreadsInv(Decide(m.(committed := tables), t, answer))
  {
    var m' := Decide(m.(committed := tables), t, answer);
    assert ThreadInv(m, t);
    forall u | 0 <= u < |m'.threads|
      ensures ThreadInv(m', u)
    {
      assert ThreadInv(m, u);
    }
  }

  lemma SerialRunExtends(start: Tables, requests: seq<Request>, order: seq<nat>, t: nat)
    requires InRange(order, |requests|) && t < |requests|
    ensures InRange(order + [t], |requests|)
    ensures SerialRun(start, Requests(requests, order + [t]))
            == Serial(SerialRun(start, Requests(requests, order)), requests[t]).0
    ensures SerialAnswer(start, requests, order + [t], |order|)
            == Serial(SerialRun(start, Requests(requests, order)), requests[t]).1
  {
    var rs := Requests(requests, order + [t]);
    assert rs[..|rs| - 1] == Requests(requests, order);
    assert (order + [t])[..|order|] == order;
  }

  lemma DecideKeepsAnswer(start: Tables, m: Machine, t: nat, tables: Tables, answer: Answer, k: nat)
    requires ThreadsInv(m) && t < |m.threads| && t !in m.order
    requires SerialInv(start, m) && k < |m.order|
    ensures InRange(m.order + [t], |m.requests|)
    ensures AnswerIs(Decide(m.(committed := tables), t, answer).threads[m.order[k]],
                     SerialAnswer(start, m.requests, m.order + [t], k))
  {
    assert (m.order + [t])[..k] == m.order[..k];
    assert m.order[k] in m.order;
    assert AnswerIs(m.threads[m.order[k]], SerialAnswer(start, m.requests, m.order, k));
  }

  lemma DecideKeepsSerial(start: Tables, m: Machine, t: nat, tables: Tables, answer: Answer)
    requires ThreadsInv(m) && t < |m.threads| && InTransaction(m.threads[t].pc) && answer.Decided()
    requires SerialInv(start, m) && Serial(m.committed, m.requests[t]) == (tables, answer.Outcome())
    ensures InRange(Decide(m.(committed := tables), t, answer).order, |m.requests|)
    ensures SerialInv(start, Decide(m.(committed := tables), t, answer))
  {
    var m' := Decide(m.(committed := tables), t, answer);
    SerialRunExtends(start, m.requests, m.order, t);
    assert ThreadInv(m, t);
    forall k | 0 <= k < |m'.order|
      ensures AnswerIs(m'.threads[m'.order[k]], SerialAnswer(start, m.requests, m'.order, k))
    {
      if k < |m.order| {
        DecideKeepsAnswer(start, m, t, tables, answer, k);
      }
    }
  }

  /** The transaction that a COMMIT or ROLLBACK ends is the serial one. */
  lemma EndingIsSerial(pc: Pc, c: Tables, w: Tables, r: Request)
    requires Ends(pc) && Midway(pc, c, w, r) && NonNegative(c)
    ensures NonNegative(Serial(c, r).0)
    ensures Serial(c, r) == match pc
                            case CommitFailed => (w, Insufficient)
                            case CommitCompleted => (w, Committed)
                            case RollbackReplay(status) => (c, Replayed(status))
                            case _ => (c, AlreadyExists)
  {
  }

  lemma EndKeepsInv(start: Tables, m: Machine, t: nat)
    requires Inv(start, m) && t < |m.threads| && Ends(m.threads[t].pc)
    ensures Inv(start, Advance(m, t))
  {
    var th, m' := m.threads[t], Advance(m, t);
    assert ThreadInv(m, t);
    EndingIsSerial(th.pc, m.committed, m.working, m.requests[t]);
    var answer := m'.threads[t].pc.answer;
    DecideKeepsThreads(m, t, m'.committed, answer);
    DecideKeepsSerial(start, m, t, m'.committed, answer);
  }

  lemma AdvanceStatement(m: Machine, t: nat)
    requires |m.threads| == |m.requests| && t < |m.threads| && InTransaction(m.threads[t].pc) && !Ends(m.threads[t].pc)
    ensures var (next, working) := Statement(m.threads[t].pc, m.working, m.requests[t]);
            Advance(m, t) == Goto(m.(working := working), t, next)
  {
  }

  /** Inside its transaction, a thread moves on and changes the working tables, and nothing else. */
  lemma MovingOnIsLocal(m: Machine, t: nat, next: Pc, working: Tables)
    requires ThreadsInv(m) && t < |m.threads| && InTransaction(m.threads[t].pc) && InTransaction(next)
    ensures var m' := Goto(m.(working := working), t, next); StepOf(m, m', t) && ThreadInv(m', t)
  {
    assert ThreadInv(m, t);
  }

  lemma StatementKeepsInv(start: Tables, m: Machine, t: nat)
    requires Inv(start, m) && t < |m.threads| && InTransaction(m.threads[t].pc) && !Ends(m.threads[t].pc)
    ensures Inv(start, Advance(m, t))
  {
    var m' := Advance(m, t);
    var (next, working) := Statement(m.threads[t].pc, m.working, m.requests[t]);
    assert ThreadInv(m, t);
    StatementKeepsMidway(m.threads[t].pc, m.committed, m.working, m.requests[t]);
    AdvanceStatement(m, t);
    MovingOnIsLocal(m, t, next, working);
    LocalStepKeepsThreads(m, m', t);
    LocalStepKeepsSerial(start, m, m', t);
  }

  /** A step outside the statements of a transaction: BEGIN, close, or an operational error and its rollback. */
  predicate Outside(m: Machine, m': Machine, t: nat)
    requires t < |m.threads|
  {
    && StepOf(m, m', t)
    && m'.order == m.order && m'.committed == m.committed
    && (InTransaction(m'.threads[t].pc) ==> m'.threads[t].pc == SelectWorkflow && m'.working == m'.committed)
    && (m.writer.Some? && m.writer != Some(t) ==> m'.working == m.working && m'.writer == m.writer)
    && (ThreadDecided(m.threads[t]) ==> AnswerIs(m'.threads[t], m.threads[t].pc.answer.Outcome()))
  }

  lemma AdvanceIsOutside(m: Machine, t: nat)
    requires ThreadsInv(m) && t < |m.threads| && !InTransaction(m.threads[t].pc)
    ensures Outside(m, Advance(m, t), t) && ThreadInv(Advance(m, t), t)
  {
    assert ThreadInv(m, t);
  }

  lemma InterruptIsOutside(m: Machine, t: nat, locked: bool, aborts: bool)
    requires ThreadsInv(m) && t < |m.threads|
    ensures Outside(m, Interrupt(m, t, locked, aborts), t) && ThreadInv(Interrupt(m, t, locked, aborts), t)
  {
    assert ThreadInv(m, t);
  }

  lemma OutsideKeepsInv(start: Tables, m: Machine, m': Machine, t: nat)
    requires Inv(start, m) && t < |m.threads| && Outside(m, m', t) && ThreadInv(m', t)
    ensures Inv(start, m')
  {
    LocalStepKeepsThreads(m, m', t);
    LocalStepKeepsSerial(start, m, m', t);
    if m'.writer.Some? {
      assert ThreadInv(m, m'.writer.value);
    }
  }

  lemma StepKeepsInv(start: Tables, m: Machine, e: Event)
    requires Inv(start, m)
    ensures Inv(start, Step(m, e))
  {
    if e.thread < |m.threads| {
      var pc := m.threads[e.thread].pc;
      match e
      case Proceed(t) =>
        if Ends(pc) {
          EndKeepsInv(start, m, t);
        } else if InTransaction(pc) {
          StatementKeepsInv(start, m, t);
        } else {
          AdvanceIsOutside(m, t);
          OutsideKeepsInv(start, m, Advance(m, t), t);
        }
      case Fault(t, locked, aborts) =>
        InterruptIsOutside(m, t, locked, aborts);
        OutsideKeepsInv(start, m, Interrupt(m, t, locked, aborts), t);
    }
  }

  lemma {:induction false} RunKeepsInv(start: Tables, requests: seq<Request>, maxRetries: seq<nat>, events: seq<Event>)
    requires NonNegative(start)
    ensures Inv(start, Run(Start(start, requests, maxRetries), events))
  {
    var m := Start(start, requests, maxRetries);
    if events == [] {
      assert Requests(requests, []) == [];
    } else {
      RunKeepsInv(start, requests, maxRetries, events[..|events| - 1]);
      StepKeepsInv(start, Run(m, events[..|events| - 1]), events[|events| - 1]);
    }
  }

  /** Where a decided thread stands in the serial run. */
  lemma PlaceInOrder(start: Tables, m: Machine, t: nat) returns (k: nat)
    requires Inv(start, m) && t < |m.threads| && ThreadDecided(m.threads[t])
    ensures k < |m.order| && m.order[k] == t
    ensures m.threads[t].pc.answer.Outcome() == SerialAnswer(start, m.requests, m.order, k)
  {
    assert ThreadInv(m, t);
    k :| 0 <= k < |m.order| && m.order[k] == t;
    assert AnswerIs(m.threads[m.order[k]], SerialAnswer(start, m.requests, m.order, k));
  }

  /** A returned caller with a decided answer has its place in the order, and the answer the serial run gives
      there; any other returned caller has no place in it. */
  ghost predicate AnsweredSerially(start: Tables, m: Machine, t: nat)
    requires t < |m.threads| && InRange(m.order, |m.requests|)
  {
    m.threads[t].pc.Returned? ==>
      if m.threads[t].pc.answer.Decided()
      then exists k :: 0 <= k < |m.order| && m.order[k] == t
                       && m.threads[t].pc.answer.Outcome() == SerialAnswer(start, m.requests, m.order, k)
      else t !in m.order
  }

  /** Every interleaving is serial: the committed tables are those of running the decided threads whole, one
      after another; a decided caller gets that serial run's answer; any other caller has no part in it. */
  lemma Serializable(start: Tables, requests: seq<Request>, maxRetries: seq<nat>, events: seq<Event>)
    requires NonNegative(start)
    ensures var m := Run(Start(start, requests, maxRetries), events);
            && Distinct(m.order) && InRange(m.order, |requests|)
            && m.committed == SerialRun(start, Requests(requests, m.order))
            && forall t :: 0 <= t < |requests| ==> AnsweredSerially(start, m, t)
  {
    RunKeepsInv(start, requests, maxRetries, events);
    var m := Run(Start(start, requests, maxRetries), events);
    forall t | 0 <= t < |requests|
      ensures AnsweredSerially(start, m, t)
    {
      assert ThreadInv(m, t);
      if ThreadDecided(m.threads[t]) {
        var k := PlaceInOrder(start, m, t);
      }
    }
  }

  lemma OrderOnlyGrows(m: Machine, e: Event)
    requires |m.threads| == |m.requests|
    ensures m.order <= Step(m, e).order
  {
  }

  lemma {:induction false} OrderIsPrefix(m: Machine, events: seq<Event>, n: nat)
    requires |m.threads| == |m.requests| && n <= |events|
    ensures Run(m, events[..n]).order <= Run(m, events).order
    decreases |events|
  {
    if n == |events| {
      assert events[..n] == events;
    } else {
      var before := events[..|events| - 1];
      assert before[..n] == events[..n];
      OrderIsPrefix(m, before, n);
      OrderOnlyGrows(Run(m, before), events[|events| - 1]);
    }
  }

  /** The serial order respects real time: a thread that was decided while another was not stands before it. */
  lemma RealTimeOrder(start: Tables, requests: seq<Request>, maxRetries: seq<nat>, events: seq<Event>, n: nat, i: nat, j: nat)
    requires NonNegative(start) && n <= |events|
    requires i < |Run(Start(start, requests, maxRetries), events).order|
    requires j < |Run(Start(start, requests, maxRetries), events).order|
    requires var m, order := Run(Start(start, requests, maxRetries), events[..n]), Run(Start(start, requests, maxRetries), events).order;
             order[i] in m.order && order[j] !in m.order
    ensures i < j
  {
    var m := Start(start, requests, maxRetries);
    var early, late := Run(m, events[..n]).order, Run(m, events).order;
    OrderIsPrefix(m, events, n);
    RunKeepsInv(start, requests, maxRetries, events);
    PrefixStandsFirst(early, late, i, j);
  }

  lemma PrefixStandsFirst(early: seq<nat>, late: seq<nat>, i: nat, j: nat)
    requires early <= late && Distinct(late) && i < |late| && j < |late|
    requires late[i] in early && late[j] !in early
    ensures i < j
  {
    var k :| 0 <= k < |early| && early[k] == late[i];
    assert late[k] == early[k];
    assert forall x :: 0 <= x < |early| ==> late[x] in early;
  }

  /** Every returned answer reports its attempts truthfully. */
  lemma CountersAreTruthful(start: Tables, requests: seq<Request>, maxRetries: seq<nat>, events: seq<Event>, t: nat)
    requires NonNegative(start) && t < |requests|
    requires Run(Start(start, requests, maxRetries), events).threads[t].pc.Returned?
    ensures CountersTruthful(Run(Start(start, requests, maxRetries), events).threads[t].pc.answer, Limit(maxRetries, t))
  {
    RunKeepsInv(start, requests, maxRetries, events);
    assert ThreadInv(Run(Start(start, requests, maxRetries), events), t);
  }
}
