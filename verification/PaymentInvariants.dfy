/** What every committed state of the payment database satisfies: conservation of money, and the
    agreement of workflows, payments and ledger rows. */
module PaymentInvariants {
  import opened PaymentTables
  import opened PaymentThreads

  // ---------- Sums over ledger rows and accounts ----------

  function SumOut(rows: seq<Transfer>, account: string): int {
    if rows == [] then 0
    else SumOut(rows[..|rows| - 1], account) + (if rows[|rows| - 1].source == account then rows[|rows| - 1].amount else 0)
  }

  function SumIn(rows: seq<Transfer>, account: string): int {
    if rows == [] then 0
    else SumIn(rows[..|rows| - 1], account) + (if rows[|rows| - 1].destination == account then rows[|rows| - 1].amount else 0)
  }

  /** The listed accounts' balances added up. */
  function Total(ids: seq<string>, accounts: map<string, Account>): int
    requires forall i :: 0 <= i < |ids| ==> ids[i] in accounts
  {
    if ids == [] then 0 else Total(ids[1..], accounts) + accounts[ids[0]].balance
  }

  /** A listing of every account, each once. */
  ghost predicate Lists(ids: seq<string>, accounts: map<string, Account>) {
    && (forall i :: 0 <= i < |ids| ==> ids[i] in accounts)
    && (forall a :: a in accounts ==> a in ids)
    && (forall i, j :: 0 <= i < j < |ids| ==> ids[i] != ids[j])
  }

  // ---------- The invariant ----------

  /** The balance is the opening balance less the ledger rows out of the account plus the rows into it. */
  ghost predicate Balanced(opening: map<string, Account>, t: Tables) {
    && t.accounts.Keys == opening.Keys
    && (forall a :: a in t.accounts ==>
          t.accounts[a].balance == opening[a].balance - SumOut(t.transfers, a) + SumIn(t.transfers, a))
  }

  predicate SameMoney(row: Transfer, p: Payment) {
    row.source == p.source && row.destination == p.destination && row.amount == p.amount
  }

  /** Ledger row i is the only one with its id, and records a completed payment. */
  predicate TransferSettled(t: Tables, i: nat)
    requires i < |t.transfers|
  {
    && t.transfers[i].id in t.payments
    && t.payments[t.transfers[i].id].status == Completed
    && SameMoney(t.transfers[i], t.payments[t.transfers[i].id])
    && (forall j :: 0 <= j < |t.transfers| && t.transfers[j].id == t.transfers[i].id ==> j == i)
  }

  /** A payment's own workflow names it back, and its ledger row exists exactly when it is completed. */
  predicate PaymentSettled(t: Tables, p: string)
    requires p in t.payments
  {
    var payment := t.payments[p];
    && payment.workflow in t.workflows && t.workflows[payment.workflow].transaction == p
    && payment.source in t.accounts && payment.destination in t.accounts && payment.amount > 0
    && (payment.status == Completed || payment.status == Pending)
    && (payment.status == Completed <==> HasTransfer(t, p))
    && (forall q :: q in t.payments && t.payments[q].key == payment.key ==> q == p)
  }

  /** No workflow is running; it is completed exactly when its payment is, and failed exactly when its
      payment is still pending. */
  predicate WorkflowSettled(t: Tables, w: string)
    requires w in t.workflows
  {
    var row := t.workflows[w];
    && row.transaction in t.payments && t.payments[row.transaction].workflow == w
    && (row.status == Completed || row.status == Failed)
    && (row.status == Completed <==> t.payments[row.transaction].status == Completed)
    && (row.status == Failed <==> t.payments[row.transaction].status == Pending)
  }

  ghost predicate Settled(t: Tables) {
    && (forall i :: 0 <= i < |t.transfers| ==> TransferSettled(t, i))
    && (forall p :: p in t.payments ==> PaymentSettled(t, p))
    && (forall w :: w in t.workflows ==> WorkflowSettled(t, w))
  }

  /** Committed rows never go, and their statuses never change; of an account only the balance does. */
  ghost predicate Keeps(t: Tables, t': Tables) {
    && (forall w :: w in t.workflows ==> w in t'.workflows && t'.workflows[w] == t.workflows[w])
    && (forall p :: p in t.payments ==> p in t'.payments && t'.payments[p] == t.payments[p])
    && t.transfers <= t'.transfers
    && t.accounts.Keys == t'.accounts.Keys
    && (forall a :: a in t.accounts ==> t'.accounts[a].currency == t.accounts[a].currency)
  }

  ghost predicate Consistent(opening: map<string, Account>, t: Tables) {
    NonNegative(t) && Balanced(opening, t) && Settled(t)
  }

  // ---------- One transaction keeps it ----------

  lemma SerialKeepsBalanced(opening: map<string, Account>, t: Tables, r: Request)
    requires Balanced(opening, t)
    ensures Balanced(opening, Serial(t, r).0)
  {
    var t' := Serial(t, r).0;
    if t'.transfers != t.transfers {
      assert t'.transfers[..|t'.transfers| - 1] == t.transfers;
      assert t'.accounts.Keys == t.accounts.Keys;
    }
  }

  lemma SerialKeepsNonNegative(t: Tables, r: Request)
    requires NonNegative(t)
    ensures NonNegative(Serial(t, r).0)
  {
  }

  lemma {:induction false} SerialRunKeepsNonNegative(t: Tables, rs: seq<Request>)
    requires NonNegative(t)
    ensures NonNegative(SerialRun(t, rs))
  {
    if rs != [] {
      SerialRunKeepsNonNegative(t, rs[..|rs| - 1]);
      SerialKeepsNonNegative(SerialRun(t, rs[..|rs| - 1]), rs[|rs| - 1]);
    }
  }

  lemma SerialKeepsRows(t: Tables, r: Request)
    ensures Keeps(t, Serial(t, r).0)
  {
    var t' := Serial(t, r).0;
    assert t'.accounts.Keys == t.accounts.Keys;
  }

  /** The row just listed is the only one with its id; older rows keep their places. */
  lemma AppendedTransfer(t: Tables, t': Tables, row: Transfer)
    requires t'.transfers == t.transfers + [row]
    ensures forall id :: HasTransfer(t', id) <==> HasTransfer(t, id) || id == row.id
  {
    forall id
      ensures HasTransfer(t', id) <==> HasTransfer(t, id) || id == row.id
    {
      if HasTransfer(t, id) {
        var i :| 0 <= i < |t.transfers| && t.transfers[i].id == id;
        assert t'.transfers[i].id == id;
      }
      if id == row.id {
        assert t'.transfers[|t.transfers|].id == id;
      }
    }
  }

  lemma NoTransferWithoutPayment(t: Tables, id: string)
    requires Settled(t) && id !in t.payments
    ensures !HasTransfer(t, id)
  {
    forall i | 0 <= i < |t.transfers|
      ensures t.transfers[i].id != id
    {
      assert TransferSettled(t, i);
    }
  }

  /** A transaction that records something records a new payment of a new workflow, and at most one ledger row. */
  ghost predicate Records(t: Tables, t': Tables, r: Request, payment: Status, workflow: Status) {
    && r.workflow !in t.workflows && !Refused(t, r)
    && t'.payments == Recorded(t, r, payment, workflow).payments
    && t'.workflows == Recorded(t, r, payment, workflow).workflows
    && t'.accounts.Keys == t.accounts.Keys
    && (|| (payment == Pending && workflow == Failed && t'.transfers == t.transfers)
        || (payment == Completed && workflow == Completed
            && t'.transfers == t.transfers + [Transfer(r.transaction, r.source, r.destination, r.amount)]))
  }

  lemma SerialRecords(t: Tables, r: Request) returns (payment: Status, workflow: Status)
    requires Serial(t, r).0 != t
    ensures Records(t, Serial(t, r).0, r, payment, workflow)
  {
    var insufficient := Serial(t, r).1 == Insufficient;
    payment := if insufficient then Pending else Completed;
    workflow := if insufficient then Failed else Completed;
  }

  lemma RecordsKeepsTransfer(t: Tables, t': Tables, r: Request, payment: Status, workflow: Status, i: nat)
    requires Settled(t) && Records(t, t', r, payment, workflow) && i < |t'.transfers|
    ensures TransferSettled(t', i)
  {
    forall j | 0 <= j < |t.transfers|
      ensures t.transfers[j].id in t.payments && t.transfers[j].id != r.transaction
    {
      assert TransferSettled(t, j);
    }
    if i < |t.transfers| {
      assert TransferSettled(t, i);
    }
  }

  lemma RecordsHasTransfer(t: Tables, t': Tables, r: Request, payment: Status, workflow: Status, p: string)
    requires Settled(t) && Records(t, t', r, payment, workflow)
    ensures HasTransfer(t', p) <==> HasTransfer(t, p) || (p == r.transaction && payment == Completed)
    ensures !HasTransfer(t, r.transaction)
  {
    NoTransferWithoutPayment(t, r.transaction);
    if payment == Completed {
      AppendedTransfer(t, t', Transfer(r.transaction, r.source, r.destination, r.amount));
    } else {
      assert t'.transfers == t.transfers;
    }
  }

  lemma RecordsKeepsPayment(t: Tables, t': Tables, r: Request, payment: Status, workflow: Status, p: string)
    requires Settled(t) && Records(t, t', r, payment, workflow) && p in t'.payments
    ensures PaymentSettled(t', p)
  {
    RecordsHasTransfer(t, t', r, payment, workflow, p);
    assert p != r.transaction ==> PaymentSettled(t, p);
  }

  lemma RecordsKeepsWorkflow(t: Tables, t': Tables, r: Request, payment: Status, workflow: Status, w: string)
    requires Settled(t) && Records(t, t', r, payment, workflow) && w in t'.workflows
    ensures WorkflowSettled(t', w)
  {
    assert w != r.workflow ==> WorkflowSettled(t, w);
  }

  lemma SerialKeepsSettled(t: Tables, r: Request)
    requires Settled(t)
    ensures Settled(Serial(t, r).0)
  {
    var t' := Serial(t, r).0;
    if t' != t {
      var payment, workflow := SerialRecords(t, r);
      forall i | 0 <= i < |t'.transfers|
        ensures TransferSettled(t', i)
      {
        RecordsKeepsTransfer(t, t', r, payment, workflow, i);
      }
      forall p | p in t'.payments
        ensures PaymentSettled(t', p)
      {
        RecordsKeepsPayment(t, t', r, payment, workflow, p);
      }
      forall w | w in t'.workflows
        ensures WorkflowSettled(t', w)
      {
        RecordsKeepsWorkflow(t, t', r, payment, workflow, w);
      }
    }
  }

  // ---------- Whole runs ----------

  lemma {:induction false} SerialRunKeepsConsistent(start: Tables, rs: seq<Request>, opening: map<string, Account>)
    requires Consistent(opening, start)
    ensures Consistent(opening, SerialRun(start, rs)) && Keeps(start, SerialRun(start, rs))
  {
    if rs != [] {
      var t, r := SerialRun(start, rs[..|rs| - 1]), rs[|rs| - 1];
      SerialRunKeepsConsistent(start, rs[..|rs| - 1], opening);
      SerialKeepsBalanced(opening, t, r);
      SerialKeepsNonNegative(t, r);
      SerialKeepsSettled(t, r);
      SerialKeepsRows(t, r);
    }
  }

  /** A database with accounts and nothing else, as it is set up before the first payment. */
  ghost predicate Opened(t: Tables) {
    NonNegative(t) && t.payments == map[] && t.transfers == [] && t.workflows == map[]
  }

  lemma OpenedIsConsistent(t: Tables)
    requires Opened(t)
    ensures Consistent(t.accounts, t)
  {
  }

  lemma {:induction false} SerialRunSplit(start: Tables, rs: seq<Request>, n: nat)
    requires n <= |rs|
    ensures SerialRun(start, rs) == SerialRun(SerialRun(start, rs[..n]), rs[n..])
  {
    if n == |rs| {
      assert rs[..n] == rs;
    } else {
      SerialRunSplit(start, rs[..|rs| - 1], n);
      assert rs[..|rs| - 1][..n] == rs[..n];
      assert rs[n..][..|rs[n..]| - 1] == rs[..|rs| - 1][n..];
    }
  }

  lemma OrderKeepsRows(opening: map<string, Account>, start: Tables, requests: seq<Request>, order: seq<nat>, n: nat)
    requires Consistent(opening, start) && InRange(order, |requests|) && n <= |order|
    ensures Keeps(SerialRun(start, Requests(requests, order[..n])), SerialRun(start, Requests(requests, order)))
  {
    var rs := Requests(requests, order);
    assert rs[..n] == Requests(requests, order[..n]);
    SerialRunSplit(start, rs, n);
    SerialRunKeepsConsistent(start, rs[..n], opening);
    SerialRunKeepsConsistent(SerialRun(start, rs[..n]), rs[n..], opening);
  }

  /** Every committed state that any interleaving reaches is consistent, and keeps the rows of every
      committed state before it. */
  lemma CommittedStateIsConsistent(opening: map<string, Account>, start: Tables, requests: seq<Request>, maxRetries: seq<nat>, events: seq<Event>, n: nat)
    requires Consistent(opening, start) && n <= |events|
    ensures Consistent(opening, Run(Start(start, requests, maxRetries), events).committed)
    ensures Keeps(Run(Start(start, requests, maxRetries), events[..n]).committed,
                  Run(Start(start, requests, maxRetries), events).committed)
  {
    var early, late := Run(Start(start, requests, maxRetries), events[..n]), Run(Start(start, requests, maxRetries), events);
    RunKeepsInv(start, requests, maxRetries, events[..n]);
    RunKeepsInv(start, requests, maxRetries, events);
    OrderIsPrefix(Start(start, requests, maxRetries), events, n);
    assert late.order[..|early.order|] == early.order;
    OrderKeepsRows(opening, start, requests, late.order, |early.order|);
    SerialRunKeepsConsistent(start, Requests(requests, late.order), opening);
  }

  /** What a settled workflow means in the other two tables: completed with exactly one ledger row that
      agrees with the payment, or failed with a pending payment and no ledger row. */
  lemma WorkflowMeans(t: Tables, w: string)
    requires Settled(t) && w in t.workflows
    ensures var tx := t.workflows[w].transaction;
            && tx in t.payments && t.payments[tx].workflow == w
            && (t.workflows[w].status == Completed || t.workflows[w].status == Failed)
            && (t.workflows[w].status == Completed <==>
                t.payments[tx].status == Completed
                && exists i :: 0 <= i < |t.transfers| && t.transfers[i].id == tx && SameMoney(t.transfers[i], t.payments[tx])
                               && forall j :: 0 <= j < |t.transfers| && t.transfers[j].id == tx ==> j == i)
            && (t.workflows[w].status == Failed <==> t.payments[tx].status == Pending && !HasTransfer(t, tx))
  {
    assert WorkflowSettled(t, w);
    var tx := t.workflows[w].transaction;
    assert PaymentSettled(t, tx);
    if HasTransfer(t, tx) {
      var i :| 0 <= i < |t.transfers| && t.transfers[i].id == tx;
      assert TransferSettled(t, i);
    }
  }

  /** Once a workflow's status is committed, every later serial transaction with its id answers it. */
  lemma ReplayInSerialRun(start: Tables, rs: seq<Request>, r: Request, opening: map<string, Account>)
    requires Consistent(opening, start) && r.workflow in start.workflows
    ensures Serial(SerialRun(start, rs), r) == (SerialRun(start, rs), Replayed(start.workflows[r.workflow].status))
  {
    SerialRunKeepsConsistent(start, rs, opening);
  }

  /** A caller that comes after the first n of an order, when these have committed its workflow. */
  lemma ReplayInOrder(opening: map<string, Account>, start: Tables, requests: seq<Request>, order: seq<nat>, n: nat, k: nat)
    requires Consistent(opening, start) && InRange(order, |requests|) && n <= k < |order|
    requires requests[order[k]].workflow in SerialRun(start, Requests(requests, order[..n])).workflows
    ensures SerialAnswer(start, requests, order, k)
            == Replayed(SerialRun(start, Requests(requests, order[..n])).workflows[requests[order[k]].workflow].status)
  {
    var rs := Requests(requests, order[..k]);
    assert rs[..n] == Requests(requests, order[..n]);
    SerialRunSplit(start, rs, n);
    SerialRunKeepsConsistent(start, rs[..n], opening);
    ReplayInSerialRun(SerialRun(start, rs[..n]), rs[n..], requests[order[k]], opening);
  }

  lemma DecidedLater(early: seq<nat>, late: seq<nat>, k: nat)
    requires early <= late && k < |late| && late[k] !in early
    ensures |early| <= k && late[..|early|] == early
  {
    assert forall x :: 0 <= x < |early| ==> late[x] == early[x] && late[x] in early;
  }

  /** Once any interleaving has committed a workflow's status, every caller with its id that is decided later
      gets that status. */
  lemma LaterReplay(opening: map<string, Account>, start: Tables, requests: seq<Request>, maxRetries: seq<nat>, events: seq<Event>, n: nat, t: nat)
    requires Consistent(opening, start) && n <= |events| && t < |requests|
    requires requests[t].workflow in Run(Start(start, requests, maxRetries), events[..n]).committed.workflows
    requires !ThreadDecided(Run(Start(start, requests, maxRetries), events[..n]).threads[t])
    requires ThreadDecided(Run(Start(start, requests, maxRetries), events).threads[t])
    ensures AnswerIs(Run(Start(start, requests, maxRetries), events).threads[t],
                     Replayed(Run(Start(start, requests, maxRetries), events[..n]).committed.workflows[requests[t].workflow].status))
  {
    var early, late := Run(Start(start, requests, maxRetries), events[..n]), Run(Start(start, requests, maxRetries), events);
    RunKeepsInv(start, requests, maxRetries, events[..n]);
    RunKeepsInv(start, requests, maxRetries, events);
    OrderIsPrefix(Start(start, requests, maxRetries), events, n);
    assert ThreadInv(early, t);
    var k := PlaceInOrder(start, late, t);
    DecidedLater(early.order, late.order, k);
    ReplayInOrder(opening, start, requests, late.order, |early.order|, k);
  }

  // ---------- Answers ----------

  /** What a caller may conclude from its answer, about any committed state from then on. "already_exists" is
      the answer to every integrity error, so it says little. */
  ghost predicate AnswerHolds(t: Tables, r: Request, outcome: Outcome) {
    match outcome
    case Committed =>
      && r.workflow in t.workflows && t.workflows[r.workflow] == Workflow(r.transaction, Completed)
      && r.transaction in t.payments
      && t.payments[r.transaction] == Payment(r.key, r.source, r.destination, r.amount, r.currency, Completed, r.workflow)
      && Transfer(r.transaction, r.source, r.destination, r.amount) in t.transfers
    case Insufficient =>
      && r.workflow in t.workflows && t.workflows[r.workflow] == Workflow(r.transaction, Failed)
      && r.transaction in t.payments
      && t.payments[r.transaction] == Payment(r.key, r.source, r.destination, r.amount, r.currency, Pending, r.workflow)
      && !HasTransfer(t, r.transaction)
    case Replayed(status) => r.workflow in t.workflows && t.workflows[r.workflow].status == status
    case AlreadyExists =>
      r.source !in t.accounts || r.destination !in t.accounts || r.amount <= 0 || r.transaction in t.payments || KeyTaken(t, r.key)
  }

  /** The caller's own workflow is completed whenever the answer says so. */
  predicate CompletedIsTrue(t: Tables, r: Request) {
    var (t', outcome) := Serial(t, r);
    outcome.AnswerStatus() == Completed ==> r.workflow in t'.workflows && t'.workflows[r.workflow].status == Completed
  }

  /** "completed" can be trusted exactly unless a new workflow meets an integrity error: a taken transaction id
      or key, an unknown account, an amount that is not positive. */
  lemma CompletedIsTrueUnlessRefused(t: Tables, r: Request)
    requires Settled(t)
    ensures CompletedIsTrue(t, r) <==> !(r.workflow !in t.workflows && Refused(t, r))
  {
    if r.workflow !in t.workflows && !Refused(t, r) {
      NoTransferWithoutPayment(t, r.transaction);
    }
  }

  /** A payment to an account that does not exist is answered "completed", and nothing is recorded. */
  lemma UnknownAccountIsAnsweredCompleted()
    ensures var t := Tables(map["a" := Account(100, "NGN")], map[], [], map[]);
            var r := Request("w", "t", "k", "a", "b", 10, "NGN");
            Opened(t) && Serial(t, r) == (t, AlreadyExists) && AlreadyExists.AnswerStatus() == Completed && !CompletedIsTrue(t, r)
  {
  }

  /** The stored workflow and payment are what this caller asks for. */
  predicate StoredIsOwn(t: Tables, r: Request)
    requires r.workflow in t.workflows
  {
    && t.workflows[r.workflow].transaction == r.transaction
    && r.transaction in t.payments
    && t.payments[r.transaction].key == r.key
    && t.payments[r.transaction].source == r.source && t.payments[r.transaction].destination == r.destination
    && t.payments[r.transaction].amount == r.amount && t.payments[r.transaction].currency == r.currency
  }

  /** The caller's own payment is recorded, with its ledger row, whenever the answer says "completed". */
  ghost predicate CompletedMeansPaid(t: Tables, r: Request) {
    Serial(t, r).1.AnswerStatus() == Completed ==> AnswerHolds(Serial(t, r).0, r, Committed)
  }

  lemma OwnCompletedIsPaid(t: Tables, r: Request)
    requires Settled(t) && r.workflow in t.workflows && t.workflows[r.workflow].status == Completed
    ensures AnswerHolds(t, r, Committed) <==> StoredIsOwn(t, r)
  {
    assert WorkflowSettled(t, r.workflow);
    if StoredIsOwn(t, r) {
      assert PaymentSettled(t, r.transaction);
      var i :| 0 <= i < |t.transfers| && t.transfers[i].id == r.transaction;
      assert TransferSettled(t, i);
      assert t.transfers[i] == Transfer(r.transaction, r.source, r.destination, r.amount);
    }
  }

  /** "completed" means that this caller's payment is recorded exactly if its workflow is new and meets no integrity
      error, or is stored as not completed, or is stored with this very payment. */
  lemma CompletedMeansPaidUnlessReused(t: Tables, r: Request)
    requires Settled(t)
    ensures CompletedMeansPaid(t, r) <==>
            if r.workflow !in t.workflows then !Refused(t, r)
            else t.workflows[r.workflow].status != Completed || StoredIsOwn(t, r)
  {
    if r.workflow in t.workflows {
      if t.workflows[r.workflow].status == Completed {
        OwnCompletedIsPaid(t, r);
      }
    } else if !Refused(t, r) {
      NoTransferWithoutPayment(t, r.transaction);
      SerialAnswerHolds(t, r);
    }
  }

  /** A workflow id used again for another payment is answered "completed", and that payment is recorded nowhere. */
  lemma ReusedWorkflowIsAnsweredCompleted()
    ensures var start := Tables(map["a" := Account(100, "NGN"), "b" := Account(0, "NGN")], map[], [], map[]);
            var t, r := Serial(start, Request("w", "t", "k", "a", "b", 10, "NGN")).0, Request("w", "u", "l", "a", "b", 20, "NGN");
            && Opened(start) && Settled(t) && Serial(t, r) == (t, Replayed(Completed)) && r.transaction !in t.payments
            && !CompletedMeansPaid(t, r)
  {
    var start := Tables(map["a" := Account(100, "NGN"), "b" := Account(0, "NGN")], map[], [], map[]);
    SerialKeepsSettled(start, Request("w", "t", "k", "a", "b", 10, "NGN"));
  }

  lemma SerialAnswerHolds(t: Tables, r: Request)
    requires Settled(t)
    ensures AnswerHolds(Serial(t, r).0, r, Serial(t, r).1)
  {
    var (t', outcome) := Serial(t, r);
    if outcome == AlreadyExists && !Refused(t, r) {
      NoTransferWithoutPayment(t, r.transaction);
    } else if outcome == Insufficient {
      NoTransferWithoutPayment(t, r.transaction);
      assert HasTransfer(t', r.transaction) == HasTransfer(t, r.transaction);
    } else if outcome == Committed {
      assert t'.transfers[|t.transfers|] == Transfer(r.transaction, r.source, r.destination, r.amount);
    }
  }

  lemma KeptTransfer(t: Tables, t': Tables, row: Transfer)
    requires t.transfers <= t'.transfers && row in t.transfers
    ensures row in t'.transfers
  {
    var i :| 0 <= i < |t.transfers| && t.transfers[i] == row;
    assert t'.transfers[i] == row;
  }

  lemma KeptKey(t: Tables, t': Tables, key: string)
    requires Keeps(t, t') && KeyTaken(t, key)
    ensures KeyTaken(t', key)
  {
    var p :| p in t.payments && t.payments[p].key == key;
    assert p in t'.payments && t'.payments[p].key == key;
  }

  lemma KeptAnswerHolds(t: Tables, t': Tables, r: Request, outcome: Outcome)
    requires Settled(t') && Keeps(t, t') && AnswerHolds(t, r, outcome)
    ensures AnswerHolds(t', r, outcome)
  {
    match outcome
    case Committed => KeptTransfer(t, t', Transfer(r.transaction, r.source, r.destination, r.amount));
    case Insufficient => assert PaymentSettled(t', r.transaction);
    case AlreadyExists => if KeyTaken(t, r.key) { KeptKey(t, t', r.key); }
    case Replayed(_) =>
  }

  /** The answer of the k-th payment of a serial run holds at the end of the run. */
  lemma AnswerHoldsAtEnd(opening: map<string, Account>, start: Tables, rs: seq<Request>, k: nat)
    requires Consistent(opening, start) && k < |rs|
    ensures AnswerHolds(SerialRun(start, rs), rs[k], Serial(SerialRun(start, rs[..k]), rs[k]).1)
  {
    var after := SerialRun(start, rs[..k + 1]);
    SerialRunKeepsConsistent(start, rs[..k], opening);
    SerialRunKeepsConsistent(start, rs[..k + 1], opening);
    SerialRunKeepsConsistent(after, rs[k + 1..], opening);
    SerialRunSplit(start, rs, k + 1);
    assert rs[..k + 1][..k] == rs[..k];
    SerialAnswerHolds(SerialRun(start, rs[..k]), rs[k]);
    KeptAnswerHolds(after, SerialRun(start, rs), rs[k], Serial(SerialRun(start, rs[..k]), rs[k]).1);
  }

  lemma AnswerHoldsIn(opening: map<string, Account>, start: Tables, m: Machine, t: nat)
    requires Consistent(opening, start) && Inv(start, m) && t < |m.threads| && ThreadDecided(m.threads[t])
    ensures AnswerHolds(m.committed, m.requests[t], m.threads[t].pc.answer.Outcome())
  {
    var k := PlaceInOrder(start, m, t);
    var rs := Requests(m.requests, m.order);
    assert rs[..k] == Requests(m.requests, m.order[..k]);
    AnswerHoldsAtEnd(opening, start, rs, k);
  }

  /** Every decided answer, in every interleaving, holds of every committed state after it. */
  lemma AnswersHold(opening: map<string, Account>, start: Tables, requests: seq<Request>, maxRetries: seq<nat>, events: seq<Event>, t: nat)
    requires Consistent(opening, start) && t < |requests|
    requires ThreadDecided(Run(Start(start, requests, maxRetries), events).threads[t])
    ensures var m := Run(Start(start, requests, maxRetries), events);
            AnswerHolds(m.committed, requests[t], m.threads[t].pc.answer.Outcome())
  {
    RunKeepsInv(start, requests, maxRetries, events);
    AnswerHoldsIn(opening, start, Run(Start(start, requests, maxRetries), events), t);
  }

  /** The two requests have a workflow id, a transaction id or a key in common. */
  predicate SharesIdentity(r: Request, r': Request) {
    r.workflow == r'.workflow || r.transaction == r'.transaction || r.key == r'.key
  }

  lemma CommittedRefusesOthers(t: Tables, r: Request, r': Request)
    requires AnswerHolds(t, r, Committed) && SharesIdentity(r, r')
    ensures Serial(t, r').1 != Committed
  {
  }

  lemma LaterIsNotCommitted(opening: map<string, Account>, start: Tables, requests: seq<Request>, order: seq<nat>, i: nat, j: nat)
    requires Consistent(opening, start) && InRange(order, |requests|) && i < j < |order|
    requires SharesIdentity(requests[order[i]], requests[order[j]]) && SerialAnswer(start, requests, order, i) == Committed
    ensures SerialAnswer(start, requests, order, j) != Committed
  {
    var rs := Requests(requests, order[..j]);
    assert rs[..i] == Requests(requests, order[..i]);
    AnswerHoldsAtEnd(opening, start, rs, i);
    CommittedRefusesOthers(SerialRun(start, rs), requests[order[i]], requests[order[j]]);
  }

  lemma NotBothCommitted(opening: map<string, Account>, start: Tables, m: Machine, t: nat, u: nat)
    requires Consistent(opening, start) && Inv(start, m) && t < |m.threads| && u < |m.threads| && t != u
    requires SharesIdentity(m.requests[t], m.requests[u]) && AnswerIs(m.threads[t], Committed)
    ensures !AnswerIs(m.threads[u], Committed)
  {
    if ThreadDecided(m.threads[u]) {
      var i := PlaceInOrder(start, m, t);
      var j := PlaceInOrder(start, m, u);
      if i < j {
        LaterIsNotCommitted(opening, start, m.requests, m.order, i, j);
      } else if SerialAnswer(start, m.requests, m.order, j) == Committed {
        LaterIsNotCommitted(opening, start, m.requests, m.order, j, i);
      }
    }
  }

  /** Of any callers that share a workflow id, a transaction id or a key, however their requests differ otherwise,
      at most one is answered "committed", in every interleaving. */
  lemma NeverCommittedTwice(opening: map<string, Account>, start: Tables, requests: seq<Request>, maxRetries: seq<nat>, events: seq<Event>, t: nat, u: nat)
    requires Consistent(opening, start) && t < |requests| && u < |requests| && t != u
    requires SharesIdentity(requests[t], requests[u])
    ensures var m := Run(Start(start, requests, maxRetries), events);
            !(AnswerIs(m.threads[t], Committed) && AnswerIs(m.threads[u], Committed))
  {
    RunKeepsInv(start, requests, maxRetries, events);
    if AnswerIs(Run(Start(start, requests, maxRetries), events).threads[t], Committed) {
      NotBothCommitted(opening, start, Run(Start(start, requests, maxRetries), events), t, u);
    }
  }

  // ---------- Conservation ----------

  function SumAmounts(rows: seq<Transfer>): int {
    if rows == [] then 0 else SumAmounts(rows[..|rows| - 1]) + rows[|rows| - 1].amount
  }

  function TotalOut(ids: seq<string>, rows: seq<Transfer>): int {
    if ids == [] then 0 else TotalOut(ids[1..], rows) + SumOut(rows, ids[0])
  }

  function TotalIn(ids: seq<string>, rows: seq<Transfer>): int {
    if ids == [] then 0 else TotalIn(ids[1..], rows) + SumIn(rows, ids[0])
  }

  predicate NoDuplicates(ids: seq<string>) {
    forall i, j :: 0 <= i < j < |ids| ==> ids[i] != ids[j]
  }

  /** One more row adds its amount to the listed accounts' outgoing total if its source is listed, and to
      their incoming total if its destination is. */
  lemma {:induction false} OneMoreRow(ids: seq<string>, rows: seq<Transfer>, row: Transfer)
    requires NoDuplicates(ids)
    ensures TotalOut(ids, rows + [row]) == TotalOut(ids, rows) + (if row.source in ids then row.amount else 0)
    ensures TotalIn(ids, rows + [row]) == TotalIn(ids, rows) + (if row.destination in ids then row.amount else 0)
  {
    if ids != [] {
      OneMoreRow(ids[1..], rows, row);
      assert (rows + [row])[..|rows + [row]| - 1] == rows;
      assert forall x :: x in ids <==> x == ids[0] || x in ids[1..];
      assert ids[0] !in ids[1..];
    }
  }

  lemma {:induction false} AllRowsInside(ids: seq<string>, rows: seq<Transfer>)
    requires NoDuplicates(ids)
    requires forall i :: 0 <= i < |rows| ==> rows[i].source in ids && rows[i].destination in ids
    ensures TotalOut(ids, rows) == SumAmounts(rows) == TotalIn(ids, rows)
  {
    if rows == [] {
      NoRows(ids);
    } else {
      AllRowsInside(ids, rows[..|rows| - 1]);
      OneMoreRow(ids, rows[..|rows| - 1], rows[|rows| - 1]);
      assert rows[..|rows| - 1] + [rows[|rows| - 1]] == rows;
    }
  }

  lemma {:induction false} NoRows(ids: seq<string>)
    ensures TotalOut(ids, []) == 0 == TotalIn(ids, [])
  {
    if ids != [] {
      NoRows(ids[1..]);
    }
  }

  lemma {:induction false} TotalFromSums(ids: seq<string>, opening: map<string, Account>, t: Tables)
    requires Balanced(opening, t) && forall i :: 0 <= i < |ids| ==> ids[i] in t.accounts
    ensures Total(ids, t.accounts) == Total(ids, opening) - TotalOut(ids, t.transfers) + TotalIn(ids, t.transfers)
  {
    if ids != [] {
      TotalFromSums(ids[1..], opening, t);
    }
  }

  /** Money is neither made nor lost, and no balance ever exceeds all the money there is. */
  lemma TotalIsConstant(ids: seq<string>, opening: map<string, Account>, t: Tables)
    requires Consistent(opening, t) && Lists(ids, opening)
    ensures Total(ids, t.accounts) == Total(ids, opening)
    ensures forall a :: a in t.accounts ==> 0 <= t.accounts[a].balance <= Total(ids, opening)
  {
    forall i | 0 <= i < |t.transfers|
      ensures t.transfers[i].source in ids && t.transfers[i].destination in ids
    {
      assert TransferSettled(t, i);
      assert PaymentSettled(t, t.transfers[i].id);
    }
    AllRowsInside(ids, t.transfers);
    TotalFromSums(ids, opening, t);
    forall a | a in t.accounts
      ensures 0 <= t.accounts[a].balance <= Total(ids, t.accounts)
    {
      OnePartOfTotal(ids, t, a);
    }
  }

  lemma {:induction false} OnePartOfTotal(ids: seq<string>, t: Tables, a: string)
    requires NonNegative(t) && a in ids && forall i :: 0 <= i < |ids| ==> ids[i] in t.accounts
    ensures 0 <= t.accounts[a].balance <= Total(ids, t.accounts)
  {
    if a == ids[0] {
      TotalNonNegative(ids[1..], t);
    } else {
      OnePartOfTotal(ids[1..], t, a);
    }
  }

  lemma {:induction false} TotalNonNegative(ids: seq<string>, t: Tables)
    requires NonNegative(t) && forall i :: 0 <= i < |ids| ==> ids[i] in t.accounts
    ensures Total(ids, t.accounts) >= 0
  {
    if ids != [] {
      TotalNonNegative(ids[1..], t);
    }
  }

  /** Conservation over every interleaving of any requests on a consistent database, a freshly opened one for instance. */
  lemma MoneyIsConserved(opening: map<string, Account>, start: Tables, requests: seq<Request>, maxRetries: seq<nat>, events: seq<Event>, ids: seq<string>)
    requires Consistent(opening, start) && Lists(ids, opening)
    ensures var t := Run(Start(start, requests, maxRetries), events).committed;
            && Balanced(opening, t)
            && Lists(ids, t.accounts) && Total(ids, t.accounts) == Total(ids, opening)
            && forall a :: a in t.accounts ==> 0 <= t.accounts[a].balance <= Total(ids, opening)
  {
    CommittedStateIsConsistent(opening, start, requests, maxRetries, events, 0);
    TotalIsConstant(ids, opening, Run(Start(start, requests, maxRetries), events).committed);
  }

  /** From a freshly opened database: every interleaving conserves the money it was opened with. */
  lemma OpenedMoneyIsConserved(start: Tables, requests: seq<Request>, maxRetries: seq<nat>, events: seq<Event>, ids: seq<string>)
    requires Opened(start) && Lists(ids, start.accounts)
    ensures var t := Run(Start(start, requests, maxRetries), events).committed;
            && Consistent(start.accounts, t)
            && Lists(ids, t.accounts) && Total(ids, t.accounts) == Total(ids, start.accounts)
  {
    OpenedIsConsistent(start);
    CommittedStateIsConsistent(start.accounts, start, requests, maxRetries, events, 0);
    MoneyIsConserved(start.accounts, start, requests, maxRetries, events, ids);
  }
}
