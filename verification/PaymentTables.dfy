/** The four tables of the local payment database, the SQL statements of one payment
    transaction, and the meaning of a transaction that runs alone. */
module PaymentTables {
  import opened Wrappers

  datatype Status = Running | Pending | Completed | Failed

  datatype Account = Account(balance: int, currency: string)

  datatype Payment = Payment(key: string, source: string, destination: string, amount: int,
                             currency: string, status: Status, workflow: string)

  /** A row of ledger_transfers; its status column is always "committed". */
  datatype Transfer = Transfer(id: string, source: string, destination: string, amount: int)

  datatype Workflow = Workflow(transaction: string, status: Status)

  /** Rows by primary key; ledger_transfers keeps its insertion order. */
  datatype Tables = Tables(accounts: map<string, Account>, payments: map<string, Payment>,
                           transfers: seq<Transfer>, workflows: map<string, Workflow>)

  datatype Request = Request(workflow: string, transaction: string, key: string, source: string,
                             destination: string, amount: int, currency: string)

  // ---------- The statements. None stands for sqlite3.IntegrityError, which changes no row. ----------

  predicate HasTransfer(t: Tables, id: string) {
    exists i :: 0 <= i < |t.transfers| && t.transfers[i].id == id
  }

  predicate KeyTaken(t: Tables, key: string) {
    exists p :: p in t.payments && t.payments[p].key == key
  }

  predicate NonNegative(t: Tables) {
    forall a :: a in t.accounts ==> t.accounts[a].balance >= 0
  }

  function InsertWorkflow(t: Tables, r: Request): Option<Tables> {
    if r.workflow in t.workflows then None
    else Some(t.(workflows := t.workflows[r.workflow := Workflow(r.transaction, Running)]))
  }

  function InsertPayment(t: Tables, r: Request): Option<Tables> {
    if r.transaction in t.payments                                  // PRIMARY KEY
       || KeyTaken(t, r.key)                                        // UNIQUE
       || r.source !in t.accounts || r.destination !in t.accounts   // REFERENCES
       || r.amount <= 0                                             // CHECK
    then None
    else Some(t.(payments := t.payments[r.transaction :=
      Payment(r.key, r.source, r.destination, r.amount, r.currency, Pending, r.workflow)]))
  }

  function InsertTransfer(t: Tables, r: Request): Option<Tables> {
    if HasTransfer(t, r.transaction) then None
    else Some(t.(transfers := t.transfers + [Transfer(r.transaction, r.source, r.destination, r.amount)]))
  }

  /** UPDATE accounts SET balance_minor = balance_minor + delta: no matching row is no error,
      a negative balance fails the CHECK. */
  function AddToBalance(t: Tables, id: string, delta: int): Option<Tables> {
    if id !in t.accounts then Some(t)
    else if t.accounts[id].balance + delta < 0 then None
    else Some(t.(accounts := t.accounts[id := t.accounts[id].(balance := t.accounts[id].balance + delta)]))
  }

  /** INSERT OR IGNORE INTO accounts. */
  function OpenAccount(t: Tables, id: string, balance: int): Tables {
    if id in t.accounts then t else t.(accounts := t.accounts[id := Account(balance, "NGN")])
  }

  function SetPayment(t: Tables, id: string, status: Status): Tables {
    if id !in t.payments then t else t.(payments := t.payments[id := t.payments[id].(status := status)])
  }

  function SetWorkflow(t: Tables, id: string, status: Status): Tables {
    if id !in t.workflows then t else t.(workflows := t.workflows[id := t.workflows[id].(status := status)])
  }

  // ---------- What a payment transaction means when nothing interrupts it ----------

  datatype Outcome = Replayed(status: Status) | AlreadyExists | Insufficient | Committed {
    /** The "status" entry of the answer. */
    function AnswerStatus(): Status {
      match this
      case Replayed(s) => s
      case Insufficient => Failed
      case _ => Completed
    }
  }

  predicate Refused(t: Tables, r: Request) {
    || r.transaction in t.payments
    || KeyTaken(t, r.key)
    || !(r.source in t.accounts && r.destination in t.accounts)
    || r.amount <= 0
  }

  /** Each account loses what it sends and gains what it receives. */
  function Moved(accounts: map<string, Account>, r: Request): map<string, Account> {
    map a | a in accounts :: accounts[a].(balance := accounts[a].balance
                                                     - (if a == r.source then r.amount else 0)
                                                     + (if a == r.destination then r.amount else 0))
  }

  function Recorded(t: Tables, r: Request, payment: Status, workflow: Status): Tables {
    t.(payments := t.payments[r.transaction :=
         Payment(r.key, r.source, r.destination, r.amount, r.currency, payment, r.workflow)],
       workflows := t.workflows[r.workflow := Workflow(r.transaction, workflow)])
  }

  /** The tables and the answer after one transaction that runs alone to its end. */
  function Serial(t: Tables, r: Request): (Tables, Outcome) {
    if r.workflow in t.workflows then
      (t, Replayed(t.workflows[r.workflow].status))
    else if Refused(t, r) then
      (t, AlreadyExists)
    else if t.accounts[r.source].balance < r.amount then
      (Recorded(t, r, Pending, Failed), Insufficient)
    else if HasTransfer(t, r.transaction) then
      (t, AlreadyExists)
    else
      (Recorded(t, r, Completed, Completed)
       .(accounts := Moved(t.accounts, r),
         transfers := t.transfers + [Transfer(r.transaction, r.source, r.destination, r.amount)]),
       Committed)
  }

  /** Whole transactions, one after another. */
  function SerialRun(t: Tables, rs: seq<Request>): Tables {
    if rs == [] then t else Serial(SerialRun(t, rs[..|rs| - 1]), rs[|rs| - 1]).0
  }
}
