/** The in-memory gateway, workflow and ledger doubles, and their refinement: on key-derived payments they
    keep the same ledger as the SQLite transaction. */
module SwitchDoubles {
  import opened Wrappers
  import opened PaymentTables
  import Threads = PaymentThreads
  import opened PaymentInvariants

  // ---------- The doubles on values ----------

  /** What the ledger double stores under a transfer id; it stores rejected transfers too. */
  datatype Stored = Applied(amount: int, source: string, destination: string) | Rejected(amount: int)

  datatype LedgerStatus = LedgerCommitted | LedgerRejected | LedgerAlreadyExists

  datatype Reply = Reply(status: LedgerStatus, stored: Stored)

  datatype Books = Books(balances: map<string, int>, transfers: map<string, Stored>)

  function BalanceOf(balances: map<string, int>, account: string): int {
    if account in balances then balances[account] else 0
  }

  /** The ledger double's answer and its books afterwards; None stands for the KeyError on an unknown source. */
  function Transferred(b: Books, id: string, source: string, destination: string, amount: int): (Books, Option<Reply>) {
    if id in b.transfers then
      (b, Some(Reply(LedgerAlreadyExists, b.transfers[id])))
    else if BalanceOf(b.balances, source) < amount then
      (b.(transfers := b.transfers[id := Rejected(amount)]), Some(Reply(LedgerRejected, Rejected(amount))))
    else if source !in b.balances then
      (b, None)
    else
      var paid := b.balances[source := b.balances[source] - amount];
      (Books(paid[destination := BalanceOf(paid, destination) + amount],
             b.transfers[id := Applied(amount, source, destination)]),
       Some(Reply(LedgerCommitted, Applied(amount, source, destination))))
  }

  predicate AppliedIn(b: Books, id: string) {
    id in b.transfers && b.transfers[id].Applied?
  }

  predicate RejectedIn(b: Books, id: string) {
    id in b.transfers && b.transfers[id].Rejected?
  }

  /** What the ledger double's answer tells: known already, applied now, or rejected now; what it stores under the id
      is what it replies; and money moves, from source to destination, exactly when it is applied now. An exception
      (an unknown source asked for nothing or less) changes nothing. */
  lemma ReplyTells(b: Books, id: string, source: string, destination: string, amount: int)
    ensures var (b', reply) := Transferred(b, id, source, destination, amount);
            && (reply.None? <==> id !in b.transfers && source !in b.balances && amount <= 0)
            && (reply.None? ==> b' == b)
            && (reply.Some? ==>
                  && id in b'.transfers && reply.value.stored == b'.transfers[id]
                  && (reply.value.status == LedgerAlreadyExists <==> id in b.transfers)
                  && (reply.value.status == LedgerCommitted <==> id !in b.transfers && AppliedIn(b', id))
                  && (reply.value.status == LedgerRejected <==> id !in b.transfers && RejectedIn(b', id))
                  && (reply.value.status == LedgerRejected <==> id !in b.transfers && BalanceOf(b.balances, source) < amount)
                  && (forall other :: other != id ==> (other in b'.transfers <==> other in b.transfers)
                                                      && (other in b.transfers ==> b'.transfers[other] == b.transfers[other])))
            && (id in b.transfers ==> b' == b)
            && var moved := if reply.Some? && reply.value.status == LedgerCommitted then amount else 0;
               forall a :: BalanceOf(b'.balances, a)
                           == BalanceOf(b.balances, a) - (if a == source then moved else 0) + (if a == destination then moved else 0)
  {
  }

  datatype Entry = Entry(status: Status, transaction: string, ledger: Option<Reply>)

  function Terminal(status: LedgerStatus): Status {
    if status == LedgerRejected then Failed else Completed
  }

  /** The workflow entry the double leaves: "running" if the ledger raised, else the terminal one. */
  function EntryFor(transaction: string, reply: Option<Reply>): Entry {
    if reply.None? then Entry(Running, transaction, None)
    else Entry(Terminal(reply.value.status), transaction, reply)
  }

  /** The entry says "completed" exactly if the payment is applied or was known already, "failed" exactly if it is
      rejected now, and "running" exactly if the ledger raised. */
  lemma EntryTells(b: Books, id: string, source: string, destination: string, amount: int)
    ensures var (b', reply) := Transferred(b, id, source, destination, amount);
            var entry := EntryFor(id, reply);
            && entry.transaction == id && entry.ledger == reply
            && (entry.status == Completed <==> id in b.transfers || AppliedIn(b', id))
            && (entry.status == Failed <==> id !in b.transfers && RejectedIn(b', id))
            && (entry.status == Running <==> id !in b'.transfers)
  {
  }

  // ---------- The doubles as objects ----------

  class TigerBeetleTestDouble {
    var balances: map<string, int>
    var transfers: map<string, Stored>

    constructor ()
      ensures State() == InitialBooks()
    {
      balances := map["customer:source" := 100000, "merchant:destination" := 0];
      transfers := map[];
    }

    function State(): Books
      reads this
    {
      Books(balances, transfers)
    }

    method CreateTransfer(id: string, source: string, destination: string, amount: int) returns (reply: Option<Reply>)
      modifies this
      ensures (State(), reply) == Transferred(old(State()), id, source, destination, amount)
    {
      if id in transfers {
        return Some(Reply(LedgerAlreadyExists, transfers[id]));
      }
      var available := if source in balances then balances[source] else 0;
      if available < amount {
        transfers := transfers[id := Rejected(amount)];
        return Some(Reply(LedgerRejected, Rejected(amount)));
      }
      if source !in balances {
        return None; // KeyError
      }
      balances := balances[source := balances[source] - amount];
      var received := if destination in balances then balances[destination] else 0;
      balances := balances[destination := received + amount];
      transfers := transfers[id := Applied(amount, source, destination)];
      return Some(Reply(LedgerCommitted, Applied(amount, source, destination)));
    }
  }

  function InitialBooks(): Books {
    Books(map["customer:source" := 100000, "merchant:destination" := 0], map[])
  }

  class TemporalTestDouble {
    const ledger: TigerBeetleTestDouble
    var workflows: map<string, Entry>

    constructor (ledger: TigerBeetleTestDouble)
      ensures this.ledger == ledger && workflows == map[]
    {
      this.ledger := ledger;
      workflows := map[];
    }

    method ExecutePayment(r: Request) returns (entry: Option<Entry>)
      modifies this, ledger
      ensures var (books, reply) := Transferred(old(ledger.State()), r.transaction, r.source, r.destination, r.amount);
              && ledger.State() == books
              && workflows == old(workflows)[r.workflow := EntryFor(r.transaction, reply)]
              && entry == if reply.None? then None else Some(EntryFor(r.transaction, reply))
    {
      workflows := workflows[r.workflow := Entry(Running, r.transaction, None)];
      var reply := ledger.CreateTransfer(r.transaction, r.source, r.destination, r.amount);
      if reply.None? {
        return None;
      }
      var terminal := if reply.value.status == LedgerCommitted || reply.value.status == LedgerAlreadyExists then Completed else Failed;
      workflows := workflows[r.workflow := Entry(terminal, r.transaction, reply)];
      return Some(workflows[r.workflow]);
    }
  }

  /** A payload with its idempotency key. */
  datatype Order = Order(key: string, source: string, destination: string, amount: int, currency: string)

  /** The transaction id that the gateway derives from a key; `uuid` stands for uuid5. */
  function TransactionOf(uuid: string -> string, key: string): string {
    "sim-" + uuid(key)
  }

  function WorkflowOf(transaction: string): string {
    "workflow-" + transaction
  }

  function RequestOf(uuid: string -> string, o: Order): Request {
    var transaction := TransactionOf(uuid, o.key);
    Request(WorkflowOf(transaction), transaction, o.key, o.source, o.destination, o.amount, o.currency)
  }

  class ApisixTestDouble {
    const temporal: TemporalTestDouble
    const uuid: string -> string

    constructor (temporal: TemporalTestDouble, uuid: string -> string)
      ensures this.temporal == temporal && this.uuid == uuid
    {
      this.temporal := temporal;
      this.uuid := uuid;
    }

    method PostPayment(o: Order) returns (transaction: string, entry: Option<Entry>)
      modifies temporal, temporal.ledger
      ensures transaction == TransactionOf(uuid, o.key)
      ensures var (books, reply) := Transferred(old(temporal.ledger.State()), transaction, o.source, o.destination, o.amount);
              && temporal.ledger.State() == books
              && temporal.workflows == old(temporal.workflows)[WorkflowOf(transaction) := EntryFor(transaction, reply)]
              && entry == if reply.None? then None else Some(EntryFor(transaction, reply))
      ensures forall t :: Related(uuid, old(temporal.ledger.State()), t) && Admissible(t.accounts, o) ==>
                && Related(uuid, temporal.ledger.State(), Serial(t, RequestOf(uuid, o)).0)
                && entry.Some?
                && (entry.value.status == Serial(t, RequestOf(uuid, o)).1.AnswerStatus()
                    <==> !RejectedIn(old(temporal.ledger.State()), transaction))
    {
      transaction := "sim-" + uuid(o.key);
      var payment := Request("workflow-" + transaction, transaction, o.key, o.source, o.destination, o.amount, o.currency);
      entry := temporal.ExecutePayment(payment);
      ghost var before := old(temporal.ledger.State());
      forall t | Related(uuid, before, t) && Admissible(t.accounts, o)
        ensures Related(uuid, temporal.ledger.State(), Serial(t, RequestOf(uuid, o)).0)
        ensures entry.Some?
        ensures entry.value.status == Serial(t, RequestOf(uuid, o)).1.AnswerStatus() <==> !RejectedIn(before, transaction)
      {
        OrderKeepsRelated(uuid, before, t, o);
        AnswersAgreeUnlessRejectedBefore(uuid, before, t, o);
      }
    }
  }

  // ---------- Refinement ----------

  /** The books after a sequence of posts. */
  function Posted(b: Books, uuid: string -> string, orders: seq<Order>): Books {
    if orders == [] then b
    else
      var o := orders[|orders| - 1];
      Transferred(Posted(b, uuid, orders[..|orders| - 1]), TransactionOf(uuid, o.key), o.source, o.destination, o.amount).0
  }

  function RequestsOf(uuid: string -> string, orders: seq<Order>): seq<Request> {
    seq(|orders|, i requires 0 <= i < |orders| => RequestOf(uuid, orders[i]))
  }

  /** The same balances. */
  ghost predicate BalancesAlike(b: Books, t: Tables) {
    b.balances.Keys == t.accounts.Keys && forall a :: a in b.balances ==> b.balances[a] == t.accounts[a].balance
  }

  /** The same applied transfers, with the same accounts and amounts. */
  ghost predicate TransfersAlike(b: Books, t: Tables) {
    && (forall id :: AppliedIn(b, id) <==> HasTransfer(t, id))
    && (forall i :: 0 <= i < |t.transfers| ==>
          t.transfers[i].id in b.transfers
          && b.transfers[t.transfers[i].id] == Applied(t.transfers[i].amount, t.transfers[i].source, t.transfers[i].destination))
  }

  /** SQLite has a payment and a settled workflow exactly if the double has stored the transaction. */
  predicate SameRegister(uuid: string -> string, b: Books, t: Tables, id: string) {
    && (id in b.transfers <==> id in t.payments)
    && (WorkflowOf(id) in t.workflows <==> id in t.payments)
    && (id in t.payments ==>
          && t.workflows[WorkflowOf(id)].status == (if AppliedIn(b, id) then Completed else Failed)
          && id == TransactionOf(uuid, t.payments[id].key))
  }

  ghost predicate RegistersAlike(uuid: string -> string, b: Books, t: Tables) {
    forall id :: SameRegister(uuid, b, t, id)
  }

  ghost predicate Related(uuid: string -> string, b: Books, t: Tables) {
    BalancesAlike(b, t) && TransfersAlike(b, t) && RegistersAlike(uuid, b, t)
  }

  predicate Admissible(accounts: map<string, Account>, o: Order) {
    o.source in accounts && o.destination in accounts && o.amount > 0
  }

  lemma WorkflowOfInjective(a: string, b: string)
    ensures WorkflowOf(a) == WorkflowOf(b) ==> a == b
  {
    assert WorkflowOf(a)[9..] == a && WorkflowOf(b)[9..] == b;
  }

  /** A replay changes nothing on either side; a new payment has the same effect on both. */
  lemma SeenTogether(uuid: string -> string, b: Books, t: Tables, o: Order)
    requires Related(uuid, b, t) && Admissible(t.accounts, o)
    ensures var r := RequestOf(uuid, o);
            && (r.transaction in b.transfers <==> r.workflow in t.workflows)
            && (r.transaction !in b.transfers ==> !Refused(t, r) && !HasTransfer(t, r.transaction))
  {
    var r := RequestOf(uuid, o);
    forall p | p in t.payments && t.payments[p].key == r.key
      ensures p == r.transaction
    {
      assert SameRegister(uuid, b, t, p);
    }
    assert SameRegister(uuid, b, t, r.transaction);
    assert AppliedIn(b, r.transaction) <==> HasTransfer(t, r.transaction);
  }

  lemma MovedAlike(b: Books, t: Tables, r: Request)
    requires BalancesAlike(b, t) && r.source in t.accounts && r.destination in t.accounts
    requires r.transaction !in b.transfers && t.accounts[r.source].balance >= r.amount
    ensures BalancesAlike(Transferred(b, r.transaction, r.source, r.destination, r.amount).0,
                          t.(accounts := Moved(t.accounts, r)))
  {
  }

  /** Storing a new transaction on both sides. */
  lemma StoredAlike(uuid: string -> string, b: Books, b': Books, t: Tables, t': Tables, r: Request, status: Status)
    requires RegistersAlike(uuid, b, t) && r.transaction !in t.payments
    requires r.transaction == TransactionOf(uuid, r.key) && r.workflow == WorkflowOf(r.transaction)
    requires status == Completed || status == Failed
    requires b'.transfers == b.transfers[r.transaction := if status == Completed then Applied(r.amount, r.source, r.destination) else Rejected(r.amount)]
    requires t'.payments.Keys == t.payments.Keys + {r.transaction} && t'.payments[r.transaction].key == r.key
    requires forall id :: id in t.payments ==> t'.payments[id] == t.payments[id]
    requires t'.workflows == t.workflows[r.workflow := Workflow(r.transaction, status)]
    ensures RegistersAlike(uuid, b', t')
  {
    forall id
      ensures SameRegister(uuid, b', t', id)
    {
      assert SameRegister(uuid, b, t, id);
      WorkflowOfInjective(id, r.transaction);
    }
  }

  lemma AppliedAlike(b: Books, b': Books, t: Tables, t': Tables, row: Transfer)
    requires TransfersAlike(b, t) && row.id !in b.transfers
    requires b'.transfers == b.transfers[row.id := Applied(row.amount, row.source, row.destination)]
    requires t'.transfers == t.transfers + [row]
    ensures TransfersAlike(b', t')
  {
    AppendedTransfer(t, t', row);
    forall id
      ensures AppliedIn(b', id) <==> HasTransfer(t', id)
    {
      assert AppliedIn(b, id) <==> HasTransfer(t, id);
    }
  }

  lemma RejectedAlike(b: Books, b': Books, t: Tables, t': Tables, id: string, amount: int)
    requires TransfersAlike(b, t) && id !in b.transfers
    requires b'.transfers == b.transfers[id := Rejected(amount)] && t'.transfers == t.transfers
    ensures TransfersAlike(b', t')
  {
    forall x
      ensures AppliedIn(b', x) <==> HasTransfer(t', x)
    {
      assert AppliedIn(b, x) <==> HasTransfer(t, x);
      assert HasTransfer(t', x) <==> HasTransfer(t, x);
    }
  }

  /** One payment keeps the two ledgers alike. */
  lemma OrderKeepsRelated(uuid: string -> string, b: Books, t: Tables, o: Order)
    requires Related(uuid, b, t) && Admissible(t.accounts, o)
    ensures Related(uuid, Transferred(b, TransactionOf(uuid, o.key), o.source, o.destination, o.amount).0,
                    Serial(t, RequestOf(uuid, o)).0)
  {
    var r := RequestOf(uuid, o);
    SeenTogether(uuid, b, t, o);
    if r.transaction !in b.transfers {
      var b', t' := Transferred(b, r.transaction, r.source, r.destination, r.amount).0, Serial(t, r).0;
      if t.accounts[r.source].balance >= r.amount {
        MovedAlike(b, t, r);
        AppliedAlike(b, b', t, t', Transfer(r.transaction, r.source, r.destination, r.amount));
        StoredAlike(uuid, b, b', t, t', r, Completed);
      } else {
        RejectedAlike(b, b', t, t', r.transaction, r.amount);
        StoredAlike(uuid, b, b', t, t', r, Failed);
      }
    }
  }

  /** For every sequence of orders on known accounts with positive amounts, replays and shortfalls included, the
      doubles and the SQLite transactions end with the same balances and the same applied transfers. */
  lemma {:induction false} DoublesRefineSqlite(uuid: string -> string, b: Books, t: Tables, orders: seq<Order>)
    requires Related(uuid, b, t) && forall i :: 0 <= i < |orders| ==> Admissible(t.accounts, orders[i])
    ensures Related(uuid, Posted(b, uuid, orders), SerialRun(t, RequestsOf(uuid, orders)))
    ensures SerialRun(t, RequestsOf(uuid, orders)).accounts.Keys == t.accounts.Keys
  {
    var rs := RequestsOf(uuid, orders);
    if orders != [] {
      var before, o := orders[..|orders| - 1], orders[|orders| - 1];
      assert rs[..|rs| - 1] == RequestsOf(uuid, before);
      DoublesRefineSqlite(uuid, b, t, before);
      OrderKeepsRelated(uuid, Posted(b, uuid, before), SerialRun(t, RequestsOf(uuid, before)), o);
      SerialKeepsRows(SerialRun(t, RequestsOf(uuid, before)), RequestOf(uuid, o));
    }
  }

  /** The initial books and a database opened with the same balances are related. */
  lemma OpenedRelated(uuid: string -> string, b: Books, t: Tables)
    requires Opened(t) && b.transfers == map[] && b.balances == map a | a in t.accounts :: t.accounts[a].balance
    ensures Related(uuid, b, t)
  {
  }

  /** The gateway's entry and SQLite's answer have the same status exactly when the order is not the replay of a
      rejected payment: then the entry says "completed", as for every replay, and SQLite repeats "failed". */
  lemma AnswersAgreeUnlessRejectedBefore(uuid: string -> string, b: Books, t: Tables, o: Order)
    requires Related(uuid, b, t) && Admissible(t.accounts, o)
    ensures var id := "sim-" + uuid(o.key);
            var reply := Transferred(b, id, o.source, o.destination, o.amount).1;
            var entry, answer := EntryFor(id, reply), Serial(t, RequestOf(uuid, o)).1;
            && reply.Some?
            && (entry.status == answer.AnswerStatus() <==> !RejectedIn(b, id))
            && (id in b.transfers ==> entry.status == Completed)
            && RequestOf(uuid, o) == Request("workflow-" + id, id, o.key, o.source, o.destination, o.amount, o.currency)
  {
    SeenTogether(uuid, b, t, o);
    var id := TransactionOf(uuid, o.key);
    EntryTells(b, id, o.source, o.destination, o.amount);
    assert SameRegister(uuid, b, t, id);
    assert AppliedIn(b, id) <==> HasTransfer(t, id);
  }

  /** The orders of the listed threads. */
  function Decided(orders: seq<Order>, order: seq<nat>): seq<Order>
    requires Threads.InRange(order, |orders|)
  {
    seq(|order|, k requires 0 <= k < |order| => orders[order[k]])
  }

  /** The same for every interleaving of the SQLite callers, with operational errors: the database stays like a double
      that posts the decided orders in the order of their decision. */
  lemma InterleavedOrdersRefine(uuid: string -> string, b: Books, t: Tables, orders: seq<Order>, maxRetries: seq<nat>, events: seq<Threads.Event>)
    requires Related(uuid, b, t) && NonNegative(t) && forall i :: 0 <= i < |orders| ==> Admissible(t.accounts, orders[i])
    ensures var m := Threads.Run(Threads.Start(t, RequestsOf(uuid, orders), maxRetries), events);
            && Threads.Distinct(m.order) && Threads.InRange(m.order, |orders|)
            && Related(uuid, Posted(b, uuid, Decided(orders, m.order)), m.committed)
  {
    Threads.Serializable(t, RequestsOf(uuid, orders), maxRetries, events);
    var order := Threads.Run(Threads.Start(t, RequestsOf(uuid, orders), maxRetries), events).order;
    assert Threads.Requests(RequestsOf(uuid, orders), order) == RequestsOf(uuid, Decided(orders, order));
    DoublesRefineSqlite(uuid, b, t, Decided(orders, order));
  }

  /** From the double's first books and a database opened with the same balances, any payments between these
      accounts with positive amounts leave both alike. */
  lemma FreshDoublesRefineSqlite(uuid: string -> string, t: Tables, orders: seq<Order>)
    requires Opened(t) && InitialBooks().balances == map a | a in t.accounts :: t.accounts[a].balance
    requires forall i :: 0 <= i < |orders| ==> Admissible(t.accounts, orders[i])
    ensures BalancesAlike(Posted(InitialBooks(), uuid, orders), SerialRun(t, RequestsOf(uuid, orders)))
    ensures TransfersAlike(Posted(InitialBooks(), uuid, orders), SerialRun(t, RequestsOf(uuid, orders)))
  {
    OpenedRelated(uuid, InitialBooks(), t);
    DoublesRefineSqlite(uuid, InitialBooks(), t, orders);
  }

  /** The first books as a database. */
  const OPENING := Tables(map["customer:source" := Account(100000, "NGN"), "merchant:destination" := Account(0, "NGN")], map[], [], map[])

  /** More than the source has. */
  const TOO_MUCH := Order("key", "customer:source", "merchant:destination", 200000, "NGN")

  /** A rejected payment sent a second time is answered "completed" by the double and "failed" by SQLite. */
  lemma RejectedReplayIsAnsweredCompleted(uuid: string -> string)
    ensures var id, b, t := TransactionOf(uuid, "key"), Posted(InitialBooks(), uuid, [TOO_MUCH]), SerialRun(OPENING, RequestsOf(uuid, [TOO_MUCH]));
            var entry := EntryFor(id, Transferred(b, id, TOO_MUCH.source, TOO_MUCH.destination, TOO_MUCH.amount).1);
            && Opened(OPENING) && Related(uuid, b, t) && id in b.transfers && b.transfers[id] == Rejected(200000)
            && entry.status == Completed
            && Serial(t, RequestOf(uuid, TOO_MUCH)).1.AnswerStatus() == Failed
  {
    var orders := [TOO_MUCH];
    assert InitialBooks().balances == map a | a in OPENING.accounts :: OPENING.accounts[a].balance;
    OpenedRelated(uuid, InitialBooks(), OPENING);
    DoublesRefineSqlite(uuid, InitialBooks(), OPENING, orders);
    assert orders[..0] == [] && RequestsOf(uuid, orders)[..0] == [];
    assert Posted(InitialBooks(), uuid, orders)
        == Transferred(InitialBooks(), TransactionOf(uuid, "key"), TOO_MUCH.source, TOO_MUCH.destination, TOO_MUCH.amount).0;
    assert SerialRun(OPENING, RequestsOf(uuid, orders)) == Serial(OPENING, RequestOf(uuid, TOO_MUCH)).0;
  }
}
