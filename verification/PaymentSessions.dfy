/** createSession, processPayment and refund.create of the payment router. Handlers run one at a time, and each
    may stop after any of its database writes. */
module PaymentSessions {
  import opened Wrappers

  datatype SessionStatus = SessionPending | Processing | SessionCompleted | SessionFailed

  datatype TransactionStatus = Pending | Authorized | Captured | Failed | Refunded | PartiallyRefunded

  datatype RefundStatus = RefundPending | RefundProcessing | RefundCompleted | RefundFailed

  datatype Method = Card | BankTransfer | QrCode | Wallet

  datatype Merchant = Merchant(id: nat, active: bool)

  datatype Session = Session(merchant: nat, amount: int, currency: string, status: SessionStatus,
                             paidBy: Option<Method>, expiresAt: int)

  datatype Transaction = Transaction(session: nat, merchant: nat, amount: int, currency: string,
                                     status: TransactionStatus, paidBy: Method)

  datatype Refund = Refund(transaction: nat, merchant: nat, amount: int, currency: string, status: RefundStatus)

  /** Rows by their generated id; `next` is the next id not generated before. */
  datatype Store = Store(sessions: map<nat, Session>, transactions: map<nat, Transaction>, refunds: map<nat, Refund>, next: nat)

  datatype Error = InvalidInput | Unauthorized | Forbidden | NotFound | AlreadyProcessed | Expired | NotCaptured | ExceedsBalance | Stopped

  const SESSION_LIFETIME := 30 * 60 * 1000

  // ---------- The handlers; `writes` is how many of their writes get through ----------

  function CreateSession(s: Store, merchant: Option<Merchant>, amount: int, currency: string, now: int, writes: nat)
    : (Store, Result<nat, Error>)
  {
    if amount <= 0 || |currency| != 3 then (s, Failure(InvalidInput))
    else if merchant.None? then (s, Failure(Unauthorized))
    else if !merchant.value.active then (s, Failure(Forbidden))
    else if writes == 0 then (s.(next := s.next + 1), Failure(Stopped))
    else (s.(sessions := s.sessions[s.next := Session(merchant.value.id, amount, currency, SessionPending, None, now + SESSION_LIFETIME)],
             next := s.next + 1),
          Success(s.next))
  }

  /** Cards are captured at once; every other method awaits a confirmation. */
  function StatusFor(paidBy: Method): TransactionStatus {
    match paidBy
    case Card => Captured
    case Wallet => Authorized
    case _ => Pending
  }

  function WithStatus(s: Store, id: nat, status: SessionStatus): Store
    requires id in s.sessions
  {
    s.(sessions := s.sessions[id := s.sessions[id].(status := status)])
  }

  function ProcessPayment(s: Store, id: nat, paidBy: Method, now: int, writes: nat): (Store, Result<nat, Error>) {
    if id !in s.sessions then (s, Failure(NotFound))
    else if s.sessions[id].status != SessionPending then (s, Failure(AlreadyProcessed))
    else if now > s.sessions[id].expiresAt then (s, Failure(Expired))
    else
      var row := s.sessions[id];
      var claimed := s.(sessions := s.sessions[id := row.(status := Processing, paidBy := Some(paidBy))]);
      var recorded := claimed.(next := s.next + 1, transactions := s.transactions[s.next :=
        Transaction(id, row.merchant, row.amount, row.currency, StatusFor(paidBy), paidBy)]);
      if writes == 0 then (s, Failure(Stopped))
      else if writes == 1 then (claimed.(next := s.next + 1), Failure(Stopped))
      else if writes == 2 then (recorded, Failure(Stopped))
      else (WithStatus(recorded, id, if paidBy == Card then SessionCompleted else SessionFailed), Success(s.next))
  }

  /** The completed refunds of a transaction, added up. */
  function RefundTotal(refunds: map<nat, Refund>, upTo: nat, transaction: nat): int {
    if upTo == 0 then 0
    else
      var k := upTo - 1;
      RefundTotal(refunds, k, transaction)
      + (if k in refunds && refunds[k].transaction == transaction && refunds[k].status == RefundCompleted then refunds[k].amount else 0)
  }

  function TotalRefunded(s: Store, transaction: nat): int {
    RefundTotal(s.refunds, s.next, transaction)
  }

  function CreateRefund(s: Store, id: nat, amount: Option<int>, writes: nat): (Store, Result<nat, Error>) {
    if amount.Some? && amount.value <= 0 then (s, Failure(InvalidInput))
    else if id !in s.transactions then (s, Failure(NotFound))
    else if s.transactions[id].status != Captured then (s, Failure(NotCaptured))
    else
      var t := s.transactions[id];
      var available := t.amount - TotalRefunded(s, id);
      var refund := if amount.Some? then amount.value else available;
      if refund > available then (s, Failure(ExceedsBalance))
      else
        var paid := s.(next := s.next + 1,
                       refunds := s.refunds[s.next := Refund(id, t.merchant, refund, t.currency, RefundCompleted)]);
        if writes == 0 then (s.(next := s.next + 1), Failure(Stopped))
        else if writes == 1 then (paid, Failure(Stopped))
        else (paid.(transactions := s.transactions[id := t.(status := if refund == available then Refunded else PartiallyRefunded)]),
              Success(s.next))
  }

  // ---------- The handlers on their tables ----------

  class Router {
    var sessions: map<nat, Session>
    var transactions: map<nat, Transaction>
    var refunds: map<nat, Refund>
    var next: nat

    constructor (s: Store)
      ensures State() == s
    {
      sessions, transactions, refunds, next := s.sessions, s.transactions, s.refunds, s.next;
    }

    function State(): Store
      reads this
    {
      Store(sessions, transactions, refunds, next)
    }

    /** generateId */
    method GenerateId() returns (id: nat)
      modifies this`next
      ensures id == old(next) && next == id + 1
    {
      id := next;
      next := next + 1;
    }

    method HandleCreateSession(merchant: Option<Merchant>, amount: int, currency: string, now: int, writes: nat)
      returns (result: Result<nat, Error>)
      modifies this
      ensures (State(), result) == CreateSession(old(State()), merchant, amount, currency, now, writes)
    {
      if amount <= 0 || |currency| != 3 {
        return Failure(InvalidInput);
      }
      if merchant.None? {
        return Failure(Unauthorized);
      }
      if !merchant.value.active {
        return Failure(Forbidden);
      }
      var id := GenerateId();
      if writes == 0 {
        return Failure(Stopped);
      }
      sessions := sessions[id := Session(merchant.value.id, amount, currency, SessionPending, None, now + 30 * 60 * 1000)];
      return Success(id);
    }

    method HandleProcessPayment(id: nat, paidBy: Method, now: int, writes: nat) returns (result: Result<nat, Error>)
      modifies this
      ensures (State(), result) == ProcessPayment(old(State()), id, paidBy, now, writes)
    {
      if id !in sessions {
        return Failure(NotFound);
      }
      var session := sessions[id];
      if session.status != SessionPending {
        return Failure(AlreadyProcessed);
      }
      if now > session.expiresAt {
        return Failure(Expired);
      }
      if writes == 0 {
        return Failure(Stopped);
      }
      sessions := sessions[id := session.(status := Processing, paidBy := Some(paidBy))];
      var transactionId := GenerateId();
      var finalStatus := Captured;
      if paidBy == BankTransfer {
        finalStatus := Pending;
      } else if paidBy == QrCode {
        finalStatus := Pending;
      } else if paidBy == Wallet {
        finalStatus := Authorized;
      }
      if writes == 1 {
        return Failure(Stopped);
      }
      transactions := transactions[transactionId := Transaction(id, session.merchant, session.amount, session.currency, finalStatus, paidBy)];
      if writes == 2 {
        return Failure(Stopped);
      }
      sessions := sessions[id := sessions[id].(status := if finalStatus == Captured then SessionCompleted else SessionFailed)];
      return Success(transactionId);
    }

    method HandleCreateRefund(id: nat, amount: Option<int>, writes: nat) returns (result: Result<nat, Error>)
      modifies this
      ensures (State(), result) == CreateRefund(old(State()), id, amount, writes)
    {
      if amount.Some? && amount.value <= 0 {
        return Failure(InvalidInput);
      }
      if id !in transactions {
        return Failure(NotFound);
      }
      var transaction := transactions[id];
      if transaction.status != Captured {
        return Failure(NotCaptured);
      }
      var totalRefunded := 0;
      for k := 0 to next
        invariant totalRefunded == RefundTotal(refunds, k, id)
      {
        if k in refunds && refunds[k].transaction == id && refunds[k].status == RefundCompleted {
          totalRefunded := totalRefunded + refunds[k].amount;
        }
      }
      var refundAmount := if amount.Some? then amount.value else transaction.amount - totalRefunded;
      if refundAmount > transaction.amount - totalRefunded {
        return Failure(ExceedsBalance);
      }
      var refundId := GenerateId();
      if writes == 0 {
        return Failure(Stopped);
      }
      refunds := refunds[refundId := Refund(id, transaction.merchant, refundAmount, transaction.currency, RefundCompleted)];
      if writes == 1 {
        return Failure(Stopped);
      }
      var newTotalRefunded := totalRefunded + refundAmount;
      if newTotalRefunded >= transaction.amount {
        transactions := transactions[id := transaction.(status := Refunded)];
      } else {
        transactions := transactions[id := transaction.(status := PartiallyRefunded)];
      }
      return Success(refundId);
    }
  }

  // ---------- Runs ----------

  datatype Call =
    | CallCreateSession(merchant: Option<Merchant>, amount: int, currency: string, now: int, writes: nat)
    | CallProcessPayment(session: nat, paidBy: Method, now: int, writes: nat)
    | CallCreateRefund(transaction: nat, refund: Option<int>, writes: nat)

  function Handle(s: Store, c: Call): (Store, Result<nat, Error>) {
    match c
    case CallCreateSession(merchant, amount, currency, now, writes) => CreateSession(s, merchant, amount, currency, now, writes)
    case CallProcessPayment(session, paidBy, now, writes) => ProcessPayment(s, session, paidBy, now, writes)
    case CallCreateRefund(transaction, refund, writes) => CreateRefund(s, transaction, refund, writes)
  }

  const EMPTY := Store(map[], map[], map[], 0)

  function Run(calls: seq<Call>): Store {
    if calls == [] then EMPTY else Handle(Run(calls[..|calls| - 1]), calls[|calls| - 1]).0
  }

  // ---------- Sessions ----------

  predicate WasCaptured(status: TransactionStatus) {
    status == Captured || status == Refunded || status == PartiallyRefunded
  }

  /** A transaction belongs to one session, carries its money, and agrees with its status. */
  predicate TransactionInv(s: Store, id: nat)
    requires id in s.transactions
  {
    var t := s.transactions[id];
    && id < s.next
    && t.session in s.sessions && t.amount > 0
    && t.amount == s.sessions[t.session].amount && t.currency == s.sessions[t.session].currency
    && t.merchant == s.sessions[t.session].merchant
    && s.sessions[t.session].status != SessionPending
    && (s.sessions[t.session].status == SessionCompleted ==> WasCaptured(t.status))
    && (s.sessions[t.session].status == SessionFailed ==> t.status == Pending || t.status == Authorized)
    && s.sessions[t.session].paidBy == Some(t.paidBy) && StatusFits(t)
    && (forall other :: other in s.transactions && s.transactions[other].session == t.session ==> other == id)
  }

  /** Only card payments are ever captured; wallets are authorized, transfers and QR codes pending. */
  predicate StatusFits(t: Transaction) {
    match t.paidBy
    case Card => t.status == Captured || t.status == Refunded || t.status == PartiallyRefunded
    case Wallet => t.status == Authorized
    case BankTransfer => t.status == Pending
    case QrCode => t.status == Pending
  }

  predicate SessionInv(s: Store, id: nat)
    requires id in s.sessions
  {
    && id < s.next && s.sessions[id].amount > 0
    && (s.sessions[id].status == SessionCompleted || s.sessions[id].status == SessionFailed ==>
          exists t :: t in s.transactions && s.transactions[t].session == id)
  }

  ghost predicate SessionsInv(s: Store) {
    && (forall id :: id in s.sessions ==> SessionInv(s, id))
    && (forall id :: id in s.transactions ==> TransactionInv(s, id))
  }

  lemma CreateKeepsSessions(s: Store, merchant: Option<Merchant>, amount: int, currency: string, now: int, writes: nat)
    requires SessionsInv(s)
    ensures SessionsInv(CreateSession(s, merchant, amount, currency, now, writes).0)
  {
    var s' := CreateSession(s, merchant, amount, currency, now, writes).0;
    forall id | id in s'.sessions
      ensures SessionInv(s', id)
    {
      assert id in s.sessions ==> SessionInv(s, id);
    }
    forall id | id in s'.transactions
      ensures TransactionInv(s', id)
    {
      assert TransactionInv(s, id);
      assert SessionInv(s, s.transactions[id].session);
    }
  }

  /** The session that a payment call has got to write to, before and after. */
  lemma ProcessKeepsSession(s: Store, session: nat, paidBy: Method, now: int, writes: nat, id: nat)
    requires id in s.sessions && SessionInv(s, id) && s.next !in s.transactions
    ensures id in ProcessPayment(s, session, paidBy, now, writes).0.sessions
    ensures SessionInv(ProcessPayment(s, session, paidBy, now, writes).0, id)
  {
    var s' := ProcessPayment(s, session, paidBy, now, writes).0;
    if t :| t in s.transactions && s.transactions[t].session == id {
      assert t in s'.transactions && s'.transactions[t].session == id;
    }
    assert s' != s && id == session && writes >= 2 ==> s.next in s'.transactions && s'.transactions[s.next].session == id;
  }

  lemma ProcessKeepsTransaction(s: Store, session: nat, paidBy: Method, now: int, writes: nat, id: nat)
    requires id in ProcessPayment(s, session, paidBy, now, writes).0.transactions
    requires session in s.sessions ==> SessionInv(s, session)
    requires forall t :: t in s.transactions ==> TransactionInv(s, t)
    ensures TransactionInv(ProcessPayment(s, session, paidBy, now, writes).0, id)
  {
    assert id in s.transactions ==> TransactionInv(s, id);
    forall t | t in s.transactions && session in s.sessions && s.sessions[session].status == SessionPending
      ensures s.transactions[t].session != session && t != s.next
    {
      assert TransactionInv(s, t);
    }
  }

  lemma ProcessKeepsSessions(s: Store, session: nat, paidBy: Method, now: int, writes: nat)
    requires SessionsInv(s)
    ensures SessionsInv(ProcessPayment(s, session, paidBy, now, writes).0)
  {
    var s' := ProcessPayment(s, session, paidBy, now, writes).0;
    assert s.next in s.transactions ==> TransactionInv(s, s.next);
    forall id | id in s'.sessions
      ensures SessionInv(s', id)
    {
      ProcessKeepsSession(s, session, paidBy, now, writes, id);
    }
    forall id | id in s'.transactions
      ensures TransactionInv(s', id)
    {
      ProcessKeepsTransaction(s, session, paidBy, now, writes, id);
    }
  }

  /** A refund only takes the status of a captured transaction on to refunded or partially refunded. */
  predicate RefundFrame(s: Store, s': Store) {
    && s'.sessions == s.sessions && s'.transactions.Keys == s.transactions.Keys && s.next <= s'.next
    && forall id :: id in s.transactions ==>
         || s'.transactions[id] == s.transactions[id]
         || (s.transactions[id].status == Captured
             && s'.transactions[id] == s.transactions[id].(status := s'.transactions[id].status)
             && WasCaptured(s'.transactions[id].status))
  }

  lemma RefundFrames(s: Store, transaction: nat, amount: Option<int>, writes: nat)
    ensures RefundFrame(s, CreateRefund(s, transaction, amount, writes).0)
  {
  }

  lemma RefundFrameKeepsSessions(s: Store, s': Store)
    requires SessionsInv(s) && RefundFrame(s, s')
    ensures SessionsInv(s')
  {
    forall id | id in s'.sessions
      ensures SessionInv(s', id)
    {
      assert SessionInv(s, id);
      if t :| t in s.transactions && s.transactions[t].session == id {
        assert t in s'.transactions && s'.transactions[t].session == id;
      }
    }
    forall id | id in s'.transactions
      ensures TransactionInv(s', id)
    {
      assert TransactionInv(s, id);
    }
  }

  lemma {:induction false} RunKeepsSessions(calls: seq<Call>)
    ensures SessionsInv(Run(calls))
  {
    if calls != [] {
      var s := Run(calls[..|calls| - 1]);
      RunKeepsSessions(calls[..|calls| - 1]);
      match calls[|calls| - 1]
      case CallCreateSession(merchant, amount, currency, now, writes) => CreateKeepsSessions(s, merchant, amount, currency, now, writes);
      case CallProcessPayment(session, paidBy, now, writes) => ProcessKeepsSessions(s, session, paidBy, now, writes);
      case CallCreateRefund(transaction, refund, writes) =>
        RefundFrames(s, transaction, refund, writes);
        RefundFrameKeepsSessions(s, CreateRefund(s, transaction, refund, writes).0);
    }
  }

  /** Over every run: a session has at most one transaction, with its amount, currency, merchant and payment method;
      it is completed only if that was a card payment, captured, and failed only if it was not. */
  lemma SessionHasOneTransaction(calls: seq<Call>, session: nat)
    requires session in Run(calls).sessions
    ensures var s := Run(calls);
            && (forall t, u :: (t in s.transactions && u in s.transactions
                                && s.transactions[t].session == session == s.transactions[u].session) ==> t == u)
            && (forall t :: t in s.transactions && s.transactions[t].session == session ==>
                  && s.transactions[t].amount == s.sessions[session].amount && s.transactions[t].currency == s.sessions[session].currency
                  && s.transactions[t].merchant == s.sessions[session].merchant
                  && s.sessions[session].paidBy == Some(s.transactions[t].paidBy)
                  && (WasCaptured(s.transactions[t].status) <==> s.transactions[t].paidBy == Card)
                  && (s.transactions[t].status == Authorized <==> s.transactions[t].paidBy == Wallet))
            && (s.sessions[session].status == SessionPending ==>
                  forall t :: t in s.transactions ==> s.transactions[t].session != session)
            && (s.sessions[session].status == SessionCompleted ==>
                  exists t :: t in s.transactions && s.transactions[t].session == session && WasCaptured(s.transactions[t].status))
            && (s.sessions[session].status == SessionFailed ==>
                  exists t :: t in s.transactions && s.transactions[t].session == session && !WasCaptured(s.transactions[t].status))
  {
    RunKeepsSessions(calls);
    var s := Run(calls);
    assert SessionInv(s, session);
    forall t | t in s.transactions
      ensures TransactionInv(s, t)
    {
    }
  }

  /** pending, then processing, then completed or failed. */
  predicate OneMove(from: SessionStatus, to: SessionStatus) {
    || from == to
    || (from == SessionPending && to == Processing)
    || (from == Processing && (to == SessionCompleted || to == SessionFailed))
  }

  function Rank(status: SessionStatus): nat {
    match status
    case SessionPending => 0
    case Processing => 1
    case _ => 2
  }

  function WithWrites(c: Call, writes: nat): Call {
    c.(writes := writes)
  }

  /** One more write of processPayment moves its session at most one step, and no other. */
  lemma ProcessWriteMoves(s: Store, c: Call, writes: nat, session: nat)
    requires c.CallProcessPayment? && session in s.sessions
    ensures session in Handle(s, WithWrites(c, writes)).0.sessions
    ensures session in Handle(s, WithWrites(c, writes + 1)).0.sessions
    ensures OneMove(Handle(s, WithWrites(c, writes)).0.sessions[session].status,
                    Handle(s, WithWrites(c, writes + 1)).0.sessions[session].status)
    ensures session != c.session ==> Handle(s, WithWrites(c, writes)).0.sessions[session] == s.sessions[session]
    ensures Handle(s, WithWrites(c, 0)).0.sessions == s.sessions
  {
  }

  /** The other handlers move no session that exists. */
  lemma OthersMoveNothing(s: Store, c: Call, writes: nat, session: nat)
    requires !c.CallProcessPayment? && session in s.sessions && session < s.next
    ensures session in Handle(s, WithWrites(c, writes)).0.sessions
    ensures Handle(s, WithWrites(c, writes)).0.sessions[session] == s.sessions[session]
  {
  }

  /** One more write of any handler moves a session at most one step; no write moves it at all. */
  lemma EachWriteIsOneMove(calls: seq<Call>, c: Call, writes: nat, session: nat)
    requires session in Run(calls).sessions
    ensures var s := Run(calls);
            && session in Handle(s, WithWrites(c, writes)).0.sessions
            && session in Handle(s, WithWrites(c, writes + 1)).0.sessions
            && session in Handle(s, WithWrites(c, 0)).0.sessions
            && Handle(s, WithWrites(c, 0)).0.sessions[session] == s.sessions[session]
            && OneMove(Handle(s, WithWrites(c, writes)).0.sessions[session].status,
                       Handle(s, WithWrites(c, writes + 1)).0.sessions[session].status)
  {
    RunKeepsSessions(calls);
    assert SessionInv(Run(calls), session);
    if c.CallProcessPayment? {
      ProcessWriteMoves(Run(calls), c, writes, session);
    } else {
      OthersMoveNothing(Run(calls), c, writes, session);
      OthersMoveNothing(Run(calls), c, writes + 1, session);
      OthersMoveNothing(Run(calls), c, 0, session);
    }
  }

  lemma CallAdvances(s: Store, c: Call, session: nat)
    requires session in s.sessions && session < s.next
    ensures session in Handle(s, c).0.sessions
    ensures Rank(s.sessions[session].status) <= Rank(Handle(s, c).0.sessions[session].status)
    ensures Rank(s.sessions[session].status) == 2 ==> Handle(s, c).0.sessions[session].status == s.sessions[session].status
  {
    if !c.CallProcessPayment? {
      assert WithWrites(c, c.writes) == c;
      OthersMoveNothing(s, c, c.writes, session);
    }
  }

  /** Over every run a session's rank never falls, and a completed or failed session keeps its status. */
  lemma {:induction false} SessionsOnlyAdvance(calls: seq<Call>, n: nat, session: nat)
    requires n <= |calls| && session in Run(calls[..n]).sessions
    ensures session in Run(calls).sessions
    ensures Rank(Run(calls[..n]).sessions[session].status) <= Rank(Run(calls).sessions[session].status)
    ensures Rank(Run(calls[..n]).sessions[session].status) == 2 ==>
              Run(calls).sessions[session].status == Run(calls[..n]).sessions[session].status
    decreases |calls|
  {
    if n == |calls| {
      assert calls[..n] == calls;
    } else {
      var before := calls[..|calls| - 1];
      assert before[..n] == calls[..n];
      SessionsOnlyAdvance(before, n, session);
      RunKeepsSessions(before);
      assert SessionInv(Run(before), session);
      CallAdvances(Run(before), calls[|calls| - 1], session);
    }
  }

  /** The n-th call is a payment of this session that finds it created and unexpired, and is not stopped before its
      first write. */
  predicate Claims(calls: seq<Call>, n: nat, session: nat)
    requires n < |calls|
  {
    && calls[n].CallProcessPayment? && calls[n].session == session && calls[n].writes >= 1
    && session in Run(calls[..n]).sessions && calls[n].now <= Run(calls[..n]).sessions[session].expiresAt
  }

  lemma ClaimsInPrefix(calls: seq<Call>, n: nat, session: nat)
    requires n < |calls| - 1
    ensures Claims(calls[..|calls| - 1], n, session) <==> Claims(calls, n, session)
  {
    assert calls[..|calls| - 1][..n] == calls[..n];
  }

  /** A session is pending exactly as long as no payment call has claimed it, whatever became of that call. */
  lemma {:induction false} PendingExactlyUntilClaimed(calls: seq<Call>, session: nat)
    requires session in Run(calls).sessions
    ensures Run(calls).sessions[session].status == SessionPending
            <==> forall n :: 0 <= n < |calls| ==> !Claims(calls, n, session)
  {
    var before, last := calls[..|calls| - 1], |calls| - 1;
    forall n | 0 <= n < last
      ensures Claims(before, n, session) <==> Claims(calls, n, session)
    {
      ClaimsInPrefix(calls, n, session);
    }
    assert calls[..last] == before;
    if session in Run(before).sessions {
      PendingExactlyUntilClaimed(before, session);
      RunKeepsSessions(before);
      assert SessionInv(Run(before), session);
      CallClaims(Run(before), calls[last], session);
      assert Run(calls) == Handle(Run(before), calls[last]).0;
      assert Run(calls).sessions[session].status == SessionPending
        <==> Run(before).sessions[session].status == SessionPending && !Claims(calls, last, session);
    } else {
      forall n | 0 <= n < last
        ensures session !in Run(before[..n]).sessions
      {
        if session in Run(before[..n]).sessions {
          SessionsOnlyAdvance(before, n, session);
        }
      }
    }
  }

  lemma CallClaims(s: Store, c: Call, session: nat)
    requires session in s.sessions && session < s.next
    ensures session in Handle(s, c).0.sessions
    ensures Handle(s, c).0.sessions[session].status == SessionPending
            <==> s.sessions[session].status == SessionPending
                 && !(c.CallProcessPayment? && c.session == session && c.writes >= 1 && c.now <= s.sessions[session].expiresAt)
  {
  }

  ghost predicate Claimed(calls: seq<Call>, session: nat) {
    exists n :: 0 <= n < |calls| && Claims(calls, n, session)
  }

  /** A payment call succeeds exactly on an unexpired session that no call before it has claimed, with all its writes
      done; so a session is paid at most once. It then leaves one new transaction with the session's money. A card
      payment is captured and completes the session; any other only awaits its confirmation, and the session fails. */
  lemma PaymentSucceeds(calls: seq<Call>, session: nat, paidBy: Method, now: int, writes: nat)
    ensures var s, (s', result) := Run(calls), ProcessPayment(Run(calls), session, paidBy, now, writes);
            && (result.Success? <==> session in s.sessions && !Claimed(calls, session)
                                     && now <= s.sessions[session].expiresAt && writes >= 3)
            && (result.Success? ==>
                  && result.value !in s.transactions && s'.transactions.Keys == s.transactions.Keys + {result.value}
                  && s'.transactions[result.value].session == session && s'.transactions[result.value].paidBy == paidBy
                  && s'.transactions[result.value].amount == s.sessions[session].amount
                  && s'.transactions[result.value].currency == s.sessions[session].currency
                  && s'.transactions[result.value].merchant == s.sessions[session].merchant
                  && (s'.transactions[result.value].status == Captured <==> paidBy == Card)
                  && (s'.transactions[result.value].status == Authorized <==> paidBy == Wallet)
                  && (s'.transactions[result.value].status == Pending <==> paidBy == BankTransfer || paidBy == QrCode)
                  && (s'.sessions[session].status == SessionCompleted <==> paidBy == Card)
                  && (s'.sessions[session].status == SessionFailed <==> paidBy != Card)
                  && s'.sessions[session].paidBy == Some(paidBy))
  {
    RunKeepsSessions(calls);
    assert Run(calls).next in Run(calls).transactions ==> TransactionInv(Run(calls), Run(calls).next);
    if session in Run(calls).sessions {
      PendingExactlyUntilClaimed(calls, session);
    }
  }

  /** The rows that a payment call leaves alone. */
  lemma PaymentFrame(s: Store, session: nat, paidBy: Method, now: int, writes: nat)
    requires s.next !in s.transactions
    ensures var s' := ProcessPayment(s, session, paidBy, now, writes).0;
            && s'.refunds == s.refunds && s'.sessions.Keys == s.sessions.Keys
            && (forall other :: other in s.sessions && other != session ==> s'.sessions[other] == s.sessions[other])
            && (forall t :: t in s.transactions ==> t in s'.transactions && s'.transactions[t] == s.transactions[t])
  {
  }

  /** Why a payment call fails, from the calls before it; it has changed nothing unless it was stopped, and then
      nothing of the transactions and sessions that exist but the session it pays. */
  lemma PaymentFails(calls: seq<Call>, session: nat, paidBy: Method, now: int, writes: nat)
    ensures var s, (s', result) := Run(calls), ProcessPayment(Run(calls), session, paidBy, now, writes);
            && (result == Failure(NotFound) <==> session !in s.sessions)
            && (result == Failure(AlreadyProcessed) <==> session in s.sessions && Claimed(calls, session))
            && (result == Failure(Expired) <==>
                session in s.sessions && !Claimed(calls, session) && s.sessions[session].expiresAt < now)
            && (result == Failure(Stopped) <==>
                session in s.sessions && !Claimed(calls, session) && now <= s.sessions[session].expiresAt && writes < 3)
            && (result.Failure? && result.error != Stopped ==> s' == s)
            && s'.refunds == s.refunds && s'.sessions.Keys == s.sessions.Keys
            && (forall other :: other in s.sessions && other != session ==> s'.sessions[other] == s.sessions[other])
            && (forall t :: t in s.transactions ==> t in s'.transactions && s'.transactions[t] == s.transactions[t])
  {
    RunKeepsSessions(calls);
    assert Run(calls).next in Run(calls).transactions ==> TransactionInv(Run(calls), Run(calls).next);
    PaymentFrame(Run(calls), session, paidBy, now, writes);
    if session in Run(calls).sessions {
      PendingExactlyUntilClaimed(calls, session);
    }
  }

  // ---------- Where a session comes from ----------

  /** The n-th call created the session, for an active merchant, and the session has kept what it was given; it is
      payable for 30 minutes. */
  predicate CreatedBy(calls: seq<Call>, n: nat, row: Session)
    requires n < |calls|
  {
    && calls[n].CallCreateSession? && calls[n].writes >= 1
    && calls[n].merchant.Some? && calls[n].merchant.value.active && calls[n].merchant.value.id == row.merchant
    && calls[n].amount == row.amount > 0
    && calls[n].currency == row.currency && |row.currency| == 3
    && row.expiresAt == calls[n].now + 30 * 60 * 1000
  }

  lemma CallKeepsTerms(s: Store, c: Call, session: nat)
    requires session in s.sessions && session < s.next
    ensures session in Handle(s, c).0.sessions
    ensures var row, row' := s.sessions[session], Handle(s, c).0.sessions[session];
            row' == row.(status := row'.status, paidBy := row'.paidBy)
  {
  }

  /** Over every run, each session was created by one of the calls, with its merchant, money and lifetime. */
  lemma {:induction false} SessionWasCreated(calls: seq<Call>, session: nat)
    requires session in Run(calls).sessions
    ensures exists n :: 0 <= n < |calls| && CreatedBy(calls, n, Run(calls).sessions[session])
  {
    var before, last := calls[..|calls| - 1], |calls| - 1;
    if session in Run(before).sessions {
      SessionWasCreated(before, session);
      var n :| 0 <= n < |before| && CreatedBy(before, n, Run(before).sessions[session]);
      RunKeepsSessions(before);
      assert SessionInv(Run(before), session);
      CallKeepsTerms(Run(before), calls[last], session);
      assert CreatedBy(calls, n, Run(calls).sessions[session]);
    } else {
      assert CreatedBy(calls, last, Run(calls).sessions[session]);
    }
  }

  /** createSession succeeds exactly for an active merchant, a positive amount and a three-letter currency, if it gets
      through its write; it then returns the id of one new, pending session with these terms. */
  lemma SessionCreated(calls: seq<Call>, merchant: Option<Merchant>, amount: int, currency: string, now: int, writes: nat)
    ensures var s, (s', result) := Run(calls), CreateSession(Run(calls), merchant, amount, currency, now, writes);
            && (result.Success? <==> merchant.Some? && merchant.value.active && amount > 0 && |currency| == 3 && writes >= 1)
            && (result == Failure(InvalidInput) <==> amount <= 0 || |currency| != 3)
            && (result == Failure(Unauthorized) <==> amount > 0 && |currency| == 3 && merchant.None?)
            && (result == Failure(Forbidden) <==> amount > 0 && |currency| == 3 && merchant.Some? && !merchant.value.active)
            && (result.Failure? ==> s'.sessions == s.sessions)
            && (result.Success? ==>
                  && result.value !in s.sessions
                  && s'.sessions == s.sessions[result.value :=
                       Session(merchant.value.id, amount, currency, SessionPending, None, now + 30 * 60 * 1000)])
            && s'.transactions == s.transactions && s'.refunds == s.refunds
  {
    RunKeepsSessions(calls);
    assert Run(calls).next in Run(calls).sessions ==> SessionInv(Run(calls), Run(calls).next);
  }

  // ---------- Refunds ----------

  /** Completed refunds never exceed the transaction; its status says whether they reach it. */
  predicate RefundInv(s: Store, id: nat)
    requires id in s.transactions
  {
    && 0 <= TotalRefunded(s, id) <= s.transactions[id].amount
    && (s.transactions[id].status == Refunded ==> TotalRefunded(s, id) == s.transactions[id].amount)
    && (s.transactions[id].status == PartiallyRefunded ==> TotalRefunded(s, id) < s.transactions[id].amount)
  }

  predicate RefundRowInv(s: Store, k: nat)
    requires k in s.refunds
  {
    && k < s.next && s.refunds[k].transaction in s.transactions && WasCaptured(s.transactions[s.refunds[k].transaction].status)
    && s.refunds[k].amount >= 0 && s.refunds[k].status == RefundCompleted
    && s.refunds[k].currency == s.transactions[s.refunds[k].transaction].currency
    && s.refunds[k].merchant == s.transactions[s.refunds[k].transaction].merchant
  }

  ghost predicate RefundsInv(s: Store) {
    && (forall id :: id in s.transactions ==> id < s.next && RefundInv(s, id))
    && (forall k :: k in s.refunds ==> RefundRowInv(s, k))
  }

  lemma {:induction false} SameRefundsSameTotal(refunds: map<nat, Refund>, refunds': map<nat, Refund>, upTo: nat, id: nat)
    requires forall k :: k < upTo ==> (k in refunds <==> k in refunds') && (k in refunds ==> refunds'[k] == refunds[k])
    ensures RefundTotal(refunds', upTo, id) == RefundTotal(refunds, upTo, id)
  {
    if upTo > 0 {
      SameRefundsSameTotal(refunds, refunds', upTo - 1, id);
    }
  }

  lemma {:induction false} NoRefundsNoTotal(refunds: map<nat, Refund>, upTo: nat, id: nat)
    requires forall k :: k in refunds && k < upTo ==> refunds[k].transaction != id
    ensures RefundTotal(refunds, upTo, id) == 0
  {
    if upTo > 0 {
      NoRefundsNoTotal(refunds, upTo - 1, id);
    }
  }

  /** The total after a call: only a refund of this transaction that wrote its row adds to it. */
  lemma TotalAfter(s: Store, c: Call, id: nat)
    requires RefundsInv(s)
    ensures var s' := Handle(s, c).0;
            TotalRefunded(s', id) == TotalRefunded(s, id)
              + (if s.next in s'.refunds && s'.refunds[s.next].transaction == id then s'.refunds[s.next].amount else 0)
  {
    var s' := Handle(s, c).0;
    assert s.next !in s.refunds;
    SameRefundsSameTotal(s.refunds, s'.refunds, s.next, id);
    if s'.next > s.next {
      assert s'.next == s.next + 1;
    }
  }

  lemma NoRowOfUnknown(s: Store, id: nat)
    requires RefundsInv(s) && id !in s.transactions
    ensures forall k :: k in s.refunds ==> s.refunds[k].transaction != id
  {
    forall k | k in s.refunds
      ensures s.refunds[k].transaction != id
    {
      assert RefundRowInv(s, k);
    }
  }

  /** The other handlers leave the refunds alone, and add at most one transaction. */
  predicate OthersFrame(s: Store, s': Store) {
    && s'.refunds == s.refunds && s.next <= s'.next <= s.next + 1
    && (forall id :: id in s.transactions ==> id in s'.transactions && s'.transactions[id] == s.transactions[id])
    && (forall id :: id in s'.transactions && id !in s.transactions ==>
          id == s.next < s'.next && s'.transactions[id].amount > 0
          && s'.transactions[id].status != Refunded && s'.transactions[id].status != PartiallyRefunded)
  }

  lemma ProcessFrames(s: Store, session: nat, paidBy: Method, now: int, writes: nat)
    requires s.next !in s.transactions && (session in s.sessions ==> s.sessions[session].amount > 0)
    ensures OthersFrame(s, ProcessPayment(s, session, paidBy, now, writes).0)
  {
  }

  lemma OtherCallFrames(s: Store, c: Call)
    requires SessionsInv(s) && !c.CallCreateRefund?
    ensures OthersFrame(s, Handle(s, c).0)
  {
    if c.CallProcessPayment? {
      assert s.next in s.transactions ==> TransactionInv(s, s.next);
      assert c.session in s.sessions ==> SessionInv(s, c.session);
      ProcessFrames(s, c.session, c.paidBy, c.now, c.writes);
    }
  }

  lemma FrameKeepsRefund(s: Store, s': Store, id: nat)
    requires RefundsInv(s) && OthersFrame(s, s') && id in s'.transactions
    ensures id < s'.next && RefundInv(s', id)
  {
    SameRefundsSameTotal(s.refunds, s'.refunds, s.next, id);
    assert s.next in s.refunds ==> RefundRowInv(s, s.next);
    if id in s.transactions {
      assert RefundInv(s, id);
    } else {
      NoRowOfUnknown(s, id);
      NoRefundsNoTotal(s.refunds, s.next, id);
    }
  }

  lemma FrameKeepsRow(s: Store, s': Store, k: nat)
    requires RefundsInv(s) && OthersFrame(s, s') && k in s'.refunds
    ensures RefundRowInv(s', k)
  {
    assert RefundRowInv(s, k);
  }

  lemma RefundCallKeepsRefund(s: Store, transaction: nat, amount: Option<int>, writes: nat, id: nat)
    requires RefundsInv(s) && id in CreateRefund(s, transaction, amount, writes).0.transactions
    ensures id < CreateRefund(s, transaction, amount, writes).0.next
    ensures RefundInv(CreateRefund(s, transaction, amount, writes).0, id)
  {
    assert id in s.transactions && RefundInv(s, id);
    TotalAfter(s, CallCreateRefund(transaction, amount, writes), id);
  }

  lemma RefundCallKeepsRow(s: Store, transaction: nat, amount: Option<int>, writes: nat, k: nat)
    requires RefundsInv(s) && k in CreateRefund(s, transaction, amount, writes).0.refunds
    ensures RefundRowInv(CreateRefund(s, transaction, amount, writes).0, k)
  {
    assert k in s.refunds ==> RefundRowInv(s, k);
    assert transaction in s.transactions ==> RefundInv(s, transaction);
  }

  lemma CallKeepsRefunds(s: Store, c: Call)
    requires SessionsInv(s) && RefundsInv(s)
    ensures RefundsInv(Handle(s, c).0)
  {
    var s' := Handle(s, c).0;
    if !c.CallCreateRefund? {
      OtherCallFrames(s, c);
    }
    forall id | id in s'.transactions
      ensures id < s'.next && RefundInv(s', id)
    {
      if c.CallCreateRefund? {
        RefundCallKeepsRefund(s, c.transaction, c.refund, c.writes, id);
      } else {
        FrameKeepsRefund(s, s', id);
      }
    }
    forall k | k in s'.refunds
      ensures RefundRowInv(s', k)
    {
      if c.CallCreateRefund? {
        RefundCallKeepsRow(s, c.transaction, c.refund, c.writes, k);
      } else {
        FrameKeepsRow(s, s', k);
      }
    }
  }

  lemma {:induction false} RunKeepsRefunds(calls: seq<Call>)
    ensures SessionsInv(Run(calls)) && RefundsInv(Run(calls))
  {
    RunKeepsSessions(calls);
    if calls != [] {
      RunKeepsRefunds(calls[..|calls| - 1]);
      CallKeepsRefunds(Run(calls[..|calls| - 1]), calls[|calls| - 1]);
    }
  }

  /** Whatever stops where, completed refunds never sum to more than the transaction amount. */
  lemma NeverOverRefunded(calls: seq<Call>, id: nat)
    requires id in Run(calls).transactions
    ensures 0 <= TotalRefunded(Run(calls), id) <= Run(calls).transactions[id].amount
  {
    RunKeepsRefunds(calls);
    assert RefundInv(Run(calls), id);
  }

  /** The row that a refund call adds, in terms of what is left of the transaction before. */
  lemma RefundAdds(s: Store, id: nat, amount: Option<int>, writes: nat)
    requires s.next !in s.refunds
    ensures var (s', result) := CreateRefund(s, id, amount, writes);
            && (result.Success? <==>
                  && id in s.transactions && s.transactions[id].status == Captured && writes >= 2
                  && (amount.Some? ==> 0 < amount.value <= s.transactions[id].amount - TotalRefunded(s, id)))
            && (result.Success? ==>
                  && result.value == s.next && s'.refunds.Keys == s.refunds.Keys + {s.next}
                  && s'.refunds[s.next] == Refund(id, s.transactions[id].merchant,
                       if amount.Some? then amount.value else s.transactions[id].amount - TotalRefunded(s, id),
                       s.transactions[id].currency, RefundCompleted))
  {
  }

  /** A refund call succeeds exactly on a captured transaction, for a positive amount that is left of it or for all
      that is left, if it gets through both its writes. It has then added one completed refund of the transaction's
      merchant and currency, has paid what was asked or all that was left, and leaves the status "refunded" exactly when
      the refunds now sum to the amount, else "partially_refunded". */
  lemma RefundSucceeds(calls: seq<Call>, id: nat, amount: Option<int>, writes: nat)
    ensures var s, (s', result) := Run(calls), CreateRefund(Run(calls), id, amount, writes);
            && (result.Success? <==>
                  && id in s.transactions && s.transactions[id].status == Captured && writes >= 2
                  && (amount.Some? ==> 0 < amount.value <= s.transactions[id].amount - TotalRefunded(s, id)))
            && (result.Success? ==>
                  && id in s'.transactions
                  && result.value !in s.refunds && s'.refunds.Keys == s.refunds.Keys + {result.value}
                  && s'.refunds[result.value] == Refund(id, s.transactions[id].merchant, TotalRefunded(s', id) - TotalRefunded(s, id),
                                                        s.transactions[id].currency, RefundCompleted)
                  && TotalRefunded(s', id) == (if amount.Some? then TotalRefunded(s, id) + amount.value else s.transactions[id].amount)
                  && (s'.transactions[id].status == Refunded <==> TotalRefunded(s', id) == s'.transactions[id].amount)
                  && (s'.transactions[id].status == PartiallyRefunded <==> TotalRefunded(s', id) < s'.transactions[id].amount))
  {
    RunKeepsRefunds(calls);
    var s := Run(calls);
    assert s.next in s.refunds ==> RefundRowInv(s, s.next);
    assert id in s.transactions ==> RefundInv(s, id);
    RefundAdds(s, id, amount, writes);
    TotalAfter(s, CallCreateRefund(id, amount, writes), id);
  }

  /** Why a refund call fails; it has then changed no row unless it was stopped. */
  lemma RefundFails(calls: seq<Call>, id: nat, amount: Option<int>, writes: nat)
    ensures var s, (s', result) := Run(calls), CreateRefund(Run(calls), id, amount, writes);
            && (result == Failure(InvalidInput) <==> amount.Some? && amount.value <= 0)
            && (result == Failure(NotFound) <==> (amount.Some? ==> amount.value > 0) && id !in s.transactions)
            && (result == Failure(NotCaptured) <==>
                (amount.Some? ==> amount.value > 0) && id in s.transactions && s.transactions[id].status != Captured)
            && (result == Failure(ExceedsBalance) <==>
                amount.Some? && amount.value > 0 && id in s.transactions && s.transactions[id].status == Captured
                && TotalRefunded(s, id) + amount.value > s.transactions[id].amount)
            && (result.Failure? && result.error != Stopped ==> s' == s)
            && s'.sessions == s.sessions && s'.transactions.Keys == s.transactions.Keys
            && (forall other :: other in s.transactions && other != id ==> s'.transactions[other] == s.transactions[other])
  {
  }

  // ---------- How many refund rows a transaction gets ----------

  predicate OneRow(s: Store, id: nat) {
    forall k, l :: k in s.refunds && l in s.refunds && s.refunds[k].transaction == id == s.refunds[l].transaction ==> k == l
  }

  predicate HasRow(s: Store, id: nat) {
    exists k :: k in s.refunds && s.refunds[k].transaction == id
  }

  /** A refund row exists, but the transaction still says "captured". */
  predicate HalfDone(s: Store, id: nat) {
    id in s.transactions && s.transactions[id].status == Captured && HasRow(s, id)
  }

  /** The call passes every check of refund.create on this transaction, and is not stopped before its first write. */
  predicate WritesRow(s: Store, c: Call, id: nat) {
    && c.CallCreateRefund? && c.transaction == id && c.writes >= 1
    && id in s.transactions && s.transactions[id].status == Captured
    && (c.refund.Some? ==> 0 < c.refund.value <= s.transactions[id].amount - TotalRefunded(s, id))
  }

  /** One more row, with the next id. */
  predicate OneMoreRow(s: Store, s': Store) {
    && s'.refunds.Keys == s.refunds.Keys + {s.next}
    && forall k :: k in s.refunds ==> s'.refunds[k] == s.refunds[k]
  }

  lemma RefundWritesRow(s: Store, transaction: nat, amount: Option<int>, writes: nat)
    requires s.next !in s.refunds && (transaction in s.transactions ==> RefundInv(s, transaction))
    ensures var c, s' := CallCreateRefund(transaction, amount, writes), CreateRefund(s, transaction, amount, writes).0;
            if WritesRow(s, c, transaction) then OneMoreRow(s, s') && s'.refunds[s.next].transaction == transaction
            else s'.refunds == s.refunds
  {
  }

  /** The rows of a transaction after a call: the old ones, and one more exactly if the call writes it. */
  lemma RowsAfter(s: Store, c: Call, id: nat)
    requires RefundsInv(s)
    ensures var s' := Handle(s, c).0;
            && s.next !in s.refunds
            && (s'.refunds == s.refunds || OneMoreRow(s, s'))
            && (WritesRow(s, c, id) <==> s.next in s'.refunds && s'.refunds[s.next].transaction == id)
  {
    assert s.next in s.refunds ==> RefundRowInv(s, s.next);
    if c.CallCreateRefund? {
      RefundWritesRow(s, c.transaction, c.refund, c.writes);
    }
  }

  lemma OneRowAfter(s: Store, c: Call, id: nat)
    requires RefundsInv(s)
    ensures OneRow(Handle(s, c).0, id) <==> OneRow(s, id) && !(HasRow(s, id) && WritesRow(s, c, id))
  {
    var s' := Handle(s, c).0;
    RowsAfter(s, c, id);
    if HasRow(s, id) && WritesRow(s, c, id) {
      var k :| k in s.refunds && s.refunds[k].transaction == id;
      assert k in s'.refunds && s.next in s'.refunds && k != s.next;
    }
  }

  lemma NewRowsAfter(s: Store, c: Call, id: nat)
    requires RefundsInv(s)
    ensures WritesRow(s, c, id) <==>
            exists k :: k in Handle(s, c).0.refunds && k !in s.refunds && Handle(s, c).0.refunds[k].transaction == id
  {
    RowsAfter(s, c, id);
  }

  /** A call leaves a transaction with at most one row exactly if it had at most one and the call does not write a
      row while another refund of the transaction is half done. */
  lemma SecondRowExactlyWhenHalfDone(calls: seq<Call>, c: Call, id: nat)
    ensures var s, s' := Run(calls), Handle(Run(calls), c).0;
            && (WritesRow(s, c, id) <==> exists k :: k in s'.refunds && k !in s.refunds && s'.refunds[k].transaction == id)
            && (OneRow(s', id) <==> OneRow(s, id) && !(HalfDone(s, id) && WritesRow(s, c, id)))
  {
    RunKeepsRefunds(calls);
    OneRowAfter(Run(calls), c, id);
    NewRowsAfter(Run(calls), c, id);
  }

  lemma HasRowAfter(s: Store, c: Call, id: nat)
    requires RefundsInv(s)
    ensures HasRow(Handle(s, c).0, id) <==> HasRow(s, id) || WritesRow(s, c, id)
  {
    RowsAfter(s, c, id);
    if HasRow(s, id) {
      var k :| k in s.refunds && s.refunds[k].transaction == id;
      assert k in Handle(s, c).0.refunds;
    }
  }

  lemma CapturedAfter(s: Store, c: Call, id: nat)
    requires id in s.transactions && id < s.next
    ensures id in Handle(s, c).0.transactions
    ensures Handle(s, c).0.transactions[id].status == Captured <==>
            s.transactions[id].status == Captured && !(WritesRow(s, c, id) && c.writes >= 2)
  {
  }

  /** A refund becomes half done exactly by a call that stops between its two writes, and stays so exactly until
      a call gets through both. */
  lemma HalfDoneAfter(calls: seq<Call>, c: Call, id: nat)
    ensures var s, s' := Run(calls), Handle(Run(calls), c).0;
            HalfDone(s', id) <==> if WritesRow(s, c, id) then c.writes == 1 else HalfDone(s, id)
  {
    RunKeepsRefunds(calls);
    HasRowAfter(Run(calls), c, id);
    if id in Run(calls).transactions {
      CapturedAfter(Run(calls), c, id);
    } else {
      NoRowOfUnknown(Run(calls), id);
    }
  }

  /** The n-th call writes a row for a transaction whose refund is half done. */
  predicate WritesSecondRow(calls: seq<Call>, n: nat, id: nat)
    requires n < |calls|
  {
    HalfDone(Run(calls[..n]), id) && WritesRow(Run(calls[..n]), calls[n], id)
  }

  lemma SameInPrefix(calls: seq<Call>, n: nat, id: nat)
    requires n < |calls| - 1
    ensures WritesSecondRow(calls[..|calls| - 1], n, id) <==> WritesSecondRow(calls, n, id)
  {
    assert calls[..|calls| - 1][..n] == calls[..n];
  }

  /** Over a whole run, a transaction has at most one refund row exactly if no call wrote a row while another
      refund of it was half done. */
  lemma {:induction false} OneRowExactlyUnlessHalfDone(calls: seq<Call>, id: nat)
    ensures OneRow(Run(calls), id) <==> forall n :: 0 <= n < |calls| ==> !WritesSecondRow(calls, n, id)
  {
    if calls != [] {
      var before, last := calls[..|calls| - 1], |calls| - 1;
      OneRowExactlyUnlessHalfDone(before, id);
      SecondRowExactlyWhenHalfDone(before, calls[last], id);
      forall n | 0 <= n < last
        ensures WritesSecondRow(before, n, id) <==> WritesSecondRow(calls, n, id)
      {
        SameInPrefix(calls, n, id);
      }
      assert calls[..last] == before;
      assert WritesSecondRow(calls, last, id) <==> HalfDone(Run(before), id) && WritesRow(Run(before), calls[last], id);
      assert OneRow(Run(before), id) <==> forall n :: 0 <= n < last ==> !WritesSecondRow(calls, n, id);
    }
  }

  /** No refund call on this transaction stops between its two writes. */
  predicate Uninterrupted(calls: seq<Call>, id: nat) {
    forall n :: 0 <= n < |calls| && calls[n].CallCreateRefund? && calls[n].transaction == id ==> calls[n].writes != 1
  }

  lemma {:induction false} UninterruptedIsNeverHalfDone(calls: seq<Call>, id: nat)
    requires Uninterrupted(calls, id)
    ensures !HalfDone(Run(calls), id)
  {
    if calls != [] {
      UninterruptedIsNeverHalfDone(calls[..|calls| - 1], id);
      HalfDoneAfter(calls[..|calls| - 1], calls[|calls| - 1], id);
    }
  }

  /** If no refund call on a transaction stops between its writes, it has at most one refund row, and none unless
      it is refunded or partially refunded. */
  lemma OneRefundRow(calls: seq<Call>, id: nat)
    requires Uninterrupted(calls, id)
    ensures OneRow(Run(calls), id)
    ensures HasRow(Run(calls), id) ==>
              id in Run(calls).transactions
              && (Run(calls).transactions[id].status == Refunded || Run(calls).transactions[id].status == PartiallyRefunded)
  {
    forall n | 0 <= n < |calls|
      ensures !HalfDone(Run(calls[..n]), id)
    {
      UninterruptedIsNeverHalfDone(calls[..n], id);
    }
    OneRowExactlyUnlessHalfDone(calls, id);
    UninterruptedIsNeverHalfDone(calls, id);
    RunKeepsRefunds(calls);
    if HasRow(Run(calls), id) {
      var k :| k in Run(calls).refunds && Run(calls).refunds[k].transaction == id;
      assert RefundRowInv(Run(calls), k);
    }
  }

  lemma RunAppend(calls: seq<Call>, c: Call)
    ensures Run(calls + [c]) == Handle(Run(calls), c).0
  {
    assert (calls + [c])[..|calls|] == calls;
  }

  /** An interruption between the two writes is what lets a second row in: the status still says "captured". */
  lemma InterruptionAllowsSecondRow()
    ensures exists calls, k, l :: k != l && k in Run(calls).refunds && l in Run(calls).refunds
                                  && Run(calls).refunds[k].transaction == Run(calls).refunds[l].transaction
  {
    var c0 := CallCreateSession(Some(Merchant(0, true)), 10, "NGN", 0, 1);
    var c1 := CallProcessPayment(0, Card, 0, 3);
    var c2 := CallCreateRefund(1, Some(4), 1);
    RunAppend([], c0);
    RunAppend([] + [c0], c1);
    RunAppend([] + [c0] + [c1], c2);
    RunAppend([] + [c0] + [c1] + [c2], c2);
    var s := Run([] + [c0] + [c1]);
    assert s.transactions == map[1 := Transaction(0, 0, 10, "NGN", Captured, Card)] && s.refunds == map[] && s.next == 2;
    NoRefundsNoTotal(s.refunds, s.next, 1);
    var once := Run([] + [c0] + [c1] + [c2]);
    assert once.refunds == map[2 := Refund(1, 0, 4, "NGN", RefundCompleted)] && once.next == 3;
    RunKeepsRefunds([] + [c0] + [c1]);
    TotalAfter(s, c2, 1);
    var twice := Run([] + [c0] + [c1] + [c2] + [c2]);
    assert 2 in twice.refunds && 3 in twice.refunds && twice.refunds[2].transaction == twice.refunds[3].transaction;
  }
}
