/** execute_payment on one connection: the statements in their order, the rollback paths and the
    lock-retry loop, while other connections commit payments whenever this one does not hold the lock. Each call
    is the serial transaction of PaymentTables, or changes nothing. */
module PaymentDatabase {
  import opened Wrappers
  import opened PaymentTables
  import opened PaymentThreads
  import opened PaymentInvariants
  import opened PaymentDrivers

  datatype SqlError = IntegrityError | OperationalError(locked: bool)

  /** What the engine does at one statement: execute it, or raise an operational error, which may also roll
      the open transaction back. */
  datatype Signal = Execute | Refuse(locked: bool, aborts: bool)

  /** Every attempt that an error ended was tried again exactly if the error said "locked" and an attempt was left: only
      the last error can be another, or the last of all the attempts allowed, and then it is the one reported. */
  predicate Retried(errors: seq<bool>, answer: Answer, maxRetries: nat) {
    if answer.OperationalFailure? then
      && 0 < |errors| == answer.attempt <= maxRetries
      && errors == seq(|errors| - 1, _ => true) + [answer.locked]
      && (answer.locked ==> |errors| == maxRetries)
    else
      && errors == seq(|errors|, _ => true)
      && (answer.AnsweredCommitted? ==> |errors| == answer.lockRetries)
  }

  function Flat(lists: seq<seq<Request>>): seq<Request> {
    if lists == [] then [] else lists[0] + Flat(lists[1..])
  }

  class Connection {
    var committed: Tables
    var working: Tables      // what the open transaction sees
    var open: bool           // BEGIN IMMEDIATE succeeded and nothing ended the transaction yet
    var signals: seq<Signal> // for the next statements; the statements after them execute
    var others: seq<seq<Request>> // what other connections commit before this one's next attempts to get the lock
    ghost var seen: seq<Request>  // what they have committed
    ghost var ended: seq<bool>    // for each attempt that an operational error has ended, whether it said "locked"

    constructor (tables: Tables, signals: seq<Signal>, others: seq<seq<Request>>)
      ensures committed == tables && !open && this.signals == signals && this.others == others && seen == [] && ended == []
    {
      committed, working, open := tables, tables, false;
      this.signals, this.others, seen, ended := signals, others, [], [];
    }

    /** All that other connections commit: what they have committed, and what is still to come. */
    ghost function Foreign(): seq<Request>
      reads this
    {
      seen + Flat(others)
    }

    /** The tables t with what other connections have committed since they had committed s. */
    ghost function Since(t: Tables, s: seq<Request>): Tables
      requires s <= seen
      reads this
    {
      SerialRun(t, seen[|s|..])
    }

    /** No statement to come raises an operational error. */
    predicate Calm()
      reads this
    {
      forall i :: 0 <= i < |signals| ==> signals[i] == Execute
    }

    /** Every operational error to come says "locked" and ends the transaction. */
    predicate Locking()
      reads this
    {
      forall i :: 0 <= i < |signals| && signals[i].Refuse? ==> signals[i].locked && signals[i].aborts
    }

    /** No operational error to come says "locked". */
    predicate NeverLocking()
      reads this
    {
      forall i :: 0 <= i < |signals| && signals[i].Refuse? ==> !signals[i].locked
    }

    /** The transaction is open and about to execute the statement `pc`. */
    ghost predicate At(pc: Pc, r: Request)
      reads this
    {
      open && NonNegative(committed) && InTransaction(pc) && Midway(pc, committed, working, r)
    }

    method Engine() returns (c: Check<SqlError>)
      modifies this
      ensures seen == old(seen) && others == old(others) && ended == old(ended)
      ensures committed == old(committed) && working == old(working)
      ensures c.Pass? ==> open == old(open)
      ensures c.Fail? ==> c.error.OperationalError? && (open ==> old(open))
      ensures old(Calm()) ==> c.Pass? && Calm()
      ensures old(Locking()) ==> Locking() && (c.Fail? ==> c.error.locked && !open)
      ensures old(NeverLocking()) ==> NeverLocking() && (c.Fail? ==> !c.error.locked)
    {
      c := Pass;
      if signals != [] {
        var signal := signals[0];
        signals := signals[1..];
        if signal.Refuse? {
          c := Fail(OperationalError(signal.locked));
          if signal.aborts {
            open := false;
          }
        }
      }
    }

    method BeginImmediate() returns (c: Check<SqlError>)
      modifies this
      ensures old(seen) <= seen && Foreign() == old(Foreign()) && committed == Since(old(committed), old(seen))
      ensures ended == old(ended)
      ensures c.Pass? ==> open && !old(open) && working == committed
      ensures c.Fail? ==> c.error.OperationalError?
      ensures old(Calm()) ==> Calm() && (c.Pass? || old(open))
      ensures old(Locking() && !open) ==> Locking() && (c.Fail? ==> c.error.locked && !open)
      ensures old(NeverLocking()) ==> NeverLocking() && (c.Fail? ==> !c.error.locked)
    {
      if !open && others != [] {
        committed, seen, others := SerialRun(committed, others[0]), seen + others[0], others[1..];
      }
      c := Engine();
      if c.Pass? {
        if open {
          c := Fail(OperationalError(false)); // cannot start a transaction within a transaction
        } else {
          open, working := true, committed;
        }
      }
    }

    method Rollback() returns (c: Check<SqlError>)
      modifies this
      ensures seen == old(seen) && others == old(others) && ended == old(ended)
      ensures committed == old(committed)
      ensures c.Pass? ==> !open
      ensures c.Fail? ==> c.error.OperationalError?
      ensures old(Calm()) ==> Calm() && !open && (c.Pass? || !old(open))
      ensures old(Locking()) ==> Locking() && !open && (old(open) && c.Fail? ==> c.error.locked)
      ensures old(NeverLocking()) ==> NeverLocking() && (c.Fail? ==> !c.error.locked)
    {
      c := Engine();
      if c.Pass? {
        if open {
          open := false;
        } else {
          c := Fail(OperationalError(false)); // no transaction is active
        }
      }
    }

    method Commit() returns (c: Check<SqlError>)
      requires open
      modifies this
      ensures seen == old(seen) && others == old(others) && ended == old(ended)
      ensures c.Pass? ==> !open && committed == old(working)
      ensures c.Fail? ==> committed == old(committed) && c.error.OperationalError?
      ensures old(Calm()) ==> Calm() && c.Pass?
      ensures old(Locking()) ==> Locking() && (c.Fail? ==> c.error.locked && !open)
      ensures old(NeverLocking()) ==> NeverLocking() && (c.Fail? ==> !c.error.locked)
    {
      c := Engine();
      if c.Pass? {
        committed, open := working, false;
      }
    }

    /** Puts the outcome of an INSERT or UPDATE in place, unless the engine refuses or a constraint fails. */
    method Update(updated: Option<Tables>) returns (c: Check<SqlError>)
      requires open
      modifies this
      ensures seen == old(seen) && others == old(others) && ended == old(ended)
      ensures committed == old(committed)
      ensures c.Pass? ==> open && updated.Some? && working == updated.value
      ensures c.Fail? && c.error.IntegrityError? ==> open && updated.None? && working == old(working)
      ensures old(Calm()) ==> Calm() && (c.Fail? ==> c.error.IntegrityError?)
      ensures old(Locking()) ==> Locking() && (c.Fail? && c.error.OperationalError? ==> c.error.locked && !open)
      ensures old(NeverLocking()) ==> NeverLocking() && (c.Fail? && c.error.OperationalError? ==> !c.error.locked)
    {
      c := Engine();
      if c.Pass? {
        if updated.None? {
          c := Fail(IntegrityError);
        } else {
          working := updated.value;
        }
      }
    }

    /** An INSERT or UPDATE of the transaction, from what it expects to what the next statement expects. */
    method Perform(ghost pc: Pc, ghost next: Pc, r: Request, updated: Option<Tables>) returns (c: Check<SqlError>)
      requires At(pc, r) && !Ends(pc) && Statement(pc, working, r) == AfterUpdate(updated, working, next)
      modifies this
      ensures seen == old(seen) && others == old(others) && ended == old(ended) && committed == old(committed)
      ensures c.Pass? ==> At(next, r)
      ensures c.Fail? && c.error.IntegrityError? ==> updated.None? && open && Serial(committed, r) == (committed, AlreadyExists)
      ensures old(Calm()) ==> Calm() && (c.Fail? ==> c.error.IntegrityError?)
      ensures old(Locking()) ==> Locking() && (c.Fail? && c.error.OperationalError? ==> c.error.locked && !open)
      ensures old(NeverLocking()) ==> NeverLocking() && (c.Fail? && c.error.OperationalError? ==> !c.error.locked)
    {
      Advanced(pc, r);
      c := Update(updated);
    }

    /** The body of the try block, with a record of the error that ends it. */
    method Attempt(r: Request, attempt: nat, lockRetries: nat) returns (result: Result<Answer, SqlError>)
      requires NonNegative(committed)
      modifies this
      ensures old(seen) <= seen && Foreign() == old(Foreign())
      ensures result.Success? ==>
                && !open && result.value.Decided()
                && Serial(Since(old(committed), old(seen)), r) == (committed, result.value.Outcome())
                && (result.value.Answered? ==> result.value.outcome != Committed)
                && (result.value.AnsweredCommitted? ==> result.value == AnsweredCommitted(attempt + 1, lockRetries))
      ensures result.Failure? ==> committed == Since(old(committed), old(seen))
      ensures result.Failure? && result.error.IntegrityError? ==> open && Serial(committed, r) == (committed, AlreadyExists)
      ensures ended == old(ended) + if result.Failure? && result.error.OperationalError? then [result.error.locked] else []
      ensures old(Calm() && !open) ==> Calm() && (result.Failure? ==> result.error.IntegrityError?)
      ensures old(Locking() && !open) ==> Locking() && (result.Failure? && result.error.OperationalError? ==> result.error.locked && !open)
      ensures old(NeverLocking()) ==> NeverLocking() && (result.Failure? && result.error.OperationalError? ==> !result.error.locked)
    {
      result := Statements(r, attempt, lockRetries);
      if result.Failure? && result.error.OperationalError? {
        ended := ended + [result.error.locked];
      }
    }

    /** The statements of the try block. */
    method Statements(r: Request, attempt: nat, lockRetries: nat) returns (result: Result<Answer, SqlError>)
      requires NonNegative(committed)
      modifies this
      ensures old(seen) <= seen && Foreign() == old(Foreign())
      ensures result.Success? ==>
                && !open && result.value.Decided()
                && Serial(Since(old(committed), old(seen)), r) == (committed, result.value.Outcome())
                && (result.value.Answered? ==> result.value.outcome != Committed)
                && (result.value.AnsweredCommitted? ==> result.value == AnsweredCommitted(attempt + 1, lockRetries))
      ensures result.Failure? ==> committed == Since(old(committed), old(seen))
      ensures result.Failure? && result.error.IntegrityError? ==> open && Serial(committed, r) == (committed, AlreadyExists)
      ensures ended == old(ended)
      ensures old(Calm() && !open) ==> Calm() && (result.Failure? ==> result.error.IntegrityError?)
      ensures old(Locking() && !open) ==> Locking() && (result.Failure? && result.error.OperationalError? ==> result.error.locked && !open)
      ensures old(NeverLocking()) ==> NeverLocking() && (result.Failure? && result.error.OperationalError? ==> !result.error.locked)
    {
      var begin := BeginImmediate();
      if begin.Fail? {
        return Failure(begin.error);
      }
      SerialRunKeepsNonNegative(old(committed), seen[|old(seen)|..]);
      :- Engine();
      if r.workflow in working.workflows {
        var status := working.workflows[r.workflow].status;
        :- Rollback();
        return Success(Answered(Replayed(status)));
      }
      result := Recording(r, attempt, lockRetries);
    }

    /** The rest of the try block, once the workflow is known to be new. */
    method Recording(r: Request, attempt: nat, lockRetries: nat) returns (result: Result<Answer, SqlError>)
      requires At(WorkflowInsert, r)
      modifies this
      ensures seen == old(seen) && others == old(others) && ended == old(ended)
      ensures result.Success? ==>
                && !open && result.value.Decided()
                && Serial(old(committed), r) == (committed, result.value.Outcome())
                && (result.value.Answered? ==> result.value.outcome != Committed)
                && (result.value.AnsweredCommitted? ==> result.value == AnsweredCommitted(attempt + 1, lockRetries))
      ensures result.Failure? ==> committed == old(committed)
      ensures result.Failure? && result.error.IntegrityError? ==> open && Serial(committed, r) == (committed, AlreadyExists)
      ensures old(Calm()) ==> Calm() && (result.Failure? ==> result.error.IntegrityError?)
      ensures old(Locking()) ==> Locking() && (result.Failure? && result.error.OperationalError? ==> result.error.locked && !open)
      ensures old(NeverLocking()) ==> NeverLocking() && (result.Failure? && result.error.OperationalError? ==> !result.error.locked)
    {
      var source := r.source;
      :- Perform(WorkflowInsert, PaymentInsert, r, InsertWorkflow(working, r));
      :- Perform(PaymentInsert, SelectSource, r, InsertPayment(working, r));
      Advanced(SelectSource, r);
      :- Engine();
      if source !in working.accounts || working.accounts[source].balance < r.amount {
        result := Failing(r);
      } else {
        result := Transferring(r, attempt, lockRetries);
      }
    }

    /** The rest of the try block, once the source is known not to hold the amount. */
    method Failing(r: Request) returns (result: Result<Answer, SqlError>)
      requires At(MarkFailed, r)
      modifies this
      ensures seen == old(seen) && others == old(others) && ended == old(ended)
      ensures result.Success? ==>
                !open && result.value == Answered(Insufficient) && Serial(old(committed), r) == (committed, Insufficient)
      ensures result.Failure? ==> committed == old(committed) && result.error.OperationalError?
      ensures old(Calm()) ==> Calm() && result.Success?
      ensures old(Locking()) ==> Locking() && (result.Failure? ==> result.error.locked && !open)
      ensures old(NeverLocking()) ==> NeverLocking() && (result.Failure? ==> !result.error.locked)
    {
      var id := r.workflow;
      :- Perform(MarkFailed, CommitFailed, r, Some(SetWorkflow(working, id, Failed)));
      EndingIsSerial(CommitFailed, committed, working, r);
      :- Commit();
      return Success(Answered(Insufficient));
    }

    /** The rest of the try block, once the source is known to hold the amount. */
    method Transferring(r: Request, attempt: nat, lockRetries: nat) returns (result: Result<Answer, SqlError>)
      requires At(TransferInsert, r)
      modifies this
      ensures seen == old(seen) && others == old(others) && ended == old(ended)
      ensures result.Success? ==>
                && !open && result.value == AnsweredCommitted(attempt + 1, lockRetries)
                && Serial(old(committed), r) == (committed, Committed)
      ensures result.Failure? ==> committed == old(committed)
      ensures result.Failure? && result.error.IntegrityError? ==> open && Serial(committed, r) == (committed, AlreadyExists)
      ensures old(Calm()) ==> Calm() && (result.Failure? ==> result.error.IntegrityError?)
      ensures old(Locking()) ==> Locking() && (result.Failure? && result.error.OperationalError? ==> result.error.locked && !open)
      ensures old(NeverLocking()) ==> NeverLocking() && (result.Failure? && result.error.OperationalError? ==> !result.error.locked)
    {
      var amount := r.amount;
      :- Perform(TransferInsert, Debit, r, InsertTransfer(working, r));
      :- Perform(Debit, Credit, r, AddToBalance(working, r.source, -amount));
      :- Perform(Credit, CompletePayment, r, AddToBalance(working, r.destination, amount));
      result := Completing(r, attempt, lockRetries);
    }

    /** The status updates and the COMMIT, once the money has moved. */
    method Completing(r: Request, attempt: nat, lockRetries: nat) returns (result: Result<Answer, SqlError>)
      requires At(CompletePayment, r)
      modifies this
      ensures seen == old(seen) && others == old(others) && ended == old(ended)
      ensures result.Success? ==>
                && !open && result.value == AnsweredCommitted(attempt + 1, lockRetries)
                && Serial(old(committed), r) == (committed, Committed)
      ensures result.Failure? ==> committed == old(committed) && result.error.OperationalError?
      ensures old(Calm()) ==> Calm() && result.Success?
      ensures old(Locking()) ==> Locking() && (result.Failure? ==> result.error.locked && !open)
      ensures old(NeverLocking()) ==> NeverLocking() && (result.Failure? ==> !result.error.locked)
    {
      var id := r.transaction;
      :- Perform(CompletePayment, CompleteWorkflow, r, Some(SetPayment(working, id, Completed)));
      :- Perform(CompleteWorkflow, CommitCompleted, r, Some(SetWorkflow(working, r.workflow, Completed)));
      EndingIsSerial(CommitCompleted, committed, working, r);
      :- Commit();
      return Success(AnsweredCommitted(attempt + 1, lockRetries));
    }

    /** The statement `pc` leads to the next one, or to the answer for an integrity error. */
    lemma Advanced(pc: Pc, r: Request)
      requires At(pc, r) && !Ends(pc)
      ensures MidwayAfter(pc, committed, working, r)
    {
      StatementKeepsMidway(pc, committed, working, r);
    }

    /** What others commit in one stretch and then in another. */
    lemma SinceSince(t: Tables, s: seq<Request>, s': seq<Request>)
      requires s <= s' <= seen
      ensures Since(t, s) == Since(SerialRun(t, s'[|s|..]), s')
    {
      SerialRunSplit(t, seen[|s|..], |s'| - |s|);
      assert seen[|s|..][..|s'| - |s|] == s'[|s|..];
      assert seen[|s|..][|s'| - |s|..] == seen[|s'|..];
    }

    /** The retry loop: integrity errors answer "already_exists", lock errors are tried again. */
    method RetryLoop(r: Request, maxRetries: nat) returns (answer: Answer)
      requires !open && NonNegative(committed)
      modifies this
      ensures old(seen) <= seen && Foreign() == old(Foreign())
      ensures answer.Decided() ==> Serial(Since(old(committed), old(seen)), r) == (committed, answer.Outcome())
      ensures !answer.Decided() ==> committed == Since(old(committed), old(seen))
      ensures answer.Decided() ==> !open
      ensures CountersTruthful(answer, maxRetries)
      ensures old(Calm()) && maxRetries > 0 ==> answer.Decided()
      ensures old(ended) <= ended && Retried(ended[|old(ended)|..], answer, maxRetries)
      ensures old(Locking()) && answer.OperationalFailure? ==> answer.locked && answer.attempt == maxRetries
      ensures old(NeverLocking()) && answer.OperationalFailure? ==> !answer.locked && answer.attempt == 1
      ensures old(NeverLocking()) && answer.AnsweredCommitted? ==> answer.attempt == 1
    {
      var lockRetries := 0;
      for attempt := 0 to maxRetries
        invariant old(seen) <= seen && Foreign() == old(Foreign()) && committed == Since(old(committed), old(seen))
        invariant lockRetries == attempt && (attempt < maxRetries || maxRetries == 0)
        invariant old(Calm()) ==> attempt == 0 && Calm() && !open
        invariant ended == old(ended) + seq(attempt, _ => true)
        invariant old(Locking()) ==> Locking() && !open
        invariant old(NeverLocking()) ==> attempt == 0 && NeverLocking()
      {
        ghost var before := seen;
        SerialRunKeepsNonNegative(old(committed), seen[|old(seen)|..]);
        var result := Attempt(r, attempt, lockRetries);
        SinceSince(old(committed), old(seen), before);
        if result.Success? {
          return result.value;
        }
        var rollback := Rollback();
        if result.error.IntegrityError? {
          if rollback.Fail? {
            return Raised;
          }
          return Answered(AlreadyExists);
        }
        if !result.error.locked || attempt == maxRetries - 1 {
          return OperationalFailure(result.error.locked, attempt + 1, lockRetries);
        }
        lockRetries := lockRetries + 1;
      }
      return RetryExhausted(lockRetries);
    }

    /** execute_payment: with whatever other connections commit before it and between its attempts, the call is the
        serial transaction after theirs, with the serial answer, or it has changed nothing; without operational
        errors it is always the former. If all errors are lock errors that end the transaction, it fails only after its
        last attempt; if none is a lock error, there is one attempt. */
    method ExecutePayment(r: Request, maxRetries: nat) returns (answer: Answer)
      requires !open && NonNegative(committed)
      modifies this
      ensures !open && NonNegative(committed)
      ensures old(seen) <= seen && Foreign() == old(Foreign())
      ensures if answer.Decided()
              then Serial(Since(old(committed), old(seen)), r) == (committed, answer.Outcome())
              else committed == Since(old(committed), old(seen))
      ensures CountersTruthful(answer, maxRetries)
      ensures old(Calm()) && maxRetries > 0 ==> answer.Decided()
      ensures old(ended) <= ended && Retried(ended[|old(ended)|..], answer, maxRetries)
      ensures old(Locking()) && answer.OperationalFailure? ==> answer.locked && answer.attempt == maxRetries
      ensures old(NeverLocking()) && answer.OperationalFailure? ==> !answer.locked && answer.attempt == 1
      ensures old(NeverLocking()) && answer.AnsweredCommitted? ==> answer.attempt == 1
    {
      answer := RetryLoop(r, maxRetries);
      SerialRunKeepsNonNegative(old(committed), seen[|old(seen)|..]);
      SerialKeepsNonNegative(Since(old(committed), old(seen)), r);
      open := false; // finally: conn.close()
    }

    // ---------- run_spike's accounts ----------

    /** INSERT OR IGNORE INTO accounts, outside any transaction. */
    method InsertAccountOrIgnore(id: string, balance: nat)
      requires !open
      modifies this`committed
      ensures committed == OpenAccount(old(committed), id, balance)
    {
      if id !in committed.accounts {
        committed := committed.(accounts := committed.accounts[id := Account(balance, "NGN")]);
      }
    }

    /** The account loop of run_spike: both accounts of every pair exist afterwards, and an account that
        existed before keeps its balance. */
    method SeedSpikeAccounts(accounts: nat)
      requires !open && NonNegative(committed)
      modifies this`committed
      ensures NonNegative(committed)
      ensures Seeded(old(committed), committed, accounts)
    {
      NothingSeeded(committed);
      for i := 0 to accounts
        invariant Seeded(old(committed), committed, i)
      {
        SeededOneMore(old(committed), committed, i);
        InsertAccountOrIgnore(Source(i), 100000);
        InsertAccountOrIgnore(Destination(i), 0);
      }
      SeededKeepsNonNegative(old(committed), committed, accounts);
    }
  }

  /** A caller alone on a database that raises no operational error: exactly the serial transaction. */
  method PayAlone(t: Tables, r: Request, maxRetries: nat) returns (t': Tables, answer: Answer)
    requires NonNegative(t) && maxRetries > 0
    ensures answer.Decided() && Serial(t, r) == (t', answer.Outcome())
  {
    var c := new Connection(t, [], []);
    answer := c.ExecutePayment(r, maxRetries);
    t' := c.committed;
  }
}
