/** The lockout counter of auth.localLogin on one credential, with calls handled one at a time by a clock that
    does not run backwards. Times are in milliseconds. */
module LoginLockout {
  import opened Wrappers

  const LOCK_MS := 15 * 60 * 1000

  datatype Credential = Credential(failedAttempts: nat, lockedUntil: Option<int>)

  /** A call reads the clock when it checks the lock, and again when it records a failed check. */
  datatype Call = Call(checkedAt: int, recordedAt: int, passwordMatches: bool)

  datatype Response = LockedOut | WrongPassword | SignedIn

  predicate Locked(c: Credential, now: int) {
    c.lockedUntil.Some? && c.lockedUntil.value > now
  }

  function Login(c: Credential, call: Call): (Credential, Response) {
    if Locked(c, call.checkedAt) then (c, LockedOut)
    else if call.passwordMatches then (Credential(0, None), SignedIn)
    else
      (Credential(c.failedAttempts + 1, if c.failedAttempts + 1 >= 5 then Some(call.recordedAt + LOCK_MS) else None),
       WrongPassword)
  }

  class CredentialRow {
    var failedAttempts: nat
    var lockedUntil: Option<int>

    constructor ()
      ensures State() == Credential(0, None)
    {
      failedAttempts, lockedUntil := 0, None;
    }

    function State(): Credential
      reads this
    {
      Credential(failedAttempts, lockedUntil)
    }

    /** localLogin from the lock check on; `passwordMatches` stands for verifyLocalPassword. */
    method LocalLogin(call: Call) returns (response: Response)
      modifies this
      ensures (State(), response) == Login(old(State()), call)
    {
      if lockedUntil.Some? && lockedUntil.value > call.checkedAt {
        return LockedOut;
      }
      if !call.passwordMatches {
        var attempts := failedAttempts + 1;
        failedAttempts := attempts;
        lockedUntil := if attempts >= 5 then Some(call.recordedAt + 15 * 60 * 1000) else None;
        return WrongPassword;
      }
      failedAttempts, lockedUntil := 0, None;
      return SignedIn;
    }
  }

  /** The record after a run of calls, and the times at which a wrong password was checked since a right one was. */
  datatype History = History(credential: Credential, failures: seq<int>)

  const UNTRIED := History(Credential(0, None), [])

  function Run(calls: seq<Call>): History {
    if calls == [] then UNTRIED
    else
      var h, call := Run(calls[..|calls| - 1]), calls[|calls| - 1];
      History(Login(h.credential, call).0,
              if Locked(h.credential, call.checkedAt) then h.failures
              else if call.passwordMatches then []
              else h.failures + [call.recordedAt])
  }

  /** One call after the other, by a clock that does not run backwards. */
  predicate InOrder(calls: seq<Call>) {
    && (forall i :: 0 <= i < |calls| ==> calls[i].checkedAt <= calls[i].recordedAt)
    && (forall i, j :: 0 <= i < j < |calls| ==> calls[i].recordedAt <= calls[j].checkedAt)
  }

  /** The record counts the failures and, from the fifth on, is locked for 15 minutes after the last one. */
  predicate RecordAgrees(h: History) {
    && h.credential.failedAttempts == |h.failures|
    && h.credential.lockedUntil == (if |h.failures| >= 5 then Some(h.failures[|h.failures| - 1] + LOCK_MS) else None)
  }

  /** From the fifth on, failures are at least 15 minutes apart. */
  predicate Spaced(failures: seq<int>) {
    forall k :: 5 <= k < |failures| ==> failures[k] >= failures[k - 1] + LOCK_MS
  }

  lemma {:induction false} RunKeepsRecord(calls: seq<Call>)
    requires InOrder(calls)
    ensures RecordAgrees(Run(calls)) && Spaced(Run(calls).failures)
  {
    if calls != [] {
      RunKeepsRecord(calls[..|calls| - 1]);
    }
  }

  lemma {:induction false} SpacedAdds(failures: seq<int>, k: nat)
    requires Spaced(failures) && 5 <= k <= |failures|
    ensures failures[k - 1] >= failures[4] + LOCK_MS * (k - 5)
  {
    if k > 5 {
      SpacedAdds(failures, k - 1);
    }
  }

  /** Over every run: the k-th failed check since the last success, for k at least 5, comes no earlier than
      15 * (k - 5) minutes after the fifth. */
  lemma GuessingIsSlow(calls: seq<Call>, k: nat)
    requires InOrder(calls) && 5 <= k <= |Run(calls).failures|
    ensures Run(calls).failures[k - 1] >= Run(calls).failures[4] + 15 * 60 * 1000 * (k - 5)
  {
    RunKeepsRecord(calls);
    SpacedAdds(Run(calls).failures, k);
  }

  /** A call is refused by the lock, whatever its password, exactly when five or more checks have failed since
      the last success and the last of them is less than 15 minutes ago; it then leaves the record unchanged. */
  lemma RefusedExactlyWhileLocked(calls: seq<Call>, call: Call)
    requires InOrder(calls)
    ensures var h := Run(calls);
            && (Login(h.credential, call).1 == LockedOut <==>
                |h.failures| >= 5 && call.checkedAt < h.failures[|h.failures| - 1] + 15 * 60 * 1000)
            && (Login(h.credential, call).1 == LockedOut ==> Login(h.credential, call).0 == h.credential)
  {
    RunKeepsRecord(calls);
  }

  /** Over every run: a call signs in exactly if the lock does not refuse it and the password matches, and is told
      that it is wrong exactly if the lock does not refuse it and the password does not match. The record then counts
      the wrong passwords since the last right one, and is locked from the fifth on. */
  lemma AnsweredByPassword(calls: seq<Call>, call: Call)
    requires InOrder(calls)
    ensures var h := Run(calls);
            var refused := |h.failures| >= 5 && call.checkedAt < h.failures[|h.failures| - 1] + 15 * 60 * 1000;
            var (record, response) := Login(h.credential, call);
            && (response == SignedIn <==> !refused && call.passwordMatches)
            && (response == WrongPassword <==> !refused && !call.passwordMatches)
            && (response == SignedIn ==> record == Credential(0, None))
            && (response == WrongPassword ==>
                  && record.failedAttempts == |h.failures| + 1
                  && record.lockedUntil == (if |h.failures| >= 4 then Some(call.recordedAt + 15 * 60 * 1000) else None))
  {
    RunKeepsRecord(calls);
  }
}
