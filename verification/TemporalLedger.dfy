/** The double-entry ledger behind the two-leg workflow, the four activities, and the workflow itself. */
module TemporalLedger {
  import opened Wrappers

  datatype LedgerAccount = LedgerAccount(ledger: int, debitsPosted: int, creditsPosted: int)

  datatype Transfer = Transfer(id: int, debit: int, credit: int, amount: int, ledger: int, code: int)

  datatype Ledger = Ledger(accounts: map<int, LedgerAccount>, transfers: map<int, Transfer>)

  // ---------- The ledger service ----------

  /** create_accounts for one account; an "exists" error is ignored by the caller. */
  function WithAccount(l: Ledger, id: int, ledger: int): Ledger {
    if id in l.accounts then l else l.(accounts := l.accounts[id := LedgerAccount(ledger, 0, 0)])
  }

  function WithAccounts(l: Ledger, ids: seq<int>, ledger: int): Ledger {
    if ids == [] then l else WithAccount(WithAccounts(l, ids[..|ids| - 1], ledger), ids[|ids| - 1], ledger)
  }

  datatype TransferError = Exists | Refused

  predicate Postable(l: Ledger, t: Transfer) {
    && t.debit in l.accounts && t.credit in l.accounts && t.debit != t.credit
    && l.accounts[t.debit].ledger == t.ledger == l.accounts[t.credit].ledger
    && t.amount > 0
  }

  function Post(l: Ledger, t: Transfer): Ledger
    requires Postable(l, t)
  {
    var from, to := l.accounts[t.debit], l.accounts[t.credit];
    Ledger(l.accounts[t.debit := from.(debitsPosted := from.debitsPosted + t.amount)]
                     [t.credit := to.(creditsPosted := to.creditsPosted + t.amount)],
           l.transfers[t.id := t])
  }

  /** create_transfers for one transfer: an id is posted at most once. */
  function Submitted(l: Ledger, t: Transfer): (Ledger, Option<TransferError>) {
    if t.id in l.transfers then (l, Some(Exists))
    else if !Postable(l, t) then (l, Some(Refused))
    else (Post(l, t), None)
  }

  // ---------- The activities ----------

  datatype TransferStatus = Committed | Rejected | AlreadyExists | UnexpectedlyAccepted

  /** create_transfer: committed if it was posted, now or before, with this very payload. */
  function TransferCreated(l: Ledger, t: Transfer): (Ledger, TransferStatus) {
    var (l', error) := Submitted(l, t);
    match error
    case None => (l', Committed)
    case Some(Exists) => (l', if l'.transfers[t.id] == t then Committed else Rejected)
    case Some(Refused) => (l', Rejected)
  }

  function DuplicateVerified(l: Ledger, t: Transfer): (Ledger, TransferStatus) {
    var (l', error) := Submitted(l, t);
    (l', if error == Some(Exists) then AlreadyExists else UnexpectedlyAccepted)
  }

  /** reconcile_accounts: None stands for the error about an incomplete lookup. */
  function Reconcile(l: Ledger, source: int, clearing: int, beneficiary: int, expected: int): Option<bool> {
    if !(source in l.accounts && clearing in l.accounts && beneficiary in l.accounts) then None
    else
      var s, c, b := l.accounts[source], l.accounts[clearing], l.accounts[beneficiary];
      Some(&& s.debitsPosted == expected && s.creditsPosted == 0
           && c.debitsPosted == expected && c.creditsPosted == expected
           && b.debitsPosted == 0 && b.creditsPosted == expected)
  }

  /** ensure_accounts: the accounts that were missing are there and empty, everything else is as it was. */
  lemma {:induction false} EnsuredExactly(l: Ledger, ids: seq<int>, ledger: int)
    ensures var l' := WithAccounts(l, ids, ledger);
            && l'.transfers == l.transfers
            && (forall a :: a in l'.accounts <==> a in l.accounts || a in ids)
            && (forall a :: a in l'.accounts ==>
                  l'.accounts[a] == if a in l.accounts then l.accounts[a] else LedgerAccount(ledger, 0, 0))
  {
    if ids != [] {
      EnsuredExactly(l, ids[..|ids| - 1], ledger);
      assert forall a :: a in ids <==> a in ids[..|ids| - 1] || a == ids[|ids| - 1];
    }
  }

  /** A transfer that is accepted adds its amount to what the debit account has paid and to what the credit account has
      received; it is refused, or known already, without effect. */
  lemma AcceptedTransferMoves(l: Ledger, t: Transfer)
    ensures var (l', error) := Submitted(l, t);
            && (error == Some(Exists) <==> t.id in l.transfers)
            && (error.Some? ==> l' == l)
            && (error.None? ==>
                  && t.amount > 0 && t.debit != t.credit && t.debit in l.accounts && t.credit in l.accounts
                  && l.accounts[t.debit].ledger == t.ledger && l.accounts[t.credit].ledger == t.ledger
                  && l'.transfers == l.transfers[t.id := t] && l'.accounts.Keys == l.accounts.Keys
                  && forall a :: a in l.accounts ==>
                       && l'.accounts[a].ledger == l.accounts[a].ledger
                       && l'.accounts[a].debitsPosted == l.accounts[a].debitsPosted + (if a == t.debit then t.amount else 0)
                       && l'.accounts[a].creditsPosted == l.accounts[a].creditsPosted + (if a == t.credit then t.amount else 0))
  {
  }

  /** create_transfer answers "committed" exactly if afterwards this very transfer is posted, whoever posted it, else
      "rejected"; verify_duplicate answers "already-exists" exactly if the id was posted before. */
  lemma CommittedExactlyIfPosted(l: Ledger, t: Transfer)
    ensures var (l', status) := TransferCreated(l, t);
            && (status == Committed <==> Recorded(l', t))
            && (status != Committed ==> status == Rejected && l' == l)
            && (DuplicateVerified(l, t).1 == AlreadyExists <==> t.id in l.transfers)
            && (DuplicateVerified(l, t).1 != AlreadyExists ==> DuplicateVerified(l, t).1 == UnexpectedlyAccepted)
  {
  }

  // ---------- The identifiers of a workflow ----------

  function SourceOf(w: nat): int { w * 10 + 1 }
  function ClearingOf(w: nat): int { w * 10 + 2 }
  function BeneficiaryOf(w: nat): int { w * 10 + 3 }

  function FirstLeg(w: nat, amount: int): Transfer {
    Transfer(w * 100 + 1, SourceOf(w), ClearingOf(w), amount, 1, 1)
  }

  function SecondLeg(w: nat, amount: int): Transfer {
    Transfer(w * 100 + 2, ClearingOf(w), BeneficiaryOf(w), amount, 1, 1)
  }

  predicate Owns(w: nat, account: int) {
    account == SourceOf(w) || account == ClearingOf(w) || account == BeneficiaryOf(w)
  }

  /** No leg of the workflow is posted, and no money has passed through its accounts. */
  ghost predicate Fresh(l: Ledger, w: nat) {
    && w * 100 + 1 !in l.transfers && w * 100 + 2 !in l.transfers
    && (forall a :: Owns(w, a) && a in l.accounts ==> l.accounts[a] == LedgerAccount(1, 0, 0))
  }

  ghost predicate HasAccounts(l: Ledger, w: nat) {
    forall a :: Owns(w, a) ==> a in l.accounts && l.accounts[a].ledger == 1
  }

  /** What the first and the second leg of the workflow have moved. */
  function FirstAmount(l: Ledger, w: nat): int {
    if w * 100 + 1 in l.transfers then l.transfers[w * 100 + 1].amount else 0
  }

  function SecondAmount(l: Ledger, w: nat): int {
    if w * 100 + 2 in l.transfers then l.transfers[w * 100 + 2].amount else 0
  }

  /** Only the two legs have touched the workflow's ids and accounts: both carry one amount, the second needs
      the first, and the posted totals are exactly theirs. */
  ghost predicate Legs(l: Ledger, w: nat) {
    && (w * 100 + 1 in l.transfers ==>
          l.transfers[w * 100 + 1] == FirstLeg(w, FirstAmount(l, w)) && FirstAmount(l, w) > 0 && HasAccounts(l, w))
    && (w * 100 + 2 in l.transfers ==>
          w * 100 + 1 in l.transfers && l.transfers[w * 100 + 2] == SecondLeg(w, FirstAmount(l, w)))
    && (SourceOf(w) in l.accounts ==>
          l.accounts[SourceOf(w)] == LedgerAccount(1, FirstAmount(l, w), 0))
    && (ClearingOf(w) in l.accounts ==>
          l.accounts[ClearingOf(w)] == LedgerAccount(1, SecondAmount(l, w), FirstAmount(l, w)))
    && (BeneficiaryOf(w) in l.accounts ==>
          l.accounts[BeneficiaryOf(w)] == LedgerAccount(1, 0, SecondAmount(l, w)))
  }

  /** Nothing of the workflow differs between two ledgers. */
  ghost predicate SameFor(l: Ledger, l': Ledger, w: nat) {
    && (forall a :: Owns(w, a) ==> (a in l'.accounts <==> a in l.accounts) && (a in l.accounts ==> l'.accounts[a] == l.accounts[a]))
    && (forall id :: id == w * 100 + 1 || id == w * 100 + 2 ==>
          (id in l'.transfers <==> id in l.transfers) && (id in l.transfers ==> l'.transfers[id] == l.transfers[id]))
  }

  /** What was posted to an account. */
  function PostedTo(l: Ledger, account: int): (int, int)
    requires account in l.accounts
  {
    (l.accounts[account].debitsPosted, l.accounts[account].creditsPosted)
  }

  predicate Recorded(l: Ledger, t: Transfer) {
    t.id in l.transfers && l.transfers[t.id] == t
  }

  /** In numbers: transfers 100 w + 1 and 100 w + 2 have moved the amount from account 10 w + 1 to 10 w + 2 and from
      there to 10 w + 3, and nothing else has passed through these accounts. */
  predicate MovedForward(l: Ledger, w: nat, amount: int) {
    && Recorded(l, Transfer(w * 100 + 1, w * 10 + 1, w * 10 + 2, amount, 1, 1))
    && Recorded(l, Transfer(w * 100 + 2, w * 10 + 2, w * 10 + 3, amount, 1, 1))
    && w * 10 + 1 in l.accounts && PostedTo(l, w * 10 + 1) == (amount, 0)
    && w * 10 + 2 in l.accounts && PostedTo(l, w * 10 + 2) == (amount, amount)
    && w * 10 + 3 in l.accounts && PostedTo(l, w * 10 + 3) == (0, amount)
  }

  lemma BothLegsMoveForward(l: Ledger, w: nat)
    requires Legs(l, w) && w * 100 + 2 in l.transfers
    ensures MovedForward(l, w, FirstAmount(l, w))
  {
    assert Owns(w, SourceOf(w)) && Owns(w, ClearingOf(w)) && Owns(w, BeneficiaryOf(w));
  }

  /** reconcile_accounts on any ledger: an error exactly if an account is missing; balanced exactly if the source has
      paid, clearing has passed on and the beneficiary has received the expected amount, and nothing else. */
  lemma ReconciledExactly(l: Ledger, source: int, clearing: int, beneficiary: int, expected: int)
    ensures Reconcile(l, source, clearing, beneficiary, expected) ==
            if source !in l.accounts || clearing !in l.accounts || beneficiary !in l.accounts then None
            else Some((PostedTo(l, source), PostedTo(l, clearing), PostedTo(l, beneficiary))
                      == ((expected, 0), (expected, expected), (0, expected)))
  {
  }

  /** Reconciling a workflow's accounts finds the amount exactly if both legs have moved it, or neither leg has
      moved anything and nothing is expected. */
  lemma ReconcilesExactlyBothLegs(l: Ledger, w: nat, expected: int)
    requires Legs(l, w) && HasAccounts(l, w)
    ensures Reconcile(l, w * 10 + 1, w * 10 + 2, w * 10 + 3, expected)
            == Some(FirstAmount(l, w) == expected && SecondAmount(l, w) == expected)
  {
    assert Owns(w, SourceOf(w)) && Owns(w, ClearingOf(w)) && Owns(w, BeneficiaryOf(w));
  }

  /** The clearing account is never over-drawn, and is square once both legs are posted. */
  lemma LegsSquareClearing(l: Ledger, w: nat)
    requires Legs(l, w) && HasAccounts(l, w)
    ensures l.accounts[ClearingOf(w)].debitsPosted <= l.accounts[ClearingOf(w)].creditsPosted
    ensures w * 100 + 2 in l.transfers ==>
              Reconcile(l, SourceOf(w), ClearingOf(w), BeneficiaryOf(w), FirstAmount(l, w)) == Some(true)
  {
  }

  lemma FreshHasNoLegs(l: Ledger, w: nat)
    requires Fresh(l, w)
    ensures Legs(l, w)
  {
    assert Owns(w, SourceOf(w)) && Owns(w, ClearingOf(w)) && Owns(w, BeneficiaryOf(w));
  }

  // ---------- The ledger as the activities change it ----------

  datatype Failure = FirstLegFailed | SecondLegFailed | NotIdempotent | NotReconciled | LookupIncomplete

  class Client {
    var accounts: map<int, LedgerAccount>
    var transfers: map<int, Transfer>

    constructor (l: Ledger)
      ensures State() == l
    {
      accounts, transfers := l.accounts, l.transfers;
    }

    function State(): Ledger
      reads this
    {
      Ledger(accounts, transfers)
    }

    method EnsureAccounts(ids: seq<int>, ledger: int)
      modifies this
      ensures State() == WithAccounts(old(State()), ids, ledger)
    {
      for i := 0 to |ids|
        invariant State() == WithAccounts(old(State()), ids[..i], ledger)
      {
        assert ids[..i + 1][..i] == ids[..i];
        if ids[i] !in accounts {
          accounts := accounts[ids[i] := LedgerAccount(ledger, 0, 0)];
        }
      }
      assert ids[..|ids|] == ids;
    }

    method Submit(t: Transfer) returns (error: Option<TransferError>)
      modifies this
      ensures (State(), error) == Submitted(old(State()), t)
    {
      if t.id in transfers {
        return Some(Exists);
      }
      if t.debit !in accounts || t.credit !in accounts || t.debit == t.credit || t.amount <= 0
         || accounts[t.debit].ledger != t.ledger || accounts[t.credit].ledger != t.ledger {
        return Some(Refused);
      }
      var debit, credit := accounts[t.debit], accounts[t.credit];
      accounts := accounts[t.debit := debit.(debitsPosted := debit.debitsPosted + t.amount)];
      accounts := accounts[t.credit := credit.(creditsPosted := credit.creditsPosted + t.amount)];
      transfers := transfers[t.id := t];
      return None;
    }

    method CreateTransfer(t: Transfer) returns (status: TransferStatus)
      modifies this
      ensures (State(), status) == TransferCreated(old(State()), t)
    {
      var error := Submit(t);
      if error.None? {
        return Committed;
      }
      if error.value.Exists? {
        var recorded := transfers[t.id];
        var samePayload := recorded.id == t.id && recorded.debit == t.debit && recorded.credit == t.credit
                           && recorded.amount == t.amount && recorded.ledger == t.ledger && recorded.code == t.code;
        return if samePayload then Committed else Rejected;
      }
      return Rejected;
    }

    method VerifyDuplicate(t: Transfer) returns (status: TransferStatus)
      modifies this
      ensures (State(), status) == DuplicateVerified(old(State()), t)
    {
      var error := Submit(t);
      return if error == Some(Exists) then AlreadyExists else UnexpectedlyAccepted;
    }

    method ReconcileAccounts(source: int, clearing: int, beneficiary: int, expected: int) returns (balanced: Option<bool>)
      ensures balanced == Reconcile(State(), source, clearing, beneficiary, expected)
    {
      if source !in accounts || clearing !in accounts || beneficiary !in accounts {
        return None;
      }
      var s, c, b := accounts[source], accounts[clearing], accounts[beneficiary];
      return Some(&& s.debitsPosted == expected && s.creditsPosted == 0
                  && c.debitsPosted == expected && c.creditsPosted == expected
                  && b.debitsPosted == 0 && b.creditsPosted == expected);
    }

    /** MultiStepLedgerWorkflow.run with nothing beside it, on any ledger. It succeeds exactly if both legs are recorded
        afterwards and have moved the money forward, and otherwise fails where it must. On a workflow's own accounts
        it succeeds exactly when the amount is positive and the first leg was not already posted with another, or
        fails at the first leg and posts nothing. */
    method RunWorkflow(w: nat, amount: int) returns (failure: Option<Failure>)
      modifies this
      ensures State() == AfterRun(old(State()), w, amount).0
      ensures failure == if !Recorded(State(), Transfer(w * 100 + 1, w * 10 + 1, w * 10 + 2, amount, 1, 1)) then Some(FirstLegFailed)
                         else if !Recorded(State(), Transfer(w * 100 + 2, w * 10 + 2, w * 10 + 3, amount, 1, 1)) then Some(SecondLegFailed)
                         else if !MovedForward(State(), w, amount) then Some(NotReconciled)
                         else None
      ensures old(Legs(State(), w)) ==>
                && Legs(State(), w)
                && (failure.None? <==> amount > 0 && (old(FirstAmount(State(), w)) == 0 || old(FirstAmount(State(), w)) == amount))
                && (failure.Some? ==> failure == Some(FirstLegFailed) && transfers == old(transfers))
                && forall other: nat :: other != w ==> SameFor(old(State()), State(), other)
    {
      var source, clearing, beneficiary := w * 10 + 1, w * 10 + 2, w * 10 + 3;
      var first := Transfer(w * 100 + 1, source, clearing, amount, 1, 1);
      var second := Transfer(w * 100 + 2, clearing, beneficiary, amount, 1, 1);
      RunRecords(State(), w, amount);
      if Legs(State(), w) { OwnRun(State(), w, amount); }
      EnsureAccounts([source, clearing, beneficiary], 1);
      var firstStatus := CreateTransfer(first);
      if firstStatus != Committed {
        return Some(FirstLegFailed);
      }
      var secondStatus := CreateTransfer(second);
      if secondStatus != Committed {
        return Some(SecondLegFailed);
      }
      var duplicate := VerifyDuplicate(first);
      if duplicate != AlreadyExists {
        return Some(NotIdempotent);
      }
      var reconciled := ReconcileAccounts(source, clearing, beneficiary, amount);
      ReconciledExactly(State(), source, clearing, beneficiary, amount);
      if reconciled.None? {
        return Some(LookupIncomplete);
      }
      if !reconciled.value {
        return Some(NotReconciled);
      }
      return None;
    }
  }

  // ---------- The ledger after a run alone ----------

  function AfterFirst(l: Ledger, w: nat, amount: int): (Ledger, TransferStatus) {
    TransferCreated(WithAccounts(l, AccountsOf(w), 1), FirstLeg(w, amount))
  }

  function AfterRun(l: Ledger, w: nat, amount: int): (Ledger, TransferStatus) {
    if AfterFirst(l, w, amount).1 != Committed then AfterFirst(l, w, amount)
    else TransferCreated(AfterFirst(l, w, amount).0, SecondLeg(w, amount))
  }

  /** The run has recorded the first leg exactly if that committed, and both exactly if the second did; the accounts
      are all there. */
  lemma RunRecords(l: Ledger, w: nat, amount: int)
    ensures var (l', status) := AfterRun(l, w, amount);
            && (Recorded(l', FirstLeg(w, amount)) <==> AfterFirst(l, w, amount).1 == Committed)
            && (Recorded(l', FirstLeg(w, amount)) ==> (Recorded(l', SecondLeg(w, amount)) <==> status == Committed))
            && SourceOf(w) in l'.accounts && ClearingOf(w) in l'.accounts && BeneficiaryOf(w) in l'.accounts
  {
    var l1, l2 := WithAccounts(l, AccountsOf(w), 1), AfterFirst(l, w, amount).0;
    EnsuredExactly(l, AccountsOf(w), 1);
    assert SourceOf(w) in AccountsOf(w) && ClearingOf(w) in AccountsOf(w) && BeneficiaryOf(w) in AccountsOf(w);
    AcceptedTransferMoves(l1, FirstLeg(w, amount));
    CommittedExactlyIfPosted(l1, FirstLeg(w, amount));
    AcceptedTransferMoves(l2, SecondLeg(w, amount));
    CommittedExactlyIfPosted(l2, SecondLeg(w, amount));
  }

  /** On a workflow's own accounts, a run alone moves the money exactly when the amount is positive and no other amount
      was posted, and otherwise posts nothing; it leaves every other workflow alone. */
  lemma OwnRun(l: Ledger, w: nat, amount: int)
    requires Legs(l, w)
    ensures var l' := AfterRun(l, w, amount).0;
            && Legs(l', w)
            && (Recorded(l', FirstLeg(w, amount)) <==> amount > 0 && (FirstAmount(l, w) == 0 || FirstAmount(l, w) == amount))
            && (Recorded(l', FirstLeg(w, amount)) ==> Recorded(l', SecondLeg(w, amount)) && MovedForward(l', w, amount))
            && (!Recorded(l', FirstLeg(w, amount)) ==> l'.transfers == l.transfers)
            && forall other: nat :: other != w ==> SameFor(l, l', other)
  {
    var l1, l2, l3 := WithAccounts(l, AccountsOf(w), 1), AfterFirst(l, w, amount).0, AfterRun(l, w, amount).0;
    RunRecords(l, w, amount);
    EnsureKeepsLegs(l, w);
    FirstKeepsLegs(l1, w, amount);
    SameForBoth(l, l1, l2, w);
    if AfterFirst(l, w, amount).1 == Committed {
      SecondKeepsLegs(l2, w, amount);
      SameForBoth(l, l2, l3, w);
      BothLegsMoveForward(l3, w);
    }
  }

  /** What leaves every other workflow alone, step after step, leaves it alone altogether. */
  lemma SameForBoth(l: Ledger, l': Ledger, l'': Ledger, w: nat)
    requires forall other: nat :: other != w ==> SameFor(l, l', other)
    requires forall other: nat :: other != w ==> SameFor(l', l'', other)
    ensures forall other: nat :: other != w ==> SameFor(l, l'', other)
  {
    forall other: nat | other != w
      ensures SameFor(l, l'', other)
    {
      assert SameFor(l, l', other) && SameFor(l', l'', other);
    }
  }

  // ---------- What one activity does to the legs ----------

  function AccountsOf(w: nat): seq<int> {
    [SourceOf(w), ClearingOf(w), BeneficiaryOf(w)]
  }

  lemma EnsuredAccounts(l: Ledger, w: nat)
    ensures WithAccounts(l, AccountsOf(w), 1)
            == WithAccount(WithAccount(WithAccount(l, SourceOf(w), 1), ClearingOf(w), 1), BeneficiaryOf(w), 1)
  {
    var s, c, ids := SourceOf(w), ClearingOf(w), AccountsOf(w);
    assert [s][..0] == [] && WithAccounts(l, [s], 1) == WithAccount(l, s, 1);
    assert [s, c][..1] == [s] && ids[..2] == [s, c];
  }

  lemma AccountKeepsLegs(l: Ledger, w: nat, a: int)
    requires Legs(l, w) && Owns(w, a)
    ensures var l' := WithAccount(l, a, 1);
            && Legs(l', w) && l'.transfers == l.transfers
            && l'.accounts.Keys == l.accounts.Keys + {a}
            && l'.accounts[a].ledger == 1
  {
  }

  lemma AccountIsOfOne(l: Ledger, w: nat, a: int, other: nat)
    requires Owns(w, a) && other != w
    ensures SameFor(l, WithAccount(l, a, 1), other)
  {
  }

  lemma EnsureKeepsLegs(l: Ledger, w: nat)
    requires Legs(l, w)
    ensures var l' := WithAccounts(l, AccountsOf(w), 1);
            && Legs(l', w) && HasAccounts(l', w) && l'.transfers == l.transfers
            && forall other: nat :: other != w ==> SameFor(l, l', other)
  {
    var l1 := WithAccount(l, SourceOf(w), 1);
    var l2 := WithAccount(l1, ClearingOf(w), 1);
    EnsuredAccounts(l, w);
    AccountKeepsLegs(l, w, SourceOf(w));
    AccountKeepsLegs(l1, w, ClearingOf(w));
    AccountKeepsLegs(l2, w, BeneficiaryOf(w));
    forall other: nat | other != w
      ensures SameFor(l, WithAccount(l2, BeneficiaryOf(w), 1), other)
    {
      AccountIsOfOne(l, w, SourceOf(w), other);
      AccountIsOfOne(l1, w, ClearingOf(w), other);
      AccountIsOfOne(l2, w, BeneficiaryOf(w), other);
    }
  }

  lemma FirstKeepsLegs(l: Ledger, w: nat, amount: int)
    requires Legs(l, w) && HasAccounts(l, w)
    ensures var (l', status) := TransferCreated(l, FirstLeg(w, amount));
            && Legs(l', w) && HasAccounts(l', w)
            && (status == Committed || status == Rejected)
            && (status == Committed <==> amount > 0 && (FirstAmount(l, w) == 0 || FirstAmount(l, w) == amount))
            && (status == Committed ==> w * 100 + 1 in l'.transfers && FirstAmount(l', w) == amount)
            && (status == Rejected ==> l' == l)
            && (forall id :: id != w * 100 + 1 ==> (id in l'.transfers <==> id in l.transfers))
            && (forall id :: id in l.transfers ==> id in l'.transfers && l'.transfers[id] == l.transfers[id])
            && forall other: nat :: other != w ==> SameFor(l, l', other)
  {
    assert Owns(w, SourceOf(w)) && Owns(w, ClearingOf(w));
  }

  lemma SecondKeepsLegs(l: Ledger, w: nat, amount: int)
    requires Legs(l, w) && w * 100 + 1 in l.transfers && FirstAmount(l, w) == amount
    ensures var (l', status) := TransferCreated(l, SecondLeg(w, amount));
            && Legs(l', w) && HasAccounts(l', w)
            && status == Committed && w * 100 + 2 in l'.transfers
            && (forall id :: id != w * 100 + 2 ==> (id in l'.transfers <==> id in l.transfers))
            && (forall id :: id in l.transfers ==> id in l'.transfers && l'.transfers[id] == l.transfers[id])
            && forall other: nat :: other != w ==> SameFor(l, l', other)
  {
    assert Owns(w, ClearingOf(w)) && Owns(w, BeneficiaryOf(w));
  }
}
