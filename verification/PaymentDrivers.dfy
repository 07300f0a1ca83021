/** The drivers of the local payment switch: N contenders for one payment, and a spike of T payments
    spread over A account pairs. Every interleaving of their threads gives the same balances. */
module PaymentDrivers {
  import opened PaymentTables
  import opened PaymentThreads
  import Money = PaymentInvariants

  // ---------- run_race ----------

  /** The amount has left the source and reached the destination, once, and no other balance has changed. */
  predicate MovedOnce(before: map<string, Account>, after: map<string, Account>, r: Request)
    requires r.source in before && r.destination in before
  {
    && after.Keys == before.Keys
    && (r.source != r.destination ==>
          && after[r.source].balance == before[r.source].balance - r.amount
          && after[r.destination].balance == before[r.destination].balance + r.amount)
    && (forall a :: a in before && (r.source == r.destination || (a != r.source && a != r.destination)) ==> after[a] == before[a])
  }

  lemma MovedBetween(accounts: map<string, Account>, r: Request)
    requires r.source in accounts && r.destination in accounts
    ensures MovedOnce(accounts, Moved(accounts, r), r)
  {
  }

  lemma {:induction false} CopiesCommitOnce(start: Tables, r: Request, rs: seq<Request>)
    requires Transferable(start, r) && forall i :: 0 <= i < |rs| ==> rs[i] == r
    ensures SerialRun(start, rs) == if rs == [] then start else Serial(start, r).0
  {
    if |rs| > 1 {
      CopiesCommitOnce(start, r, rs[..|rs| - 1]);
    }
  }

  /** The first contender to decide commits, every later one replays it. */
  lemma ContenderAnswer(start: Tables, r: Request, n: nat, order: seq<nat>, k: nat)
    requires Transferable(start, r) && InRange(order, n) && k < |order|
    ensures SerialAnswer(start, seq(n, _ => r), order, k) == if k == 0 then Committed else Replayed(Completed)
  {
    CopiesCommitOnce(start, r, Requests(seq(n, _ => r), order[..k]));
  }

  lemma ContendersIn(start: Tables, m: Machine, r: Request, t: nat)
    requires Inv(start, m) && Transferable(start, r) && m.requests == seq(|m.requests|, _ => r)
    requires t < |m.threads| && ThreadDecided(m.threads[t])
    ensures |m.order| > 0 && m.order[0] < |m.threads|
    ensures AnswerIs(m.threads[t], if t == m.order[0] then Committed else Replayed(Completed))
    ensures AnswerIs(m.threads[m.order[0]], Committed)
  {
    var k := PlaceInOrder(start, m, t);
    ContenderAnswer(start, r, |m.requests|, m.order, k);
    ContenderAnswer(start, r, |m.requests|, m.order, 0);
    assert AnswerIs(m.threads[m.order[0]], SerialAnswer(start, m.requests, m.order, 0));
  }

  lemma RaceMovesOnce(start: Tables, m: Machine, r: Request)
    requires Inv(start, m) && Transferable(start, r) && m.requests == seq(|m.requests|, _ => r)
    ensures m.committed == if m.order == [] then start else Serial(start, r).0
    ensures m.order != [] ==> MovedOnce(start.accounts, m.committed.accounts, r)
  {
    CopiesCommitOnce(start, r, Requests(m.requests, m.order));
    MovedBetween(start.accounts, r);
  }

  ghost predicate ExactlyOneCommitted(m: Machine) {
    exists t :: 0 <= t < |m.threads| && AnswerIs(m.threads[t], Committed)
                && forall u :: 0 <= u < |m.threads| && u != t ==> AnswerIs(m.threads[u], Replayed(Completed))
  }

  lemma AtMostOneCommits(start: Tables, m: Machine, r: Request, t: nat, u: nat)
    requires Inv(start, m) && Transferable(start, r) && m.requests == seq(|m.requests|, _ => r)
    requires t < |m.threads| && u < |m.threads| && AnswerIs(m.threads[t], Committed) && AnswerIs(m.threads[u], Committed)
    ensures t == u
  {
    ContendersIn(start, m, r, t);
    ContendersIn(start, m, r, u);
  }

  lemma AllDecidedOneCommits(start: Tables, m: Machine, r: Request)
    requires Inv(start, m) && Transferable(start, r) && m.requests == seq(|m.requests|, _ => r)
    requires |m.threads| > 0 && forall t :: 0 <= t < |m.threads| ==> ThreadDecided(m.threads[t])
    ensures ExactlyOneCommitted(m) && m.order != []
  {
    ContendersIn(start, m, r, 0);
    forall t | 0 <= t < |m.threads|
      ensures AnswerIs(m.threads[t], if t == m.order[0] then Committed else Replayed(Completed))
    {
      ContendersIn(start, m, r, t);
    }
  }

  /** Whatever the interleaving: at most one contender commits, and the money has moved at most once. If every
      contender got past the lock, exactly one committed and all others replayed its status. */
  lemma RaceIsProtected(start: Tables, r: Request, n: nat, maxRetries: seq<nat>, events: seq<Event>)
    requires NonNegative(start) && Transferable(start, r)
    ensures var m := Run(Start(start, seq(n, _ => r), maxRetries), events);
            && (m.committed == start || m.committed == Serial(start, r).0)
            && (forall t, u :: 0 <= t < u < n ==> !(AnswerIs(m.threads[t], Committed) && AnswerIs(m.threads[u], Committed)))
            && (n > 0 && (forall t :: 0 <= t < n ==> ThreadDecided(m.threads[t])) ==>
                  ExactlyOneCommitted(m) && MovedOnce(start.accounts, m.committed.accounts, r))
  {
    var m := Run(Start(start, seq(n, _ => r), maxRetries), events);
    RunKeepsInv(start, seq(n, _ => r), maxRetries, events);
    RaceMovesOnce(start, m, r);
    forall t, u | 0 <= t < u < n && AnswerIs(m.threads[t], Committed) && AnswerIs(m.threads[u], Committed)
      ensures false
    {
      AtMostOneCommits(start, m, r, t, u);
    }
    if n > 0 && forall t :: 0 <= t < n ==> ThreadDecided(m.threads[t]) {
      AllDecidedOneCommits(start, m, r);
    }
  }

  // ---------- Names of run_spike ----------

  function Digit(d: nat): char
    requires d < 10
  {
    "0123456789"[d]
  }

  function Decimal(n: nat): string {
    if n < 10 then [Digit(n)] else Decimal(n / 10) + [Digit(n % 10)]
  }

  lemma {:induction false} DecimalInjective(m: nat, n: nat)
    requires Decimal(m) == Decimal(n)
    ensures m == n
  {
    DecimalNonEmpty(m / 10);
    DecimalNonEmpty(n / 10);
    assert Decimal(m)[|Decimal(m)| - 1] == Digit(m % 10);
    assert Decimal(n)[|Decimal(n)| - 1] == Digit(n % 10);
    if m >= 10 && n >= 10 {
      assert Decimal(m)[..|Decimal(m)| - 1] == Decimal(m / 10);
      assert Decimal(n)[..|Decimal(n)| - 1] == Decimal(n / 10);
      DecimalInjective(m / 10, n / 10);
    }
  }

  lemma DecimalNonEmpty(n: nat)
    ensures |Decimal(n)| > 0
  {
  }

  function Named(prefix: string, i: nat): string {
    prefix + Decimal(i)
  }

  lemma NamedInjective(prefix: string, i: nat, j: nat)
    requires Named(prefix, i) == Named(prefix, j)
    ensures i == j
  {
    assert Named(prefix, i)[|prefix|..] == Decimal(i);
    assert Named(prefix, j)[|prefix|..] == Decimal(j);
    DecimalInjective(i, j);
  }

  function Source(i: nat): string {
    Named("spike-source-", i)
  }

  function Destination(i: nat): string {
    Named("spike-destination-", i)
  }

  lemma SourcesAndDestinationsDiffer(i: nat, j: nat)
    ensures Source(i) != Destination(j)
    ensures Source(i) == Source(j) ==> i == j
    ensures Destination(i) == Destination(j) ==> i == j
  {
    assert Source(i)[6] == 's' && Destination(j)[6] == 'd';
    if Source(i) == Source(j) { NamedInjective("spike-source-", i, j); }
    if Destination(i) == Destination(j) { NamedInjective("spike-destination-", i, j); }
  }

  const SPIKE_AMOUNT := 100

  function SpikeJob(i: nat, accounts: nat): Request
    requires accounts > 0
  {
    Request(Named("spike-wf-", i), Named("spike-tx-", i), Named("spike-key-", i),
            Source(i % accounts), Destination(i % accounts), SPIKE_AMOUNT, "NGN")
  }

  /** The job list of run_spike, built in a loop. */
  method BuildSpikeJobs(accounts: nat, transactions: nat) returns (jobs: seq<Request>)
    requires accounts > 0
    ensures |jobs| == transactions
    ensures forall i :: 0 <= i < transactions ==> jobs[i] == SpikeJob(i, accounts)
  {
    jobs := [];
    for i := 0 to transactions
      invariant |jobs| == i
      invariant forall j :: 0 <= j < i ==> jobs[j] == SpikeJob(j, accounts)
    {
      var account := i % accounts;
      jobs := jobs + [Request(Named("spike-wf-", i), Named("spike-tx-", i), Named("spike-key-", i),
                              Source(account), Destination(account), 100, "NGN")];
    }
  }

  // ---------- How often each pair is hit ----------

  function Hit(job: nat, accounts: nat, i: nat): nat
    requires accounts > 0
  {
    if job % accounts == i then 1 else 0
  }

  /** How many of the listed jobs use account pair i. */
  function Hits(order: seq<nat>, accounts: nat, i: nat): nat
    requires accounts > 0
  {
    if order == [] then 0 else Hits(order[..|order| - 1], accounts, i) + Hit(order[|order| - 1], accounts, i)
  }

  /** How many of the jobs 0..transactions - 1 use account pair i. */
  function Share(transactions: nat, accounts: nat, i: nat): nat
    requires accounts > 0
  {
    transactions / accounts + (if i < transactions % accounts then 1 else 0)
  }

  lemma {:induction false} TimesMonotone(a: nat, b: nat, d: nat)
    requires a < b
    ensures a * d + d <= b * d
  {
    assert b * d == (b - 1) * d + d;
    if a + 1 < b {
      TimesMonotone(a, b - 1, d);
    }
  }

  lemma QuotientUnique(q: nat, r: nat, q': nat, r': nat, d: nat)
    requires r < d && r' < d && q * d + r == q' * d + r'
    ensures q == q' && r == r'
  {
    if q < q' {
      TimesMonotone(q, q', d);
    } else if q' < q {
      TimesMonotone(q', q, d);
    }
  }

  lemma DivMod(q: nat, r: nat, d: nat)
    requires r < d
    ensures (q * d + r) / d == q && (q * d + r) % d == r
  {
    var n := q * d + r;
    assert n == (n / d) * d + n % d;
    QuotientUnique(q, r, n / d, n % d, d);
  }

  lemma ShareStep(transactions: nat, accounts: nat, i: nat)
    requires i < accounts
    ensures Share(transactions + 1, accounts, i) == Share(transactions, accounts, i) + Hit(transactions, accounts, i)
  {
    var q, r := transactions / accounts, transactions % accounts;
    assert transactions == q * accounts + r;
    if r + 1 < accounts {
      DivMod(q, r + 1, accounts);
    } else {
      assert transactions + 1 == (q + 1) * accounts + 0;
      DivMod(q + 1, 0, accounts);
    }
  }

  lemma {:induction false} HitsConcat(a: seq<nat>, b: seq<nat>, accounts: nat, i: nat)
    requires accounts > 0
    ensures Hits(a + b, accounts, i) == Hits(a, accounts, i) + Hits(b, accounts, i)
  {
    if b == [] {
      assert a + b == a;
    } else {
      assert (a + b)[..|a + b| - 1] == a + b[..|b| - 1];
      HitsConcat(a, b[..|b| - 1], accounts, i);
    }
  }

  function Without(order: seq<nat>, p: nat): seq<nat>
    requires p < |order|
  {
    order[..p] + order[p + 1..]
  }

  lemma HitsWithout(order: seq<nat>, p: nat, accounts: nat, i: nat)
    requires p < |order| && accounts > 0
    ensures Hits(order, accounts, i) == Hits(Without(order, p), accounts, i) + Hit(order[p], accounts, i)
  {
    var tail := order[p + 1..];
    assert order == order[..p] + ([order[p]] + tail);
    HitsConcat(order[..p], [order[p]] + tail, accounts, i);
    HitsConcat([order[p]], tail, accounts, i);
    HitsConcat(order[..p], tail, accounts, i);
    assert Hits([order[p]], accounts, i) == Hits([], accounts, i) + Hit(order[p], accounts, i);
  }

  lemma WithoutKeeps(order: seq<nat>, p: nat)
    requires p < |order| && Distinct(order)
    ensures Distinct(Without(order, p))
    ensures forall j :: j in Without(order, p) <==> j in order && j != order[p]
  {
    var rest := Without(order, p);
    forall j
      ensures j in rest <==> j in order && j != order[p]
    {
      if j in order && j != order[p] {
        var q :| 0 <= q < |order| && order[q] == j;
        assert rest[if q < p then q else q - 1] == j;
      }
      if j in rest {
        var q :| 0 <= q < |rest| && rest[q] == j;
        assert order[if q < p then q else q + 1] == j;
      }
    }
  }

  predicate All(order: seq<nat>, n: nat) {
    forall j :: 0 <= j < n ==> j in order
  }

  lemma WithoutLastJob(order: seq<nat>, p: nat, last: nat)
    requires p < |order| && order[p] == last && Distinct(order) && InRange(order, last + 1)
    ensures Distinct(Without(order, p)) && InRange(Without(order, p), last)
    ensures All(order, last + 1) ==> All(Without(order, p), last)
  {
    WithoutKeeps(order, p);
    var rest := Without(order, p);
    forall k | 0 <= k < |rest|
      ensures rest[k] < last
    {
      assert rest[k] in rest && rest[k] in order;
    }
  }

  lemma RangeIsPositive(order: seq<nat>, n: nat)
    requires InRange(order, n) && order != []
    ensures n > 0
  {
    assert order[0] < n;
  }

  /** Distinct jobs hit a pair at most its share of times, all jobs together exactly so. */
  lemma {:induction false} HitsAndShare(order: seq<nat>, transactions: nat, accounts: nat, i: nat)
    requires i < accounts && Distinct(order) && InRange(order, transactions)
    ensures Hits(order, accounts, i) <= Share(transactions, accounts, i)
    ensures All(order, transactions) ==> Hits(order, accounts, i) == Share(transactions, accounts, i)
    decreases transactions
  {
    if transactions == 0 {
      if order != [] { RangeIsPositive(order, transactions); }
    } else {
      var last := transactions - 1;
      ShareStep(last, accounts, i);
      if p :| 0 <= p < |order| && order[p] == last {
        HitsWithout(order, p, accounts, i);
        WithoutLastJob(order, p, last);
        HitsAndShare(Without(order, p), last, accounts, i);
      } else {
        assert last !in order;
        HitsAndShare(order, last, accounts, i);
      }
    }
  }

  // ---------- run_spike ----------

  predicate JobUnseen(t: Tables, j: nat) {
    && Named("spike-wf-", j) !in t.workflows
    && Named("spike-tx-", j) !in t.payments
    && !KeyTaken(t, Named("spike-key-", j))
    && !HasTransfer(t, Named("spike-tx-", j))
  }

  /** All jobs are new, and every pair exists with enough money for its share of the payments. */
  predicate SpikeReady(t: Tables, accounts: nat, transactions: nat) {
    && accounts > 0
    && (forall j :: 0 <= j < transactions ==> JobUnseen(t, j))
    && (forall i :: 0 <= i < accounts ==>
          && Source(i) in t.accounts && Destination(i) in t.accounts
          && t.accounts[Source(i)].balance >= SPIKE_AMOUNT * Share(transactions, accounts, i))
  }

  /** The state after the listed jobs have committed. */
  ghost predicate Spiked(start: Tables, t: Tables, accounts: nat, transactions: nat, order: seq<nat>)
    requires accounts > 0
  {
    && t.accounts.Keys == start.accounts.Keys
    && (forall j :: 0 <= j < transactions && j !in order ==> JobUnseen(t, j))
    && (forall i :: 0 <= i < accounts && Source(i) in t.accounts ==>
          t.accounts[Source(i)].balance == start.accounts[Source(i)].balance - SPIKE_AMOUNT * Hits(order, accounts, i))
    && (forall i :: 0 <= i < accounts && Destination(i) in t.accounts ==>
          t.accounts[Destination(i)].balance == start.accounts[Destination(i)].balance + SPIKE_AMOUNT * Hits(order, accounts, i))
    && (forall a :: a in t.accounts && (forall i :: 0 <= i < accounts ==> a != Source(i) && a != Destination(i)) ==>
          t.accounts[a] == start.accounts[a])
  }

  lemma OtherJobsStayUnseen(t: Tables, accounts: nat, j: nat, other: nat)
    requires accounts > 0 && JobUnseen(t, other) && other != j && Transferable(t, SpikeJob(j, accounts))
    ensures JobUnseen(Serial(t, SpikeJob(j, accounts)).0, other)
  {
    if Named("spike-wf-", j) == Named("spike-wf-", other) { NamedInjective("spike-wf-", j, other); }
    if Named("spike-tx-", j) == Named("spike-tx-", other) { NamedInjective("spike-tx-", j, other); }
    if Named("spike-key-", j) == Named("spike-key-", other) { NamedInjective("spike-key-", j, other); }
  }

  /** The next job moves its amount between its own pair and leaves all other accounts alone. */
  lemma JobMoves(start: Tables, t: Tables, accounts: nat, transactions: nat, order: seq<nat>, j: nat)
    requires accounts > 0 && Spiked(start, t, accounts, transactions, order)
    requires j < transactions && Transferable(t, SpikeJob(j, accounts))
    ensures Spiked(start, Serial(t, SpikeJob(j, accounts)).0, accounts, transactions, order + [j])
  {
    var job := SpikeJob(j, accounts);
    var t' := Serial(t, job).0;
    assert t'.accounts == Moved(t.accounts, job);
    assert (order + [j])[..|order|] == order;
    forall other | 0 <= other < transactions && other !in order + [j]
      ensures JobUnseen(t', other)
    {
      assert (order + [j])[|order|] == j;
      assert other !in order;
      OtherJobsStayUnseen(t, accounts, j, other);
    }
    forall i | 0 <= i < accounts
      ensures Source(i) in t'.accounts ==> t'.accounts[Source(i)].balance == start.accounts[Source(i)].balance - SPIKE_AMOUNT * Hits(order + [j], accounts, i)
      ensures Destination(i) in t'.accounts ==> t'.accounts[Destination(i)].balance == start.accounts[Destination(i)].balance + SPIKE_AMOUNT * Hits(order + [j], accounts, i)
    {
      SourcesAndDestinationsDiffer(i, j % accounts);
      SourcesAndDestinationsDiffer(j % accounts, i);
    }
  }

  /** The pair of a job that is still to come has not yet spent its share. */
  lemma NextJobCommits(start: Tables, t: Tables, accounts: nat, transactions: nat, before: seq<nat>, j: nat)
    requires SpikeReady(start, accounts, transactions) && Spiked(start, t, accounts, transactions, before)
    requires Distinct(before + [j]) && InRange(before + [j], transactions)
    ensures Transferable(t, SpikeJob(j, accounts)) && Serial(t, SpikeJob(j, accounts)).1 == Committed
  {
    var i, order := j % accounts, before + [j];
    assert order[..|before|] == before && order[|before|] == j;
    HitsAndShare(order, transactions, accounts, i);
    assert Hits(order, accounts, i) == Hits(before, accounts, i) + 1;
    assert j !in before by {
      assert forall k :: 0 <= k < |before| ==> order[k] == before[k];
    }
    assert JobUnseen(t, j);
    assert Source(i) in start.accounts && Destination(i) in start.accounts;
  }

  ghost predicate AreJobs(requests: seq<Request>, accounts: nat, transactions: nat)
    requires accounts > 0
  {
    |requests| == transactions && forall i :: 0 <= i < transactions ==> requests[i] == SpikeJob(i, accounts)
  }

  /** The next job commits, and moves its share. */
  lemma SpikeStep(start: Tables, accounts: nat, transactions: nat, requests: seq<Request>, before: seq<nat>, j: nat)
    requires SpikeReady(start, accounts, transactions) && AreJobs(requests, accounts, transactions)
    requires Distinct(before + [j]) && InRange(before + [j], transactions) && InRange(before, transactions) && j < transactions
    requires Spiked(start, SerialRun(start, Requests(requests, before)), accounts, transactions, before)
    ensures Spiked(start, SerialRun(start, Requests(requests, before + [j])), accounts, transactions, before + [j])
    ensures SerialAnswer(start, requests, before + [j], |before|) == Committed
  {
    var t := SerialRun(start, Requests(requests, before));
    NextJobCommits(start, t, accounts, transactions, before, j);
    JobMoves(start, t, accounts, transactions, before, j);
    SerialRunExtends(start, requests, before, j);
  }

  /** In every commit order, the money moves as the hits say, and the last job commits. */
  lemma {:induction false} SpikeOrder(start: Tables, accounts: nat, transactions: nat, requests: seq<Request>, order: seq<nat>)
    requires SpikeReady(start, accounts, transactions) && AreJobs(requests, accounts, transactions)
    requires Distinct(order) && InRange(order, transactions)
    ensures Spiked(start, SerialRun(start, Requests(requests, order)), accounts, transactions, order)
    ensures order != [] ==> SerialAnswer(start, requests, order, |order| - 1) == Committed
  {
    if order == [] {
      NothingSpiked(start, accounts, transactions);
      assert Requests(requests, order) == [];
    } else {
      var before, j := order[..|order| - 1], order[|order| - 1];
      assert order == before + [j];
      SpikeOrder(start, accounts, transactions, requests, before);
      SpikeStep(start, accounts, transactions, requests, before, j);
    }
  }

  lemma NothingSpiked(start: Tables, accounts: nat, transactions: nat)
    requires accounts > 0 && forall j :: 0 <= j < transactions ==> JobUnseen(start, j)
    ensures Spiked(start, start, accounts, transactions, [])
  {
  }

  lemma LastJobCommits(start: Tables, accounts: nat, transactions: nat, requests: seq<Request>, order: seq<nat>)
    requires SpikeReady(start, accounts, transactions) && AreJobs(requests, accounts, transactions)
    requires Distinct(order) && InRange(order, transactions) && order != []
    ensures SerialAnswer(start, requests, order, |order| - 1) == Committed
  {
    SpikeOrder(start, accounts, transactions, requests, order);
  }

  /** In every commit order, every job commits. */
  lemma SpikeAnswer(start: Tables, accounts: nat, transactions: nat, requests: seq<Request>, order: seq<nat>, k: nat)
    requires SpikeReady(start, accounts, transactions) && AreJobs(requests, accounts, transactions)
    requires Distinct(order) && InRange(order, transactions) && k < |order|
    ensures SerialAnswer(start, requests, order, k) == Committed
  {
    LastJobCommits(start, accounts, transactions, requests, order[..k + 1]);
    assert order[..k + 1][..k] == order[..k];
  }

  /** Every interleaving of the spike in which no thread runs out of retries commits all jobs, and leaves the
      same balances: each pair has moved its share of the payments, and no other account has changed. */
  lemma SpikeBalances(start: Tables, accounts: nat, transactions: nat, requests: seq<Request>, maxRetries: seq<nat>, events: seq<Event>)
    requires NonNegative(start) && SpikeReady(start, accounts, transactions) && AreJobs(requests, accounts, transactions)
    requires forall t :: 0 <= t < transactions ==> ThreadDecided(Run(Start(start, requests, maxRetries), events).threads[t])
    ensures var m := Run(Start(start, requests, maxRetries), events);
            && (forall t :: 0 <= t < transactions ==> AnswerIs(m.threads[t], Committed))
            && m.committed.accounts.Keys == start.accounts.Keys
            && (forall i :: 0 <= i < accounts ==>
                  && m.committed.accounts[Source(i)].balance
                     == start.accounts[Source(i)].balance - SPIKE_AMOUNT * Share(transactions, accounts, i)
                  && m.committed.accounts[Destination(i)].balance
                     == start.accounts[Destination(i)].balance + SPIKE_AMOUNT * Share(transactions, accounts, i))
            && (forall a :: a in start.accounts && (forall i :: 0 <= i < accounts ==> a != Source(i) && a != Destination(i)) ==>
                  m.committed.accounts[a] == start.accounts[a])
  {
    RunKeepsInv(start, requests, maxRetries, events);
    var m := Run(Start(start, requests, maxRetries), events);
    SpikeOrder(start, accounts, transactions, requests, m.order);
    forall t | 0 <= t < transactions
      ensures t in m.order && AnswerIs(m.threads[t], Committed)
    {
      var k := PlaceInOrder(start, m, t);
      SpikeAnswer(start, accounts, transactions, requests, m.order, k);
    }
    forall i | 0 <= i < accounts
      ensures Hits(m.order, accounts, i) == Share(transactions, accounts, i)
    {
      HitsAndShare(m.order, transactions, accounts, i);
    }
  }

  // ---------- run_spike from its own accounts ----------

  const SPIKE_OPENING := 100000

  function LowerCase(c: char): char {
    if 'A' <= c <= 'Z' then c - 'A' + 'a' else c
  }

  /** account_id LIKE 'spike-%', which ignores the case of letters. */
  predicate LikeSpike(id: string) {
    |id| >= 6 && forall i :: 0 <= i < 6 ==> LowerCase(id[i]) == "spike-"[i]
  }

  /** No row of an earlier spike, and no account that would be counted as one. */
  predicate NoSpikeRows(t: Tables, transactions: nat) {
    && (forall j :: 0 <= j < transactions ==> JobUnseen(t, j))
    && (forall a :: a in t.accounts ==> !LikeSpike(a))
  }

  predicate OpenedFor(t: Tables, a: string, i: nat)
    requires a in t.accounts
  {
    || (a == Source(i) && t.accounts[a] == Account(SPIKE_OPENING, "NGN"))
    || (a == Destination(i) && t.accounts[a] == Account(0, "NGN"))
  }

  /** The pair's accounts are opened, and nothing else has changed. */
  ghost predicate Seeded(before: Tables, after: Tables, accounts: nat) {
    && after == before.(accounts := after.accounts)
    && (forall i :: 0 <= i < accounts ==> Source(i) in after.accounts && Destination(i) in after.accounts)
    && (forall a :: a in before.accounts ==> a in after.accounts && after.accounts[a] == before.accounts[a])
    && (forall a :: a in after.accounts && a !in before.accounts ==>
          exists i :: 0 <= i < accounts && OpenedFor(after, a, i))
  }

  lemma NothingSeeded(t: Tables)
    ensures Seeded(t, t, 0)
  {
  }

  function OpenPair(t: Tables, i: nat): Tables {
    OpenAccount(OpenAccount(t, Source(i), SPIKE_OPENING), Destination(i), 0)
  }

  lemma OpenPairOpens(t: Tables, i: nat)
    ensures OpenPair(t, i) == t.(accounts := OpenPair(t, i).accounts)
    ensures OpenPair(t, i).accounts.Keys == t.accounts.Keys + {Source(i), Destination(i)}
    ensures forall a :: a in t.accounts ==> OpenPair(t, i).accounts[a] == t.accounts[a]
    ensures forall a :: a in OpenPair(t, i).accounts && a !in t.accounts ==> OpenedFor(OpenPair(t, i), a, i)
  {
    SourcesAndDestinationsDiffer(i, i);
  }

  lemma OpenPairNew(before: Tables, t: Tables, i: nat, a: string)
    requires Seeded(before, t, i) && a in OpenPair(t, i).accounts && a !in before.accounts
    ensures exists j :: 0 <= j < i + 1 && OpenedFor(OpenPair(t, i), a, j)
  {
    OpenPairOpens(t, i);
    if a in t.accounts {
      var j :| 0 <= j < i && OpenedFor(t, a, j);
      assert OpenedFor(OpenPair(t, i), a, j);
    } else {
      assert OpenedFor(OpenPair(t, i), a, i);
    }
  }

  /** Opening the next pair. */
  lemma SeededOneMore(before: Tables, t: Tables, i: nat)
    requires Seeded(before, t, i)
    ensures Seeded(before, OpenPair(t, i), i + 1)
  {
    OpenPairOpens(t, i);
    forall a | a in OpenPair(t, i).accounts && a !in before.accounts
      ensures exists j :: 0 <= j < i + 1 && OpenedFor(OpenPair(t, i), a, j)
    {
      OpenPairNew(before, t, i, a);
    }
  }

  lemma SeededKeepsNonNegative(before: Tables, after: Tables, accounts: nat)
    requires NonNegative(before) && Seeded(before, after, accounts)
    ensures NonNegative(after)
  {
  }

  lemma SpikeNames(i: nat)
    ensures LikeSpike(Source(i)) && LikeSpike(Destination(i))
  {
    var source, destination := "spike-source-", "spike-destination-";
    assert forall k :: 0 <= k < 6 ==> Source(i)[k] == source[k] && Destination(i)[k] == destination[k];
  }

  lemma SeededBalances(before: Tables, after: Tables, accounts: nat, transactions: nat, i: nat)
    requires Seeded(before, after, accounts) && NoSpikeRows(before, transactions) && i < accounts
    ensures after.accounts[Source(i)].balance == SPIKE_OPENING && after.accounts[Destination(i)].balance == 0
  {
    SpikeNames(i);
    var j :| 0 <= j < accounts && OpenedFor(after, Source(i), j);
    var k :| 0 <= k < accounts && OpenedFor(after, Destination(i), k);
    SourcesAndDestinationsDiffer(i, j);
    SourcesAndDestinationsDiffer(k, i);
  }

  lemma SeededIsUnseen(before: Tables, after: Tables, accounts: nat, transactions: nat)
    requires Seeded(before, after, accounts) && NoSpikeRows(before, transactions)
    ensures forall j :: 0 <= j < transactions ==> JobUnseen(after, j)
  {
    forall j | 0 <= j < transactions
      ensures JobUnseen(after, j)
    {
      assert JobUnseen(before, j);
    }
  }

  /** No pair is asked, at 100 a payment, for more than the 100000 it was opened with. */
  predicate PairsCanPay(accounts: nat, transactions: nat) {
    accounts > 0 && forall i :: 0 <= i < accounts ==> 100 * Share(transactions, accounts, i) <= 100000
  }

  /** A database without spike rows is ready after seeding exactly if no pair has to pay more than it was opened with. */
  lemma SeededIsReady(before: Tables, after: Tables, accounts: nat, transactions: nat)
    requires accounts > 0 && Seeded(before, after, accounts) && NoSpikeRows(before, transactions)
    ensures SpikeReady(after, accounts, transactions) <==> PairsCanPay(accounts, transactions)
  {
    forall i | 0 <= i < accounts
      ensures after.accounts[Source(i)].balance == SPIKE_OPENING
    {
      SeededBalances(before, after, accounts, transactions, i);
    }
    SeededIsUnseen(before, after, accounts, transactions);
  }

  /** The accounts of the first n pairs. */
  function SpikeIds(n: nat): seq<string> {
    if n == 0 then [] else [Source(n - 1), Destination(n - 1)] + SpikeIds(n - 1)
  }

  predicate OfPair(a: string, i: nat) {
    a == Source(i) || a == Destination(i)
  }

  lemma {:induction false} InSpikeIds(n: nat, a: string)
    ensures a in SpikeIds(n) <==> exists i :: 0 <= i < n && OfPair(a, i)
  {
    if n > 0 {
      InSpikeIds(n - 1, a);
      assert a in SpikeIds(n) <==> OfPair(a, n - 1) || a in SpikeIds(n - 1);
      if i :| 0 <= i < n && OfPair(a, i) {
        assert i < n - 1 ==> exists j :: 0 <= j < n - 1 && OfPair(a, j);
      }
    }
  }

  lemma {:induction false} SpikeIdsDiffer(n: nat)
    ensures Money.NoDuplicates(SpikeIds(n))
  {
    if n > 0 {
      SpikeIdsDiffer(n - 1);
      InSpikeIds(n - 1, Source(n - 1));
      InSpikeIds(n - 1, Destination(n - 1));
      forall i | 0 <= i < n
        ensures Source(n - 1) != Destination(i) && Source(i) != Destination(n - 1)
        ensures i < n - 1 ==> Source(i) != Source(n - 1) && Destination(i) != Destination(n - 1)
      {
        SourcesAndDestinationsDiffer(n - 1, i);
        SourcesAndDestinationsDiffer(i, n - 1);
      }
      FrontDiffers(Source(n - 1), Destination(n - 1), SpikeIds(n - 1));
    }
  }

  lemma FrontDiffers(a: string, b: string, ids: seq<string>)
    requires a != b && a !in ids && b !in ids && Money.NoDuplicates(ids)
    ensures Money.NoDuplicates([a, b] + ids)
  {
  }

  /** If each of the first n pairs has what one pair was opened with, together they have n times that. */
  lemma {:induction false} PairsAddUp(accounts: map<string, Account>, n: nat)
    requires forall i :: 0 <= i < n ==>
               && Source(i) in accounts && Destination(i) in accounts
               && accounts[Source(i)].balance + accounts[Destination(i)].balance == SPIKE_OPENING
    ensures forall k :: 0 <= k < |SpikeIds(n)| ==> SpikeIds(n)[k] in accounts
    ensures Money.Total(SpikeIds(n), accounts) == n * SPIKE_OPENING
  {
    if n > 0 {
      PairsAddUp(accounts, n - 1);
      var ids := SpikeIds(n);
      assert ids[1..][1..] == SpikeIds(n - 1);
      assert ids[1..][0] == Destination(n - 1);
    }
  }

  /** Exactly the accounts that run_spike adds up. */
  lemma SeededSpikeIds(before: Tables, after: Tables, accounts: nat, transactions: nat, a: string)
    requires Seeded(before, after, accounts) && NoSpikeRows(before, transactions)
    ensures a in SpikeIds(accounts) <==> a in after.accounts && LikeSpike(a)
  {
    InSpikeIds(accounts, a);
    if a in after.accounts && a !in before.accounts {
      var i :| 0 <= i < accounts && OpenedFor(after, a, i);
      assert OfPair(a, i);
    }
    if i :| 0 <= i < accounts && OfPair(a, i) {
      SpikeNames(i);
    }
  }

  /** In any commit order in which every job commits, the money moves as the hits say. */
  lemma {:induction false} CommittedJobsMove(start: Tables, accounts: nat, transactions: nat, requests: seq<Request>, order: seq<nat>)
    requires accounts > 0 && AreJobs(requests, accounts, transactions)
    requires forall j :: 0 <= j < transactions ==> JobUnseen(start, j)
    requires InRange(order, transactions)
    requires forall k :: 0 <= k < |order| ==> SerialAnswer(start, requests, order, k) == Committed
    ensures Spiked(start, SerialRun(start, Requests(requests, order)), accounts, transactions, order)
  {
    if order == [] {
      NothingSpiked(start, accounts, transactions);
      assert Requests(requests, order) == [];
    } else {
      var before, j := order[..|order| - 1], order[|order| - 1];
      assert order == before + [j];
      forall k | 0 <= k < |before|
        ensures SerialAnswer(start, requests, before, k) == Committed
      {
        assert before[..k] == order[..k];
        assert SerialAnswer(start, requests, order, k) == Committed;
      }
      CommittedJobsMove(start, accounts, transactions, requests, before);
      SerialRunExtends(start, requests, before, j);
      assert SerialAnswer(start, requests, order, |before|) == Committed;
      JobMoves(start, SerialRun(start, Requests(requests, before)), accounts, transactions, before, j);
    }
  }

  ghost predicate AllCommitted(m: Machine) {
    forall t :: 0 <= t < |m.threads| ==> AnswerIs(m.threads[t], Committed)
  }

  /** If all jobs have committed, each source had the money for its share. */
  lemma AllCommittedAreFunded(start: Tables, m: Machine, accounts: nat, transactions: nat, i: nat)
    requires Inv(start, m) && i < accounts && AreJobs(m.requests, accounts, transactions) && AllCommitted(m)
    requires Source(i) in start.accounts && forall j :: 0 <= j < transactions ==> JobUnseen(start, j)
    ensures SPIKE_AMOUNT * Share(transactions, accounts, i) <= start.accounts[Source(i)].balance
  {
    forall k | 0 <= k < |m.order|
      ensures SerialAnswer(start, m.requests, m.order, k) == Committed
    {
      assert AnswerIs(m.threads[m.order[k]], SerialAnswer(start, m.requests, m.order, k));
    }
    forall t | 0 <= t < transactions
      ensures t in m.order
    {
      var k := PlaceInOrder(start, m, t);
    }
    CommittedJobsMove(start, accounts, transactions, m.requests, m.order);
    HitsAndShare(m.order, transactions, accounts, i);
  }

  /** The balances of all accounts like 'spike-%' add up to n times 100000. */
  ghost predicate AddsUp(accounts: map<string, Account>, n: nat) {
    exists ids ::
      && Money.NoDuplicates(ids) && (forall a :: a in ids <==> a in accounts && LikeSpike(a))
      && (forall k :: 0 <= k < |ids| ==> ids[k] in accounts)
      && Money.Total(ids, accounts) == n * 100000
  }

  lemma PairsAreAllThatCount(before: Tables, after: Tables, accounts: nat, transactions: nat, balances: map<string, Account>)
    requires Seeded(before, after, accounts) && NoSpikeRows(before, transactions) && balances.Keys == after.accounts.Keys
    requires forall i :: 0 <= i < accounts ==> balances[Source(i)].balance + balances[Destination(i)].balance == SPIKE_OPENING
    ensures AddsUp(balances, accounts)
  {
    PairsAddUp(balances, accounts);
    SpikeIdsDiffer(accounts);
    forall a
      ensures a in SpikeIds(accounts) <==> a in balances && LikeSpike(a)
    {
      SeededSpikeIds(before, after, accounts, transactions, a);
    }
  }

  /** What a run is judged by: no answer "failed", and no money lost or made. */
  ghost predicate Passed(m: Machine, accounts: nat) {
    AllCommitted(m) && AddsUp(m.committed.accounts, accounts)
  }

  lemma FundedSpikePasses(before: Tables, after: Tables, accounts: nat, transactions: nat, requests: seq<Request>, maxRetries: seq<nat>, events: seq<Event>)
    requires NonNegative(after) && Seeded(before, after, accounts) && NoSpikeRows(before, transactions)
    requires PairsCanPay(accounts, transactions) && AreJobs(requests, accounts, transactions)
    requires forall t :: 0 <= t < transactions ==> ThreadDecided(Run(Start(after, requests, maxRetries), events).threads[t])
    ensures Passed(Run(Start(after, requests, maxRetries), events), accounts)
  {
    var balances := Run(Start(after, requests, maxRetries), events).committed.accounts;
    SeededIsReady(before, after, accounts, transactions);
    SpikeBalances(after, accounts, transactions, requests, maxRetries, events);
    forall i | 0 <= i < accounts
      ensures balances[Source(i)].balance + balances[Destination(i)].balance == SPIKE_OPENING
    {
      SeededBalances(before, after, accounts, transactions, i);
    }
    PairsAreAllThatCount(before, after, accounts, transactions, balances);
  }

  lemma CommittedSpikeIsFunded(before: Tables, after: Tables, m: Machine, accounts: nat, transactions: nat)
    requires accounts > 0 && Seeded(before, after, accounts) && NoSpikeRows(before, transactions)
    requires Inv(after, m) && AreJobs(m.requests, accounts, transactions) && AllCommitted(m)
    ensures PairsCanPay(accounts, transactions)
  {
    SeededIsUnseen(before, after, accounts, transactions);
    forall i | 0 <= i < accounts
      ensures SPIKE_AMOUNT * Share(transactions, accounts, i) <= SPIKE_OPENING
    {
      SeededBalances(before, after, accounts, transactions, i);
      AllCommittedAreFunded(after, m, accounts, transactions, i);
    }
  }

  /** run_spike on a database without spike rows, in any interleaving in which no thread runs out of retries, passes
      exactly if no pair is asked for more than it was opened with. */
  lemma SpikePassesExactlyIfFunded(before: Tables, after: Tables, accounts: nat, transactions: nat, requests: seq<Request>, maxRetries: seq<nat>, events: seq<Event>)
    requires NonNegative(before) && accounts > 0 && Seeded(before, after, accounts) && NoSpikeRows(before, transactions)
    requires AreJobs(requests, accounts, transactions)
    requires forall t :: 0 <= t < transactions ==> ThreadDecided(Run(Start(after, requests, maxRetries), events).threads[t])
    ensures Passed(Run(Start(after, requests, maxRetries), events), accounts) <==> PairsCanPay(accounts, transactions)
  {
    var m := Run(Start(after, requests, maxRetries), events);
    SeededKeepsNonNegative(before, after, accounts);
    RunKeepsInv(after, requests, maxRetries, events);
    if AllCommitted(m) {
      CommittedSpikeIsFunded(before, after, m, accounts, transactions);
    }
    if PairsCanPay(accounts, transactions) {
      FundedSpikePasses(before, after, accounts, transactions, requests, maxRetries, events);
    }
  }
}
