/** What the ledger promises over whole runs: money is conserved up to one exactly described loss,
    journals replay, the index of locked escrows is exact, an escrow is paid out once, and
    redelivered credits have no second effect. */
module LedgerTheorems {
  import opened Common
  import opened Ledger

  // ----- One call: the invariant

  lemma IndexFrame(s: State, t: State)
    requires IndexIsInverse(s) && t.escrows == s.escrows && t.lockedByTask == s.lockedByTask
    ensures IndexIsInverse(t)
  {
  }

  /** Journals that only grow keep every indexed credit booked. */
  lemma RefsFrame(s: State, t: State)
    requires RefsAreBooked(s) && t.creditRefs == s.creditRefs && s.journals.Keys <= t.journals.Keys
    requires forall a :: a in s.journals ==> s.journals[a] <= t.journals[a]
    ensures RefsAreBooked(t)
  {
    forall k | k in t.creditRefs ensures RefIsBooked(t, k) {
      assert RefIsBooked(s, k);
      assert forall x :: x in s.journals[k.0] ==> x in t.journals[k.0];
    }
  }

  lemma BookKeepsInv(s: State, a: AccountId, tx: Tx)
    requires Inv(s) && a in s.balances && tx.balanceAfter >= 0
    ensures Inv(Book(s, a, tx))
  {
    hide IndexIsInverse, RefsAreBooked;
    IndexFrame(s, Book(s, a, tx));
    RefsFrame(s, Book(s, a, tx));
  }

  lemma ResolveKeepsInv(s: State, e: EscrowId, status: EscrowStatus)
    requires Inv(s) && e in s.escrows && s.escrows[e].status == Locked && status != Locked
    ensures Inv(Resolve(s, e, status))
  {
    hide RefsAreBooked;
    RefsFrame(s, Resolve(s, e, status));
  }

  lemma CreateKeepsInv(s: State, a: AccountId, initial: int, txId: TxId)
    requires Inv(s)
    ensures Inv(CreateAccountStep(s, a, initial, txId).0)
  {
    hide IndexIsInverse, RefsAreBooked;
    if initial >= 0 && a !in s.balances {
      var blank := s.(balances := s.balances[a := initial], journals := s.journals[a := Journal(s, a)]);
      IndexFrame(s, blank);
      RefsFrame(s, blank);
      BookKeepsInv(blank, a, Tx(txId, CreditTx, initial, initial, Given(INITIAL_REFERENCE)));
    }
  }

  lemma IndexedCreditIsBooked(s: State, a: AccountId, reference: string, tx: Tx)
    requires RefsAreBooked(s) && a in s.journals && tx in s.journals[a]
    requires tx.reference == Given(reference) && tx.kind == CreditTx && tx.amount > 0
    ensures RefsAreBooked(s.(creditRefs := s.creditRefs[(a, reference) := tx]))
  {
    var t := s.(creditRefs := s.creditRefs[(a, reference) := tx]);
    forall k | k in t.creditRefs ensures RefIsBooked(t, k) {
      if k != (a, reference) {
        assert RefIsBooked(s, k);
      }
    }
  }

  lemma CreditKeepsInv(s: State, a: AccountId, amount: int, reference: string, txId: TxId)
    requires Inv(s)
    ensures Inv(CreditStep(s, a, amount, reference, txId).0)
  {
    hide IndexIsInverse, RefsAreBooked;
    if amount > 0 && a in s.balances && (a, reference) !in s.creditRefs {
      var tx := Tx(txId, CreditTx, amount, s.balances[a] + amount, Given(reference));
      var booked := Book(s, a, tx);
      BookKeepsInv(s, a, tx);
      assert booked.journals[a][|Journal(s, a)|] == tx;
      IndexedCreditIsBooked(booked, a, reference, tx);
      IndexFrame(booked, booked.(creditRefs := booked.creditRefs[(a, reference) := tx]));
    }
  }

  lemma LockKeepsIndex(s: State, payer: AccountId, amount: int, task: TaskId, e: EscrowId)
    requires IndexIsInverse(s) && e !in s.escrows && (payer, task) !in s.lockedByTask
    ensures IndexIsInverse(s.(escrows := s.escrows[e := Escrow(payer, amount, task, Locked)],
                              lockedByTask := s.lockedByTask[(payer, task) := e]))
  {
  }

  lemma LockKeepsInv(s: State, payer: AccountId, amount: int, task: TaskId, e: EscrowId, txId: TxId)
    requires Inv(s) && e !in s.escrows
    ensures Inv(LockStep(s, payer, amount, task, e, txId).0)
  {
    hide RefsAreBooked, IndexIsInverse;
    if amount > 0 && payer in s.balances && (payer, task) !in s.lockedByTask && s.balances[payer] >= amount {
      var t := LockStep(s, payer, amount, task, e, txId).0;
      RefsFrame(s, t);
      LockKeepsIndex(s, payer, amount, task, e);
      IndexFrame(s.(escrows := t.escrows, lockedByTask := t.lockedByTask), t);
    }
  }

  lemma ReleaseKeepsInv(s: State, e: EscrowId, recipient: AccountId, txId: TxId)
    requires Inv(s)
    ensures Inv(ReleaseStep(s, e, recipient, txId).0)
  {
    if e in s.escrows && recipient in s.balances && s.escrows[e].status == Locked {
      var amount := s.escrows[e].amount;
      var tx := Tx(txId, CreditTx, amount, s.balances[recipient] + amount, ForRelease(e));
      BookKeepsInv(s, recipient, tx);
      ResolveKeepsInv(Book(s, recipient, tx), e, Released);
    }
  }

  lemma SharesKeepInv(s: State, e: EscrowId, worker: AccountId, w: int, poster: AccountId, p: int,
                      workerTx: TxId, posterTx: TxId)
    requires Inv(s) && worker in s.balances && poster in s.balances && w >= 0 && p >= 0
    ensures Inv(BookShares(s, e, worker, w, poster, p, workerTx, posterTx))
  {
    var first := Tx(workerTx, CreditTx, w, s.balances[worker] + w, ForWorker(e));
    var second := Tx(posterTx, CreditTx, p, s.balances[poster] + p, ForPoster(e));
    BookKeepsInv(s, worker, first);
    BookKeepsInv(Book(s, worker, first), poster, second);
  }

  /** What an accepted split leaves. */
  lemma SplitBooksShares(s: State, e: EscrowId, worker: AccountId, pct: int, poster: AccountId,
                         workerTx: TxId, posterTx: TxId)
    requires 0 <= pct <= 100 && e in s.escrows && s.escrows[e].status == Locked
    requires worker in s.balances && poster in s.balances
    ensures
      var w := WorkerShare(s.escrows[e].amount, pct);
      var booked := BookShares(s, e, worker, w, poster, s.escrows[e].amount - w, workerTx, posterTx);
      && booked.escrows == s.escrows && booked.lockedByTask == s.lockedByTask
      && SplitStep(s, e, worker, pct, poster, workerTx, posterTx).0 == Resolve(booked, e, Split)
  {
    hide WorkerShare;
  }

  lemma SharesAreBounded(s: State, e: EscrowId, pct: int)
    requires Inv(s) && e in s.escrows && 0 <= pct <= 100
    ensures 0 <= WorkerShare(s.escrows[e].amount, pct) <= s.escrows[e].amount
  {
    ShareBounds(s.escrows[e].amount, pct);
  }

  lemma SplitKeepsInv(s: State, e: EscrowId, worker: AccountId, pct: int, poster: AccountId,
                      workerTx: TxId, posterTx: TxId)
    requires Inv(s)
    ensures Inv(SplitStep(s, e, worker, pct, poster, workerTx, posterTx).0)
  {
    hide Inv, WorkerShare, BookShares, Resolve;
    if && 0 <= pct <= 100 && e in s.escrows && s.escrows[e].status == Locked
       && worker in s.balances && poster in s.balances {
      SplitBooksShares(s, e, worker, pct, poster, workerTx, posterTx);
      hide SplitStep;
      var w := WorkerShare(s.escrows[e].amount, pct);
      SharesAreBounded(s, e, pct);
      SharesKeepInv(s, e, worker, w, poster, s.escrows[e].amount - w, workerTx, posterTx);
      ResolveKeepsInv(BookShares(s, e, worker, w, poster, s.escrows[e].amount - w, workerTx, posterTx), e, Split);
    } else {
      assert SplitStep(s, e, worker, pct, poster, workerTx, posterTx).0 == s;
    }
  }

  lemma {:induction false} StepKeepsInv(s: State, c: Call)
    requires Inv(s) && FreshIds(s, c)
    ensures Inv(Step(s, c).0)
  {
    match c
    case CreateAccount(a, initial, txId) => CreateKeepsInv(s, a, initial, txId);
    case Credit(a, amount, reference, txId) => CreditKeepsInv(s, a, amount, reference, txId);
    case Lock(payer, amount, task, e, txId) => LockKeepsInv(s, payer, amount, task, e, txId);
    case Release(e, recipient, txId) => ReleaseKeepsInv(s, e, recipient, txId);
    case SplitEscrow(e, worker, pct, poster, workerTx, posterTx) =>
      SplitKeepsInv(s, e, worker, pct, poster, workerTx, posterTx);
  }

  lemma ShareBounds(amount: int, pct: int)
    requires amount >= 0 && 0 <= pct <= 100
    ensures 0 <= WorkerShare(amount, pct) <= amount
    ensures WorkerShare(amount, pct) > 0 <==> amount * pct >= 100
  {
    assert 0 <= amount * pct <= amount * 100;
  }

  lemma {:induction false} RejectedCallChangesNothing(s: State, c: Call)
    requires Step(s, c).1.Err?
    ensures Step(s, c).0 == s
  {
    match c
    case CreateAccount(_, _, _) =>
    case Credit(_, _, _, _) =>
    case Lock(_, _, _, _, _) =>
    case Release(_, _, _) =>
    case SplitEscrow(_, _, _, _, _, _) =>
  }

  // ----- One call: the money

  /** Money a call brings in: an opening balance, or a credit seen for the first time. */
  function Minted(s: State, c: Call): int {
    match c
    case CreateAccount(a, initial, _) => if initial >= 0 && a !in s.balances then initial else 0
    case Credit(a, amount, reference, _) =>
      if amount > 0 && a in s.balances && (a, reference) !in s.creditRefs then amount else 0
    case _ => 0
  }

  /** A split that pays worker and poster on the same account, with a worker share of at least one coin. */
  predicate LossySplit(s: State, c: Call) {
    && c.SplitEscrow? && 0 <= c.workerPct <= 100
    && c.escrow in s.escrows && s.escrows[c.escrow].status == Locked
    && c.worker == c.poster && c.worker in s.balances
    && s.escrows[c.escrow].amount * c.workerPct >= 100
  }

  function Burned(s: State, c: Call): int {
    if LossySplit(s, c) then WorkerShare(s.escrows[c.escrow].amount, c.workerPct) else 0
  }

  lemma LockedAmountsWithout(escrows: map<EscrowId, Escrow>, e: EscrowId, status: EscrowStatus)
    requires e in escrows && escrows[e].status == Locked && status != Locked
    ensures Sum(LockedAmounts(escrows[e := escrows[e].(status := status)]))
         == Sum(LockedAmounts(escrows)) - escrows[e].amount
  {
    SumRemove(LockedAmounts(escrows), e);
    assert LockedAmounts(escrows[e := escrows[e].(status := status)]) == LockedAmounts(escrows) - {e};
  }

  lemma SharesMoveWealth(s: State, e: EscrowId, worker: AccountId, w: int, poster: AccountId, p: int,
                         workerTx: TxId, posterTx: TxId)
    requires worker in s.balances && poster in s.balances
    ensures Sum(BookShares(s, e, worker, w, poster, p, workerTx, posterTx).balances)
         == Sum(s.balances) + p + (if worker == poster then 0 else w)
  {
    var mid := s.balances[worker := s.balances[worker] + w];
    SumUpdate(s.balances, worker, s.balances[worker] + w);
    SumUpdate(mid, poster, s.balances[poster] + p);
  }

  lemma SplitMovesWealth(s: State, c: Call)
    requires BooksAreSound(s) && c.SplitEscrow?
    ensures Wealth(SplitStep(s, c.escrow, c.worker, c.workerPct, c.poster, c.workerTx, c.posterTx).0)
         == Wealth(s) - Burned(s, c)
  {
    if && 0 <= c.workerPct <= 100 && c.escrow in s.escrows && s.escrows[c.escrow].status == Locked
       && c.worker in s.balances && c.poster in s.balances {
      var amount := s.escrows[c.escrow].amount;
      var w := WorkerShare(amount, c.workerPct);
      assert Burned(s, c) == if c.worker == c.poster then w else 0 by {
        ShareBounds(amount, c.workerPct);
      }
      SplitBooksShares(s, c.escrow, c.worker, c.workerPct, c.poster, c.workerTx, c.posterTx);
      hide WorkerShare, Burned, BookShares, SplitStep;
      SharesMoveWealth(s, c.escrow, c.worker, w, c.poster, amount - w, c.workerTx, c.posterTx);
      LockedAmountsWithout(s.escrows, c.escrow, Split);
    }
  }

  lemma CreateMovesWealth(s: State, a: AccountId, initial: int, txId: TxId)
    ensures Wealth(CreateAccountStep(s, a, initial, txId).0) == Wealth(s) + Minted(s, CreateAccount(a, initial, txId))
  {
    SumUpdate(s.balances, a, initial);
    assert s.balances[a := initial][a := initial] == s.balances[a := initial];
  }

  lemma LockMovesWealth(s: State, payer: AccountId, amount: int, task: TaskId, e: EscrowId, txId: TxId)
    requires e !in s.escrows
    ensures Wealth(LockStep(s, payer, amount, task, e, txId).0) == Wealth(s)
  {
    if payer in s.balances {
      SumUpdate(s.balances, payer, s.balances[payer] - amount);
      SumUpdate(LockedAmounts(s.escrows), e, amount);
      assert LockedAmounts(s.escrows[e := Escrow(payer, amount, task, Locked)])
          == LockedAmounts(s.escrows)[e := amount];
    }
  }

  lemma ReleaseMovesWealth(s: State, e: EscrowId, recipient: AccountId, txId: TxId)
    ensures Wealth(ReleaseStep(s, e, recipient, txId).0) == Wealth(s)
  {
    if e in s.escrows && recipient in s.balances && s.escrows[e].status == Locked {
      SumUpdate(s.balances, recipient, s.balances[recipient] + s.escrows[e].amount);
      LockedAmountsWithout(s.escrows, e, Released);
    }
  }

  lemma {:induction false} StepMovesWealth(s: State, c: Call)
    requires BooksAreSound(s) && FreshIds(s, c)
    ensures Wealth(Step(s, c).0) == Wealth(s) + Minted(s, c) - Burned(s, c)
  {
    match c
    case CreateAccount(a, initial, txId) => CreateMovesWealth(s, a, initial, txId);
    case Credit(a, amount, _, _) =>
      if a in s.balances {
        SumUpdate(s.balances, a, s.balances[a] + amount);
      }
    case Lock(payer, amount, task, e, txId) => LockMovesWealth(s, payer, amount, task, e, txId);
    case Release(e, recipient, txId) => ReleaseMovesWealth(s, e, recipient, txId);
    case SplitEscrow(_, _, _, _, _, _) => SplitMovesWealth(s, c);
  }

  // ----- Whole runs: the money

  function MintedUpTo(s: State, calls: seq<Call>, n: nat): int
    requires n <= |calls|
  {
    if n == 0 then 0 else MintedUpTo(s, calls, n - 1) + Minted(At(s, calls, n - 1), calls[n - 1])
  }

  function BurnedUpTo(s: State, calls: seq<Call>, n: nat): int
    requires n <= |calls|
  {
    if n == 0 then 0 else BurnedUpTo(s, calls, n - 1) + Burned(At(s, calls, n - 1), calls[n - 1])
  }

  /** One of the first `n` calls is a lossy split at the moment it is made. */
  ghost predicate HasLossySplit(s: State, calls: seq<Call>, n: nat)
    requires n <= |calls|
  {
    exists i {:trigger LossySplit(At(s, calls, i), calls[i])} ::
      0 <= i < n && LossySplit(At(s, calls, i), calls[i])
  }

  lemma {:induction false} RunKeepsInv(s: State, calls: seq<Call>, n: nat)
    requires Inv(s) && FreshRun(s, calls) && n <= |calls|
    ensures Inv(At(s, calls, n))
  {
    hide Step;
    if n > 0 {
      RunKeepsInv(s, calls, n - 1);
      StepKeepsInv(At(s, calls, n - 1), calls[n - 1]);
    }
  }

  /** The exact account of the money over any run, self-splits included. */
  lemma {:induction false} RunAccountsForWealth(s: State, calls: seq<Call>, n: nat)
    requires Inv(s) && FreshRun(s, calls) && n <= |calls|
    ensures Wealth(At(s, calls, n)) == Wealth(s) + MintedUpTo(s, calls, n) - BurnedUpTo(s, calls, n)
  {
    hide Step;
    if n > 0 {
      RunAccountsForWealth(s, calls, n - 1);
      RunKeepsInv(s, calls, n - 1);
      StepMovesWealth(At(s, calls, n - 1), calls[n - 1]);
    }
  }

  lemma BurnedIsPositiveIff(s: State, c: Call)
    requires BooksAreSound(s)
    ensures Burned(s, c) >= 0
    ensures Burned(s, c) > 0 <==> LossySplit(s, c)
  {
    if LossySplit(s, c) {
      ShareBounds(s.escrows[c.escrow].amount, c.workerPct);
    }
  }

  lemma {:induction false} BurnedOnlyByLossySplits(s: State, calls: seq<Call>, n: nat)
    requires Inv(s) && FreshRun(s, calls) && n <= |calls|
    ensures BurnedUpTo(s, calls, n) >= 0
    ensures BurnedUpTo(s, calls, n) > 0 <==> HasLossySplit(s, calls, n)
  {
    hide Step;
    if n > 0 {
      BurnedOnlyByLossySplits(s, calls, n - 1);
      RunKeepsInv(s, calls, n - 1);
      BurnedIsPositiveIff(At(s, calls, n - 1), calls[n - 1]);
    }
  }

  /** Conservation holds of a run exactly when no split in it pays worker and poster on one account with a worker
      share of at least one coin. */
  lemma WealthConservedIff(s: State, calls: seq<Call>)
    requires Inv(s) && FreshRun(s, calls)
    ensures Wealth(Run(s, calls)) == Wealth(s) + MintedUpTo(s, calls, |calls|)
       <==> !HasLossySplit(s, calls, |calls|)
  {
    RunAccountsForWealth(s, calls, |calls|);
    BurnedOnlyByLossySplits(s, calls, |calls|);
  }

  /** Nobody goes below zero, the index is exact, and escrows never hold more than was ever brought in. */
  lemma RunStaysSolvent(calls: seq<Call>)
    requires FreshRun(EMPTY, calls)
    ensures forall a :: a in Run(EMPTY, calls).balances ==> Run(EMPTY, calls).balances[a] >= 0
    ensures IndexIsInverse(Run(EMPTY, calls))
    ensures 0 <= TotalEscrowed(Run(EMPTY, calls)) <= MintedUpTo(EMPTY, calls, |calls|)
  {
    hide Step;
    var s := Run(EMPTY, calls);
    RunKeepsInv(EMPTY, calls, |calls|);
    RunAccountsForWealth(EMPTY, calls, |calls|);
    BurnedOnlyByLossySplits(EMPTY, calls, |calls|);
    SumNonNegative(s.balances);
    SumNonNegative(LockedAmounts(s.escrows));
    EmptyLedger("");
  }

  /** The concrete loss: an escrow of 10 split half and half with one account on both sides pays out 5. */
  lemma SelfSplitLosesMoney()
    ensures
      var calls :=
        [CreateAccount("a", 10, "x0"), Lock("a", 10, "t", "e", "x1"), SplitEscrow("e", "a", 50, "a", "x2", "x3")];
      FreshRun(EMPTY, calls) && MintedUpTo(EMPTY, calls, 3) == 10 && Wealth(Run(EMPTY, calls)) == 5
  {
    var calls :=
      [CreateAccount("a", 10, "x0"), Lock("a", 10, "t", "e", "x1"), SplitEscrow("e", "a", 50, "a", "x2", "x3")];
    var s1 := CreateAccountStep(EMPTY, "a", 10, "x0").0;
    assert At(EMPTY, calls, 0) == EMPTY && At(EMPTY, calls, 1) == s1;
    var s2 := LockStep(s1, "a", 10, "t", "e", "x1").0;
    assert s1.balances["a"] == 10 && s2.escrows["e"] == Escrow("a", 10, "t", Locked) && "a" in s2.balances;
    assert At(EMPTY, calls, 2) == s2;
    assert Minted(EMPTY, calls[0]) == 10 && Minted(s1, calls[1]) == 0 && Minted(s2, calls[2]) == 0;
    assert Burned(EMPTY, calls[0]) == 0 && Burned(s1, calls[1]) == 0 && Burned(s2, calls[2]) == 5;
    assert FreshIds(EMPTY, calls[0]) && FreshIds(s1, calls[1]) && FreshIds(s2, calls[2]);
    EmptyLedger("");
    hide Step, Minted, Burned, Inv;
    assert MintedUpTo(EMPTY, calls, 1) == 10 && BurnedUpTo(EMPTY, calls, 1) == 0;
    assert MintedUpTo(EMPTY, calls, 2) == 10 && BurnedUpTo(EMPTY, calls, 2) == 0;
    RunAccountsForWealth(EMPTY, calls, 3);
  }

  // ----- Journals

  function Signed(tx: Tx): int {
    if tx.kind == CreditTx then tx.amount else -tx.amount
  }

  /** The signed sum of the first `n` entries. */
  function Net(j: seq<Tx>, n: nat): int
    requires n <= |j|
  {
    if n == 0 then 0 else Net(j, n - 1) + Signed(j[n - 1])
  }

  /** Entry `i` announces the signed sum of the journal up to and including itself. */
  predicate EntryReplays(j: seq<Tx>, i: nat)
    requires i < |j|
  {
    j[i].balanceAfter == Net(j, i + 1)
  }

  predicate Replays(j: seq<Tx>) {
    forall i :: 0 <= i < |j| ==> EntryReplays(j, i)
  }

  lemma {:induction false} NetOfPrefix(j: seq<Tx>, tx: Tx, n: nat)
    requires n <= |j|
    ensures Net(j + [tx], n) == Net(j, n)
  {
    if n > 0 {
      NetOfPrefix(j, tx, n - 1);
    }
  }

  lemma EntryOfPrefix(j: seq<Tx>, tx: Tx, i: nat)
    requires i < |j|
    ensures EntryReplays(j + [tx], i) <==> EntryReplays(j, i)
  {
    assert (j + [tx])[i] == j[i];
    NetOfPrefix(j, tx, i + 1);
  }

  lemma ReplaysSnoc(j: seq<Tx>, tx: Tx)
    ensures Net(j + [tx], |j| + 1) == Net(j, |j|) + Signed(tx)
    ensures Replays(j + [tx]) <==> Replays(j) && tx.balanceAfter == Net(j, |j|) + Signed(tx)
  {
    var k := j + [tx];
    NetOfPrefix(j, tx, |j|);
    assert k[|j|] == tx;
    assert EntryReplays(k, |j|) <==> tx.balanceAfter == Net(j, |j|) + Signed(tx);
    forall i | 0 <= i < |j| ensures EntryReplays(k, i) <==> EntryReplays(j, i) {
      EntryOfPrefix(j, tx, i);
    }
    hide EntryReplays, Net;
    if Replays(k) {
      forall i | 0 <= i < |j| ensures EntryReplays(j, i) {
        assert EntryReplays(k, i);
      }
    }
  }

  function Balance(s: State, a: AccountId): int {
    if a in s.balances then s.balances[a] else 0
  }

  /** How far account `a`'s journal runs ahead of its balance, and whether the journal replays. */
  function Drift(s: State, a: AccountId): (int, bool) {
    (Net(Journal(s, a), |Journal(s, a)|) - Balance(s, a), Replays(Journal(s, a)))
  }

  predicate JournalDrifts(s: State, a: AccountId, drift: int) {
    drift >= 0 && Drift(s, a) == (drift, drift == 0)
  }

  lemma DriftFrame(s: State, t: State, a: AccountId, drift: int)
    requires JournalDrifts(s, a, drift) && Journal(t, a) == Journal(s, a) && Balance(t, a) == Balance(s, a)
    ensures JournalDrifts(t, a, drift)
  {
  }

  lemma BookDrifts(s: State, a: AccountId, tx: Tx, b: AccountId, drift: int)
    requires JournalDrifts(s, b, drift)
    requires a in s.balances && tx.balanceAfter == s.balances[a] + Signed(tx)
    ensures JournalDrifts(Book(s, a, tx), b, drift)
  {
    ReplaysSnoc(Journal(s, a), tx);
  }

  function BurnedOn(s: State, c: Call, a: AccountId): int {
    if LossySplit(s, c) && c.worker == a then Burned(s, c) else 0
  }

  /** The second entry of a self-split is computed as if the first had not been booked. */
  lemma SelfBookDrifts(s: State, a: AccountId, first: Tx, second: Tx, b: AccountId, drift: int)
    requires JournalDrifts(s, b, drift) && a in s.balances
    requires first.kind == second.kind == CreditTx && first.amount >= 0
    requires first.balanceAfter == s.balances[a] + first.amount
    requires second.balanceAfter == s.balances[a] + second.amount
    ensures JournalDrifts(Book(Book(s, a, first), a, second), b, drift + if a == b then first.amount else 0)
  {
    var j := Journal(s, a);
    ReplaysSnoc(j, first);
    ReplaysSnoc(j + [first], second);
    assert Journal(Book(s, a, first), a) == j + [first];
  }

  lemma SharesDrift(s: State, e: EscrowId, worker: AccountId, w: int, poster: AccountId, p: int,
                    workerTx: TxId, posterTx: TxId, a: AccountId, drift: int)
    requires worker in s.balances && poster in s.balances && w >= 0 && JournalDrifts(s, a, drift)
    ensures JournalDrifts(BookShares(s, e, worker, w, poster, p, workerTx, posterTx), a,
                          drift + if worker == poster == a then w else 0)
  {
    hide Net, Replays;
    var first := Tx(workerTx, CreditTx, w, s.balances[worker] + w, ForWorker(e));
    var second := Tx(posterTx, CreditTx, p, s.balances[poster] + p, ForPoster(e));
    if worker != poster {
      BookDrifts(s, worker, first, a, drift);
      BookDrifts(Book(s, worker, first), poster, second, a, drift);
    } else {
      SelfBookDrifts(s, worker, first, second, a, drift);
    }
    assert BookShares(s, e, worker, w, poster, p, workerTx, posterTx) == Book(Book(s, worker, first), poster, second);
  }

  lemma SplitDrifts(s: State, c: Call, a: AccountId, drift: int)
    requires BooksAreSound(s) && c.SplitEscrow? && JournalDrifts(s, a, drift)
    ensures JournalDrifts(SplitStep(s, c.escrow, c.worker, c.workerPct, c.poster, c.workerTx, c.posterTx).0,
                          a, drift + BurnedOn(s, c, a))
  {
    hide Net, Replays;
    if && 0 <= c.workerPct <= 100 && c.escrow in s.escrows && s.escrows[c.escrow].status == Locked
       && c.worker in s.balances && c.poster in s.balances {
      var amount := s.escrows[c.escrow].amount;
      var w := WorkerShare(amount, c.workerPct);
      var after := drift + if c.worker == c.poster == a then w else 0;
      assert w >= 0 && after == drift + BurnedOn(s, c, a) by {
        ShareBounds(amount, c.workerPct);
      }
      var booked := BookShares(s, c.escrow, c.worker, w, c.poster, amount - w, c.workerTx, c.posterTx);
      SharesDrift(s, c.escrow, c.worker, w, c.poster, amount - w, c.workerTx, c.posterTx, a, drift);
      DriftFrame(booked, Resolve(booked, c.escrow, Split), a, after);
      assert SplitStep(s, c.escrow, c.worker, c.workerPct, c.poster, c.workerTx, c.posterTx).0
          == Resolve(booked, c.escrow, Split);
    }
  }

  lemma CreateDrifts(s: State, b: AccountId, initial: int, txId: TxId, a: AccountId, drift: int)
    requires BooksAreSound(s) && JournalDrifts(s, a, drift)
    ensures JournalDrifts(CreateAccountStep(s, b, initial, txId).0, a, drift)
  {
    if b == a && initial >= 0 && b !in s.balances {
      ReplaysSnoc([], Tx(txId, CreditTx, initial, initial, Given(INITIAL_REFERENCE)));
    }
  }

  lemma CreditDrifts(s: State, b: AccountId, amount: int, reference: string, txId: TxId, a: AccountId, drift: int)
    requires JournalDrifts(s, a, drift)
    ensures JournalDrifts(CreditStep(s, b, amount, reference, txId).0, a, drift)
  {
    hide Net, Replays;
    if amount > 0 && b in s.balances && (b, reference) !in s.creditRefs {
      BookDrifts(s, b, Tx(txId, CreditTx, amount, s.balances[b] + amount, Given(reference)), a, drift);
    }
  }

  lemma LockDrifts(s: State, payer: AccountId, amount: int, task: TaskId, e: EscrowId, txId: TxId,
                   a: AccountId, drift: int)
    requires JournalDrifts(s, a, drift)
    ensures JournalDrifts(LockStep(s, payer, amount, task, e, txId).0, a, drift)
  {
    hide Net, Replays;
    if payer in s.balances {
      BookDrifts(s, payer, Tx(txId, DebitTx, amount, s.balances[payer] - amount, ForLock(task)), a, drift);
    }
  }

  lemma ReleaseDrifts(s: State, e: EscrowId, recipient: AccountId, txId: TxId, a: AccountId, drift: int)
    requires JournalDrifts(s, a, drift)
    ensures JournalDrifts(ReleaseStep(s, e, recipient, txId).0, a, drift)
  {
    hide Net, Replays;
    if e in s.escrows && recipient in s.balances {
      var amount := s.escrows[e].amount;
      BookDrifts(s, recipient,
                 Tx(txId, CreditTx, amount, s.balances[recipient] + amount, ForRelease(e)), a, drift);
    }
  }

  lemma {:induction false} StepDrifts(s: State, c: Call, a: AccountId, drift: int)
    requires BooksAreSound(s) && JournalDrifts(s, a, drift)
    ensures JournalDrifts(Step(s, c).0, a, drift + BurnedOn(s, c, a))
  {
    hide Net, Replays;
    match c
    case CreateAccount(b, initial, txId) => CreateDrifts(s, b, initial, txId, a, drift);
    case Credit(b, amount, reference, txId) => CreditDrifts(s, b, amount, reference, txId, a, drift);
    case Lock(payer, amount, task, e, txId) => LockDrifts(s, payer, amount, task, e, txId, a, drift);
    case Release(e, recipient, txId) => ReleaseDrifts(s, e, recipient, txId, a, drift);
    case SplitEscrow(_, _, _, _, _, _) => SplitDrifts(s, c, a, drift);
  }

  function BurnedOnUpTo(calls: seq<Call>, n: nat, a: AccountId): int
    requires n <= |calls|
  {
    if n == 0 then 0 else BurnedOnUpTo(calls, n - 1, a) + BurnedOn(At(EMPTY, calls, n - 1), calls[n - 1], a)
  }

  lemma EmptyLedger(a: AccountId)
    ensures Inv(EMPTY) && JournalDrifts(EMPTY, a, 0)
    ensures Sum(LockedAmounts(EMPTY.escrows)) == 0
  {
    assert LockedAmounts(EMPTY.escrows) == map[];
  }

  lemma {:induction false} RunDrifts(calls: seq<Call>, n: nat, a: AccountId)
    requires FreshRun(EMPTY, calls) && n <= |calls|
    ensures JournalDrifts(At(EMPTY, calls, n), a, BurnedOnUpTo(calls, n, a))
  {
    hide Step, JournalDrifts, BurnedOn, IndexIsInverse, RefsAreBooked;
    EmptyLedger(a);
    if n > 0 {
      RunDrifts(calls, n - 1, a);
      RunKeepsInv(EMPTY, calls, n - 1);
      StepDrifts(At(EMPTY, calls, n - 1), calls[n - 1], a, BurnedOnUpTo(calls, n - 1, a));
    }
  }

  /** In every reachable ledger a journal replays, and sums to its account's balance, exactly when
      no self-split ever took coins from that account. */
  lemma JournalReplaysIff(calls: seq<Call>, a: AccountId)
    requires FreshRun(EMPTY, calls) && a in Run(EMPTY, calls).balances
    ensures
      var s := Run(EMPTY, calls);
      && a in s.journals
      && (Replays(s.journals[a]) <==> BurnedOnUpTo(calls, |calls|, a) == 0)
      && Net(s.journals[a], |s.journals[a]|) - s.balances[a] == BurnedOnUpTo(calls, |calls|, a)
  {
    hide Step;
    RunDrifts(calls, |calls|, a);
    RunKeepsInv(EMPTY, calls, |calls|);
  }

  // ----- Escrows

  /** What an escrow row keeps from one ledger to a later one. */
  predicate RowsPersist(s: State, t: State) {
    forall e :: e in s.escrows ==>
      && e in t.escrows
      && t.escrows[e] == s.escrows[e].(status := t.escrows[e].status)
      && (s.escrows[e].status != Locked ==> t.escrows[e].status == s.escrows[e].status)
  }

  lemma {:induction false} StepRowsPersist(s: State, c: Call)
    requires FreshIds(s, c)
    ensures RowsPersist(s, Step(s, c).0)
  {
    match c
    case CreateAccount(_, _, _) =>
    case Credit(_, _, _, _) =>
    case Lock(_, _, _, _, _) =>
    case Release(_, _, _) =>
    case SplitEscrow(_, _, _, _, _, _) =>
  }

  lemma {:induction false} RunRowsPersist(s: State, calls: seq<Call>, i: nat, n: nat)
    requires FreshRun(s, calls) && i <= n <= |calls|
    ensures RowsPersist(At(s, calls, i), At(s, calls, n))
  {
    hide Step;
    if i < n {
      RunRowsPersist(s, calls, i, n - 1);
      StepRowsPersist(At(s, calls, n - 1), calls[n - 1]);
    }
  }

  /** A call that is made to resolve escrow `e`, accepted or not. */
  predicate Addresses(c: Call, e: EscrowId) {
    (c.Release? || c.SplitEscrow?) && c.escrow == e
  }

  /** The money that reaches accounts by a call made to resolve escrow `e`. */
  ghost function PaidBy(s: State, c: Call, e: EscrowId): int {
    if Addresses(c, e) then Sum(Step(s, c).0.balances) - Sum(s.balances) else 0
  }

  predicate Leaves(s: State, c: Call, e: EscrowId) {
    && e in s.escrows && s.escrows[e].status == Locked
    && e in Step(s, c).0.escrows && Step(s, c).0.escrows[e].status != Locked
  }

  ghost function PaidUpTo(calls: seq<Call>, n: nat, e: EscrowId): int
    requires n <= |calls|
  {
    if n == 0 then 0 else PaidUpTo(calls, n - 1, e) + PaidBy(At(EMPTY, calls, n - 1), calls[n - 1], e)
  }

  predicate Resolved(s: State, e: EscrowId) {
    e in s.escrows && s.escrows[e].status != Locked
  }

  lemma ReleasePays(s: State, e: EscrowId, recipient: AccountId, txId: TxId)
    ensures PaidBy(s, Release(e, recipient, txId), e)
         == if Leaves(s, Release(e, recipient, txId), e) then s.escrows[e].amount else 0
  {
    if e in s.escrows && recipient in s.balances && s.escrows[e].status == Locked {
      SumUpdate(s.balances, recipient, s.balances[recipient] + s.escrows[e].amount);
    }
  }

  lemma SplitPays(s: State, c: Call)
    requires BooksAreSound(s) && c.SplitEscrow?
    ensures PaidBy(s, c, c.escrow)
         == if Leaves(s, c, c.escrow) then s.escrows[c.escrow].amount - Burned(s, c) else 0
  {
    if && 0 <= c.workerPct <= 100 && c.escrow in s.escrows && s.escrows[c.escrow].status == Locked
       && c.worker in s.balances && c.poster in s.balances {
      var amount := s.escrows[c.escrow].amount;
      var w := WorkerShare(amount, c.workerPct);
      assert Burned(s, c) == if c.worker == c.poster then w else 0 by {
        ShareBounds(amount, c.workerPct);
      }
      hide WorkerShare, Burned;
      SharesMoveWealth(s, c.escrow, c.worker, w, c.poster, amount - w, c.workerTx, c.posterTx);
    } else {
      assert Step(s, c).0 == s;
    }
  }

  /** A call moves an escrow's money exactly when it takes the escrow out of locked, and then all of it but what a
      self-split loses. */
  lemma {:induction false} StepPays(s: State, c: Call, e: EscrowId)
    requires BooksAreSound(s) && FreshIds(s, c)
    ensures Resolved(Step(s, c).0, e) ==> e in s.escrows
    ensures Leaves(s, c, e) <==> !Resolved(s, e) && Resolved(Step(s, c).0, e)
    ensures PaidBy(s, c, e) == if Leaves(s, c, e) then s.escrows[e].amount - Burned(s, c) else 0
  {
    match c
    case CreateAccount(_, _, _) =>
    case Credit(_, _, _, _) =>
    case Lock(_, _, _, _, _) =>
    case Release(f, recipient, txId) => ReleasePays(s, f, recipient, txId);
    case SplitEscrow(_, _, _, _, _, _) => SplitPays(s, c);
  }

  /** Call `i` took escrow `e` out of locked, and of its amount all but the loss of that call has been paid. */
  ghost predicate PaidByCall(calls: seq<Call>, n: nat, e: EscrowId, i: nat)
    requires i < n <= |calls|
  {
    var s := At(EMPTY, calls, i);
    Leaves(s, calls[i], e) && PaidUpTo(calls, n, e) == s.escrows[e].amount - Burned(s, calls[i])
  }

  ghost predicate IsPaid(calls: seq<Call>, n: nat, e: EscrowId)
    requires n <= |calls|
  {
    exists i :: 0 <= i < n && PaidByCall(calls, n, e, i)
  }

  /** An escrow that is locked has paid nothing; one that is resolved has been paid out by one call. */
  ghost predicate PaidOnce(calls: seq<Call>, n: nat, e: EscrowId)
    requires n <= |calls|
  {
    if Resolved(At(EMPTY, calls, n), e) then IsPaid(calls, n, e) else PaidUpTo(calls, n, e) == 0
  }

  /** Over any run an escrow has paid nothing while locked; once it is resolved, one call has paid its amount, less
      what a self-split by that call lost, and no other call has paid anything. */
  lemma {:induction false} EscrowPaysExactlyOnce(calls: seq<Call>, n: nat, e: EscrowId)
    requires FreshRun(EMPTY, calls) && n <= |calls|
    ensures PaidOnce(calls, n, e)
  {
    hide PaidOnce, FreshRun;
    if n > 0 {
      EscrowPaysExactlyOnce(calls, n - 1, e);
      PaidOnceStep(calls, n - 1, e);
    } else {
      NothingYetPaid(calls, e);
    }
  }

  lemma NothingYetPaid(calls: seq<Call>, e: EscrowId)
    ensures PaidOnce(calls, 0, e)
  {
  }

  lemma PaidOnceStep(calls: seq<Call>, n: nat, e: EscrowId)
    requires FreshRun(EMPTY, calls) && n < |calls| && PaidOnce(calls, n, e)
    ensures PaidOnce(calls, n + 1, e)
  {
    hide At, Step, Resolved, IsPaid, PaidBy, FreshRun, PaidUpTo, Leaves, Burned;
    RunStepPays(calls, n, e);
    PaidOneMore(calls, n, e);
    if Resolved(At(EMPTY, calls, n), e) {
      StaysPaid(calls, n, e);
    } else if Resolved(At(EMPTY, calls, n + 1), e) {
      PaidNow(calls, n, e);
    }
  }

  lemma PaidOneMore(calls: seq<Call>, n: nat, e: EscrowId)
    requires n < |calls|
    ensures PaidUpTo(calls, n + 1, e) == PaidUpTo(calls, n, e) + PaidBy(At(EMPTY, calls, n), calls[n], e)
  {
  }

  lemma PaidNow(calls: seq<Call>, n: nat, e: EscrowId)
    requires n < |calls| && PaidUpTo(calls, n, e) == 0 && Leaves(At(EMPTY, calls, n), calls[n], e)
    requires
      var s := At(EMPTY, calls, n);
      PaidBy(s, calls[n], e) == s.escrows[e].amount - Burned(s, calls[n])
    ensures IsPaid(calls, n + 1, e)
  {
    hide At, Burned, PaidBy;
    assert PaidByCall(calls, n + 1, e, n);
  }

  lemma StaysPaid(calls: seq<Call>, n: nat, e: EscrowId)
    requires n < |calls| && IsPaid(calls, n, e) && PaidBy(At(EMPTY, calls, n), calls[n], e) == 0
    ensures IsPaid(calls, n + 1, e)
  {
    hide At, Burned, PaidBy, Leaves;
    var i :| 0 <= i < n && PaidByCall(calls, n, e, i);
    assert PaidByCall(calls, n + 1, e, i);
  }

  lemma RunStepPays(calls: seq<Call>, n: nat, e: EscrowId)
    requires FreshRun(EMPTY, calls) && n < |calls|
    ensures
      var s, t := At(EMPTY, calls, n), At(EMPTY, calls, n + 1);
      && (Leaves(s, calls[n], e) <==> !Resolved(s, e) && Resolved(t, e))
      && (Resolved(s, e) ==> Resolved(t, e)) && (Leaves(s, calls[n], e) ==> e in s.escrows)
      && PaidBy(s, calls[n], e) == (if Leaves(s, calls[n], e) then s.escrows[e].amount - Burned(s, calls[n]) else 0)
  {
    var s := At(EMPTY, calls, n);
    RunKeepsInv(EMPTY, calls, n);
    assert FreshIds(s, calls[n]) && BooksAreSound(s);
    hide BooksAreSound, Step, PaidBy, Burned, Inv, FreshRun, FreshIds;
    StepPays(s, calls[n], e);
    StepRowsPersist(s, calls[n]);
  }

  /** One of the first `n` calls resolves escrow `e` by a split that loses coins. */
  ghost predicate LossilyResolved(calls: seq<Call>, n: nat, e: EscrowId)
    requires n <= |calls|
  {
    exists i {:trigger LossySplit(At(EMPTY, calls, i), calls[i])} ::
      0 <= i < n && Leaves(At(EMPTY, calls, i), calls[i], e) && LossySplit(At(EMPTY, calls, i), calls[i])
  }

  /** A resolved escrow has paid exactly its amount if and only if no lossy self-split resolved it. */
  lemma PaysInFullIff(calls: seq<Call>, n: nat, e: EscrowId)
    requires FreshRun(EMPTY, calls) && n <= |calls| && Resolved(At(EMPTY, calls, n), e)
    ensures PaidUpTo(calls, n, e) == At(EMPTY, calls, n).escrows[e].amount <==> !LossilyResolved(calls, n, e)
  {
    hide Step, Leaves, LossySplit, Burned, PaidUpTo;
    EscrowPaysExactlyOnce(calls, n, e);
    var i :| 0 <= i < n && PaidByCall(calls, n, e, i);
    RunKeepsInv(EMPTY, calls, i);
    BurnedIsPositiveIff(At(EMPTY, calls, i), calls[i]);
    assert At(EMPTY, calls, i).escrows[e].amount == At(EMPTY, calls, n).escrows[e].amount by {
      RunRowsPersist(EMPTY, calls, i, n);
      LeavesFromLocked(At(EMPTY, calls, i), calls[i], e);
    }
    forall j | 0 <= j < n && Leaves(At(EMPTY, calls, j), calls[j], e) ensures j == i {
      OnlyOneLeaves(calls, e, i, j);
    }
  }

  lemma LeavesFromLocked(s: State, c: Call, e: EscrowId)
    requires Leaves(s, c, e)
    ensures e in s.escrows && s.escrows[e].status == Locked
  {
  }

  lemma OnlyOneLeaves(calls: seq<Call>, e: EscrowId, i: nat, j: nat)
    requires FreshRun(EMPTY, calls) && i < |calls| && j < |calls|
    requires Leaves(At(EMPTY, calls, i), calls[i], e) && Leaves(At(EMPTY, calls, j), calls[j], e)
    ensures i == j
  {
    hide Leaves;
    if i < j {
      LeavesLockedAtMostOnce(calls, e, i, j);
    } else if j < i {
      LeavesLockedAtMostOnce(calls, e, j, i);
    }
  }

  lemma LeavesLockedAtMostOnce(calls: seq<Call>, e: EscrowId, i: nat, j: nat)
    requires FreshRun(EMPTY, calls) && i < j < |calls|
    requires Leaves(At(EMPTY, calls, i), calls[i], e)
    ensures !Leaves(At(EMPTY, calls, j), calls[j], e)
  {
    hide Step, FreshIds;
    assert Resolved(At(EMPTY, calls, i + 1), e);
    RunRowsPersist(EMPTY, calls, i + 1, j);
  }

  /** A lock that was granted, or found its escrow already there, names an escrow with that payer, amount and task. */
  lemma LockAnswerNamesEscrow(s: State, payer: AccountId, amount: int, task: TaskId, e: EscrowId, tx: TxId)
    requires IndexIsInverse(s) && LockStep(s, payer, amount, task, e, tx).1.Ok?
    ensures
      var (t, answer) := LockStep(s, payer, amount, task, e, tx);
      answer.value.escrowId in t.escrows
      && t.escrows[answer.value.escrowId] == Escrow(payer, amount, task, Locked)
  {
  }

  lemma LockFindsEscrow(s: State, id: EscrowId, payer: AccountId, amount: int, task: TaskId, e: EscrowId, tx: TxId)
    requires Inv(s) && id in s.escrows && s.escrows[id] == Escrow(payer, amount, task, Locked)
    ensures LockStep(s, payer, amount, task, e, tx) == (s, Ok(EscrowLocked(id, amount, task, Locked)))
  {
  }

  lemma LockLeavesRow(calls: seq<Call>, i: nat, payer: AccountId, amount: int, task: TaskId, e: EscrowId, tx: TxId,
                      id: EscrowId)
    requires FreshRun(EMPTY, calls) && i < |calls| && calls[i] == Lock(payer, amount, task, e, tx)
    requires LockStep(At(EMPTY, calls, i), payer, amount, task, e, tx).1 == Ok(EscrowLocked(id, amount, task, Locked))
    ensures var s := At(EMPTY, calls, i + 1); id in s.escrows && s.escrows[id] == Escrow(payer, amount, task, Locked)
  {
    assert Inv(At(EMPTY, calls, i)) by {
      hide Step;
      RunKeepsInv(EMPTY, calls, i);
    }
    LockAnswerNamesEscrow(At(EMPTY, calls, i), payer, amount, task, e, tx);
    assert At(EMPTY, calls, i + 1) == LockStep(At(EMPTY, calls, i), payer, amount, task, e, tx).0;
  }

  /** Repeating a lock while its escrow is still locked answers with that escrow and changes nothing. */
  lemma LockReplays(calls: seq<Call>, i: nat, payer: AccountId, amount: int, task: TaskId, e: EscrowId, tx: TxId,
                    id: EscrowId, e': EscrowId, tx': TxId)
    requires FreshRun(EMPTY, calls) && i < |calls| && calls[i] == Lock(payer, amount, task, e, tx)
    requires LockStep(At(EMPTY, calls, i), payer, amount, task, e, tx).1 == Ok(EscrowLocked(id, amount, task, Locked))
    requires id in Run(EMPTY, calls).escrows && Run(EMPTY, calls).escrows[id].status == Locked
    ensures LockStep(Run(EMPTY, calls), payer, amount, task, e', tx')
         == (Run(EMPTY, calls), Ok(EscrowLocked(id, amount, task, Locked)))
  {
    hide Step, LockStep;
    LockLeavesRow(calls, i, payer, amount, task, e, tx, id);
    RunRowsPersist(EMPTY, calls, i + 1, |calls|);
    RunKeepsInv(EMPTY, calls, |calls|);
    LockFindsEscrow(Run(EMPTY, calls), id, payer, amount, task, e', tx');
  }

  // ----- At-least-once delivery

  predicate SameCredit(c: Call, d: Call) {
    c.Credit? && d.Credit? && c.account == d.account && c.amount == d.amount && c.reference == d.reference
  }

  predicate RepeatsEarlier(calls: seq<Call>, n: nat)
    requires n < |calls|
  {
    exists i :: 0 <= i < n && SameCredit(calls[i], calls[n])
  }

  /** The first `n` calls without the credits that repeat an earlier one; a repetition draws its own tx id. */
  function FirstOccurrences(calls: seq<Call>, n: nat): seq<Call>
    requires n <= |calls|
  {
    if n == 0 then []
    else if RepeatsEarlier(calls, n - 1) then FirstOccurrences(calls, n - 1)
    else FirstOccurrences(calls, n - 1) + [calls[n - 1]]
  }

  /** Accounts and credit references, once there, stay as they are. */
  predicate RefsPersist(s: State, t: State) {
    && s.balances.Keys <= t.balances.Keys
    && forall k :: k in s.creditRefs ==> k in t.creditRefs && t.creditRefs[k] == s.creditRefs[k]
  }

  lemma StepRefsPersist(s: State, c: Call)
    ensures RefsPersist(s, Step(s, c).0)
  {
    match c
    case CreateAccount(_, _, _) =>
    case Credit(_, _, _, _) =>
    case Lock(_, _, _, _, _) =>
    case Release(_, _, _) =>
    case SplitEscrow(_, _, _, _, _, _) =>
  }

  lemma {:induction false} RunRefsPersist(s: State, calls: seq<Call>, i: nat, n: nat)
    requires i <= n <= |calls|
    ensures RefsPersist(At(s, calls, i), At(s, calls, n))
  {
    hide Step;
    if i < n {
      RunRefsPersist(s, calls, i, n - 1);
      StepRefsPersist(At(s, calls, n - 1), calls[n - 1]);
    }
  }

  /** A credit is booked: it is well formed, finds its account, and its reference is new there. */
  predicate Booked(s: State, c: Call) {
    c.Credit? && c.amount > 0 && c.account in s.balances && (c.account, c.reference) !in s.creditRefs
  }

  lemma BookedChangesLedger(s: State, c: Call)
    requires Booked(s, c)
    ensures Step(s, c).0 != s
    ensures
      var t := Step(s, c).0;
      (c.account, c.reference) in t.creditRefs && t.creditRefs[(c.account, c.reference)].amount == c.amount
  {
  }

  lemma UnbookedCreditIsIdle(s: State, c: Call)
    requires c.Credit? && !Booked(s, c)
    ensures Step(s, c).0 == s
  {
  }

  /** A credit repeated later in a run changes nothing and gets the answer the first one got, once the first one
      found its account. */
  lemma RedeliveredCredit(s: State, calls: seq<Call>, i: nat, n: nat)
    requires i < n < |calls| && SameCredit(calls[i], calls[n]) && calls[i].account in At(s, calls, i).balances
    ensures Step(At(s, calls, n), calls[n]) == (At(s, calls, n), Step(At(s, calls, i), calls[i]).1)
  {
    var c := calls[i];
    assert Step(At(s, calls, i), c) == CreditStep(At(s, calls, i), c.account, c.amount, c.reference, c.txId);
    assert Step(At(s, calls, n), calls[n])
        == CreditStep(At(s, calls, n), c.account, c.amount, c.reference, calls[n].txId);
    hide Step;
    RunRefsPersist(s, calls, i, n);
    RunRefsPersist(s, calls, i + 1, n);
  }

  /** A repetition is booked only if no delivery before it found its account. */
  lemma BookedRepeatLostItsFirst(s: State, calls: seq<Call>, i: nat, n: nat)
    requires i < n < |calls| && SameCredit(calls[i], calls[n]) && Booked(At(s, calls, n), calls[n])
    ensures calls[i].account !in At(s, calls, i).balances
  {
    BookedChangesLedger(At(s, calls, n), calls[n]);
    if calls[i].account in At(s, calls, i).balances {
      hide At, Step, Booked;
      RedeliveredCredit(s, calls, i, n);
    }
  }

  lemma {:induction false} AtOfPrefix(s: State, calls: seq<Call>, c: Call, n: nat)
    requires n <= |calls|
    ensures At(s, calls + [c], n) == At(s, calls, n)
  {
    if n > 0 {
      AtOfPrefix(s, calls, c, n - 1);
    }
  }

  /** The run of first occurrences of the first `n` calls. */
  function RunOfFirsts(s: State, calls: seq<Call>, n: nat): State
    requires n <= |calls|
  {
    Run(s, FirstOccurrences(calls, n))
  }

  lemma RunOfFirstsStep(s: State, calls: seq<Call>, n: nat)
    requires n < |calls|
    ensures RunOfFirsts(s, calls, n + 1)
         == if RepeatsEarlier(calls, n) then RunOfFirsts(s, calls, n) else Step(RunOfFirsts(s, calls, n), calls[n]).0
  {
    var firsts := FirstOccurrences(calls, n);
    hide Step, RepeatsEarlier;
    AtOfPrefix(s, firsts, calls[n], |firsts|);
  }

  /** One of the first `n` calls repeats an earlier credit and is booked all the same. */
  ghost predicate BooksARepeat(s: State, calls: seq<Call>, n: nat)
    requires n <= |calls|
  {
    exists i {:trigger Booked(At(s, calls, i), calls[i])} ::
      0 <= i < n && RepeatsEarlier(calls, i) && Booked(At(s, calls, i), calls[i])
  }

  lemma {:induction false} IdleRepeatsDoNotMatter(s: State, calls: seq<Call>, n: nat)
    requires n <= |calls| && !BooksARepeat(s, calls, n)
    ensures At(s, calls, n) == RunOfFirsts(s, calls, n)
  {
    if n > 0 {
      hide Step, Booked, FirstOccurrences, RunOfFirsts;
      IdleRepeatsDoNotMatter(s, calls, n - 1);
      RunOfFirstsStep(s, calls, n - 1);
      if RepeatsEarlier(calls, n - 1) {
        assert !Booked(At(s, calls, n - 1), calls[n - 1]);
        UnbookedCreditIsIdle(At(s, calls, n - 1), calls[n - 1]);
      }
    } else {
      assert RunOfFirsts(s, calls, 0) == s;
    }
  }

  /** Which accounts there are depends on the openings alone. */
  lemma {:induction false} StepOpens(s: State, c: Call)
    ensures Step(s, c).0.balances.Keys
         == s.balances.Keys + (if c.CreateAccount? && c.initial >= 0 then {c.account} else {})
  {
    match c
    case CreateAccount(_, _, _) =>
    case Credit(_, _, _, _) =>
    case Lock(_, _, _, _, _) =>
    case Release(_, _, _) =>
    case SplitEscrow(_, _, _, _, _, _) =>
  }

  lemma {:induction false} SameAccounts(s: State, calls: seq<Call>, n: nat)
    requires n <= |calls|
    ensures RunOfFirsts(s, calls, n).balances.Keys == At(s, calls, n).balances.Keys
  {
    if n > 0 {
      hide Step, FirstOccurrences, RunOfFirsts;
      SameAccounts(s, calls, n - 1);
      RunOfFirstsStep(s, calls, n - 1);
      StepOpens(At(s, calls, n - 1), calls[n - 1]);
      StepOpens(RunOfFirsts(s, calls, n - 1), calls[n - 1]);
    } else {
      assert RunOfFirsts(s, calls, 0) == s;
    }
  }

  /** What `s` knows of credit (a, r) is not an amount of `x`. */
  predicate NotBookedAt(s: State, a: AccountId, r: string, x: int) {
    (a, r) in s.creditRefs ==> s.creditRefs[(a, r)].amount != x
  }

  lemma {:induction false} StepBooksOnlyItself(s: State, c: Call, a: AccountId, r: string, x: int)
    requires NotBookedAt(s, a, r, x)
    requires c.Credit? && c.account == a && c.reference == r && c.amount == x ==> a !in s.balances
    ensures NotBookedAt(Step(s, c).0, a, r, x)
  {
    match c
    case CreateAccount(_, _, _) =>
    case Credit(_, _, _, _) =>
    case Lock(_, _, _, _, _) =>
    case Release(_, _, _) =>
    case SplitEscrow(_, _, _, _, _, _) =>
  }

  /** If a repetition, call `i`, is booked, the run of first occurrences never books that credit. */
  lemma {:induction false} FirstsMissTheCredit(s: State, calls: seq<Call>, i: nat, n: nat)
    requires i < |calls| && RepeatsEarlier(calls, i) && Booked(At(s, calls, i), calls[i]) && n <= |calls|
    ensures NotBookedAt(RunOfFirsts(s, calls, n), calls[i].account, calls[i].reference, calls[i].amount)
  {
    var a, r, x := calls[i].account, calls[i].reference, calls[i].amount;
    if n == 0 {
      assert RunOfFirsts(s, calls, 0) == s;
      RunRefsPersist(s, calls, 0, i);
    } else {
      hide Step, FirstOccurrences, RunOfFirsts, NotBookedAt, Booked;
      FirstsMissTheCredit(s, calls, i, n - 1);
      RunOfFirstsStep(s, calls, n - 1);
      if !RepeatsEarlier(calls, n - 1) {
        if SameCredit(calls[n - 1], calls[i]) {
          FirstDeliveryFoundNoAccount(s, calls, i, n - 1);
          SameAccounts(s, calls, n - 1);
        }
        StepBooksOnlyItself(RunOfFirsts(s, calls, n - 1), calls[n - 1], a, r, x);
      }
    }
  }

  lemma FirstDeliveryFoundNoAccount(s: State, calls: seq<Call>, i: nat, j: nat)
    requires i < |calls| && RepeatsEarlier(calls, i) && Booked(At(s, calls, i), calls[i])
    requires j < |calls| && SameCredit(calls[j], calls[i]) && !RepeatsEarlier(calls, j)
    ensures calls[i].account !in At(s, calls, j).balances
  {
    var k :| 0 <= k < i && SameCredit(calls[k], calls[i]);
    assert SameCredit(calls[k], calls[j]);
    assert j <= k;
    hide RepeatsEarlier, At;
    BookedRepeatLostItsFirst(s, calls, j, i);
  }

  /** Delivering credits any number of times ends in the same ledger as delivering each once, if and only if no
      repetition is booked, that is, finds its account when no delivery before it did. */
  lemma AtLeastOnceIsExactlyOnceIff(s: State, calls: seq<Call>)
    ensures Run(s, calls) == RunOfFirsts(s, calls, |calls|) <==> !BooksARepeat(s, calls, |calls|)
  {
    if BooksARepeat(s, calls, |calls|) {
      var i :| 0 <= i < |calls| && RepeatsEarlier(calls, i) && Booked(At(s, calls, i), calls[i]);
      FirstsMissTheCredit(s, calls, i, |calls|);
      BookedChangesLedger(At(s, calls, i), calls[i]);
      assert At(s, calls, i + 1) == Step(At(s, calls, i), calls[i]).0;
      hide Step, Booked, RunOfFirsts, At;
      RunRefsPersist(s, calls, i + 1, |calls|);
    } else {
      hide Booked, RunOfFirsts;
      IdleRepeatsDoNotMatter(s, calls, |calls|);
    }
  }

  /** In particular when every credit is delivered to an account that is there by then. */
  lemma AtLeastOnceIsExactlyOnce(s: State, calls: seq<Call>)
    requires forall i {:trigger At(s, calls, i)} ::
               0 <= i < |calls| && calls[i].Credit? ==> calls[i].account in At(s, calls, i).balances
    ensures Run(s, calls) == RunOfFirsts(s, calls, |calls|)
  {
    hide RunOfFirsts, Run;
    AtLeastOnceIsExactlyOnceIff(s, calls);
    if BooksARepeat(s, calls, |calls|) {
      var i :| 0 <= i < |calls| && RepeatsEarlier(calls, i) && Booked(At(s, calls, i), calls[i]);
      var k :| 0 <= k < i && SameCredit(calls[k], calls[i]);
      assert calls[k].account in At(s, calls, k).balances;
      BookedRepeatLostItsFirst(s, calls, k, i);
    }
  }

  /** The concrete failure: a credit that comes before its account is opened is refused, and its repetition
      afterwards is booked. */
  lemma EarlyCreditIsBookedOnRepeat()
    ensures
      var calls := [Credit("a", 5, "r", "x0"), CreateAccount("a", 0, "x1"), Credit("a", 5, "r", "x2")];
      && Run(EMPTY, calls).balances == map["a" := 5]
      && RunOfFirsts(EMPTY, calls, 3).balances == map["a" := 0]
  {
    var calls := [Credit("a", 5, "r", "x0"), CreateAccount("a", 0, "x1"), Credit("a", 5, "r", "x2")];
    var withAccount := CreateAccountStep(EMPTY, "a", 0, "x1").0;
    assert At(EMPTY, calls, 0) == EMPTY && At(EMPTY, calls, 1) == EMPTY;
    assert At(EMPTY, calls, 2) == withAccount;
    assert At(EMPTY, calls, 3) == CreditStep(withAccount, "a", 5, "r", "x2").0;
    assert SameCredit(calls[0], calls[2]);
    assert RunOfFirsts(EMPTY, calls, 0) == EMPTY;
    RunOfFirstsStep(EMPTY, calls, 0);
    RunOfFirstsStep(EMPTY, calls, 1);
    RunOfFirstsStep(EMPTY, calls, 2);
    hide RunOfFirsts, At;
    assert !RepeatsEarlier(calls, 0) && !RepeatsEarlier(calls, 1) && RepeatsEarlier(calls, 2);
  }
}
