/** The journals of the in-memory ledger as an audit trail: every entry is the trace of one call and says what that
    call did, and every payment leaves its trace. */
module LedgerAudit {
  import opened Common
  import opened Ledger

  /** `tx` is what a call that is carried out at ledger `s` owes the journal of account `a`: the caller's identifier,
      the amount moved, the balance after it, and the reason. */
  predicate Traces(s: State, c: Call, a: AccountId, tx: Tx) {
    match c
    case CreateAccount(account, initial, txId) =>
      && a == account && a !in s.balances && initial > 0
      && tx.id == txId && tx.kind == CreditTx && tx.amount == initial && tx.balanceAfter == initial
      && tx.reference == Given("initial_balance")
    case Credit(account, amount, reference, txId) =>
      && a == account && a in s.balances && amount > 0
      && tx.id == txId && tx.kind == CreditTx && tx.amount == amount && tx.balanceAfter == s.balances[a] + amount
      && tx.reference == Given(reference)
    case Lock(payer, amount, task, e, txId) =>
      && a == payer && a in s.balances && 0 < amount <= s.balances[a]
      && tx.id == txId && tx.kind == DebitTx && tx.amount == amount && tx.balanceAfter == s.balances[a] - amount
      && tx.reference == ForLock(task)
    case Release(e, recipient, txId) =>
      && a == recipient && a in s.balances && e in s.escrows && s.escrows[e].status == Locked
      && tx.id == txId && tx.kind == CreditTx && tx.amount == s.escrows[e].amount
      && tx.balanceAfter == s.balances[a] + s.escrows[e].amount && tx.reference == ForRelease(e)
    case SplitEscrow(e, worker, pct, poster, workerTx, posterTx) =>
      && a in s.balances && e in s.escrows && s.escrows[e].status == Locked && tx.kind == CreditTx
      && tx.balanceAfter == s.balances[a] + tx.amount
      && var toWorker := s.escrows[e].amount * pct / 100;
         || (a == worker && tx.id == workerTx && tx.amount == toWorker && tx.reference == ForWorker(e))
         || (a == poster && tx.id == posterTx && tx.amount == s.escrows[e].amount - toWorker
             && tx.reference == ForPoster(e))
  }

  /** How many entries call `c` owes the journal of account `a`: none if it is refused or a replay. */
  function EntriesOwed(s: State, c: Call, a: AccountId): nat {
    if Step(s, c).1.Err? then 0
    else
      match c
      case CreateAccount(account, initial, _) => if a == account && initial > 0 then 1 else 0
      case Credit(account, _, reference, _) => if a == account && (account, reference) !in s.creditRefs then 1 else 0
      case Lock(payer, _, task, _, _) => if a == payer && (payer, task) !in s.lockedByTask then 1 else 0
      case Release(_, recipient, _) => if a == recipient then 1 else 0
      case SplitEscrow(_, worker, _, poster, _, _) => (if a == worker then 1 else 0) + (if a == poster then 1 else 0)
  }

  /** A call adds its traces to the journals and nothing else, at their ends. */
  ghost predicate AddsTraces(s: State, c: Call, a: AccountId) {
    var before, after := Journal(s, a), Journal(Step(s, c).0, a);
    && before <= after && |after| == |before| + EntriesOwed(s, c, a)
    && forall k :: |before| <= k < |after| ==> Traces(s, c, a, after[k])
  }

  lemma StepTraces(s: State, c: Call, a: AccountId)
    ensures AddsTraces(s, c, a)
  {
    match c
    case SplitEscrow(_, _, _, _, _, _) => SplitTraces(s, c, a);
    case Credit(_, _, _, _) => CreditTraces(s, c, a);
    case Lock(_, _, _, _, _) => LockTraces(s, c, a);
    case Release(_, _, _) => ReleaseTraces(s, c, a);
    case CreateAccount(_, _, _) => CreateTraces(s, c, a);
  }

  lemma CreateTraces(s: State, c: Call, a: AccountId)
    requires c.CreateAccount?
    ensures AddsTraces(s, c, a)
  {
  }

  lemma CreditTraces(s: State, c: Call, a: AccountId)
    requires c.Credit?
    ensures AddsTraces(s, c, a)
  {
  }

  lemma LockTraces(s: State, c: Call, a: AccountId)
    requires c.Lock?
    ensures AddsTraces(s, c, a)
  {
  }

  lemma ReleaseTraces(s: State, c: Call, a: AccountId)
    requires c.Release?
    ensures AddsTraces(s, c, a)
  {
  }

  lemma SplitTraces(s: State, c: Call, a: AccountId)
    requires c.SplitEscrow?
    ensures AddsTraces(s, c, a)
  {
    if Step(s, c).1.Ok? {
      var toWorker := WorkerShare(s.escrows[c.escrow].amount, c.workerPct);
      var toPoster := s.escrows[c.escrow].amount - toWorker;
      assert toWorker == s.escrows[c.escrow].amount * c.workerPct / 100;
      hide WorkerShare;
      var first := Tx(c.workerTx, CreditTx, toWorker, s.balances[c.worker] + toWorker, ForWorker(c.escrow));
      var second := Tx(c.posterTx, CreditTx, toPoster, s.balances[c.poster] + toPoster, ForPoster(c.escrow));
      assert Journal(Step(s, c).0, a)
          == Journal(s, a) + (if a == c.worker then [first] else []) + (if a == c.poster then [second] else []);
      hide Step;
    }
  }

  /** Over every run every journal entry is the trace of one of the calls made. */
  lemma {:induction false} JournalIsTrace(s: State, calls: seq<Call>, n: nat, a: AccountId, k: nat)
    requires n <= |calls| && |Journal(s, a)| <= k < |Journal(At(s, calls, n), a)|
    ensures exists i :: 0 <= i < n && Traces(At(s, calls, i), calls[i], a, Journal(At(s, calls, n), a)[k])
  {
    hide Step, Traces, EntriesOwed;
    if n > 0 {
      StepTraces(At(s, calls, n - 1), calls[n - 1], a);
      if k < |Journal(At(s, calls, n - 1), a)| {
        JournalIsTrace(s, calls, n - 1, a, k);
      }
    }
  }

  /** The answer of a call that is carried out, field by field: what the caller is told is what was done. */
  lemma AnswerTellsWhatWasDone(s: State, c: Call)
    requires IndexIsInverse(s) && FreshIds(s, c) && Step(s, c).1.Ok?
    ensures
      var (t, answer) := Step(s, c);
      match answer.value
      case AccountOpened(account, balance) =>
        c.CreateAccount? && account == c.account && account in t.balances && t.balances[account] == balance
      case Credited(txId, balanceAfter) =>
        && c.Credit? && (c.account, c.reference) in t.creditRefs
        && t.creditRefs[(c.account, c.reference)].id == txId
        && t.creditRefs[(c.account, c.reference)].balanceAfter == balanceAfter
        && t.creditRefs[(c.account, c.reference)].amount == c.amount
      case EscrowLocked(e, amount, task, status) =>
        && c.Lock? && e in t.escrows && t.escrows[e].payer == c.payer && t.escrows[e].status == status == Locked
        && t.escrows[e].amount == amount == c.amount && t.escrows[e].task == task == c.task
      case EscrowReleased(e, amount, recipient) =>
        && c.Release? && e == c.escrow && recipient == c.recipient && e in t.escrows && e in s.escrows
        && t.escrows[e].status == Released && t.escrows[e].amount == amount
        && recipient in s.balances && recipient in t.balances
        && t.balances[recipient] == s.balances[recipient] + amount
      case EscrowSplit(e, toWorker, toPoster, pct) =>
        && c.SplitEscrow? && e == c.escrow && pct == c.workerPct && e in t.escrows && t.escrows[e].status == Split
        && toWorker == t.escrows[e].amount * pct / 100 && toWorker + toPoster == t.escrows[e].amount
  {
    hide RefsAreBooked;
  }
}
