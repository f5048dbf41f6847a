/** LedgerDbClient: each ledger call as the gateway call it becomes, and the split that reads an escrow
    in one request and writes in a later one. */
module GatewayClient {
  import opened Common
  import Ledger
  import opened SqlBank
  import opened SqlTheorems

  const LOCKED_ONLY: Constraints := [("status", "locked")]

  /** The gateway call for `c`; a split has read its escrow from `seen`. Refusals come before any write. */
  function Translate(seen: Tables, c: Ledger.Call, now: string): Result<Call, Ledger.Error> {
    match c
    case CreateAccount(a, initial, txId) =>
      if initial < 0 then Err(Ledger.InvalidAmount)
      else Ok(Call.CreateAccount(a, initial,
                                 if initial == 0 then None
                                 else Some(InitialCredit(txId, initial, Ledger.INITIAL_REFERENCE)),
                                 Event("account.created", Some(a))))
    case Credit(a, amount, reference, txId) =>
      if amount <= 0 then Err(Ledger.InvalidAmount)
      else Ok(Call.CreditAccount(a, amount, reference, txId, Event("salary.paid", Some(a))))
    case Lock(payer, amount, task, e, txId) =>
      if amount <= 0 then Err(Ledger.InvalidAmount)
      else Ok(Call.LockEscrow(e, payer, amount, task, txId, now, Event("escrow.locked", Some(payer))))
    case Release(e, recipient, txId) =>
      Ok(Call.ReleaseEscrow(e, recipient, txId, now, Some(LOCKED_ONLY), Event("escrow.released", None)))
    case SplitEscrow(e, worker, pct, poster, workerTx, posterTx) =>
      if pct < 0 || pct > 100 then Err(Ledger.InvalidAmount)
      else if e !in seen.escrows then Err(Ledger.EscrowNotFound)
      else if seen.escrows[e].status != Ledger.Locked then Err(Ledger.EscrowAlreadyResolved)
      else if seen.escrows[e].payer != poster then Err(Ledger.PayloadMismatch)
      else
        var toWorker := Ledger.WorkerShare(seen.escrows[e].amount, pct);
        Ok(Call.SplitEscrow(e, worker, toWorker, poster, seen.escrows[e].amount - toWorker, workerTx, posterTx, now,
                            Some(LOCKED_ONLY), Event("escrow.split", None)))
  }

  lemma LockedOnlyHolds(e: string, row: EscrowRow)
    ensures AllIdentifiers(LOCKED_ONLY) && AllColumns(LOCKED_ONLY)
    ensures row.status == Ledger.Locked ==> Satisfied(e, row, LOCKED_ONLY)
  {
    assert IsIdentifier("status");
    assert forall i :: 0 <= i < |LOCKED_ONLY| ==> LOCKED_ONLY[i] == ("status", "locked");
  }

  // ----- Shares

  /** The worker's share is the exact share rounded down, so the two shares make up the amount with the
      worker less than one coin short. */
  lemma ShareIsFloor(amount: int, pct: int)
    requires amount >= 0 && 0 <= pct <= 100
    ensures
      var w := Ledger.WorkerShare(amount, pct);
      0 <= w <= amount && 100 * w <= amount * pct < 100 * (w + 1)
    ensures pct == 0 ==> Ledger.WorkerShare(amount, pct) == 0
    ensures pct == 100 ==> Ledger.WorkerShare(amount, pct) == amount
  {
    assert 0 <= amount * pct <= amount * 100;
  }

  /** A higher percentage never pays the worker less, nor the poster more. */
  lemma ShareIsMonotone(amount: int, low: int, high: int)
    requires amount >= 0 && 0 <= low <= high <= 100
    ensures Ledger.WorkerShare(amount, low) <= Ledger.WorkerShare(amount, high)
    ensures amount - Ledger.WorkerShare(amount, high) <= amount - Ledger.WorkerShare(amount, low)
  {
    assert amount * low <= amount * high;
  }

  // ----- Read, then write

  /** The write of a split succeeds at `t`: the escrow is still locked, the paid accounts exist and the
      transaction ids are new. */
  predicate SplitWritable(t: Tables, c: Call)
    requires c.SplitEscrow?
  {
    && c.escrowId in t.escrows && t.escrows[c.escrowId].status == Ledger.Locked
    && (c.workerAmount > 0 ==> c.worker in t.accounts && !HasTx(t.transactions, c.workerTx))
    && (c.posterAmount > 0 ==> c.poster in t.accounts && !HasTx(t.transactions, c.posterTx))
    && (c.workerAmount > 0 && c.posterAmount > 0 ==> c.posterTx != c.workerTx)
  }

  lemma SplitWriteCommitsIff(t: Tables, c: Call)
    requires c.SplitEscrow? && c.constraints == Some(LOCKED_ONLY) && c.event.agent.None?
    requires c.escrowId in t.escrows ==> c.workerAmount + c.posterAmount == t.escrows[c.escrowId].amount
    ensures Commits(SplitOutcome(t, c)) <==> SplitWritable(t, c)
    ensures SplitOutcome(t, c).reply != Refused(AmountMismatch)
    ensures SplitOutcome(t, c).pending.None?
  {
    if c.escrowId in t.escrows {
      LockedOnlyHolds(c.escrowId, t.escrows[c.escrowId]);
      if c.workerAmount > 0 && c.worker in t.accounts {
        HasTxOfLog(t.transactions,
                   TxRow(c.workerTx, c.worker, ReleaseRow, c.workerAmount, t.accounts[c.worker] + c.workerAmount,
                         c.escrowId),
                   c.posterTx);
      }
    }
  }

  /** The client reads after `i` of the calls that the gateway serves, and writes after all of them. Whatever they are,
      the write commits exactly when the escrow is still locked and the accounts to pay are there; the amounts it
      carries are never out of date, even if the read saw a transaction left open. */
  lemma TwoStepSplit(k: Connection, calls: seq<Call>, i: nat, c: Ledger.Call, now: string)
    requires !k.Open() && i <= |calls| && c.SplitEscrow? && Translate(ConnectionAt(k, calls, i).Read(), c, now).Ok?
    ensures
      var call := Translate(ConnectionAt(k, calls, i).Read(), c, now).value;
      var later := ConnectionAt(k, calls, |calls|);
      var (_, reply) := Next(later, call);
      && (reply.Done? <==> !later.Open() && SplitWritable(later.tables, call))
      && reply != Refused(AmountMismatch)
  {
    hide Exec;
    RunKeepsEscrowsSettled(k, calls, i);
    RunRowsPersist(k, calls, i, |calls|);
    var later := ConnectionAt(k, calls, |calls|);
    var call := Translate(ConnectionAt(k, calls, i).Read(), c, now).value;
    SplitWriteCommitsIff(later.tables, call);
    assert Exec(later.tables, call) == SplitOutcome(later.tables, call) by {
      SplitIsExec(later.tables, call);
    }
    SplitNeverReplays(later.tables, call);
  }

  lemma SplitIsExec(t: Tables, c: Call)
    requires c.SplitEscrow?
    ensures Exec(t, c) == SplitOutcome(t, c)
  {
  }

  lemma SplitNeverReplays(t: Tables, c: Call)
    requires c.SplitEscrow?
    ensures SplitOutcome(t, c).reply.Done? <==> Commits(SplitOutcome(t, c))
  {
  }
}
