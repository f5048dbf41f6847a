/** InMemoryLedgerStore: the five dictionaries updated in place, each method tied to the step the
    ledger takes as a value. */
module LedgerStore {
  import opened Common
  import opened Ledger

  class InMemoryLedgerStore {
    var accounts: map<AccountId, int>
    var transactions: map<AccountId, seq<Tx>>
    var creditRefs: map<(AccountId, string), Tx>
    var escrows: map<EscrowId, Escrow>
    var lockedEscrowByTask: map<(AccountId, TaskId), EscrowId>

    function Snapshot(): State
      reads this
    {
      State(accounts, transactions, creditRefs, escrows, lockedEscrowByTask)
    }

    constructor ()
      ensures Snapshot() == EMPTY && Inv(Snapshot())
    {
      accounts, transactions, creditRefs, escrows, lockedEscrowByTask := map[], map[], map[], map[], map[];
    }

    method AppendTx(account: AccountId, tx: Tx)
      modifies this`transactions
      ensures transactions == old(transactions)[account := old(Journal(Snapshot(), account)) + [tx]]
    {
      if account !in transactions {
        transactions := transactions[account := []];
      }
      transactions := transactions[account := transactions[account] + [tx]];
    }

    method CreateAccount(account: AccountId, initial: int, txId: TxId) returns (r: Answer)
      modifies this
      ensures (Snapshot(), r) == CreateAccountStep(old(Snapshot()), account, initial, txId)
    {
      if initial < 0 {
        return Err(InvalidAmount);
      }
      if account in accounts {
        return Err(AccountExists);
      }
      accounts := accounts[account := initial];
      if account !in transactions {
        transactions := transactions[account := []];
      }
      if initial > 0 {
        AppendTx(account, Tx(txId, CreditTx, initial, initial, Given(INITIAL_REFERENCE)));
      }
      assert Snapshot() == CreateAccountStep(old(Snapshot()), account, initial, txId).0 by {
        assert transactions == CreateAccountStep(old(Snapshot()), account, initial, txId).0.journals;
      }
      return Ok(AccountOpened(account, initial));
    }

    method Credit(account: AccountId, amount: int, reference: string, txId: TxId) returns (r: Answer)
      modifies this
      ensures (Snapshot(), r) == CreditStep(old(Snapshot()), account, amount, reference, txId)
    {
      if amount <= 0 {
        return Err(InvalidAmount);
      }
      if account !in accounts {
        return Err(AccountNotFound);
      }
      var key := (account, reference);
      if key in creditRefs {
        var existing := creditRefs[key];
        if existing.amount != amount {
          return Err(PayloadMismatch);
        }
        return Ok(Credited(existing.id, existing.balanceAfter));
      }
      var newBalance := accounts[account] + amount;
      accounts := accounts[account := newBalance];
      var tx := Tx(txId, CreditTx, amount, newBalance, Given(reference));
      AppendTx(account, tx);
      creditRefs := creditRefs[key := tx];
      return Ok(Credited(tx.id, newBalance));
    }

    method EscrowLock(payer: AccountId, amount: int, task: TaskId, newEscrowId: EscrowId, txId: TxId)
      returns (r: Answer)
      modifies this
      ensures (Snapshot(), r) == LockStep(old(Snapshot()), payer, amount, task, newEscrowId, txId)
    {
      if amount <= 0 {
        return Err(InvalidAmount);
      }
      if payer !in accounts {
        return Err(AccountNotFound);
      }
      var key := (payer, task);
      if key in lockedEscrowByTask {
        var existingId := lockedEscrowByTask[key];
        if existingId !in escrows {
          return Err(DanglingIndex);
        }
        var existing := escrows[existingId];
        if existing.amount != amount {
          return Err(EscrowAlreadyLocked);
        }
        return Ok(EscrowLocked(existingId, existing.amount, existing.task, existing.status));
      }
      var currentBalance := accounts[payer];
      if currentBalance < amount {
        return Err(InsufficientFunds);
      }
      accounts := accounts[payer := currentBalance - amount];
      escrows := escrows[newEscrowId := Escrow(payer, amount, task, Locked)];
      lockedEscrowByTask := lockedEscrowByTask[key := newEscrowId];
      AppendTx(payer, Tx(txId, DebitTx, amount, accounts[payer], ForLock(task)));
      return Ok(EscrowLocked(newEscrowId, amount, task, Locked));
    }

    method EscrowRelease(escrowId: EscrowId, recipient: AccountId, txId: TxId) returns (r: Answer)
      modifies this
      ensures (Snapshot(), r) == ReleaseStep(old(Snapshot()), escrowId, recipient, txId)
    {
      if escrowId !in escrows {
        return Err(EscrowNotFound);
      }
      var escrow := escrows[escrowId];
      if recipient !in accounts {
        return Err(AccountNotFound);
      }
      if escrow.status != Locked {
        return Err(EscrowAlreadyResolved);
      }
      var newBalance := accounts[recipient] + escrow.amount;
      accounts := accounts[recipient := newBalance];
      AppendTx(recipient, Tx(txId, CreditTx, escrow.amount, newBalance, ForRelease(escrowId)));
      escrows := escrows[escrowId := escrow.(status := Released)];
      lockedEscrowByTask := lockedEscrowByTask - {(escrow.payer, escrow.task)};
      return Ok(EscrowReleased(escrowId, escrow.amount, recipient));
    }

    method EscrowSplit(escrowId: EscrowId, worker: AccountId, workerPct: int, poster: AccountId,
                       workerTx: TxId, posterTx: TxId) returns (r: Answer)
      modifies this
      ensures (Snapshot(), r)
           == SplitStep(old(Snapshot()), escrowId, worker, workerPct, poster, workerTx, posterTx)
    {
      if workerPct < 0 || workerPct > 100 {
        return Err(InvalidPayload);
      }
      if escrowId !in escrows {
        return Err(EscrowNotFound);
      }
      var escrow := escrows[escrowId];
      if escrow.status != Locked {
        return Err(EscrowAlreadyResolved);
      }
      if worker !in accounts || poster !in accounts {
        return Err(AccountNotFound);
      }
      var workerAmount := escrow.amount * workerPct / 100;
      var posterAmount := escrow.amount - workerAmount;
      var workerNewBalance := accounts[worker] + workerAmount;
      var posterNewBalance := accounts[poster] + posterAmount;
      accounts := accounts[worker := workerNewBalance];
      accounts := accounts[poster := posterNewBalance];
      AppendTx(worker, Tx(workerTx, CreditTx, workerAmount, workerNewBalance, ForWorker(escrowId)));
      AppendTx(poster, Tx(posterTx, CreditTx, posterAmount, posterNewBalance, ForPoster(escrowId)));
      ghost var booked := BookShares(old(Snapshot()), escrowId, worker, workerAmount, poster, posterAmount, workerTx,
                                     posterTx);
      assert Snapshot() == booked;
      hide BookShares;
      escrows := escrows[escrowId := escrow.(status := Split)];
      lockedEscrowByTask := lockedEscrowByTask - {(escrow.payer, escrow.task)};
      assert Snapshot() == Resolve(booked, escrowId, Split);
      return Ok(Receipt.EscrowSplit(escrowId, workerAmount, posterAmount, workerPct));
    }

    method TotalEscrowed() returns (total: int)
      ensures total == Ledger.TotalEscrowed(Snapshot())
    {
      total := 0;
      var rest := escrows.Keys;
      assert LockedAmounts(map[]) == map[];
      ghost var seen: map<EscrowId, Escrow> := map[];
      while rest != {}
        invariant rest <= escrows.Keys
        invariant seen == map e | e in escrows && e !in rest :: escrows[e]
        invariant total == Sum(LockedAmounts(seen))
        decreases rest
      {
        var e :| e in rest;
        var escrow := escrows[e];
        SumUpdate(LockedAmounts(seen), e, escrow.amount);
        assert LockedAmounts(seen[e := escrow])
            == if escrow.status == Locked then LockedAmounts(seen)[e := escrow.amount] else LockedAmounts(seen);
        seen := seen[e := escrow];
        rest := rest - {e};
        if escrow.status == Locked {
          total := total + escrow.amount;
        }
      }
      assert seen == escrows;
    }
  }
}
