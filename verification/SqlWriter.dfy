/** DbWriter: statements run one by one on the connection's working copy, inside begin, commit and
    rollback. Every method is tied to the outcome its call has on the tables as a value. */
module SqlWriter {
  import opened Common
  import opened SqlBank
  import Ledger

  datatype Violation = NoViolation | UniqueViolation | ForeignViolation

  class DbWriter {
    var committed: Tables
    var working: Tables
    var inTransaction: bool

    ghost predicate Valid()
      reads this
    {
      SchemaHolds(committed) && SchemaHolds(working) && (!inTransaction ==> working == committed)
    }

    /** The call leaves what `o` says: committed tables, answer, and the transaction left open if any. */
    ghost predicate Leaves(o: Outcome, r: Reply)
      reads this
    {
      && committed == o.tables
      && r == o.reply
      && inTransaction == o.pending.Some?
      && working == if o.pending.Some? then o.pending.value else o.tables
    }

    /** The outcome of call `c` on the connection as it stands. */
    ghost function Result(c: Call): Outcome
      reads this
    {
      if inTransaction then BlockedOutcome(committed) else Exec(committed, c)
    }

    constructor (agents: set<string>)
      ensures Valid() && !inTransaction
      ensures committed == Tables(agents, map[], [], map[], [])
    {
      committed := Tables(agents, map[], [], map[], []);
      working := Tables(agents, map[], [], map[], []);
      inTransaction := false;
    }

    // ----- Transactions

    method BeginImmediate() returns (begun: bool)
      modifies this`inTransaction
      ensures begun == !old(inTransaction) && inTransaction
    {
      begun := !inTransaction;
      inTransaction := true;
    }

    method Rollback()
      modifies this`working, this`inTransaction
      ensures working == committed && !inTransaction
    {
      working := committed;
      inTransaction := false;
    }

    method Commit()
      modifies this`committed, this`inTransaction
      ensures committed == old(working) && !inTransaction
    {
      committed := working;
      inTransaction := false;
    }

    // ----- Statements

    /** UPDATE bank_accounts SET balance = balance + delta, optionally only if the balance covers `floor`. */
    method UpdateBalance(account: string, delta: int, floor: Option<int>) returns (rowcount: nat)
      modifies this`working
      ensures rowcount == if account in old(working).accounts
                             && (floor.Some? ==> old(working).accounts[account] >= floor.value) then 1 else 0
      ensures working == if rowcount == 0 then old(working) else AddBalance(old(working), account, delta)
    {
      if account !in working.accounts || (floor.Some? && working.accounts[account] < floor.value) {
        return 0;
      }
      working := working.(accounts := working.accounts[account := working.accounts[account] + delta]);
      return 1;
    }

    method InsertAccount(account: string, balance: int) returns (v: Violation)
      modifies this`working
      ensures v == if account in old(working).accounts then UniqueViolation
                   else if account !in working.agents then ForeignViolation else NoViolation
      ensures working == if v == NoViolation
                         then old(working).(accounts := old(working).accounts[account := balance]) else old(working)
    {
      if account in working.accounts {
        return UniqueViolation;
      }
      if account !in working.agents {
        return ForeignViolation;
      }
      working := working.(accounts := working.accounts[account := balance]);
      return NoViolation;
    }

    /** INSERT INTO bank_transactions with balance_after read from the account just updated. */
    method InsertTransaction(row: TxRow) returns (v: Violation)
      modifies this`working
      ensures v == if TxCollides(old(working).transactions, row) then UniqueViolation
                   else if row.account !in old(working).accounts then ForeignViolation else NoViolation
      ensures working == if v == NoViolation then LogTx(old(working), row) else old(working)
    {
      if TxCollides(working.transactions, row) {
        return UniqueViolation;
      }
      if row.account !in working.accounts {
        return ForeignViolation;
      }
      working := working.(transactions := working.transactions + [row]);
      return NoViolation;
    }

    method InsertEscrow(escrowId: string, row: EscrowRow) returns (v: Violation)
      requires row.status == Ledger.Locked
      modifies this`working
      ensures v == if escrowId in old(working).escrows || HasActive(old(working), row.payer, row.task)
                   then UniqueViolation
                   else if row.payer !in old(working).accounts then ForeignViolation else NoViolation
      ensures working == if v == NoViolation
                         then old(working).(escrows := old(working).escrows[escrowId := row]) else old(working)
    {
      if escrowId in working.escrows || HasActive(working, row.payer, row.task) {
        return UniqueViolation;
      }
      if row.payer !in working.accounts {
        return ForeignViolation;
      }
      working := working.(escrows := working.escrows[escrowId := row]);
      return NoViolation;
    }

    method InsertEvent(event: Event) returns (v: Violation, eventId: nat)
      modifies this`working
      ensures v == if EventAllowed(old(working), event) then NoViolation else ForeignViolation
      ensures eventId == |old(working).events| + 1
      ensures working == if v == NoViolation then LogEvent(old(working), event) else old(working)
    {
      eventId := |working.events| + 1;
      if event.agent.Some? && event.agent.value !in working.agents {
        return ForeignViolation, eventId;
      }
      working := working.(events := working.events + [event]);
      v := NoViolation;
    }

    /** The loop of _compile_constraints: a column name that is no identifier stops it. */
    method CompileConstraints(cs: Constraints) returns (ok: bool)
      ensures ok == AllIdentifiers(cs)
    {
      for i := 0 to |cs|
        invariant AllIdentifiers(cs[..i])
      {
        assert cs[..i + 1][i] == cs[i];
        if !IsIdentifier(cs[i].0) {
          return false;
        }
      }
      assert cs[..|cs|] == cs;
      return true;
    }

    /** The loop of _check_constraint_violation over a row that is there: does it find a mismatch? */
    method CheckConstraintViolation(escrowId: string, cs: Constraints) returns (violated: bool)
      requires escrowId in working.escrows
      ensures violated == !ShownSatisfied(escrowId, working.escrows[escrowId], cs)
    {
      var row := working.escrows[escrowId];
      for i := 0 to |cs|
        invariant ShownSatisfied(escrowId, row, cs[..i])
      {
        assert cs[..i + 1][i] == cs[i];
        if Shown(ColumnText(escrowId, row, cs[i].0)) != cs[i].1 {
          return true;
        }
      }
      assert cs[..|cs|] == cs;
      return false;
    }

    /** UPDATE bank_escrow SET status, resolved_at WHERE escrow_id = ? AND the compiled constraints. */
    method UpdateEscrow(escrowId: string, status: Ledger.EscrowStatus, resolvedAt: string, cs: Constraints)
      returns (sqlError: bool, rowcount: nat)
      requires escrowId in working.escrows
      modifies this`working
      ensures sqlError == !AllColumns(cs)
      ensures rowcount == if AllColumns(cs) && Satisfied(escrowId, old(working).escrows[escrowId], cs) then 1 else 0
      ensures working == if rowcount == 1 then SetResolved(old(working), escrowId, status, resolvedAt) else old(working)
    {
      if exists i :: 0 <= i < |cs| && cs[i].0 !in ESCROW_COLUMNS {
        return true, 0;
      }
      if !Satisfied(escrowId, working.escrows[escrowId], cs) {
        return false, 0;
      }
      working := SetResolved(working, escrowId, status, resolvedAt);
      return false, 1;
    }

    // ----- Endpoints

    method CreateAccount(account: string, balance: int, initial: Option<InitialCredit>, event: Event) returns (r: Reply)
      requires Valid()
      modifies this
      ensures Valid()
      ensures Leaves(old(Result(Call.CreateAccount(account, balance, initial, event))), r)
    {
      var begun := BeginImmediate();
      if !begun {
        Rollback();
        return Refused(OperationalError);
      }
      var v := InsertAccount(account, balance);
      if v == NoViolation && initial.Some? {
        v := InsertTransaction(InitialRow(account, balance, initial.value));
      }
      if v == NoViolation {
        var eventId;
        v, eventId := InsertEvent(event);
        if v == NoViolation {
          Commit();
          return Done(Opened(account), eventId);
        }
      }
      Rollback();
      return Refused(if v == ForeignViolation then ForeignKeyViolation else AccountExists);
    }

    method CreditAccount(account: string, amount: int, reference: string, txId: string, event: Event) returns (r: Reply)
      requires Valid()
      modifies this
      ensures Valid()
      ensures Leaves(old(Result(Call.CreditAccount(account, amount, reference, txId, event))), r)
    {
      var begun := BeginImmediate();
      if !begun {
        Rollback();
        return Refused(OperationalError);
      }
      var rowcount := UpdateBalance(account, amount, None);
      if rowcount == 0 {
        Rollback();
        return Refused(AccountNotFound);
      }
      var balanceAfter := working.accounts[account];
      var v := InsertTransaction(TxRow(txId, account, CreditRow, amount, balanceAfter, reference));
      if v == NoViolation {
        var eventId;
        v, eventId := InsertEvent(event);
        if v == NoViolation {
          Commit();
          return Done(Credited(txId, balanceAfter), eventId);
        }
      }
      Rollback();
      if v == UniqueViolation {
        var existing := FindCredit(working.transactions, account, reference);
        if existing.Some? && existing.value.amount == amount {
          return Done(Credited(existing.value.txId, existing.value.balanceAfter), 0);
        }
      }
      return Refused(ReferenceConflict);
    }

    method LockEscrow(escrowId: string, payer: string, amount: int, task: string, txId: string, createdAt: string,
                      event: Event) returns (r: Reply)
      requires Valid()
      modifies this
      ensures Valid()
      ensures Leaves(old(Result(Call.LockEscrow(escrowId, payer, amount, task, txId, createdAt, event))), r)
    {
      var begun := BeginImmediate();
      if !begun {
        Rollback();
        return Refused(OperationalError);
      }
      var rowcount := UpdateBalance(payer, -amount, Some(amount));
      if rowcount == 0 {
        var known := payer in working.accounts;
        Rollback();
        return Refused(if known then InsufficientFunds else AccountNotFound);
      }
      var row := EscrowRow(payer, amount, task, Ledger.Locked, createdAt, None);
      assert HasActive(working, payer, task) == HasActive(committed, payer, task) by {
        assert working.escrows == committed.escrows;
        assert forall e :: IsActive(working, e, payer, task) == IsActive(committed, e, payer, task);
      }
      var v := InsertEscrow(escrowId, row);
      if v == NoViolation {
        v := InsertTransaction(TxRow(txId, payer, LockRow, amount, working.accounts[payer], task));
        if v == NoViolation {
          var balanceAfter := working.accounts[payer];
          var eventId;
          v, eventId := InsertEvent(event);
          if v == NoViolation {
            assert working ==
              LockOutcome(committed, Call.LockEscrow(escrowId, payer, amount, task, txId, createdAt, event)).tables;
            LockKeepsSchema(committed, Call.LockEscrow(escrowId, payer, amount, task, txId, createdAt, event));
            Commit();
            return Done(EscrowLocked(escrowId, balanceAfter), eventId);
          }
        }
      }
      Rollback();
      if v == ForeignViolation {
        return Refused(ForeignKeyViolation);
      }
      if exists e :: e in working.escrows && IsActive(working, e, payer, task) {
        var e :| e in working.escrows && IsActive(working, e, payer, task);
        assert e == ActiveEscrow(working, payer, task);
        if working.escrows[e].amount == amount {
          return Done(EscrowLocked(e, 0), 0);
        }
      }
      return Refused(EscrowAlreadyLocked);
    }

    /** The shared tail of release and split, from the constraints to the commit. */
    method Finish(escrowId: string, status: Ledger.EscrowStatus, resolvedAt: string,
                  constraints: Option<Constraints>, event: Event, receipt: Receipt) returns (r: Reply)
      requires inTransaction && SchemaHolds(committed) && SchemaHolds(working)
      requires escrowId in working.escrows && status != Ledger.Locked
      modifies this
      ensures Valid()
      ensures Leaves(FinishOutcome(old(committed), old(working), escrowId, status, resolvedAt, constraints, event,
                                   receipt), r)
    {
      var cs := [];
      if constraints.Some? {
        cs := constraints.value;
        var ok := CompileConstraints(cs);
        if !ok {
          return Refused(InvalidConstraints);
        }
      }
      var sqlError, rowcount := UpdateEscrow(escrowId, status, resolvedAt, cs);
      if sqlError {
        Rollback();
        return Refused(OperationalError);
      }
      if rowcount == 0 {
        var violated := CheckConstraintViolation(escrowId, cs);
        Rollback();
        return Refused(if violated then ConstraintViolation else EscrowNotFound);
      }
      var v, eventId := InsertEvent(event);
      if v != NoViolation {
        Rollback();
        return Refused(IntegrityError);
      }
      ResolveKeepsSchema(old(working), escrowId, status, resolvedAt);
      Commit();
      return Done(receipt, eventId);
    }

    method EscrowRelease(escrowId: string, recipient: string, txId: string, resolvedAt: string,
                         constraints: Option<Constraints>, event: Event) returns (r: Reply)
      requires Valid()
      modifies this
      ensures Valid()
      ensures Leaves(old(Result(ReleaseEscrow(escrowId, recipient, txId, resolvedAt, constraints, event))), r)
    {
      hide SchemaHolds, FinishOutcome;
      var begun := BeginImmediate();
      if !begun {
        Rollback();
        return Refused(OperationalError);
      }
      if escrowId !in working.escrows {
        Rollback();
        return Refused(EscrowNotFound);
      }
      var escrow := working.escrows[escrowId];
      if escrow.status != Ledger.Locked {
        Rollback();
        return Refused(EscrowAlreadyResolved);
      }
      var rowcount := UpdateBalance(recipient, escrow.amount, None);
      if rowcount == 0 {
        Rollback();
        return Refused(AccountNotFound);
      }
      var v := InsertTransaction(
        TxRow(txId, recipient, ReleaseRow, escrow.amount, working.accounts[recipient], escrowId));
      if v != NoViolation {
        Rollback();
        return Refused(IntegrityError);
      }
      PostKeepsSchema(committed, txId, recipient, ReleaseRow, escrow.amount, escrow.amount, escrowId);
      r := Finish(escrowId, Ledger.Released, resolvedAt, constraints, event,
                  EscrowReleased(escrowId, escrow.amount, recipient));
    }

    method EscrowSplit(escrowId: string, worker: string, workerAmount: int, poster: string, posterAmount: int,
                       workerTx: string, posterTx: string, resolvedAt: string,
                       constraints: Option<Constraints>, event: Event) returns (r: Reply)
      requires Valid()
      modifies this
      ensures Valid()
      ensures Leaves(old(Result(SplitEscrow(escrowId, worker, workerAmount, poster, posterAmount, workerTx, posterTx,
                                            resolvedAt, constraints, event))), r)
    {
      hide SchemaHolds, FinishOutcome, HasTx, FindCredit, EventAllowed;
      var begun := BeginImmediate();
      if !begun {
        Rollback();
        return Refused(OperationalError);
      }
      if escrowId !in working.escrows {
        Rollback();
        return Refused(EscrowNotFound);
      }
      var escrow := working.escrows[escrowId];
      if escrow.status != Ledger.Locked {
        Rollback();
        return Refused(EscrowAlreadyResolved);
      }
      if workerAmount + posterAmount != escrow.amount {
        Rollback();
        return Refused(AmountMismatch);
      }
      if workerAmount > 0 {
        var rowcount := UpdateBalance(worker, workerAmount, None);
        if rowcount == 0 {
          Rollback();
          return Refused(AccountNotFound);
        }
        var v := InsertTransaction(
          TxRow(workerTx, worker, ReleaseRow, workerAmount, working.accounts[worker], escrowId));
        if v != NoViolation {
          Rollback();
          return Refused(IntegrityError);
        }
        PostKeepsSchema(committed, workerTx, worker, ReleaseRow, workerAmount, workerAmount, escrowId);
      }
      assert ShareResult(committed, committed, worker, workerAmount, workerTx, escrowId) == Ok(working);
      ghost var mid := working;
      if posterAmount > 0 {
        var rowcount := UpdateBalance(poster, posterAmount, None);
        if rowcount == 0 {
          Rollback();
          return Refused(AccountNotFound);
        }
        var v := InsertTransaction(
          TxRow(posterTx, poster, ReleaseRow, posterAmount, working.accounts[poster], escrowId));
        if v != NoViolation {
          Rollback();
          return Refused(IntegrityError);
        }
        PostKeepsSchema(mid, posterTx, poster, ReleaseRow, posterAmount, posterAmount, escrowId);
      }
      assert ShareResult(committed, mid, poster, posterAmount, posterTx, escrowId) == Ok(working);
      hide ShareResult, Post;
      r := Finish(escrowId, Ledger.Split, resolvedAt, constraints, event,
                  Receipt.EscrowSplit(escrowId, workerAmount, posterAmount));
    }
  }

  // ----- The checks above are what keeps the schema

  lemma PostKeepsSchema(t: Tables, txId: string, account: string, kind: TxType, delta: int, amount: int,
                        reference: string)
    requires SchemaHolds(t) && account in t.accounts && !HasTx(t.transactions, txId)
    ensures SchemaHolds(Post(t, txId, account, kind, delta, amount, reference))
  {
    assert forall i :: 0 <= i < |t.transactions| ==> t.transactions[i].txId != txId;
  }

  lemma ResolveKeepsSchema(t: Tables, e: string, status: Ledger.EscrowStatus, resolvedAt: string)
    requires SchemaHolds(t) && e in t.escrows && status != Ledger.Locked
    ensures SchemaHolds(SetResolved(t, e, status, resolvedAt))
  {
  }

  lemma LockKeepsSchema(t: Tables, c: Call)
    requires SchemaHolds(t) && c.LockEscrow?
    ensures SchemaHolds(LockOutcome(t, c).tables)
  {
    var o := LockOutcome(t, c);
    if o.reply.Done? && o.reply.eventId > 0 {
      var row := EscrowRow(c.payer, c.amount, c.task, Ledger.Locked, c.createdAt, None);
      var with := t.(escrows := t.escrows[c.escrowId := row]);
      forall e, f | e in with.escrows && f in with.escrows && BothActive(with.escrows[e], with.escrows[f])
        ensures e == f
      {
        assert e != c.escrowId ==> !IsActive(t, e, c.payer, c.task);
        assert f != c.escrowId ==> !IsActive(t, f, c.payer, c.task);
      }
      PostKeepsSchema(with, c.txId, c.payer, LockRow, -c.amount, c.amount, c.task);
    }
  }
}
