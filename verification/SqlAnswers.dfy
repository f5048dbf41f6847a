/** What the gateway's writer answers: for each call exactly when it commits, when it answers a repeat, and when it
    refuses and as what. And what a call of the client leaves in the tables, row by row. */
module SqlAnswers {
  import opened Common
  import Ledger
  import opened SqlBank
  import opened SqlTheorems
  import opened GatewayClient

  predicate RefusedAs(o: Outcome, failure: Failure) {
    o.reply == Refused(failure)
  }

  /** The answer repeats an earlier one and nothing was written. */
  predicate Repeats(o: Outcome, receipt: Receipt) {
    o.reply == Done(receipt, 0)
  }

  lemma CreateAnswers(t: Tables, c: Call)
    requires c.CreateAccount?
    ensures
      var o := Exec(t, c);
      var taken := c.initial.Some?
                   && (HasTx(t.transactions, c.initial.value.txId)
                       || FindCredit(t.transactions, c.account, c.initial.value.reference).Some?);
      && (RefusedAs(o, AccountExists) <==> c.account in t.accounts || (c.account in t.agents && taken))
      && (RefusedAs(o, ForeignKeyViolation)
          <==> c.account !in t.accounts
               && (c.account !in t.agents || (!taken && c.event.agent.Some? && c.event.agent.value !in t.agents)))
      && (Commits(o) <==> !RefusedAs(o, AccountExists) && !RefusedAs(o, ForeignKeyViolation))
      && (Commits(o) ==> o.reply.receipt == Opened(c.account))
  {
    hide HasTx, FindCredit;
  }

  lemma CreditAnswers(t: Tables, c: Call)
    requires c.CreditAccount?
    ensures
      var o := Exec(t, c);
      var first := FindCredit(t.transactions, c.account, c.reference);
      && (RefusedAs(o, AccountNotFound) <==> c.account !in t.accounts)
      && (c.account in t.accounts ==>
            && (first.Some? && first.value.amount == c.amount ==>
                  Repeats(o, Credited(first.value.txId, first.value.balanceAfter)))
            && (first.Some? && first.value.amount != c.amount ==> RefusedAs(o, ReferenceConflict))
            && (first.None? ==>
                  (Commits(o) <==> !HasTx(t.transactions, c.txId)
                                   && (c.event.agent.Some? ==> c.event.agent.value in t.agents)))
            && (first.None? && !Commits(o) ==> RefusedAs(o, ReferenceConflict)))
      && (Commits(o) ==> o.reply.receipt == Credited(c.txId, t.accounts[c.account] + c.amount))
  {
    hide HasTx, FindCredit;
  }

  lemma LockAnswers(t: Tables, c: Call)
    requires c.LockEscrow?
    ensures
      var o := Exec(t, c);
      var funded := c.payer in t.accounts && t.accounts[c.payer] >= c.amount;
      var held := HasActive(t, c.payer, c.task);
      && (RefusedAs(o, AccountNotFound) <==> c.payer !in t.accounts)
      && (RefusedAs(o, InsufficientFunds) <==> c.payer in t.accounts && !funded)
      && (funded && held ==>
            var e := ActiveEscrow(t, c.payer, c.task);
            if t.escrows[e].amount == c.amount then Repeats(o, EscrowLocked(e, 0))
            else RefusedAs(o, EscrowAlreadyLocked))
      && (funded && !held && (c.escrowId in t.escrows || HasTx(t.transactions, c.txId)) ==>
            RefusedAs(o, EscrowAlreadyLocked))
      && (RefusedAs(o, ForeignKeyViolation)
          <==> funded && !held && c.escrowId !in t.escrows && !HasTx(t.transactions, c.txId)
               && c.event.agent.Some? && c.event.agent.value !in t.agents)
      && (Commits(o)
          <==> funded && !held && c.escrowId !in t.escrows && !HasTx(t.transactions, c.txId)
               && (c.event.agent.Some? ==> c.event.agent.value in t.agents))
      && (Commits(o) ==> o.reply.receipt == EscrowLocked(c.escrowId, t.accounts[c.payer] - c.amount))
  {
    hide HasTx, HasActive, ActiveEscrow, IsActive;
  }

  /** The row passes the constraints of the call. */
  predicate Passes(t: Tables, e: string, constraints: Option<Constraints>)
    requires e in t.escrows
  {
    constraints.Some? ==> Satisfied(e, t.escrows[e], constraints.value)
  }

  lemma ReleaseAnswers(t: Tables, c: Call)
    requires c.ReleaseEscrow?
    ensures
      var o := Exec(t, c);
      && (c.escrowId !in t.escrows ==> RefusedAs(o, EscrowNotFound))
      && (RefusedAs(o, EscrowAlreadyResolved)
          <==> c.escrowId in t.escrows && t.escrows[c.escrowId].status != Ledger.Locked)
      && (RefusedAs(o, AccountNotFound)
          <==> c.escrowId in t.escrows && t.escrows[c.escrowId].status == Ledger.Locked && c.recipient !in t.accounts)
      && (Commits(o)
          <==> ReachesResolve(t, c) && NamesColumns(c.constraints) && Passes(t, c.escrowId, c.constraints)
               && (c.event.agent.Some? ==> c.event.agent.value in t.agents))
      && (Commits(o) ==>
            o.reply.receipt == EscrowReleased(c.escrowId, t.escrows[c.escrowId].amount, c.recipient))
      && (ReachesResolve(t, c) ==> ResolvingAnswer(t, c, c.escrowId, c.constraints))
  {
    hide HasTx, Satisfied, ShownSatisfied, AllIdentifiers, AllColumns;
  }

  predicate NamesColumns(constraints: Option<Constraints>) {
    constraints.Some? ==> AllIdentifiers(constraints.value) && AllColumns(constraints.value)
  }

  /** How a release or split that has got as far as its resolving update is refused: for a name that is no identifier,
      for one that is no column, for a row that differs, or for an event of nobody. A NULL is told from the word None
      by the update, not by the look at the row that explains the refusal. */
  ghost predicate ResolvingAnswer(t: Tables, c: Call, e: string, constraints: Option<Constraints>)
    requires e in t.escrows
  {
    var o := Exec(t, c);
    && (RefusedAs(o, InvalidConstraints) <==> constraints.Some? && !AllIdentifiers(constraints.value))
    && (RefusedAs(o, OperationalError)
        <==> constraints.Some? && AllIdentifiers(constraints.value) && !AllColumns(constraints.value))
    && (RefusedAs(o, ConstraintViolation)
        <==> NamesColumns(constraints) && !Passes(t, e, constraints)
             && !ShownSatisfied(e, t.escrows[e], constraints.value))
    && (RefusedAs(o, EscrowNotFound)
        <==> NamesColumns(constraints) && !Passes(t, e, constraints)
             && ShownSatisfied(e, t.escrows[e], constraints.value))
    && (RefusedAs(o, IntegrityError)
        <==> NamesColumns(constraints) && Passes(t, e, constraints)
             && c.event.agent.Some? && c.event.agent.value !in t.agents)
  }

  lemma SplitAnswers(t: Tables, c: Call)
    requires c.SplitEscrow?
    ensures
      var o := Exec(t, c);
      && (c.escrowId !in t.escrows ==> RefusedAs(o, EscrowNotFound))
      && (RefusedAs(o, EscrowAlreadyResolved)
          <==> c.escrowId in t.escrows && t.escrows[c.escrowId].status != Ledger.Locked)
      && (RefusedAs(o, AmountMismatch)
          <==> c.escrowId in t.escrows && t.escrows[c.escrowId].status == Ledger.Locked
               && c.workerAmount + c.posterAmount != t.escrows[c.escrowId].amount)
    ensures
      var o := Exec(t, c);
      && (Commits(o)
          <==> ReachesResolve(t, c) && NamesColumns(c.constraints) && Passes(t, c.escrowId, c.constraints)
               && (c.event.agent.Some? ==> c.event.agent.value in t.agents))
      && (Commits(o) ==> o.reply.receipt == EscrowSplit(c.escrowId, c.workerAmount, c.posterAmount))
      && (ReachesResolve(t, c) ==> ResolvingAnswer(t, c, c.escrowId, c.constraints))
  {
    if c.escrowId in t.escrows && c.workerAmount > 0 && c.worker in t.accounts {
      HasTxOfLog(t.transactions,
                 TxRow(c.workerTx, c.worker, ReleaseRow, c.workerAmount, t.accounts[c.worker] + c.workerAmount,
                       c.escrowId),
                 c.posterTx);
    }
    hide HasTx, Satisfied, ShownSatisfied, AllIdentifiers, AllColumns;
  }

  // ----- Constraints

  /** What a constraint on each column asks of the row. */
  lemma ConstraintAsks(e: string, row: EscrowRow, text: string)
    ensures Satisfied(e, row, [("escrow_id", text)]) <==> e == text
    ensures Satisfied(e, row, [("payer_account_id", text)]) <==> row.payer == text
    ensures Satisfied(e, row, [("amount", text)]) <==> Decimal(row.amount) == text
    ensures Satisfied(e, row, [("task_id", text)]) <==> row.task == text
    ensures Satisfied(e, row, [("created_at", text)]) <==> row.createdAt == text
    ensures Satisfied(e, row, [("resolved_at", text)]) <==> row.resolvedAt == Some(text)
    ensures Satisfied(e, row, [("status", "locked")]) <==> row.status == Ledger.Locked
    ensures Satisfied(e, row, [("status", "released")]) <==> row.status == Ledger.Released
    ensures Satisfied(e, row, [("status", "split")]) <==> row.status == Ledger.Split
  {
    OneConstraint(e, row, "escrow_id", text);
    OneConstraint(e, row, "payer_account_id", text);
    OneConstraint(e, row, "amount", text);
    OneConstraint(e, row, "task_id", text);
    OneConstraint(e, row, "created_at", text);
    OneConstraint(e, row, "resolved_at", text);
    OneConstraint(e, row, "status", "locked");
    OneConstraint(e, row, "status", "released");
    OneConstraint(e, row, "status", "split");
    StatusTextsDiffer(row.status);
    hide Satisfied, StatusText;
  }

  /** The look at the row that explains a refusal takes NULL for the word None, and else asks what the update asks. */
  lemma ExplanationAsks(e: string, row: EscrowRow, cs: Constraints)
    ensures ShownSatisfied(e, row, cs)
       <==> forall i :: 0 <= i < |cs| ==>
              if ColumnText(e, row, cs[i].0).Some? then Satisfied(e, row, [cs[i]]) else cs[i].1 == "None"
    ensures ColumnText(e, row, "resolved_at").None? <==> row.resolvedAt.None?
  {
    forall i | 0 <= i < |cs| ensures Satisfied(e, row, [cs[i]]) <==> ColumnText(e, row, cs[i].0) == Some(cs[i].1) {
      OneConstraint(e, row, cs[i].0, cs[i].1);
    }
    hide Satisfied;
  }

  /** Which names are identifiers, character by character: one begins with a letter or an underscore, and goes on with
      letters, underscores and digits. */
  lemma IdentifierByCharacter(name: string, c: char)
    ensures !IsIdentifier("")
    ensures IsIdentifier([c]) <==> 'a' <= c <= 'z' || 'A' <= c <= 'Z' || c == '_'
    ensures name != "" ==>
              (IsIdentifier(name + [c])
               <==> IsIdentifier(name) && ('a' <= c <= 'z' || 'A' <= c <= 'Z' || c == '_' || '0' <= c <= '9'))
  {
    assert [c][0] == c;
    if name != "" {
      assert (name + [c])[0] == name[0] && (name + [c])[|name|] == c;
      assert forall i :: 0 <= i < |name| ==> (name + [c])[i] == name[i];
    }
  }

  /** Each constraint has to name an identifier, and one of the seven columns of the table. */
  lemma NamesByConstraint(cs: Constraints, column: string, text: string)
    ensures AllIdentifiers([]) && AllColumns([])
    ensures AllIdentifiers(cs + [(column, text)]) <==> AllIdentifiers(cs) && IsIdentifier(column)
    ensures AllColumns(cs + [(column, text)])
       <==> AllColumns(cs) && (column == "escrow_id" || column == "payer_account_id" || column == "amount"
                               || column == "task_id" || column == "status" || column == "created_at"
                               || column == "resolved_at")
  {
    var all := cs + [(column, text)];
    assert all[|cs|] == (column, text) && forall i :: 0 <= i < |cs| ==> all[i] == cs[i];
    hide IsIdentifier;
  }

  lemma StatusTextsDiffer(status: Ledger.EscrowStatus)
    ensures StatusText(status) == "locked" <==> status == Ledger.Locked
    ensures StatusText(status) == "released" <==> status == Ledger.Released
    ensures StatusText(status) == "split" <==> status == Ledger.Split
  {
    assert "locked"[0] == 'l' && "released"[0] == 'r' && "split"[0] == 's';
  }

  lemma OneConstraint(e: string, row: EscrowRow, column: string, text: string)
    ensures Satisfied(e, row, [(column, text)]) <==> ColumnText(e, row, column) == Some(text)
  {
    assert [(column, text)][0] == (column, text);
  }

  /** Several constraints ask what each of them asks. */
  lemma ConstraintsAskTogether(e: string, row: EscrowRow, cs: Constraints)
    ensures Satisfied(e, row, cs) <==> forall i :: 0 <= i < |cs| ==> Satisfied(e, row, [cs[i]])
  {
    forall i | 0 <= i < |cs| ensures Satisfied(e, row, [cs[i]]) <==> ColumnText(e, row, cs[i].0) == Some(cs[i].1) {
      OneConstraint(e, row, cs[i].0, cs[i].1);
    }
  }

  // ----- What a call of the client leaves

  /** A committed call of the client logs one event that names it, and stamps what it writes with the client's clock. */
  lemma ClientLeaves(t: Tables, c: Ledger.Call, now: string)
    requires Translate(t, c, now).Ok? && Commits(Exec(t, Translate(t, c, now).value))
    ensures
      var u := Exec(t, Translate(t, c, now).value).tables;
      match c
      case CreateAccount(a, initial, txId) =>
        && u.accounts == t.accounts[a := initial] && u.escrows == t.escrows
        && u.transactions
           == t.transactions
              + (if initial == 0 then [] else [TxRow(txId, a, CreditRow, initial, initial, "initial_balance")])
        && u.events == t.events + [Event("account.created", Some(a))]
      case Credit(a, amount, reference, txId) =>
        && a in t.accounts && u.accounts == t.accounts[a := t.accounts[a] + amount] && u.escrows == t.escrows
        && u.transactions == t.transactions + [TxRow(txId, a, CreditRow, amount, t.accounts[a] + amount, reference)]
        && u.events == t.events + [Event("salary.paid", Some(a))]
      case Lock(payer, amount, task, e, txId) =>
        && payer in t.accounts && u.accounts == t.accounts[payer := t.accounts[payer] - amount]
        && u.escrows == t.escrows[e := EscrowRow(payer, amount, task, Ledger.Locked, now, None)]
        && u.transactions == t.transactions + [TxRow(txId, payer, LockRow, amount, t.accounts[payer] - amount, task)]
        && u.events == t.events + [Event("escrow.locked", Some(payer))]
      case Release(e, a, txId) =>
        && e in t.escrows && a in t.accounts
        && u.accounts == t.accounts[a := t.accounts[a] + t.escrows[e].amount]
        && u.escrows == t.escrows[e := t.escrows[e].(status := Ledger.Released, resolvedAt := Some(now))]
        && u.transactions
           == t.transactions
            + [TxRow(txId, a, ReleaseRow, t.escrows[e].amount, t.accounts[a] + t.escrows[e].amount, e)]
        && u.events == t.events + [Event("escrow.released", None)]
      case SplitEscrow(e, worker, pct, poster, workerTx, posterTx) =>
        && e in t.escrows
        && u.escrows == t.escrows[e := t.escrows[e].(status := Ledger.Split, resolvedAt := Some(now))]
        && u.events == t.events + [Event("escrow.split", None)]
  {
    var call := Translate(t, c, now).value;
    AllOrNothing(t, call);
    CommittedFindsItsRows(t, call);
    hide Exec, Commits, Ledger.WorkerShare;
  }

  /** Release and split ask the bank for one thing, that the escrow is still locked. */
  lemma ClientAsksForLocked(t: Tables, c: Ledger.Call, now: string)
    requires Translate(t, c, now).Ok? && (c.Release? || c.SplitEscrow?)
    ensures Translate(t, c, now).value.ReleaseEscrow? || Translate(t, c, now).value.SplitEscrow?
    ensures Translate(t, c, now).value.constraints.Some?
    ensures forall e, row ::
              Satisfied(e, row, Translate(t, c, now).value.constraints.value) <==> row.status == Ledger.Locked
  {
    assert Translate(t, c, now).value.constraints == Some([("status", "locked")]);
    forall e, row ensures Satisfied(e, row, [("status", "locked")]) <==> row.status == Ledger.Locked {
      ConstraintAsks(e, row, "");
    }
    hide Satisfied, Ledger.WorkerShare;
  }

  /** A committed call found the accounts and the escrow it writes to. */
  lemma CommittedFindsItsRows(t: Tables, c: Call)
    requires Commits(Exec(t, c))
    ensures c.CreditAccount? ==> c.account in t.accounts
    ensures c.LockEscrow? ==> c.payer in t.accounts
    ensures c.ReleaseEscrow? ==> c.escrowId in t.escrows && c.recipient in t.accounts
    ensures c.SplitEscrow? ==> c.escrowId in t.escrows
  {
    hide HasTx, FindCredit, HasActive, ActiveEscrow, ShareResult, FinishOutcome;
  }
}
