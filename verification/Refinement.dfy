/** The gateway bank against the in-memory ledger: coupled states, and for every ledger call sent through
    the client, exactly when the two agree. */
module Refinement {
  import opened Common
  import Ledger
  import LedgerTheorems
  import opened SqlBank
  import opened SqlTheorems
  import opened GatewayClient

  // ----- Coupled states

  function EscrowView(rows: map<string, EscrowRow>): map<string, Ledger.Escrow> {
    map e | e in rows :: Ledger.Escrow(rows[e].payer, rows[e].amount, rows[e].task, rows[e].status)
  }

  /** A movement on an account: signed amount and the balance it announces. */
  type Movement = (int, int)

  function RowMovement(row: TxRow): Movement {
    (if row.kind == LockRow then -row.amount else row.amount, row.balanceAfter)
  }

  /** The movements of account `a` in the bank's log, oldest first. */
  function RowsOf(txs: seq<TxRow>, a: string): seq<Movement> {
    if txs == [] then []
    else
      var n := |txs| - 1;
      RowsOf(txs[..n], a) + (if txs[n].account == a then [RowMovement(txs[n])] else [])
  }

  /** The movements of a journal; the ledger also journals empty shares, which move nothing. */
  function MovementsOf(j: seq<Ledger.Tx>): seq<Movement> {
    if j == [] then []
    else
      var n := |j| - 1;
      MovementsOf(j[..n]) + (if j[n].amount != 0 then [(LedgerTheorems.Signed(j[n]), j[n].balanceAfter)] else [])
  }

  predicate RowIsTx(row: Option<TxRow>, tx: Ledger.Tx) {
    row.Some? && row.value.txId == tx.id && row.value.amount == tx.amount && row.value.balanceAfter == tx.balanceAfter
  }

  /** A credit reference is known to the bank as it is to the ledger; the bank alone also knows the
      reference of the opening balance. */
  predicate RefCoupled(t: Tables, s: Ledger.State, a: string, r: string) {
    if (a, r) in s.creditRefs then RowIsTx(FindCredit(t.transactions, a, r), s.creditRefs[(a, r)])
    else FindCredit(t.transactions, a, r).Some? ==> r == Ledger.INITIAL_REFERENCE
  }

  ghost predicate LogsCoupled(t: Tables, s: Ledger.State) {
    forall a :: RowsOf(t.transactions, a) == MovementsOf(Ledger.Journal(s, a))
  }

  ghost predicate RefsCoupled(t: Tables, s: Ledger.State) {
    forall a, r :: RefCoupled(t, s, a, r)
  }

  ghost predicate Coupled(t: Tables, s: Ledger.State) {
    && t.accounts == s.balances
    && EscrowView(t.escrows) == s.escrows
    && LogsCoupled(t, s)
    && RefsCoupled(t, s)
    && SchemaHolds(t)
    && Ledger.Inv(s)
  }

  /** The identifiers a call brings are new to the bank. */
  predicate Healthy(t: Tables, c: Ledger.Call) {
    match c
    case CreateAccount(_, _, txId) => !HasTx(t.transactions, txId)
    case Credit(_, _, _, txId) => !HasTx(t.transactions, txId)
    case Lock(_, _, _, e, txId) => e !in t.escrows && !HasTx(t.transactions, txId)
    case Release(_, _, txId) => !HasTx(t.transactions, txId)
    case SplitEscrow(_, _, _, _, workerTx, posterTx) =>
      !HasTx(t.transactions, workerTx) && !HasTx(t.transactions, posterTx) && workerTx != posterTx
  }

  // ----- One call on both sides

  ghost function ClientOutcome(t: Tables, c: Ledger.Call, now: string): Outcome {
    match Translate(t, c, now)
    case Err(_) => Outcome(t, Refused(ConstraintViolation), None)
    case Ok(call) => Exec(t, call)
  }

  /** Both refuse, whatever the error (which of them name the same error, the module Refusals says), or both accept with
      the same answer. The client takes the opening balance, and the amount and task of a lock, from the call. */
  predicate SameAnswer(c: Ledger.Call, r: Reply, answer: Ledger.Answer) {
    match (r, answer)
    case (Refused(_), Err(_)) => true
    case (Done(Opened(a), _), Ok(AccountOpened(b, balance))) => a == b && c.CreateAccount? && balance == c.initial
    case (Done(Credited(id, after), _), Ok(Credited(id', after'))) => id == id' && after == after'
    case (Done(EscrowLocked(e, _), _), Ok(EscrowLocked(e', amount, task, status))) =>
      e == e' && c.Lock? && amount == c.amount && task == c.task && status == Ledger.Locked
    case (Done(EscrowReleased(e, amount, a), _), Ok(EscrowReleased(e', amount', a'))) =>
      e == e' && amount == amount' && a == a'
    case (Done(EscrowSplit(e, w, p), _), Ok(EscrowSplit(e', w', p', _))) => e == e' && w == w' && p == p'
    case _ => false
  }

  /** Bank and ledger answer alike and stay coupled. */
  ghost predicate Agree(t: Tables, s: Ledger.State, c: Ledger.Call, now: string) {
    var o := ClientOutcome(t, c, now);
    SameAnswer(c, o.reply, Ledger.Step(s, c).1) && Coupled(o.tables, Ledger.Step(s, c).0)
  }

  /** The opening balance's reference is used for a credit: the bank takes it for a replay. */
  predicate ReusesInitialReference(t: Tables, s: Ledger.State, c: Ledger.Call) {
    && c.Credit? && c.amount > 0 && c.account in s.balances
    && (c.account, c.reference) !in s.creditRefs
    && FindCredit(t.transactions, c.account, c.reference).Some?
  }

  /** A lock is repeated while the payer no longer has the amount to spare: the bank looks at funds first. */
  predicate ReplaysLockWithoutFunds(s: Ledger.State, c: Ledger.Call) {
    && c.Lock? && c.amount > 0 && c.payer in s.balances && s.balances[c.payer] < c.amount
    && (c.payer, c.task) in s.lockedByTask && s.lockedByTask[(c.payer, c.task)] in s.escrows
    && s.escrows[s.lockedByTask[(c.payer, c.task)]].amount == c.amount
  }

  /** A split of a locked escrow that only one side accepts, or that the ledger loses coins in. */
  predicate SplitsDifferently(s: Ledger.State, c: Ledger.Call) {
    && c.SplitEscrow? && 0 <= c.workerPct <= 100
    && c.escrow in s.escrows && s.escrows[c.escrow].status == Ledger.Locked
    && var w := Ledger.WorkerShare(s.escrows[c.escrow].amount, c.workerPct);
       if c.poster != s.escrows[c.escrow].payer then c.worker in s.balances && c.poster in s.balances
       else if w > 0 then c.worker == c.poster
       else c.worker !in s.balances
  }

  /** An account is opened for an owner the bank does not know: its foreign key refuses what the ledger accepts. */
  predicate OpensForStranger(t: Tables, s: Ledger.State, c: Ledger.Call) {
    c.CreateAccount? && c.initial >= 0 && c.account !in s.balances && c.account !in t.agents
  }

  predicate Diverges(t: Tables, s: Ledger.State, c: Ledger.Call) {
    || OpensForStranger(t, s, c)
    || ReusesInitialReference(t, s, c) || ReplaysLockWithoutFunds(s, c) || SplitsDifferently(s, c)
  }

  // ----- Logs

  lemma RowsOfLog(txs: seq<TxRow>, row: TxRow, a: string)
    ensures RowsOf(txs + [row], a) == RowsOf(txs, a) + (if row.account == a then [RowMovement(row)] else [])
  {
    assert (txs + [row])[..|txs|] == txs;
  }

  lemma MovementsOfSnoc(j: seq<Ledger.Tx>, tx: Ledger.Tx)
    ensures MovementsOf(j + [tx])
         == MovementsOf(j) + (if tx.amount != 0 then [(LedgerTheorems.Signed(tx), tx.balanceAfter)] else [])
  {
    assert (j + [tx])[..|j|] == j;
  }

  lemma FindCreditOfLog(txs: seq<TxRow>, row: TxRow, a: string, r: string)
    ensures FindCredit(txs + [row], a, r)
         == if FindCredit(txs, a, r).Some? then FindCredit(txs, a, r)
            else if IsCredit(row, a, r) then Some(row) else None
  {
    assert (txs + [row])[..|txs|] == txs;
  }

  lemma {:induction false} RowsOfStranger(txs: seq<TxRow>, a: string)
    requires forall i :: 0 <= i < |txs| ==> txs[i].account != a
    ensures RowsOf(txs, a) == []
  {
    if txs != [] {
      RowsOfStranger(txs[..|txs| - 1], a);
    }
  }

  lemma SameMovement(txs: seq<TxRow>, row: TxRow, j: seq<Ledger.Tx>, tx: Ledger.Tx, b: string)
    requires RowMovement(row) == (LedgerTheorems.Signed(tx), tx.balanceAfter) && tx.amount != 0
    requires RowsOf(txs, b) == MovementsOf(j)
    ensures RowsOf(txs + [row], b) == MovementsOf(if b == row.account then j + [tx] else j)
  {
    RowsOfLog(txs, row, b);
    MovementsOfSnoc(j, tx);
  }

  /** Posting on the bank and booking on the ledger the same movement. */
  lemma PostIsBook(t: Tables, s: Ledger.State, txId: string, a: string, kind: TxType, delta: int, amount: int,
                   reference: string, tx: Ledger.Tx)
    requires t.accounts == s.balances && LogsCoupled(t, s) && a in s.balances
    requires tx.balanceAfter == s.balances[a] + delta && tx.amount == amount != 0
    requires LedgerTheorems.Signed(tx) == delta == (if kind == LockRow then -amount else amount)
    ensures
      var u := Post(t, txId, a, kind, delta, amount, reference);
      u.accounts == Ledger.Book(s, a, tx).balances && LogsCoupled(u, Ledger.Book(s, a, tx))
  {
    var row := TxRow(txId, a, kind, amount, t.accounts[a] + delta, reference);
    var u := Post(t, txId, a, kind, delta, amount, reference);
    var v := Ledger.Book(s, a, tx);
    hide RowsOf, MovementsOf;
    assert u.accounts == v.balances && u.transactions == t.transactions + [row];
    assert RowMovement(row) == (LedgerTheorems.Signed(tx), tx.balanceAfter);
    hide Post, LedgerTheorems.Signed, RowMovement;
    forall b ensures RowsOf(u.transactions, b) == MovementsOf(Ledger.Journal(v, b)) {
      assert RowsOf(t.transactions, b) == MovementsOf(Ledger.Journal(s, b));
      SameMovement(t.transactions, row, Ledger.Journal(s, b), tx, b);
    }
  }

  /** A row that is no credit leaves what the bank knows of credit references as it was. */
  lemma OtherRowKeepsRefs(t: Tables, s: Ledger.State, u: Tables, v: Ledger.State, row: TxRow)
    requires RefsCoupled(t, s) && row.kind != CreditRow
    requires u.transactions == t.transactions + [row] && v.creditRefs == s.creditRefs
    ensures RefsCoupled(u, v)
  {
    forall a, r ensures RefCoupled(u, v, a, r) {
      assert RefCoupled(t, s, a, r);
      FindCreditOfLog(t.transactions, row, a, r);
    }
  }

  lemma LogsFrame(t: Tables, u: Tables, s: Ledger.State, v: Ledger.State)
    requires LogsCoupled(t, s) && u.transactions == t.transactions && v.journals == s.journals
    ensures LogsCoupled(u, v)
  {
  }

  lemma RefsFrame(t: Tables, s: Ledger.State, u: Tables, v: Ledger.State)
    requires RefsCoupled(t, s) && u.transactions == t.transactions && v.creditRefs == s.creditRefs
    ensures RefsCoupled(u, v)
  {
    forall a, r ensures RefCoupled(u, v, a, r) {
      assert RefCoupled(t, s, a, r);
    }
  }

  lemma EventKeepsCoupled(u: Tables, v: Ledger.State, event: Event)
    requires Coupled(u, v)
    ensures Coupled(LogEvent(u, event), v)
  {
    hide LogsCoupled, RefsCoupled, Ledger.Inv;
    LogsFrame(u, LogEvent(u, event), v, v);
    RefsFrame(u, v, LogEvent(u, event), v);
  }

  /** Both sides accept, say the same, and end coupled. */
  lemma CommitAgrees(t: Tables, s: Ledger.State, c: Ledger.Call, now: string,
                     u: Tables, event: Event, receipt: Receipt, v: Ledger.State, answer: Ledger.Receipt)
    requires ClientOutcome(t, c, now) == Commit(u, event, receipt) && Ledger.Step(s, c) == (v, Ok(answer))
    requires Coupled(u, v) && SameAnswer(c, Done(receipt, 1), Ok(answer))
    ensures Agree(t, s, c, now)
  {
    hide ClientOutcome, Ledger.Step, Coupled;
    EventKeepsCoupled(u, v, event);
  }

  // ----- Create

  lemma CreateRefsCoupled(t: Tables, s: Ledger.State, u: Tables, v: Ledger.State, row: TxRow)
    requires RefsCoupled(t, s) && u.transactions == t.transactions + [row] && v.creditRefs == s.creditRefs
    requires row.kind == CreditRow && row.reference == Ledger.INITIAL_REFERENCE
    requires forall r :: (row.account, r) !in s.creditRefs
    ensures RefsCoupled(u, v)
  {
    forall a, r ensures RefCoupled(u, v, a, r) {
      assert RefCoupled(t, s, a, r);
      FindCreditOfLog(t.transactions, row, a, r);
    }
  }

  lemma StrangerHasNoCredit(t: Tables, s: Ledger.State, a: string, r: string)
    requires SchemaHolds(t) && Ledger.Inv(s) && t.accounts == s.balances && a !in s.balances
    ensures FindCredit(t.transactions, a, r).None? && (a, r) !in s.creditRefs
  {
  }

  lemma CreateLogsCoupled(t: Tables, s: Ledger.State, a: string, initial: int, txId: string)
    requires Coupled(t, s) && initial >= 0 && a !in s.balances
    ensures
      var u := if initial > 0
               then LogTx(t, InitialRow(a, initial, InitialCredit(txId, initial, Ledger.INITIAL_REFERENCE))) else t;
      LogsCoupled(u, Ledger.CreateAccountStep(s, a, initial, txId).0)
  {
    var row := InitialRow(a, initial, InitialCredit(txId, initial, Ledger.INITIAL_REFERENCE));
    var tx := Ledger.Tx(txId, Ledger.CreditTx, initial, initial, Ledger.Given(Ledger.INITIAL_REFERENCE));
    var v := Ledger.CreateAccountStep(s, a, initial, txId).0;
    assert Ledger.Journal(s, a) == [];
    RowsOfStranger(t.transactions, a);
    MovementsOfSnoc([], tx);
    var u := if initial > 0 then LogTx(t, row) else t;
    forall b ensures RowsOf(u.transactions, b) == MovementsOf(Ledger.Journal(v, b)) {
      RowsOfLog(t.transactions, row, b);
      assert RowsOf(t.transactions, b) == MovementsOf(Ledger.Journal(s, b));
    }
  }

  /** The tables after an account is opened. */
  function OpenedTables(t: Tables, a: string, initial: int, txId: string): Tables {
    var with := t.(accounts := t.accounts[a := initial]);
    if initial > 0 then LogTx(with, InitialRow(a, initial, InitialCredit(txId, initial, Ledger.INITIAL_REFERENCE)))
    else with
  }

  lemma OpenRefsCoupled(t: Tables, s: Ledger.State, a: string, initial: int, txId: string)
    requires Coupled(t, s) && initial >= 0 && a !in s.balances
    ensures RefsCoupled(OpenedTables(t, a, initial, txId), Ledger.CreateAccountStep(s, a, initial, txId).0)
  {
    var row := InitialRow(a, initial, InitialCredit(txId, initial, Ledger.INITIAL_REFERENCE));
    var u := OpenedTables(t, a, initial, txId);
    var v := Ledger.CreateAccountStep(s, a, initial, txId).0;
    hide LogsCoupled, RefsCoupled;
    if initial > 0 {
      forall r ensures (a, r) !in s.creditRefs { StrangerHasNoCredit(t, s, a, r); }
      hide Ledger.Inv, SchemaHolds;
      CreateRefsCoupled(t, s, u, v, row);
    } else {
      RefsFrame(t, s, u, v);
    }
  }

  lemma OpenKeepsCoupled(t: Tables, s: Ledger.State, a: string, initial: int, txId: string)
    requires Coupled(t, s) && initial >= 0 && a !in s.balances && a in t.agents && !HasTx(t.transactions, txId)
    ensures Coupled(OpenedTables(t, a, initial, txId), Ledger.CreateAccountStep(s, a, initial, txId).0)
  {
    var row := InitialRow(a, initial, InitialCredit(txId, initial, Ledger.INITIAL_REFERENCE));
    var u := OpenedTables(t, a, initial, txId);
    var v := Ledger.CreateAccountStep(s, a, initial, txId).0;
    hide LogsCoupled, RefsCoupled;
    assert LogsCoupled(u, v) by {
      hide Ledger.Inv, SchemaHolds;
      CreateLogsCoupled(t, s, a, initial, txId);
      LogsFrame(if initial > 0 then LogTx(t, row) else t, u, v, v);
    }
    OpenRefsCoupled(t, s, a, initial, txId);
    assert Ledger.Inv(v) && SchemaHolds(u) by {
      hide Ledger.Inv, SchemaHolds;
      LedgerTheorems.CreateKeepsInv(s, a, initial, txId);
      CreateKeepsSchema(t, a, initial, row, u);
    }
    hide Ledger.Inv, SchemaHolds;
  }

  lemma CreateCommits(t: Tables, s: Ledger.State, c: Ledger.Call, now: string)
    requires Coupled(t, s) && Healthy(t, c) && c.CreateAccount? && c.initial >= 0 && c.account !in s.balances
    requires c.account in t.agents
    ensures Agree(t, s, c, now)
  {
    var a, initial := c.account, c.initial;
    var u := OpenedTables(t, a, initial, c.txId);
    var v := Ledger.CreateAccountStep(s, a, initial, c.txId).0;
    var event := Event("account.created", Some(a));
    assert ClientOutcome(t, c, now) == Commit(u, event, Opened(a)) by {
      hide LogsCoupled, RefsCoupled;
      StrangerHasNoCredit(t, s, a, Ledger.INITIAL_REFERENCE);
    }
    assert Ledger.Step(s, c) == (v, Ok(Ledger.AccountOpened(a, initial)));
    hide LogsCoupled, RefsCoupled, Ledger.Inv, SchemaHolds, OpenedTables, ClientOutcome, Ledger.Step;
    OpenKeepsCoupled(t, s, a, initial, c.txId);
    hide Coupled;
    CommitAgrees(t, s, c, now, u, event, Opened(a), v, Ledger.AccountOpened(a, initial));
  }

  lemma CreateAgrees(t: Tables, s: Ledger.State, c: Ledger.Call, now: string)
    requires Coupled(t, s) && Healthy(t, c) && c.CreateAccount? && !OpensForStranger(t, s, c)
    ensures Agree(t, s, c, now)
  {
    if c.initial >= 0 && c.account !in s.balances {
      CreateCommits(t, s, c, now);
    } else {
      hide LogsCoupled, RefsCoupled, Ledger.Inv, SchemaHolds;
    }
  }

  lemma CreateDiverges(t: Tables, s: Ledger.State, c: Ledger.Call, now: string)
    requires Coupled(t, s) && OpensForStranger(t, s, c)
    ensures !Agree(t, s, c, now)
  {
    hide LogsCoupled, RefsCoupled, Ledger.Inv, SchemaHolds;
  }

  lemma CreateKeepsSchema(t: Tables, a: string, balance: int, row: TxRow, u: Tables)
    requires SchemaHolds(t) && a in t.agents && row.account == a && !HasTx(t.transactions, row.txId)
    requires u.accounts == t.accounts[a := balance] && u.escrows == t.escrows && u.agents == t.agents
    requires u.transactions == t.transactions || u.transactions == t.transactions + [row]
    ensures SchemaHolds(u)
  {
    assert forall i :: 0 <= i < |t.transactions| ==> t.transactions[i].txId != row.txId;
  }

  // ----- Credit

  lemma CreditRefsCoupled(t: Tables, s: Ledger.State, u: Tables, v: Ledger.State, row: TxRow, tx: Ledger.Tx)
    requires RefsCoupled(t, s) && u.transactions == t.transactions + [row]
    requires v.creditRefs == s.creditRefs[(row.account, row.reference) := tx]
    requires row.kind == CreditRow && FindCredit(t.transactions, row.account, row.reference).None?
    requires row.txId == tx.id && row.amount == tx.amount && row.balanceAfter == tx.balanceAfter
    ensures RefsCoupled(u, v)
  {
    forall a, r ensures RefCoupled(u, v, a, r) {
      assert RefCoupled(t, s, a, r);
      FindCreditOfLog(t.transactions, row, a, r);
    }
  }

  lemma CreditCommits(t: Tables, s: Ledger.State, c: Ledger.Call, now: string)
    requires Coupled(t, s) && Healthy(t, c) && c.Credit? && c.amount > 0 && c.account in s.balances
    requires (c.account, c.reference) !in s.creditRefs && !ReusesInitialReference(t, s, c)
    ensures Agree(t, s, c, now)
  {
    var a, amount, reference := c.account, c.amount, c.reference;
    var after := s.balances[a] + amount;
    var tx := Ledger.Tx(c.txId, Ledger.CreditTx, amount, after, Ledger.Given(reference));
    var u := Post(t, c.txId, a, CreditRow, amount, amount, reference);
    var v := Ledger.CreditStep(s, a, amount, reference, c.txId).0;
    var event := Event("salary.paid", Some(a));
    assert ClientOutcome(t, c, now) == Commit(u, event, Credited(c.txId, after));
    assert Ledger.Step(s, c) == (v, Ok(Ledger.Credited(c.txId, after)));
    assert Coupled(u, v) by {
      hide LogsCoupled, RefsCoupled;
      PostIsBook(t, s, c.txId, a, CreditRow, amount, amount, reference, tx);
      LogsFrame(u, u, Ledger.Book(s, a, tx), v);
      CreditRefsCoupled(t, s, u, v, TxRow(c.txId, a, CreditRow, amount, after, reference), tx);
      hide Ledger.Inv, SchemaHolds;
      LedgerTheorems.CreditKeepsInv(s, a, amount, reference, c.txId);
      SqlWriter.PostKeepsSchema(t, c.txId, a, CreditRow, amount, amount, reference);
    }
    hide Exec, Ledger.Step, Coupled;
    CommitAgrees(t, s, c, now, u, event, Credited(c.txId, after), v, Ledger.Credited(c.txId, after));
  }

  lemma CreditAgrees(t: Tables, s: Ledger.State, c: Ledger.Call, now: string)
    requires Coupled(t, s) && Healthy(t, c) && c.Credit? && !ReusesInitialReference(t, s, c)
    ensures Agree(t, s, c, now)
  {
    if c.amount > 0 && c.account in s.balances && (c.account, c.reference) !in s.creditRefs {
      CreditCommits(t, s, c, now);
    } else {
      assert RefCoupled(t, s, c.account, c.reference);
      hide LogsCoupled, RefsCoupled, Ledger.Inv, SchemaHolds;
    }
  }

  lemma CreditDiverges(t: Tables, s: Ledger.State, c: Ledger.Call, now: string)
    requires Coupled(t, s) && ReusesInitialReference(t, s, c)
    ensures !Agree(t, s, c, now)
    ensures c.reference == Ledger.INITIAL_REFERENCE
  {
    assert RefCoupled(t, s, c.account, c.reference);
    hide LogsCoupled, RefsCoupled;
  }

  // ----- Lock

  lemma ActiveIsIndexed(t: Tables, s: Ledger.State, payer: string, task: string)
    requires EscrowView(t.escrows) == s.escrows && Ledger.IndexIsInverse(s)
    ensures HasActive(t, payer, task) <==> (payer, task) in s.lockedByTask
    ensures HasActive(t, payer, task) ==> ActiveEscrow(t, payer, task) == s.lockedByTask[(payer, task)]
  {
    if (payer, task) in s.lockedByTask {
      var e := s.lockedByTask[(payer, task)];
      assert e in EscrowView(t.escrows);
      assert IsActive(t, e, payer, task);
    }
    if HasActive(t, payer, task) {
      var e := ActiveEscrow(t, payer, task);
      assert e in s.escrows && s.escrows[e].status == Ledger.Locked;
    }
  }

  lemma LockEscrowView(t: Tables, e: string, row: EscrowRow)
    ensures EscrowView(t.escrows[e := row])
         == EscrowView(t.escrows)[e := Ledger.Escrow(row.payer, row.amount, row.task, row.status)]
  {
  }

  /** The tables after a committed lock, and the ledger after the same lock. */
  function LockedTables(t: Tables, payer: string, amount: int, task: string, e: string, txId: string, now: string)
    : Tables
    requires payer in t.accounts
  {
    var row := EscrowRow(payer, amount, task, Ledger.Locked, now, None);
    Post(t.(escrows := t.escrows[e := row]), txId, payer, LockRow, -amount, amount, task)
  }

  lemma LockLogsCoupled(t: Tables, s: Ledger.State, payer: string, amount: int, task: string, e: string, txId: string,
                        now: string)
    requires t.accounts == s.balances && LogsCoupled(t, s) && RefsCoupled(t, s)
    requires amount > 0 && payer in s.balances && s.balances[payer] >= amount && (payer, task) !in s.lockedByTask
    ensures
      var u := LockedTables(t, payer, amount, task, e, txId, now);
      var v := Ledger.LockStep(s, payer, amount, task, e, txId).0;
      u.accounts == v.balances && LogsCoupled(u, v) && RefsCoupled(u, v)
  {
    var with := t.(escrows := t.escrows[e := EscrowRow(payer, amount, task, Ledger.Locked, now, None)]);
    var tx := Ledger.Tx(txId, Ledger.DebitTx, amount, s.balances[payer] - amount, Ledger.ForLock(task));
    var u := LockedTables(t, payer, amount, task, e, txId, now);
    var v := Ledger.LockStep(s, payer, amount, task, e, txId).0;
    hide LogsCoupled, RefsCoupled;
    LogsFrame(t, with, s, s);
    PostIsBook(with, s, txId, payer, LockRow, -amount, amount, task, tx);
    LogsFrame(u, u, Ledger.Book(s, payer, tx), v);
    OtherRowKeepsRefs(t, s, u, v, TxRow(txId, payer, LockRow, amount, t.accounts[payer] - amount, task));
  }

  lemma LockTablesCoupled(t: Tables, s: Ledger.State, payer: string, amount: int, task: string, e: string,
                          txId: string, now: string)
    requires EscrowView(t.escrows) == s.escrows && t.accounts == s.balances && Ledger.Inv(s)
    requires amount > 0 && payer in s.balances && s.balances[payer] >= amount && (payer, task) !in s.lockedByTask
    requires e !in t.escrows
    ensures
      var u := LockedTables(t, payer, amount, task, e, txId, now);
      var v := Ledger.LockStep(s, payer, amount, task, e, txId).0;
      EscrowView(u.escrows) == v.escrows && Ledger.Inv(v)
  {
    LockEscrowView(t, e, EscrowRow(payer, amount, task, Ledger.Locked, now, None));
    assert e !in EscrowView(t.escrows);
    hide Ledger.Inv;
    LedgerTheorems.LockKeepsInv(s, payer, amount, task, e, txId);
  }

  /** Both sides carry the lock out. */
  lemma LockOutcomesAre(t: Tables, s: Ledger.State, c: Ledger.Call, now: string)
    requires Coupled(t, s) && Healthy(t, c) && c.Lock? && c.amount > 0 && c.payer in s.balances
    requires s.balances[c.payer] >= c.amount && (c.payer, c.task) !in s.lockedByTask
    ensures Translate(t, c, now).Ok? && !HasActive(t, c.payer, c.task)
    ensures ClientOutcome(t, c, now)
         == Commit(LockedTables(t, c.payer, c.amount, c.task, c.escrowId, c.txId, now),
                   Translate(t, c, now).value.event,
                   EscrowLocked(c.escrowId, t.accounts[c.payer] - c.amount))
    ensures Ledger.Step(s, c)
         == (Ledger.LockStep(s, c.payer, c.amount, c.task, c.escrowId, c.txId).0,
             Ok(Ledger.EscrowLocked(c.escrowId, c.amount, c.task, Ledger.Locked)))
  {
    assert c.payer in t.agents;
    hide LogsCoupled, RefsCoupled, SchemaHolds, Ledger.RefsAreBooked, Ledger.BooksAreSound, Ledger.IndexIsInverse;
    ActiveIsIndexed(t, s, c.payer, c.task);
  }

  lemma LockedKeepsSchema(t: Tables, s: Ledger.State, c: Ledger.Call, now: string)
    requires Coupled(t, s) && Healthy(t, c) && c.Lock? && c.amount > 0 && c.payer in s.balances
    requires s.balances[c.payer] >= c.amount && (c.payer, c.task) !in s.lockedByTask
    ensures SchemaHolds(LockedTables(t, c.payer, c.amount, c.task, c.escrowId, c.txId, now))
  {
    hide LogsCoupled, RefsCoupled, Ledger.Inv, SchemaHolds, EscrowView, Ledger.Step;
    LockOutcomesAre(t, s, c, now);
    SqlWriter.LockKeepsSchema(t, Translate(t, c, now).value);
    EventKeepsSchema(LockedTables(t, c.payer, c.amount, c.task, c.escrowId, c.txId, now),
                     Translate(t, c, now).value.event);
  }

  lemma EventKeepsSchema(t: Tables, event: Event)
    requires SchemaHolds(LogEvent(t, event))
    ensures SchemaHolds(t)
  {
  }

  lemma LockCommits(t: Tables, s: Ledger.State, c: Ledger.Call, now: string)
    requires Coupled(t, s) && Healthy(t, c) && c.Lock? && c.amount > 0 && c.payer in s.balances
    requires s.balances[c.payer] >= c.amount && (c.payer, c.task) !in s.lockedByTask
    ensures Agree(t, s, c, now)
  {
    hide LogsCoupled, RefsCoupled, Ledger.Inv, SchemaHolds, EscrowView, ClientOutcome, Ledger.Step, Commit, Agree;
    var payer, amount, task, e, txId := c.payer, c.amount, c.task, c.escrowId, c.txId;
    LockOutcomesAre(t, s, c, now);
    var call := Translate(t, c, now).value;
    var u := LockedTables(t, payer, amount, task, e, txId, now);
    var v := Ledger.LockStep(s, payer, amount, task, e, txId).0;
    assert Coupled(u, v) by {
      LockedKeepsSchema(t, s, c, now);
      LockLogsCoupled(t, s, payer, amount, task, e, txId, now);
      LockTablesCoupled(t, s, payer, amount, task, e, txId, now);
    }
    hide Exec, Coupled, Translate, LockedTables;
    CommitAgrees(t, s, c, now, u, call.event, EscrowLocked(e, t.accounts[payer] - amount), v,
                 Ledger.EscrowLocked(e, amount, task, Ledger.Locked));
  }

  lemma LockAgrees(t: Tables, s: Ledger.State, c: Ledger.Call, now: string)
    requires Coupled(t, s) && Healthy(t, c) && c.Lock? && !ReplaysLockWithoutFunds(s, c)
    ensures Agree(t, s, c, now)
  {
    ActiveIsIndexed(t, s, c.payer, c.task);
    if && c.amount > 0 && c.payer in s.balances && s.balances[c.payer] >= c.amount
       && (c.payer, c.task) !in s.lockedByTask {
      LockCommits(t, s, c, now);
    } else {
      hide LogsCoupled, RefsCoupled;
    }
  }

  lemma LockDiverges(t: Tables, s: Ledger.State, c: Ledger.Call, now: string)
    requires Coupled(t, s) && ReplaysLockWithoutFunds(s, c)
    ensures !Agree(t, s, c, now)
  {
    hide LogsCoupled, RefsCoupled, Ledger.Inv, SchemaHolds;
  }

  // ----- Release

  lemma ResolveView(t: Tables, s: Ledger.State, e: string, status: Ledger.EscrowStatus, now: string)
    requires EscrowView(t.escrows) == s.escrows && e in t.escrows
    ensures EscrowView(SetResolved(t, e, status, now).escrows) == Ledger.Resolve(s, e, status).escrows
  {
    assert e in EscrowView(t.escrows);
  }

  /** What is left to do once both sides have paid: resolve the escrow. */
  lemma ResolveKeepsCoupled(w: Tables, b: Ledger.State, e: string, status: Ledger.EscrowStatus, now: string)
    requires Coupled(w, b) && e in w.escrows && w.escrows[e].status == Ledger.Locked && status != Ledger.Locked
    ensures e in b.escrows && Coupled(SetResolved(w, e, status, now), Ledger.Resolve(b, e, status))
  {
    hide LogsCoupled, RefsCoupled;
    var end := SetResolved(w, e, status, now);
    assert e in EscrowView(w.escrows);
    ResolveView(w, b, e, status, now);
    LogsFrame(w, end, b, Ledger.Resolve(b, e, status));
    RefsFrame(w, b, end, Ledger.Resolve(b, e, status));
    SqlWriter.ResolveKeepsSchema(w, e, status, now);
    LedgerTheorems.ResolveKeepsInv(b, e, status);
  }

  /** Paying `amount` out on both sides. */
  lemma PayKeepsCoupled(t: Tables, s: Ledger.State, txId: string, a: string, amount: int, e: string, tx: Ledger.Tx)
    requires Coupled(t, s) && a in s.balances && amount > 0 && !HasTx(t.transactions, txId)
    requires tx.kind == Ledger.CreditTx && tx.amount == amount && tx.balanceAfter == s.balances[a] + amount
    ensures Coupled(Post(t, txId, a, ReleaseRow, amount, amount, e), Ledger.Book(s, a, tx))
  {
    hide LogsCoupled, RefsCoupled;
    PostIsBook(t, s, txId, a, ReleaseRow, amount, amount, e, tx);
    OtherRowKeepsRefs(t, s, Post(t, txId, a, ReleaseRow, amount, amount, e), Ledger.Book(s, a, tx),
                      TxRow(txId, a, ReleaseRow, amount, t.accounts[a] + amount, e));
    hide Ledger.Inv, SchemaHolds;
    SqlWriter.PostKeepsSchema(t, txId, a, ReleaseRow, amount, amount, e);
    LedgerTheorems.BookKeepsInv(s, a, tx);
  }

  /** Both sides carry the release out. */
  lemma ReleaseOutcomesAre(t: Tables, s: Ledger.State, c: Ledger.Call, now: string, amount: int, tx: Ledger.Tx)
    requires EscrowView(t.escrows) == s.escrows && t.accounts == s.balances && Healthy(t, c) && c.Release?
    requires c.escrow in t.escrows && t.escrows[c.escrow].status == Ledger.Locked && c.recipient in s.balances
    requires amount == t.escrows[c.escrow].amount
    requires tx
            == Ledger.Tx(c.txId, Ledger.CreditTx, amount, s.balances[c.recipient] + amount, Ledger.ForRelease(c.escrow))
    ensures
      var w := Post(t, c.txId, c.recipient, ReleaseRow, amount, amount, c.escrow);
      && w.escrows == t.escrows
      && ClientOutcome(t, c, now)
      == Commit(SetResolved(w, c.escrow, Ledger.Released, now), Event("escrow.released", None),
                EscrowReleased(c.escrow, amount, c.recipient))
    ensures
      var b := Ledger.Book(s, c.recipient, tx);
      && c.escrow in b.escrows
      && Ledger.Step(s, c)
      == (Ledger.Resolve(b, c.escrow, Ledger.Released), Ok(Ledger.EscrowReleased(c.escrow, amount, c.recipient)))
  {
    assert c.escrow in EscrowView(t.escrows);
    LockedOnlyHolds(c.escrow, t.escrows[c.escrow]);
  }

  lemma PayAndResolve(t: Tables, s: Ledger.State, txId: string, a: string, e: string, tx: Ledger.Tx, now: string)
    requires Coupled(t, s) && a in s.balances && a in t.accounts && !HasTx(t.transactions, txId)
    requires e in t.escrows && t.escrows[e].status == Ledger.Locked && t.escrows[e].amount == tx.amount > 0
    requires tx.kind == Ledger.CreditTx && tx.balanceAfter == s.balances[a] + tx.amount
    ensures
      var b := Ledger.Book(s, a, tx);
      && e in b.escrows
      && Coupled(SetResolved(Post(t, txId, a, ReleaseRow, tx.amount, tx.amount, e), e, Ledger.Released, now),
                 Ledger.Resolve(b, e, Ledger.Released))
  {
    hide Coupled;
    PayKeepsCoupled(t, s, txId, a, tx.amount, e, tx);
    var paid := Post(t, txId, a, ReleaseRow, tx.amount, tx.amount, e);
    ResolveKeepsCoupled(paid, Ledger.Book(s, a, tx), e, Ledger.Released, now);
  }

  lemma ReleaseCommits(t: Tables, s: Ledger.State, c: Ledger.Call, now: string)
    requires Coupled(t, s) && Healthy(t, c) && c.Release?
    requires c.escrow in t.escrows && t.escrows[c.escrow].status == Ledger.Locked && c.recipient in s.balances
    requires t.escrows[c.escrow].amount > 0
    ensures Agree(t, s, c, now)
  {
    var e, a := c.escrow, c.recipient;
    var amount := t.escrows[e].amount;
    var tx := Ledger.Tx(c.txId, Ledger.CreditTx, amount, s.balances[a] + amount, Ledger.ForRelease(e));
    var w := Post(t, c.txId, a, ReleaseRow, amount, amount, e);
    var b := Ledger.Book(s, a, tx);
    hide LogsCoupled, RefsCoupled, Ledger.Inv, SchemaHolds, EscrowView, ClientOutcome, Ledger.Step;
    ReleaseOutcomesAre(t, s, c, now, amount, tx);
    hide Coupled;
    PayAndResolve(t, s, c.txId, a, e, tx, now);
    CommitAgrees(t, s, c, now, SetResolved(w, e, Ledger.Released, now), Event("escrow.released", None),
                 EscrowReleased(e, amount, a), Ledger.Resolve(b, e, Ledger.Released),
                 Ledger.EscrowReleased(e, amount, a));
  }

  /** A row of the table is a row of the ledger, with a positive amount. */
  lemma RowsAlike(t: Tables, s: Ledger.State, e: string)
    requires Coupled(t, s)
    ensures e in t.escrows <==> e in s.escrows
    ensures e in t.escrows ==>
              s.escrows[e]
              == Ledger.Escrow(t.escrows[e].payer, t.escrows[e].amount, t.escrows[e].task, t.escrows[e].status)
              && t.escrows[e].amount > 0 && t.escrows[e].payer in t.accounts
  {
    assert e in t.escrows <==> e in EscrowView(t.escrows);
  }

  lemma ReleaseAgrees(t: Tables, s: Ledger.State, c: Ledger.Call, now: string)
    requires Coupled(t, s) && Healthy(t, c) && c.Release?
    ensures Agree(t, s, c, now)
  {
    RowsAlike(t, s, c.escrow);
    if c.escrow in t.escrows && t.escrows[c.escrow].status == Ledger.Locked && c.recipient in s.balances {
      ReleaseCommits(t, s, c, now);
    } else {
      hide LogsCoupled, RefsCoupled, Ledger.Inv, SchemaHolds;
    }
  }

  // ----- Split

  /** Pay a share that may be empty: the ledger journals it anyway, the bank does nothing. */
  lemma ShareKeepsCoupled(t: Tables, s: Ledger.State, txId: string, a: string, share: int, e: string, tx: Ledger.Tx)
    requires Coupled(t, s) && a in s.balances && share >= 0 && !HasTx(t.transactions, txId)
    requires tx.kind == Ledger.CreditTx && tx.amount == share && tx.balanceAfter == s.balances[a] + share
    ensures Coupled(if share > 0 then Post(t, txId, a, ReleaseRow, share, share, e) else t, Ledger.Book(s, a, tx))
  {
    if share > 0 {
      PayKeepsCoupled(t, s, txId, a, share, e, tx);
    } else {
      EmptyShareKeepsCoupled(t, s, a, tx);
    }
  }

  lemma EmptyShareKeepsCoupled(t: Tables, s: Ledger.State, a: string, tx: Ledger.Tx)
    requires Coupled(t, s) && a in s.balances
    requires tx.amount == 0 && tx.balanceAfter == s.balances[a]
    ensures Coupled(t, Ledger.Book(s, a, tx))
  {
    var v := Ledger.Book(s, a, tx);
    hide RefsCoupled, SchemaHolds;
    RefsFrame(t, s, t, v);
    forall b ensures RowsOf(t.transactions, b) == MovementsOf(Ledger.Journal(v, b)) {
      assert RowsOf(t.transactions, b) == MovementsOf(Ledger.Journal(s, b));
      MovementsOfSnoc(Ledger.Journal(s, a), tx);
    }
    hide Ledger.Inv, RowsOf, MovementsOf;
    LedgerTheorems.BookKeepsInv(s, a, tx);
    assert v.balances == s.balances;
  }

  /** The bank's tables after both shares, the empty ones skipped. */
  function PaidTables(t: Tables, e: string, worker: string, w: int, poster: string, p: int,
                      workerTx: string, posterTx: string): Tables
    requires worker in t.accounts && poster in t.accounts
  {
    var w1 := if w > 0 then Post(t, workerTx, worker, ReleaseRow, w, w, e) else t;
    if p > 0 then Post(w1, posterTx, poster, ReleaseRow, p, p, e) else w1
  }

  lemma SharesKeepCoupled(t: Tables, s: Ledger.State, e: string, worker: string, w: int, poster: string, p: int,
                          workerTx: string, posterTx: string)
    requires Coupled(t, s) && worker in s.balances && poster in s.balances && w >= 0 && p >= 0
    requires w > 0 ==> worker != poster
    requires !HasTx(t.transactions, workerTx) && !HasTx(t.transactions, posterTx) && workerTx != posterTx
    ensures Coupled(PaidTables(t, e, worker, w, poster, p, workerTx, posterTx),
                    Ledger.BookShares(s, e, worker, w, poster, p, workerTx, posterTx))
  {
    hide LogsCoupled, RefsCoupled, Ledger.Inv, SchemaHolds;
    var first := Ledger.Tx(workerTx, Ledger.CreditTx, w, s.balances[worker] + w, Ledger.ForWorker(e));
    var second := Ledger.Tx(posterTx, Ledger.CreditTx, p, s.balances[poster] + p, Ledger.ForPoster(e));
    var w1 := if w > 0 then Post(t, workerTx, worker, ReleaseRow, w, w, e) else t;
    ShareKeepsCoupled(t, s, workerTx, worker, w, e, first);
    HasTxOfLog(t.transactions, TxRow(workerTx, worker, ReleaseRow, w, t.accounts[worker] + w, e), posterTx);
    ShareKeepsCoupled(w1, Ledger.Book(s, worker, first), posterTx, poster, p, e, second);
  }

  lemma SplitOutcomeIs(t: Tables, c: Ledger.Call, now: string, w: int, p: int)
    requires c.SplitEscrow? && 0 <= c.workerPct <= 100 && Healthy(t, c)
    requires c.escrow in t.escrows && t.escrows[c.escrow].status == Ledger.Locked
    requires c.poster == t.escrows[c.escrow].payer && c.poster in t.accounts && c.worker in t.accounts
    requires w == Ledger.WorkerShare(t.escrows[c.escrow].amount, c.workerPct) && p == t.escrows[c.escrow].amount - w
    ensures
      var paid := PaidTables(t, c.escrow, c.worker, w, c.poster, p, c.workerTx, c.posterTx);
      && paid.escrows == t.escrows
      && ClientOutcome(t, c, now)
      == Commit(SetResolved(paid, c.escrow, Ledger.Split, now), Event("escrow.split", None),
                EscrowSplit(c.escrow, w, p))
  {
    hide Ledger.WorkerShare;
    HasTxOfLog(t.transactions, TxRow(c.workerTx, c.worker, ReleaseRow, w, t.accounts[c.worker] + w, c.escrow),
               c.posterTx);
    LockedOnlyHolds(c.escrow, t.escrows[c.escrow]);
  }

  lemma LedgerSplitIs(s: Ledger.State, c: Ledger.Call, w: int, p: int)
    requires c.SplitEscrow? && 0 <= c.workerPct <= 100
    requires c.escrow in s.escrows && s.escrows[c.escrow].status == Ledger.Locked
    requires c.worker in s.balances && c.poster in s.balances
    requires w == Ledger.WorkerShare(s.escrows[c.escrow].amount, c.workerPct) && p == s.escrows[c.escrow].amount - w
    ensures Ledger.Step(s, c)
         == (Ledger.Resolve(Ledger.BookShares(s, c.escrow, c.worker, w, c.poster, p, c.workerTx, c.posterTx),
                            c.escrow, Ledger.Split),
             Ok(Ledger.EscrowSplit(c.escrow, w, p, c.workerPct)))
  {
    hide Ledger.WorkerShare;
  }

  lemma SplitCommits(t: Tables, s: Ledger.State, c: Ledger.Call, now: string, w: int, p: int)
    requires Coupled(t, s) && Healthy(t, c) && c.SplitEscrow? && 0 <= c.workerPct <= 100
    requires c.escrow in t.escrows && t.escrows[c.escrow].status == Ledger.Locked
    requires c.poster == t.escrows[c.escrow].payer && c.poster in s.balances && c.worker in s.balances
    requires w == Ledger.WorkerShare(t.escrows[c.escrow].amount, c.workerPct) >= 0
    requires p == t.escrows[c.escrow].amount - w >= 0
    requires w > 0 ==> c.worker != c.poster
    ensures Agree(t, s, c, now)
  {
    hide Ledger.WorkerShare, LogsCoupled, RefsCoupled, Ledger.Inv, SchemaHolds;
    var e := c.escrow;
    RowsAlike(t, s, e);
    var paid := PaidTables(t, e, c.worker, w, c.poster, p, c.workerTx, c.posterTx);
    var booked := Ledger.BookShares(s, e, c.worker, w, c.poster, p, c.workerTx, c.posterTx);
    SplitOutcomeIs(t, c, now, w, p);
    LedgerSplitIs(s, c, w, p);
    hide PaidTables, Ledger.BookShares, ClientOutcome, Ledger.Step;
    SharesKeepCoupled(t, s, e, c.worker, w, c.poster, p, c.workerTx, c.posterTx);
    ResolveKeepsCoupled(paid, booked, e, Ledger.Split, now);
    hide Coupled;
    CommitAgrees(t, s, c, now, SetResolved(paid, e, Ledger.Split, now), Event("escrow.split", None),
                 EscrowSplit(e, w, p),
                 Ledger.Resolve(booked, e, Ledger.Split), Ledger.EscrowSplit(e, w, p, c.workerPct));
  }

  lemma SplitAgrees(t: Tables, s: Ledger.State, c: Ledger.Call, now: string)
    requires Coupled(t, s) && Healthy(t, c) && c.SplitEscrow? && !SplitsDifferently(s, c)
    ensures Agree(t, s, c, now)
  {
    RowsAlike(t, s, c.escrow);
    if && 0 <= c.workerPct <= 100 && c.escrow in t.escrows && t.escrows[c.escrow].status == Ledger.Locked
       && c.poster == t.escrows[c.escrow].payer && c.worker in s.balances {
      var amount := t.escrows[c.escrow].amount;
      var w := Ledger.WorkerShare(amount, c.workerPct);
      ShareIsFloor(amount, c.workerPct);
      SplitCommits(t, s, c, now, w, amount - w);
    } else {
      hide LogsCoupled, RefsCoupled, Ledger.Inv, SchemaHolds;
      SplitBothRefuse(t, s, c, now);
    }
  }

  lemma SplitBothRefuse(t: Tables, s: Ledger.State, c: Ledger.Call, now: string)
    requires Coupled(t, s) && c.SplitEscrow? && !SplitsDifferently(s, c)
    requires !(&& 0 <= c.workerPct <= 100 && c.escrow in t.escrows && t.escrows[c.escrow].status == Ledger.Locked
               && c.poster == t.escrows[c.escrow].payer && c.worker in s.balances)
    ensures Agree(t, s, c, now)
  {
    RowsAlike(t, s, c.escrow);
    hide LogsCoupled, RefsCoupled, Ledger.Inv, SchemaHolds, Ledger.WorkerShare;
  }

  lemma SplitDiverges(t: Tables, s: Ledger.State, c: Ledger.Call, now: string)
    requires Coupled(t, s) && Healthy(t, c) && SplitsDifferently(s, c)
    ensures !Agree(t, s, c, now)
  {
    RowsAlike(t, s, c.escrow);
    var amount := t.escrows[c.escrow].amount;
    var w := Ledger.WorkerShare(amount, c.workerPct);
    ShareIsFloor(amount, c.workerPct);
    hide LogsCoupled, RefsCoupled, Ledger.Inv, SchemaHolds, Ledger.WorkerShare;
    if c.poster == t.escrows[c.escrow].payer {
      if w > 0 {
        SelfSplitDiverges(t, s, c, now, w, amount - w);
      } else {
        MissingWorkerDiverges(t, s, c, now);
      }
    } else {
      hide Ledger.BookShares, Ledger.Resolve;
      assert Translate(t, c, now).Err? && Ledger.Step(s, c).1.Ok?;
    }
  }

  /** A worker without an account and with nothing to receive is accepted by the bank alone. */
  lemma MissingWorkerDiverges(t: Tables, s: Ledger.State, c: Ledger.Call, now: string)
    requires Coupled(t, s) && Healthy(t, c) && c.SplitEscrow? && 0 <= c.workerPct <= 100
    requires c.escrow in t.escrows && t.escrows[c.escrow].status == Ledger.Locked
    requires c.poster == t.escrows[c.escrow].payer && c.worker !in s.balances
    requires Ledger.WorkerShare(t.escrows[c.escrow].amount, c.workerPct) == 0
    ensures !Agree(t, s, c, now)
  {
    RowsAlike(t, s, c.escrow);
    LockedOnlyHolds(c.escrow, t.escrows[c.escrow]);
    hide LogsCoupled, RefsCoupled, Ledger.Inv, SchemaHolds, Ledger.WorkerShare;
    assert Ledger.Step(s, c).1.Err?;
  }

  /** With one account on both sides both accept, and the bank's account holds `w` coins more. */
  lemma SelfSplitDiverges(t: Tables, s: Ledger.State, c: Ledger.Call, now: string, w: int, p: int)
    requires Coupled(t, s) && Healthy(t, c) && c.SplitEscrow? && 0 <= c.workerPct <= 100
    requires c.escrow in t.escrows && t.escrows[c.escrow].status == Ledger.Locked
    requires c.worker == c.poster == t.escrows[c.escrow].payer && c.worker in s.balances
    requires w == Ledger.WorkerShare(t.escrows[c.escrow].amount, c.workerPct) > 0
    requires p == t.escrows[c.escrow].amount - w >= 0
    ensures !Agree(t, s, c, now)
  {
    RowsAlike(t, s, c.escrow);
    SplitOutcomeIs(t, c, now, w, p);
    hide LogsCoupled, RefsCoupled, Ledger.Inv, SchemaHolds, Ledger.WorkerShare, ClientOutcome;
    assert Ledger.Step(s, c).0.balances[c.worker] == s.balances[c.worker] + p;
    assert PaidTables(t, c.escrow, c.worker, w, c.poster, p, c.workerTx, c.posterTx).accounts[c.worker]
        == s.balances[c.worker] + w + p;
  }

  // ----- The main theorem

  /** From coupled states, with new identifiers, bank and ledger answer alike and stay coupled exactly
      when the call is none of the four diverging kinds. */
  lemma AgreesIff(t: Tables, s: Ledger.State, c: Ledger.Call, now: string)
    requires Coupled(t, s) && Healthy(t, c)
    ensures Agree(t, s, c, now) <==> !Diverges(t, s, c)
  {
    hide Agree, Coupled, OpensForStranger, ReusesInitialReference, ReplaysLockWithoutFunds, SplitsDifferently;
    if OpensForStranger(t, s, c) {
      CreateDiverges(t, s, c, now);
    } else if ReusesInitialReference(t, s, c) {
      CreditDiverges(t, s, c, now);
    } else if ReplaysLockWithoutFunds(s, c) {
      LockDiverges(t, s, c, now);
    } else if SplitsDifferently(s, c) {
      SplitDiverges(t, s, c, now);
    } else {
      match c
      case CreateAccount(_, _, _) => CreateAgrees(t, s, c, now);
      case Credit(_, _, _, _) => CreditAgrees(t, s, c, now);
      case Lock(_, _, _, _, _) => LockAgrees(t, s, c, now);
      case Release(_, _, _) => ReleaseAgrees(t, s, c, now);
      case SplitEscrow(_, _, _, _, _, _) => SplitAgrees(t, s, c, now);
    }
  }

  // ----- Whole runs

  /** The bank after the first `n` calls sent through the client, call `i` stamped `stamps[i]`. */
  ghost function BankAt(t: Tables, calls: seq<Ledger.Call>, stamps: seq<string>, n: nat): Tables
    requires n <= |calls| == |stamps|
  {
    if n == 0 then t else ClientOutcome(BankAt(t, calls, stamps, n - 1), calls[n - 1], stamps[n - 1]).tables
  }

  /** Call `i` brings new identifiers and is of no diverging kind when it is made. */
  ghost predicate Ordinary(t: Tables, s: Ledger.State, calls: seq<Ledger.Call>, stamps: seq<string>, i: nat)
    requires i < |calls| == |stamps|
  {
    Healthy(BankAt(t, calls, stamps, i), calls[i])
    && !Diverges(BankAt(t, calls, stamps, i), Ledger.At(s, calls, i), calls[i])
  }

  /** A run of ordinary calls keeps bank and ledger coupled to the end. */
  lemma {:induction false} RunsStayCoupled(t: Tables, s: Ledger.State, calls: seq<Ledger.Call>, stamps: seq<string>,
                                           n: nat)
    requires Coupled(t, s) && n <= |calls| == |stamps|
    requires forall i :: 0 <= i < n ==> Ordinary(t, s, calls, stamps, i)
    ensures Coupled(BankAt(t, calls, stamps, n), Ledger.At(s, calls, n))
  {
    hide Coupled, Healthy, Diverges, ClientOutcome, Ledger.Step;
    if n > 0 {
      RunsStayCoupled(t, s, calls, stamps, n - 1);
      assert Ordinary(t, s, calls, stamps, n - 1);
      AgreesIff(BankAt(t, calls, stamps, n - 1), Ledger.At(s, calls, n - 1), calls[n - 1], stamps[n - 1]);
    }
  }

  function NetOf(moves: seq<Movement>): int {
    if moves == [] then 0 else NetOf(moves[..|moves| - 1]) + moves[|moves| - 1].0
  }

  lemma {:induction false} MovementsNet(j: seq<Ledger.Tx>, n: nat)
    requires n <= |j|
    ensures NetOf(MovementsOf(j[..n])) == LedgerTheorems.Net(j, n)
  {
    if n > 0 {
      MovementsNet(j, n - 1);
      assert j[..n] == j[..n - 1] + [j[n - 1]];
      MovementsOfSnoc(j[..n - 1], j[n - 1]);
      var before := MovementsOf(j[..n - 1]);
      if j[n - 1].amount != 0 {
        assert (before + [(LedgerTheorems.Signed(j[n - 1]), j[n - 1].balanceAfter)])[..|before|] == before;
      } else {
        assert before + [] == before;
      }
    }
  }

  /** After an ordinary run from nothing, every account's rows on the bank sum to its balance there. */
  lemma BankLogSumsToBalance(agents: set<string>, calls: seq<Ledger.Call>, stamps: seq<string>, a: string)
    requires |calls| == |stamps|
    requires forall i :: 0 <= i < |calls| ==>
               Ordinary(Tables(agents, map[], [], map[], []), Ledger.EMPTY, calls, stamps, i)
    ensures
      var t := BankAt(Tables(agents, map[], [], map[], []), calls, stamps, |calls|);
      a in t.accounts ==> NetOf(RowsOf(t.transactions, a)) == t.accounts[a]
  {
    var empty := Tables(agents, map[], [], map[], []);
    var n := |calls|;
    EmptyIsCoupled(agents);
    RunsStayCoupled(empty, Ledger.EMPTY, calls, stamps, n);
    assert Ledger.FreshRun(Ledger.EMPTY, calls)
        && LedgerTheorems.BurnedOnUpTo(calls, n, a) == 0 by {
      OrdinaryRunBurnsNothing(agents, calls, stamps, n, a);
    }
    var t, s := BankAt(empty, calls, stamps, n), Ledger.Run(Ledger.EMPTY, calls);
    hide BankAt, Ledger.Step;
    if a in t.accounts {
      LedgerTheorems.JournalReplaysIff(calls, a);
      var j := Ledger.Journal(s, a);
      MovementsNet(j, |j|);
      assert j[..|j|] == j;
      assert RowsOf(t.transactions, a) == MovementsOf(j);
    }
  }

  lemma EmptyIsCoupled(agents: set<string>)
    ensures Coupled(Tables(agents, map[], [], map[], []), Ledger.EMPTY)
  {
    var t := Tables(agents, map[], [], map[], []);
    LedgerTheorems.EmptyLedger("");
    assert EscrowView(t.escrows) == map[];
    forall a, r ensures RefCoupled(t, Ledger.EMPTY, a, r) {
    }
  }

  lemma OrdinaryIsFreshAndLossless(t: Tables, s: Ledger.State, c: Ledger.Call, a: string)
    requires Coupled(t, s) && Healthy(t, c) && !Diverges(t, s, c)
    ensures Ledger.FreshIds(s, c) && LedgerTheorems.BurnedOn(s, c, a) == 0
  {
    if c.Lock? {
      RowsAlike(t, s, c.escrowId);
    }
    if LedgerTheorems.LossySplit(s, c) {
      RowsAlike(t, s, c.escrow);
      LedgerTheorems.ShareBounds(s.escrows[c.escrow].amount, c.workerPct);
    }
  }

  lemma {:induction false} OrdinaryRunBurnsNothing(agents: set<string>, calls: seq<Ledger.Call>, stamps: seq<string>,
                                                  n: nat, a: string)
    requires n <= |calls| == |stamps|
    requires forall i :: 0 <= i < |calls| ==>
               Ordinary(Tables(agents, map[], [], map[], []), Ledger.EMPTY, calls, stamps, i)
    ensures Ledger.FreshRun(Ledger.EMPTY, calls) && LedgerTheorems.BurnedOnUpTo(calls, n, a) == 0
  {
    hide Coupled, Healthy, Diverges, ClientOutcome, Ledger.Step, Ledger.FreshIds, LedgerTheorems.BurnedOn;
    var empty := Tables(agents, map[], [], map[], []);
    EmptyIsCoupled(agents);
    forall i | 0 <= i < |calls|
      ensures Ledger.FreshIds(Ledger.At(Ledger.EMPTY, calls, i), calls[i])
      ensures LedgerTheorems.BurnedOn(Ledger.At(Ledger.EMPTY, calls, i), calls[i], a) == 0
    {
      RunsStayCoupled(empty, Ledger.EMPTY, calls, stamps, i);
      assert Ordinary(empty, Ledger.EMPTY, calls, stamps, i);
      OrdinaryIsFreshAndLossless(BankAt(empty, calls, stamps, i), Ledger.At(Ledger.EMPTY, calls, i), calls[i], a);
    }
    if n > 0 {
      OrdinaryRunBurnsNothing(agents, calls, stamps, n - 1, a);
    }
  }
}
