/** The gateway's bank tables as a value, and what each writer method answers and leaves behind.
    The unique indexes and foreign keys are those of docs/specifications/schema.sql:31-72 and 261-272. */
module SqlBank {
  import opened Common
  import Ledger

  datatype TxType = CreditRow | LockRow | ReleaseRow

  datatype TxRow = TxRow(txId: string, account: string, kind: TxType, amount: int, balanceAfter: int,
                         reference: string)

  datatype EscrowRow = EscrowRow(payer: string, amount: int, task: string, status: Ledger.EscrowStatus,
                                 createdAt: string, resolvedAt: Option<string>)

  datatype Event = Event(eventType: string, agent: Option<string>)

  datatype Tables = Tables(
    agents: set<string>,
    accounts: map<string, int>,
    transactions: seq<TxRow>,
    escrows: map<string, EscrowRow>,
    events: seq<Event>)

  datatype Failure =
    | AccountExists
    | AccountNotFound
    | InsufficientFunds
    | ReferenceConflict
    | EscrowAlreadyLocked
    | EscrowNotFound
    | EscrowAlreadyResolved
    | AmountMismatch
    | ForeignKeyViolation
    | ConstraintViolation
    | InvalidConstraints
    | IntegrityError     // raised by sqlite3 and passed on
    | OperationalError   // raised by sqlite3 and passed on

  datatype Receipt =
    | Opened(account: string)
    | Credited(txId: string, balanceAfter: int)
    | EscrowLocked(escrowId: string, lockedBalance: int)
    | EscrowReleased(escrowId: string, amount: int, recipient: string)
    | EscrowSplit(escrowId: string, workerAmount: int, posterAmount: int)

  /** An answer names the event it logged; event id 0 marks a replay that wrote nothing. */
  datatype Reply = Done(receipt: Receipt, eventId: nat) | Refused(failure: Failure)

  /** `pending` is the transaction a call leaves open, with the writes made in it so far. */
  datatype Outcome = Outcome(tables: Tables, reply: Reply, pending: Option<Tables>)

  datatype InitialCredit = InitialCredit(txId: string, amount: int, reference: string)

  type Constraints = seq<(string, string)>

  datatype Call =
    | CreateAccount(account: string, balance: int, initial: Option<InitialCredit>, event: Event)
    | CreditAccount(account: string, amount: int, reference: string, txId: string, event: Event)
    | LockEscrow(escrowId: string, payer: string, amount: int, task: string, txId: string, createdAt: string,
                 event: Event)
    | ReleaseEscrow(escrowId: string, recipient: string, txId: string, resolvedAt: string,
                    constraints: Option<Constraints>, event: Event)
    | SplitEscrow(escrowId: string, worker: string, workerAmount: int, poster: string, posterAmount: int,
                  workerTx: string, posterTx: string, resolvedAt: string,
                  constraints: Option<Constraints>, event: Event)

  // ----- Single statements

  predicate HasTx(txs: seq<TxRow>, txId: string) {
    exists i :: 0 <= i < |txs| && txs[i].txId == txId
  }

  predicate IsCredit(row: TxRow, account: string, reference: string) {
    row.kind == CreditRow && row.account == account && row.reference == reference
  }

  /** The credit row for (account, reference), as the idempotency lookup finds it. */
  function FindCredit(txs: seq<TxRow>, account: string, reference: string): (r: Option<TxRow>)
    ensures r.Some? ==> r.value in txs && IsCredit(r.value, account, reference)
    ensures r.None? ==> forall i :: 0 <= i < |txs| ==> !IsCredit(txs[i], account, reference)
  {
    if txs == [] then None
    else
      var n := |txs| - 1;
      var earlier := FindCredit(txs[..n], account, reference);
      if earlier.Some? then earlier
      else if IsCredit(txs[n], account, reference) then Some(txs[n])
      else None
  }

  /** The two unique constraints on bank_transactions. */
  predicate TxCollides(txs: seq<TxRow>, row: TxRow) {
    HasTx(txs, row.txId) || (row.kind == CreditRow && FindCredit(txs, row.account, row.reference).Some?)
  }

  /** The locked escrow of (payer, task), if there is one. */
  predicate IsActive(t: Tables, e: string, payer: string, task: string) {
    && e in t.escrows && t.escrows[e].status == Ledger.Locked
    && t.escrows[e].payer == payer && t.escrows[e].task == task
  }

  predicate HasActive(t: Tables, payer: string, task: string) {
    exists e :: e in t.escrows && IsActive(t, e, payer, task)
  }

  ghost function ActiveEscrow(t: Tables, payer: string, task: string): (e: string)
    requires HasActive(t, payer, task)
    ensures IsActive(t, e, payer, task)
  {
    var e :| e in t.escrows && IsActive(t, e, payer, task);
    e
  }

  predicate BothActive(r: EscrowRow, q: EscrowRow) {
    r.status == q.status == Ledger.Locked && r.payer == q.payer && r.task == q.task
  }

  /** What the unique indexes and foreign keys keep true of the tables. */
  ghost predicate SchemaHolds(t: Tables) {
    && t.accounts.Keys <= t.agents
    && (forall i, j :: 0 <= i < j < |t.transactions| ==> t.transactions[i].txId != t.transactions[j].txId)
    && (forall i :: 0 <= i < |t.transactions| ==> t.transactions[i].account in t.accounts)
    && (forall e :: e in t.escrows ==> t.escrows[e].payer in t.accounts)
    && (forall e, f :: (e in t.escrows && f in t.escrows && BothActive(t.escrows[e], t.escrows[f])) ==> e == f)
  }

  predicate EventAllowed(t: Tables, event: Event) {
    event.agent.None? || event.agent.value in t.agents
  }

  function AddBalance(t: Tables, account: string, delta: int): Tables
    requires account in t.accounts
  {
    t.(accounts := t.accounts[account := t.accounts[account] + delta])
  }

  function LogTx(t: Tables, row: TxRow): Tables {
    t.(transactions := t.transactions + [row])
  }

  function LogEvent(t: Tables, event: Event): Tables {
    t.(events := t.events + [event])
  }

  /** Add `delta` to an account and log it, the row recording the balance it leaves. */
  function Post(t: Tables, txId: string, account: string, kind: TxType, delta: int, amount: int, reference: string)
    : Tables
    requires account in t.accounts
  {
    LogTx(AddBalance(t, account, delta),
          TxRow(txId, account, kind, amount, t.accounts[account] + delta, reference))
  }

  function SetResolved(t: Tables, e: string, status: Ledger.EscrowStatus, resolvedAt: string): Tables
    requires e in t.escrows
  {
    t.(escrows := t.escrows[e := t.escrows[e].(status := status, resolvedAt := Some(resolvedAt))])
  }

  // ----- Constraint columns

  predicate IsLetter(c: char) { 'a' <= c <= 'z' || 'A' <= c <= 'Z' || c == '_' }

  predicate IsDigit(c: char) { '0' <= c <= '9' }

  /** str.isidentifier, for ASCII names. */
  predicate IsIdentifier(name: string) {
    name != "" && IsLetter(name[0]) && forall i :: 0 <= i < |name| ==> IsLetter(name[i]) || IsDigit(name[i])
  }

  function StatusText(status: Ledger.EscrowStatus): string {
    match status
    case Locked => "locked"
    case Released => "released"
    case Split => "split"
  }

  const ESCROW_COLUMNS: set<string> :=
    {"escrow_id", "payer_account_id", "amount", "task_id", "status", "created_at", "resolved_at"}

  /** The text of a column of an escrow row; None is SQL NULL. */
  function ColumnText(e: string, row: EscrowRow, column: string): Option<string> {
    if column == "escrow_id" then Some(e)
    else if column == "payer_account_id" then Some(row.payer)
    else if column == "amount" then Some(Decimal(row.amount))
    else if column == "task_id" then Some(row.task)
    else if column == "status" then Some(StatusText(row.status))
    else if column == "created_at" then Some(row.createdAt)
    else if column == "resolved_at" then row.resolvedAt
    else None
  }

  predicate AllIdentifiers(cs: Constraints) {
    forall i :: 0 <= i < |cs| ==> IsIdentifier(cs[i].0)
  }

  predicate AllColumns(cs: Constraints) {
    forall i :: 0 <= i < |cs| ==> cs[i].0 in ESCROW_COLUMNS
  }

  /** The WHERE clause: every named column is non-null and has the expected text. */
  predicate Satisfied(e: string, row: EscrowRow, cs: Constraints) {
    forall i :: 0 <= i < |cs| ==> ColumnText(e, row, cs[i].0) == Some(cs[i].1)
  }

  /** str() of a column value: NULL comes back as the Python None. */
  function Shown(text: Option<string>): string {
    if text.Some? then text.value else "None"
  }

  predicate ShownSatisfied(e: string, row: EscrowRow, cs: Constraints) {
    forall i :: 0 <= i < |cs| ==> Shown(ColumnText(e, row, cs[i].0)) == cs[i].1
  }

  // ----- The writer's methods, started with no transaction open

  function Refuse(t: Tables, failure: Failure): Outcome {
    Outcome(t, Refused(failure), None)
  }

  function Commit(t: Tables, event: Event, receipt: Receipt): Outcome {
    Outcome(LogEvent(t, event), Done(receipt, |t.events| + 1), None)
  }

  function InitialRow(account: string, balance: int, initial: InitialCredit): TxRow {
    TxRow(initial.txId, account, CreditRow, initial.amount, balance, initial.reference)
  }

  function CreateAccountOutcome(t: Tables, account: string, balance: int, initial: Option<InitialCredit>, event: Event)
    : Outcome
  {
    if account in t.accounts then Refuse(t, AccountExists)
    else if account !in t.agents then Refuse(t, ForeignKeyViolation)
    else if initial.Some? && TxCollides(t.transactions, InitialRow(account, balance, initial.value)) then
      Refuse(t, AccountExists)
    else if !EventAllowed(t, event) then Refuse(t, ForeignKeyViolation)
    else
      var with := t.(accounts := t.accounts[account := balance]);
      Commit(if initial.Some? then LogTx(with, InitialRow(account, balance, initial.value)) else with,
             event, Opened(account))
  }

  function CreditOutcome(t: Tables, account: string, amount: int, reference: string, txId: string, event: Event)
    : Outcome
  {
    if account !in t.accounts then Refuse(t, AccountNotFound)
    else
      var after := t.accounts[account] + amount;
      var existing := FindCredit(t.transactions, account, reference);
      if TxCollides(t.transactions, TxRow(txId, account, CreditRow, amount, after, reference)) then
        if existing.Some? && existing.value.amount == amount
        then Outcome(t, Done(Credited(existing.value.txId, existing.value.balanceAfter), 0), None)
        else Refuse(t, ReferenceConflict)
      else if !EventAllowed(t, event) then Refuse(t, ReferenceConflict)
      else Commit(Post(t, txId, account, CreditRow, amount, amount, reference), event, Credited(txId, after))
  }

  /** Funds are tested before uniqueness. */
  ghost function LockOutcome(t: Tables, c: Call): Outcome
    requires c.LockEscrow?
  {
    if c.payer !in t.accounts then Refuse(t, AccountNotFound)
    else if t.accounts[c.payer] < c.amount then Refuse(t, InsufficientFunds)
    else if c.escrowId in t.escrows || HasActive(t, c.payer, c.task) || HasTx(t.transactions, c.txId) then
      if HasActive(t, c.payer, c.task) && t.escrows[ActiveEscrow(t, c.payer, c.task)].amount == c.amount
      then Outcome(t, Done(EscrowLocked(ActiveEscrow(t, c.payer, c.task), 0), 0), None)
      else Refuse(t, EscrowAlreadyLocked)
    else if !EventAllowed(t, c.event) then Refuse(t, ForeignKeyViolation)
    else
      var row := EscrowRow(c.payer, c.amount, c.task, Ledger.Locked, c.createdAt, None);
      Commit(Post(t.(escrows := t.escrows[c.escrowId := row]), c.txId, c.payer, LockRow, -c.amount, c.amount, c.task),
             c.event, EscrowLocked(c.escrowId, t.accounts[c.payer] - c.amount))
  }

  /** The common end of release and split: resolve the escrow under the constraints, log the event, commit.
      `w` holds the writes made so far, `t` the committed tables. */
  function FinishOutcome(t: Tables, w: Tables, e: string, status: Ledger.EscrowStatus, resolvedAt: string,
                         constraints: Option<Constraints>, event: Event, receipt: Receipt): Outcome
    requires e in w.escrows
  {
    if constraints.Some? && !AllIdentifiers(constraints.value)
    then Outcome(t, Refused(InvalidConstraints), Some(w))
    else if constraints.Some? && !AllColumns(constraints.value) then Refuse(t, OperationalError)
    else if constraints.Some? && !Satisfied(e, w.escrows[e], constraints.value) then
      Refuse(t, if ShownSatisfied(e, w.escrows[e], constraints.value) then EscrowNotFound else ConstraintViolation)
    else if !EventAllowed(w, event) then Refuse(t, IntegrityError)
    else Commit(SetResolved(w, e, status, resolvedAt), event, receipt)
  }

  function ReleaseOutcome(t: Tables, c: Call): Outcome
    requires c.ReleaseEscrow?
  {
    if c.escrowId !in t.escrows then Refuse(t, EscrowNotFound)
    else if t.escrows[c.escrowId].status != Ledger.Locked then Refuse(t, EscrowAlreadyResolved)
    else if c.recipient !in t.accounts then Refuse(t, AccountNotFound)
    else if HasTx(t.transactions, c.txId) then Refuse(t, IntegrityError)
    else
      var amount := t.escrows[c.escrowId].amount;
      FinishOutcome(t, Post(t, c.txId, c.recipient, ReleaseRow, amount, amount, c.escrowId),
                    c.escrowId, Ledger.Released, c.resolvedAt, c.constraints, c.event,
                    EscrowReleased(c.escrowId, amount, c.recipient))
  }

  /** One share of a split: nothing at all when it is not positive. */
  function ShareResult(t: Tables, w: Tables, account: string, share: int, txId: string, e: string)
    : Result<Tables, Outcome>
  {
    if share <= 0 then Ok(w)
    else if account !in w.accounts then Err(Refuse(t, AccountNotFound))
    else if HasTx(w.transactions, txId) then Err(Refuse(t, IntegrityError))
    else Ok(Post(w, txId, account, ReleaseRow, share, share, e))
  }

  function SplitOutcome(t: Tables, c: Call): Outcome
    requires c.SplitEscrow?
  {
    if c.escrowId !in t.escrows then Refuse(t, EscrowNotFound)
    else if t.escrows[c.escrowId].status != Ledger.Locked then Refuse(t, EscrowAlreadyResolved)
    else if c.workerAmount + c.posterAmount != t.escrows[c.escrowId].amount then Refuse(t, AmountMismatch)
    else
      match ShareResult(t, t, c.worker, c.workerAmount, c.workerTx, c.escrowId)
      case Err(o) => o
      case Ok(w1) =>
        match ShareResult(t, w1, c.poster, c.posterAmount, c.posterTx, c.escrowId)
        case Err(o) => o
        case Ok(w2) =>
          FinishOutcome(t, w2, c.escrowId, Ledger.Split, c.resolvedAt, c.constraints, c.event,
                        EscrowSplit(c.escrowId, c.workerAmount, c.posterAmount))
  }

  /** What `c` does to tables `t` when no transaction is open. */
  ghost function Exec(t: Tables, c: Call): Outcome {
    match c
    case CreateAccount(account, balance, initial, event) => CreateAccountOutcome(t, account, balance, initial, event)
    case CreditAccount(account, amount, reference, txId, event) =>
      CreditOutcome(t, account, amount, reference, txId, event)
    case LockEscrow(_, _, _, _, _, _, _) => LockOutcome(t, c)
    case ReleaseEscrow(_, _, _, _, _, _) => ReleaseOutcome(t, c)
    case SplitEscrow(_, _, _, _, _, _, _, _, _, _) => SplitOutcome(t, c)
  }

  /** A call that finds a transaction open cannot begin its own: it rolls the open one back and fails. */
  function BlockedOutcome(t: Tables): Outcome {
    Refuse(t, OperationalError)
  }
}
