/** The in-memory ledger as a value: what each call answers and which ledger it leaves.
    Row timestamps are left out; fresh identifiers (uuid4 in the program) are arguments of the call. */
module Ledger {
  import opened Common

  type AccountId = string
  type EscrowId = string
  type TaskId = string
  type TxId = string

  /** What a journal entry refers to: the caller's own word, or the text the ledger builds from an id. */
  datatype Reference =
    | Given(text: string)
    | ForLock(task: TaskId)
    | ForRelease(released: EscrowId)
    | ForWorker(splitWorker: EscrowId)
    | ForPoster(splitPoster: EscrowId)

  datatype TxKind = CreditTx | DebitTx

  datatype Tx = Tx(id: TxId, kind: TxKind, amount: int, balanceAfter: int, reference: Reference)

  datatype EscrowStatus = Locked | Released | Split

  datatype Escrow = Escrow(payer: AccountId, amount: int, task: TaskId, status: EscrowStatus)

  datatype State = State(
    balances: map<AccountId, int>,
    journals: map<AccountId, seq<Tx>>,
    creditRefs: map<(AccountId, string), Tx>,
    escrows: map<EscrowId, Escrow>,
    lockedByTask: map<(AccountId, TaskId), EscrowId>)

  const EMPTY := State(map[], map[], map[], map[], map[])

  const INITIAL_REFERENCE := "initial_balance"

  datatype Error =
    | InvalidAmount
    | InvalidPayload
    | AccountExists
    | AccountNotFound
    | PayloadMismatch
    | InsufficientFunds
    | EscrowAlreadyLocked
    | EscrowNotFound
    | EscrowAlreadyResolved
    | DanglingIndex  // the KeyError of an index entry without its row; no reachable ledger has one

  datatype Receipt =
    | AccountOpened(account: AccountId, balance: int)
    | Credited(txId: TxId, balanceAfter: int)
    | EscrowLocked(escrowId: EscrowId, amount: int, task: TaskId, status: EscrowStatus)
    | EscrowReleased(escrowId: EscrowId, amount: int, recipient: AccountId)
    | EscrowSplit(escrowId: EscrowId, workerAmount: int, posterAmount: int, workerPct: int)

  type Answer = Result<Receipt, Error>

  datatype Call =
    | CreateAccount(account: AccountId, initial: int, txId: TxId)
    | Credit(account: AccountId, amount: int, reference: string, txId: TxId)
    | Lock(payer: AccountId, amount: int, task: TaskId, escrowId: EscrowId, txId: TxId)
    | Release(escrow: EscrowId, recipient: AccountId, txId: TxId)
    | SplitEscrow(escrow: EscrowId, worker: AccountId, workerPct: int, poster: AccountId,
                  workerTx: TxId, posterTx: TxId)

  function Journal(s: State, a: AccountId): seq<Tx> {
    if a in s.journals then s.journals[a] else []
  }

  /** Book `tx` on account `a`: its balance becomes the one the entry announces. */
  function Book(s: State, a: AccountId, tx: Tx): State {
    s.(balances := s.balances[a := tx.balanceAfter], journals := s.journals[a := Journal(s, a) + [tx]])
  }

  /** Take escrow `e` out of the locked ones. */
  function Resolve(s: State, e: EscrowId, status: EscrowStatus): State
    requires e in s.escrows
  {
    var row := s.escrows[e];
    s.(escrows := s.escrows[e := row.(status := status)],
       lockedByTask := s.lockedByTask - {(row.payer, row.task)})
  }

  /** The worker's share, rounded down; both operands are non-negative where the program gets here. */
  function WorkerShare(amount: int, pct: int): int {
    amount * pct / 100
  }

  function CreateAccountStep(s: State, a: AccountId, initial: int, txId: TxId): (State, Answer) {
    if initial < 0 then (s, Err(InvalidAmount))
    else if a in s.balances then (s, Err(AccountExists))
    else
      var blank := s.(balances := s.balances[a := initial], journals := s.journals[a := Journal(s, a)]);
      (if initial == 0 then blank
       else Book(blank, a, Tx(txId, CreditTx, initial, initial, Given(INITIAL_REFERENCE))),
       Ok(AccountOpened(a, initial)))
  }

  function CreditStep(s: State, a: AccountId, amount: int, reference: string, txId: TxId): (State, Answer) {
    if amount <= 0 then (s, Err(InvalidAmount))
    else if a !in s.balances then (s, Err(AccountNotFound))
    else if (a, reference) in s.creditRefs then
      var first := s.creditRefs[(a, reference)];
      (s, if first.amount != amount then Err(PayloadMismatch) else Ok(Credited(first.id, first.balanceAfter)))
    else
      var tx := Tx(txId, CreditTx, amount, s.balances[a] + amount, Given(reference));
      var booked := Book(s, a, tx);
      (booked.(creditRefs := booked.creditRefs[(a, reference) := tx]), Ok(Credited(txId, tx.balanceAfter)))
  }

  function LockStep(s: State, payer: AccountId, amount: int, task: TaskId, e: EscrowId, txId: TxId)
    : (State, Answer)
  {
    if amount <= 0 then (s, Err(InvalidAmount))
    else if payer !in s.balances then (s, Err(AccountNotFound))
    else if (payer, task) in s.lockedByTask then
      var id := s.lockedByTask[(payer, task)];
      (s, if id !in s.escrows then Err(DanglingIndex)
          else if s.escrows[id].amount != amount then Err(EscrowAlreadyLocked)
          else Ok(EscrowLocked(id, s.escrows[id].amount, s.escrows[id].task, s.escrows[id].status)))
    else if s.balances[payer] < amount then (s, Err(InsufficientFunds))
    else
      var tx := Tx(txId, DebitTx, amount, s.balances[payer] - amount, ForLock(task));
      var booked := Book(s, payer, tx);
      (booked.(escrows := booked.escrows[e := Escrow(payer, amount, task, Locked)],
               lockedByTask := booked.lockedByTask[(payer, task) := e]),
       Ok(EscrowLocked(e, amount, task, Locked)))
  }

  function ReleaseStep(s: State, e: EscrowId, recipient: AccountId, txId: TxId): (State, Answer) {
    if e !in s.escrows then (s, Err(EscrowNotFound))
    else if recipient !in s.balances then (s, Err(AccountNotFound))
    else if s.escrows[e].status != Locked then (s, Err(EscrowAlreadyResolved))
    else
      var amount := s.escrows[e].amount;
      var tx := Tx(txId, CreditTx, amount, s.balances[recipient] + amount, ForRelease(e));
      (Resolve(Book(s, recipient, tx), e, Released), Ok(EscrowReleased(e, amount, recipient)))
  }

  /** Book the two shares of escrow `e`. Both new balances are computed from the balances before the call,
      so an account that is worker and poster at once keeps only the poster's share. */
  function BookShares(s: State, e: EscrowId, worker: AccountId, toWorker: int, poster: AccountId, toPoster: int,
                      workerTx: TxId, posterTx: TxId): State
    requires worker in s.balances && poster in s.balances
  {
    var first := Tx(workerTx, CreditTx, toWorker, s.balances[worker] + toWorker, ForWorker(e));
    var second := Tx(posterTx, CreditTx, toPoster, s.balances[poster] + toPoster, ForPoster(e));
    Book(Book(s, worker, first), poster, second)
  }

  function SplitStep(s: State, e: EscrowId, worker: AccountId, pct: int, poster: AccountId,
                     workerTx: TxId, posterTx: TxId): (State, Answer)
  {
    if pct < 0 || pct > 100 then (s, Err(InvalidPayload))
    else if e !in s.escrows then (s, Err(EscrowNotFound))
    else if s.escrows[e].status != Locked then (s, Err(EscrowAlreadyResolved))
    else if worker !in s.balances || poster !in s.balances then (s, Err(AccountNotFound))
    else
      var toWorker := WorkerShare(s.escrows[e].amount, pct);
      var toPoster := s.escrows[e].amount - toWorker;
      (Resolve(BookShares(s, e, worker, toWorker, poster, toPoster, workerTx, posterTx), e, Split),
       Ok(EscrowSplit(e, toWorker, toPoster, pct)))
  }

  function Step(s: State, c: Call): (State, Answer) {
    match c
    case CreateAccount(a, initial, txId) => CreateAccountStep(s, a, initial, txId)
    case Credit(a, amount, reference, txId) => CreditStep(s, a, amount, reference, txId)
    case Lock(payer, amount, task, e, txId) => LockStep(s, payer, amount, task, e, txId)
    case Release(e, recipient, txId) => ReleaseStep(s, e, recipient, txId)
    case SplitEscrow(e, worker, pct, poster, workerTx, posterTx) =>
      SplitStep(s, e, worker, pct, poster, workerTx, posterTx)
  }

  /** A new escrow gets an identifier no escrow has; the program draws it with uuid4. */
  predicate FreshIds(s: State, c: Call) {
    c.Lock? ==> c.escrowId !in s.escrows
  }

  /** The ledger after the first `n` calls. */
  function At(s: State, calls: seq<Call>, n: nat): State
    requires n <= |calls|
  {
    if n == 0 then s else Step(At(s, calls, n - 1), calls[n - 1]).0
  }

  function Run(s: State, calls: seq<Call>): State {
    At(s, calls, |calls|)
  }

  predicate FreshRun(s: State, calls: seq<Call>) {
    forall i {:trigger FreshIds(At(s, calls, i), calls[i])} ::
      0 <= i < |calls| ==> FreshIds(At(s, calls, i), calls[i])
  }

  ghost predicate IndexIsInverse(s: State) {
    && (forall k :: k in s.lockedByTask ==>
          && s.lockedByTask[k] in s.escrows
          && s.escrows[s.lockedByTask[k]].status == Locked
          && (s.escrows[s.lockedByTask[k]].payer, s.escrows[s.lockedByTask[k]].task) == k)
    && (forall e :: e in s.escrows && s.escrows[e].status == Locked ==>
          && (s.escrows[e].payer, s.escrows[e].task) in s.lockedByTask
          && s.lockedByTask[(s.escrows[e].payer, s.escrows[e].task)] == e)
  }

  ghost predicate BooksAreSound(s: State) {
    && s.balances.Keys == s.journals.Keys
    && (forall a :: a in s.balances ==> s.balances[a] >= 0)
    && (forall e :: e in s.escrows ==> s.escrows[e].amount > 0 && s.escrows[e].payer in s.balances)
  }

  /** An indexed credit is an entry of its account's journal. */
  ghost predicate RefsAreBooked(s: State) {
    forall k :: k in s.creditRefs ==> RefIsBooked(s, k)
  }

  predicate RefIsBooked(s: State, k: (AccountId, string))
    requires k in s.creditRefs
  {
    var tx := s.creditRefs[k];
    k.0 in s.journals && tx in s.journals[k.0] && tx.reference == Given(k.1) && tx.kind == CreditTx && tx.amount > 0
  }

  ghost predicate Inv(s: State) {
    BooksAreSound(s) && RefsAreBooked(s) && IndexIsInverse(s)
  }

  /** The amounts still held, by escrow. */
  function LockedAmounts(escrows: map<EscrowId, Escrow>): map<EscrowId, int> {
    map e | e in escrows && escrows[e].status == Locked :: escrows[e].amount
  }

  ghost function TotalEscrowed(s: State): int {
    Sum(LockedAmounts(s.escrows))
  }

  /** All the money there is: on accounts and in locked escrows. */
  ghost function Wealth(s: State): int {
    Sum(s.balances) + TotalEscrowed(s)
  }
}
