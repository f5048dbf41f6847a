/** The writer over whole runs: a call commits all its writes with exactly one event or leaves the
    tables alone, exactly one family of calls forgets to close its transaction, and money is conserved
    up to splits given a negative share. */
module SqlTheorems {
  import opened Common
  import opened SqlBank
  import Ledger
  import opened SqlWriter

  // ----- One call: all or nothing

  predicate Commits(o: Outcome) {
    o.reply.Done? && o.reply.eventId > 0
  }

  /** Release or split reaches its resolving UPDATE: everything before it has succeeded. */
  predicate ReachesResolve(t: Tables, c: Call) {
    match c
    case ReleaseEscrow(e, recipient, txId, _, _, _) =>
      && e in t.escrows && t.escrows[e].status == Ledger.Locked
      && recipient in t.accounts && !HasTx(t.transactions, txId)
    case SplitEscrow(e, worker, w, poster, p, workerTx, posterTx, _, _, _) =>
      && e in t.escrows && t.escrows[e].status == Ledger.Locked && w + p == t.escrows[e].amount
      && (w > 0 ==> worker in t.accounts && !HasTx(t.transactions, workerTx))
      && (p > 0 ==> poster in t.accounts && !HasTx(t.transactions, posterTx) && (w > 0 ==> posterTx != workerTx))
    case _ => false
  }

  /** The calls whose transaction nobody closes: a constraint column that is no identifier. */
  predicate LeavesOpen(t: Tables, c: Call) {
    ReachesResolve(t, c) && c.constraints.Some? && !AllIdentifiers(c.constraints.value)
  }

  lemma HasTxOfLog(txs: seq<TxRow>, row: TxRow, txId: string)
    ensures HasTx(txs + [row], txId) <==> HasTx(txs, txId) || row.txId == txId
  {
    if HasTx(txs, txId) {
      var i :| 0 <= i < |txs| && txs[i].txId == txId;
      assert (txs + [row])[i].txId == txId;
    }
    assert (txs + [row])[|txs|] == row;
  }

  lemma SplitReaches(t: Tables, c: Call)
    requires c.SplitEscrow?
    ensures SplitOutcome(t, c).pending.Some? <==> LeavesOpen(t, c)
    ensures Commits(SplitOutcome(t, c)) ==>
              SplitOutcome(t, c).tables.events == t.events + [c.event]
              && SplitOutcome(t, c).reply.eventId == |t.events| + 1
    ensures !Commits(SplitOutcome(t, c)) ==> SplitOutcome(t, c).tables == t
  {
    if c.escrowId in t.escrows && c.workerAmount > 0 && c.worker in t.accounts {
      HasTxOfLog(t.transactions,
                 TxRow(c.workerTx, c.worker, ReleaseRow, c.workerAmount, t.accounts[c.worker] + c.workerAmount,
                       c.escrowId),
                 c.posterTx);
    }
  }

  // What a committed call writes, table by table and in one piece.

  function WithBalance(accounts: map<string, int>, account: string, delta: int): map<string, int> {
    if account in accounts then accounts[account := accounts[account] + delta] else accounts
  }

  function ShareOn(accounts: map<string, int>, account: string, share: int): map<string, int> {
    if share > 0 then WithBalance(accounts, account, share) else accounts
  }

  function AccountsAfter(t: Tables, c: Call): map<string, int> {
    match c
    case CreateAccount(account, balance, _, _) => t.accounts[account := balance]
    case CreditAccount(account, amount, _, _, _) => WithBalance(t.accounts, account, amount)
    case LockEscrow(_, payer, amount, _, _, _, _) => WithBalance(t.accounts, payer, -amount)
    case ReleaseEscrow(e, recipient, _, _, _, _) =>
      if e in t.escrows then WithBalance(t.accounts, recipient, t.escrows[e].amount) else t.accounts
    case SplitEscrow(_, worker, w, poster, p, _, _, _, _, _) => ShareOn(ShareOn(t.accounts, worker, w), poster, p)
  }

  /** The log row of a payment: it records the balance it leaves. */
  function PaymentRow(accounts: map<string, int>, txId: string, account: string, kind: TxType, delta: int, amount: int,
                      reference: string): TxRow
  {
    TxRow(txId, account, kind, amount, (if account in accounts then accounts[account] else 0) + delta, reference)
  }

  function ShareRows(accounts: map<string, int>, txId: string, account: string, share: int, e: string): seq<TxRow> {
    if share > 0 then [PaymentRow(accounts, txId, account, ReleaseRow, share, share, e)] else []
  }

  function RowsWritten(t: Tables, c: Call): seq<TxRow> {
    match c
    case CreateAccount(account, balance, initial, _) =>
      if initial.Some? then
        [TxRow(initial.value.txId, account, CreditRow, initial.value.amount, balance, initial.value.reference)]
      else []
    case CreditAccount(account, amount, reference, txId, _) =>
      [PaymentRow(t.accounts, txId, account, CreditRow, amount, amount, reference)]
    case LockEscrow(_, payer, amount, task, txId, _, _) =>
      [PaymentRow(t.accounts, txId, payer, LockRow, -amount, amount, task)]
    case ReleaseEscrow(e, recipient, txId, _, _, _) =>
      var amount := if e in t.escrows then t.escrows[e].amount else 0;
      [PaymentRow(t.accounts, txId, recipient, ReleaseRow, amount, amount, e)]
    case SplitEscrow(e, worker, w, poster, p, workerTx, posterTx, _, _, _) =>
      ShareRows(t.accounts, workerTx, worker, w, e)
      + ShareRows(ShareOn(t.accounts, worker, w), posterTx, poster, p, e)
  }

  function ResolvedRow(rows: map<string, EscrowRow>, e: string, status: Ledger.EscrowStatus, at: string)
    : map<string, EscrowRow>
  {
    if e in rows then rows[e := rows[e].(status := status, resolvedAt := Some(at))] else rows
  }

  function EscrowsAfter(t: Tables, c: Call): map<string, EscrowRow> {
    match c
    case LockEscrow(e, payer, amount, task, _, createdAt, _) =>
      t.escrows[e := EscrowRow(payer, amount, task, Ledger.Locked, createdAt, None)]
    case ReleaseEscrow(e, _, _, at, _, _) => ResolvedRow(t.escrows, e, Ledger.Released, at)
    case SplitEscrow(e, _, _, _, _, _, _, at, _, _) => ResolvedRow(t.escrows, e, Ledger.Split, at)
    case _ => t.escrows
  }

  /** The tables after a committed call: balances, log rows, the escrow and exactly one event. */
  function Written(t: Tables, c: Call): Tables {
    Tables(t.agents, AccountsAfter(t, c), t.transactions + RowsWritten(t, c), EscrowsAfter(t, c), t.events + [c.event])
  }

  lemma SplitWrites(t: Tables, c: Call)
    requires c.SplitEscrow? && Commits(SplitOutcome(t, c))
    ensures SplitOutcome(t, c).tables == Written(t, c)
  {
    hide HasTx, Satisfied, ShownSatisfied, AllIdentifiers, AllColumns;
    var w1 := ShareResult(t, t, c.worker, c.workerAmount, c.workerTx, c.escrowId).value;
    ShareWrites(t, t, c.worker, c.workerAmount, c.workerTx, c.escrowId);
    var w2 := ShareResult(t, w1, c.poster, c.posterAmount, c.posterTx, c.escrowId).value;
    ShareWrites(t, w1, c.poster, c.posterAmount, c.posterTx, c.escrowId);
    hide ShareResult, ShareRows, ShareOn;
    assert SplitOutcome(t, c).tables == LogEvent(SetResolved(w2, c.escrowId, Ledger.Split, c.resolvedAt), c.event);
  }

  lemma ShareWrites(t: Tables, w: Tables, account: string, share: int, txId: string, e: string)
    requires ShareResult(t, w, account, share, txId, e).Ok?
    ensures
      var u := ShareResult(t, w, account, share, txId, e).value;
      && u == w.(accounts := ShareOn(w.accounts, account, share), transactions := u.transactions)
      && u.transactions == w.transactions + ShareRows(w.accounts, txId, account, share, e)
  {
    hide HasTx;
  }

  lemma OthersWrite(t: Tables, c: Call)
    requires !c.SplitEscrow? && Commits(Exec(t, c))
    ensures Exec(t, c).tables == Written(t, c)
  {
    hide HasTx, TxCollides, FindCredit, Satisfied, ShownSatisfied, AllIdentifiers, AllColumns, HasActive, ActiveEscrow;
    match c
    case CreateAccount(_, _, _, _) =>
    case CreditAccount(_, _, _, _, _) =>
    case LockEscrow(_, _, _, _, _, _, _) =>
    case ReleaseEscrow(_, _, _, _, _, _) =>
  }

  /** Every call commits exactly what it is to write, with exactly one event, or leaves the tables as they were; a
      transaction stays open after it exactly for the family LeavesOpen. */
  lemma AllOrNothing(t: Tables, c: Call)
    ensures
      var o := Exec(t, c);
      && (Commits(o) ==> o.tables == Written(t, c) && o.reply.eventId == |t.events| + 1)
      && (o.pending.Some? <==> LeavesOpen(t, c))
      && (Commits(o) ==> !LeavesOpen(t, c))
      && (!Commits(o) ==> o.tables == t)
  {
    OneEventOrNone(t, c);
    if Commits(Exec(t, c)) {
      if c.SplitEscrow? {
        SplitWrites(t, c);
      } else {
        OthersWrite(t, c);
      }
    }
    hide Exec, Written, LeavesOpen;
  }

  lemma OneEventOrNone(t: Tables, c: Call)
    ensures
      var o := Exec(t, c);
      && (Commits(o) ==> o.tables.events == t.events + [c.event] && o.reply.eventId == |t.events| + 1)
      && (!Commits(o) ==> o.tables == t)
      && (o.pending.Some? <==> LeavesOpen(t, c))
      && (o.pending.Some? ==> !Commits(o))
  {
    if c.SplitEscrow? {
      SplitReaches(t, c);
    }
  }

  /** A concrete forgotten transaction: the recipient's credit is written, nothing is committed, and the
      connection is left inside the transaction. */
  lemma BadColumnLeavesTransactionOpen()
    ensures
      var escrow := EscrowRow("a", 5, "t", Ledger.Locked, "now", None);
      var t := Tables({"a"}, map["a" := 0], [], map["e" := escrow], []);
      var o :=
        Exec(t, ReleaseEscrow("e", "a", "x", "later", Some([("no column", "locked")]), Event("escrow.released", None)));
      o.tables == t && o.pending.Some? && o.pending.value.accounts["a"] == 5
  {
    assert !IsIdentifier("no column") by {
      assert "no column"[2] == ' ';
    }
    assert !AllIdentifiers([("no column", "locked")]) by {
      assert [("no column", "locked")][0].0 == "no column";
    }
  }

  // ----- The connection over a run of calls

  /** The one connection that the writer and the readers share: the committed tables, and the transaction open on it
      with the writes made in it. */
  datatype Connection = Connection(tables: Tables, pending: Option<Tables>) {
    predicate Open() {
      pending.Some?
    }

    /** What a read finds: on a connection its own writes are visible before they are committed. */
    function Read(): Tables {
      if pending.Some? then pending.value else tables
    }
  }

  /** An open transaction has not come to the escrow rows: it was left at the update that would have changed one. */
  predicate EscrowsSettled(k: Connection) {
    k.Open() ==> k.pending.value.escrows == k.tables.escrows
  }

  ghost function Next(k: Connection, c: Call): (Connection, Reply) {
    var o := if k.Open() then BlockedOutcome(k.tables) else Exec(k.tables, c);
    (Connection(o.tables, o.pending), o.reply)
  }

  ghost function ConnectionAt(k: Connection, calls: seq<Call>, n: nat): Connection
    requires n <= |calls|
  {
    if n == 0 then k else Next(ConnectionAt(k, calls, n - 1), calls[n - 1]).0
  }

  /** So over every run of a connection a read shows the committed escrow rows, forgotten transactions or not. */
  lemma {:induction false} RunKeepsEscrowsSettled(k: Connection, calls: seq<Call>, n: nat)
    requires n <= |calls| && EscrowsSettled(k)
    ensures EscrowsSettled(ConnectionAt(k, calls, n))
    ensures ConnectionAt(k, calls, n).Read().escrows == ConnectionAt(k, calls, n).tables.escrows
  {
    hide Exec;
    if n > 0 {
      RunKeepsEscrowsSettled(k, calls, n - 1);
      NextKeepsEscrowsSettled(ConnectionAt(k, calls, n - 1), calls[n - 1]);
    }
  }

  lemma NextKeepsEscrowsSettled(k: Connection, c: Call)
    ensures EscrowsSettled(Next(k, c).0)
  {
    hide Exec, LeavesOpen, Commits, AccountsAfter, RowsWritten, Written;
    AllOrNothing(k.tables, c);
    if !k.Open() && LeavesOpen(k.tables, c) {
      ReadersSeeForgottenPayment(k, c);
    }
  }

  /** A forgotten transaction fails the next call of the writer, whatever it is, and that call restores the
      connection exactly. */
  lemma ForgottenTransactionHeals(k: Connection, c: Call, d: Call)
    requires !k.Open() && LeavesOpen(k.tables, c)
    ensures
      var k1 := Next(k, c).0;
      var (k2, reply) := Next(k1, d);
      k1.Open() && k1.tables == k.tables && k2 == k && reply == Refused(OperationalError)
  {
    AllOrNothing(k.tables, c);
  }

  /** Until that next call the readers see the payment that is never committed: the accounts hold the paid shares
      already, while the escrow is still locked. */
  lemma ReadersSeeForgottenPayment(k: Connection, c: Call)
    requires !k.Open() && LeavesOpen(k.tables, c)
    ensures
      var seen := Next(k, c).0.Read();
      && seen.accounts == AccountsAfter(k.tables, c) && seen.escrows == k.tables.escrows
      && seen.transactions == k.tables.transactions + RowsWritten(k.tables, c) && seen.events == k.tables.events
  {
    hide HasTx, Satisfied, ShownSatisfied, AllIdentifiers, AllColumns;
    var t := k.tables;
    if c.SplitEscrow? {
      PendingSplit(t, c);
    } else {
      PendingRelease(t, c);
    }
  }

  lemma PendingRelease(t: Tables, c: Call)
    requires c.ReleaseEscrow? && LeavesOpen(t, c)
    ensures
      var o := Exec(t, c);
      && o.pending.Some? && o.pending.value.accounts == AccountsAfter(t, c) && o.pending.value.escrows == t.escrows
      && o.pending.value.transactions == t.transactions + RowsWritten(t, c) && o.pending.value.events == t.events
  {
    hide HasTx, Satisfied, ShownSatisfied, AllIdentifiers, AllColumns;
  }

  lemma PendingSplit(t: Tables, c: Call)
    requires c.SplitEscrow? && LeavesOpen(t, c)
    ensures
      var o := Exec(t, c);
      && o.pending.Some? && o.pending.value.accounts == AccountsAfter(t, c) && o.pending.value.escrows == t.escrows
      && o.pending.value.transactions == t.transactions + RowsWritten(t, c) && o.pending.value.events == t.events
  {
    SplitReaches(t, c);
    hide HasTx, Satisfied, ShownSatisfied, AllIdentifiers, AllColumns, LeavesOpen;
    var w1 := ShareResult(t, t, c.worker, c.workerAmount, c.workerTx, c.escrowId).value;
    ShareWrites(t, t, c.worker, c.workerAmount, c.workerTx, c.escrowId);
    var w2 := ShareResult(t, w1, c.poster, c.posterAmount, c.posterTx, c.escrowId).value;
    ShareWrites(t, w1, c.poster, c.posterAmount, c.posterTx, c.escrowId);
    hide ShareResult, ShareRows, ShareOn;
    assert SplitOutcome(t, c).pending == Some(w2);
  }

  // ----- The money

  function LockedAmounts(escrows: map<string, EscrowRow>): map<string, int> {
    map e | e in escrows && escrows[e].status == Ledger.Locked :: escrows[e].amount
  }

  ghost function Wealth(t: Tables): int {
    Sum(t.accounts) + Sum(LockedAmounts(t.escrows))
  }

  /** Money a committed call brings in by its own word. */
  ghost function Brought(t: Tables, c: Call): int {
    if !Commits(Exec(t, c)) then 0
    else
      match c
      case CreateAccount(_, balance, _, _) => balance
      case CreditAccount(_, amount, _, _, _) => amount
      case _ => 0
  }

  /** A committed split one of whose shares is negative: the other share exceeds the escrow. The router refuses such
      shares, so only a direct caller of the writer gets here. */
  ghost predicate InflatingSplit(t: Tables, c: Call) {
    c.SplitEscrow? && Commits(Exec(t, c)) && (c.workerAmount < 0 || c.posterAmount < 0)
  }

  ghost function Inflation(t: Tables, c: Call): int {
    if !InflatingSplit(t, c) then 0
    else (if c.workerAmount < 0 then -c.workerAmount else 0) + (if c.posterAmount < 0 then -c.posterAmount else 0)
  }

  lemma PostMovesAccounts(t: Tables, txId: string, account: string, kind: TxType, delta: int, amount: int,
                          reference: string)
    requires account in t.accounts
    ensures Sum(Post(t, txId, account, kind, delta, amount, reference).accounts) == Sum(t.accounts) + delta
  {
    SumUpdate(t.accounts, account, t.accounts[account] + delta);
  }

  lemma ResolveMovesLocked(t: Tables, e: string, status: Ledger.EscrowStatus, resolvedAt: string)
    requires e in t.escrows && t.escrows[e].status == Ledger.Locked && status != Ledger.Locked
    ensures Sum(LockedAmounts(SetResolved(t, e, status, resolvedAt).escrows))
         == Sum(LockedAmounts(t.escrows)) - t.escrows[e].amount
  {
    SumRemove(LockedAmounts(t.escrows), e);
    assert LockedAmounts(SetResolved(t, e, status, resolvedAt).escrows) == LockedAmounts(t.escrows) - {e};
  }

  lemma LockMovesWealth(t: Tables, c: Call)
    requires c.LockEscrow?
    ensures Wealth(LockOutcome(t, c).tables) == Wealth(t)
  {
    if Commits(LockOutcome(t, c)) {
      SumUpdate(t.accounts, c.payer, t.accounts[c.payer] - c.amount);
      SumUpdate(LockedAmounts(t.escrows), c.escrowId, c.amount);
      assert LockedAmounts(LockOutcome(t, c).tables.escrows) == LockedAmounts(t.escrows)[c.escrowId := c.amount];
    }
  }

  lemma ReleaseMovesWealth(t: Tables, c: Call)
    requires c.ReleaseEscrow?
    ensures Wealth(ReleaseOutcome(t, c).tables) == Wealth(t)
  {
    if Commits(ReleaseOutcome(t, c)) {
      var amount := t.escrows[c.escrowId].amount;
      PostMovesAccounts(t, c.txId, c.recipient, ReleaseRow, amount, amount, c.escrowId);
      ResolveMovesLocked(Post(t, c.txId, c.recipient, ReleaseRow, amount, amount, c.escrowId),
                         c.escrowId, Ledger.Released, c.resolvedAt);
    }
  }

  function Positive(n: int): int {
    if n > 0 then n else 0
  }

  lemma SharesMoveAccounts(t: Tables, w: Tables, account: string, share: int, txId: string, e: string)
    ensures
      match ShareResult(t, w, account, share, txId, e)
      case Ok(x) => Sum(x.accounts) == Sum(w.accounts) + Positive(share) && x.escrows == w.escrows
      case Err(o) => o.tables == t && o.reply.Refused?
  {
    if share > 0 && account in w.accounts {
      PostMovesAccounts(w, txId, account, ReleaseRow, share, share, e);
    }
  }

  lemma SplitMovesWealth(t: Tables, c: Call)
    requires c.SplitEscrow? && Commits(SplitOutcome(t, c))
    ensures Wealth(SplitOutcome(t, c).tables)
         == Wealth(t) - t.escrows[c.escrowId].amount + Positive(c.workerAmount) + Positive(c.posterAmount)
    ensures c.workerAmount + c.posterAmount == t.escrows[c.escrowId].amount
  {
    SharesMoveAccounts(t, t, c.worker, c.workerAmount, c.workerTx, c.escrowId);
    var w1 := ShareResult(t, t, c.worker, c.workerAmount, c.workerTx, c.escrowId).value;
    SharesMoveAccounts(t, w1, c.poster, c.posterAmount, c.posterTx, c.escrowId);
    var w2 := ShareResult(t, w1, c.poster, c.posterAmount, c.posterTx, c.escrowId).value;
    ResolveMovesLocked(w2, c.escrowId, Ledger.Split, c.resolvedAt);
  }

  /** One call moves the money by what it says it brings, plus what a negative share lets through;
      a payee who is worker and poster at once loses nothing here. */
  lemma ExecMovesWealth(t: Tables, c: Call)
    ensures Wealth(Exec(t, c).tables) == Wealth(t) + Brought(t, c) + Inflation(t, c)
    ensures Inflation(t, c) >= 0 && (Inflation(t, c) > 0 <==> InflatingSplit(t, c))
  {
    match c
    case CreateAccount(account, balance, _, _) =>
      SumUpdate(t.accounts, account, balance);
    case CreditAccount(account, amount, reference, txId, _) =>
      if account in t.accounts {
        PostMovesAccounts(t, txId, account, CreditRow, amount, amount, reference);
      }
    case LockEscrow(_, _, _, _, _, _, _) => LockMovesWealth(t, c);
    case ReleaseEscrow(_, _, _, _, _, _) => ReleaseMovesWealth(t, c);
    case SplitEscrow(_, _, _, _, _, _, _, _, _, _) =>
      if Commits(SplitOutcome(t, c)) {
        SplitMovesWealth(t, c);
      } else {
        SplitReaches(t, c);
      }
  }

  ghost function BroughtUpTo(k: Connection, calls: seq<Call>, n: nat): int
    requires n <= |calls|
  {
    if n == 0 then 0
    else
      var before := ConnectionAt(k, calls, n - 1);
      BroughtUpTo(k, calls, n - 1) + (if before.Open() then 0 else Brought(before.tables, calls[n - 1]))
  }

  ghost predicate InflatesAt(k: Connection, calls: seq<Call>, i: nat)
    requires i < |calls|
  {
    !ConnectionAt(k, calls, i).Open() && InflatingSplit(ConnectionAt(k, calls, i).tables, calls[i])
  }

  /** Over a whole run of the writer, forgotten transactions included, the money is what was there plus
      what was brought in exactly when no committed split had a negative share. */
  lemma {:induction false} RunConservesIff(k: Connection, calls: seq<Call>, n: nat)
    requires n <= |calls|
    ensures Wealth(ConnectionAt(k, calls, n).tables) >= Wealth(k.tables) + BroughtUpTo(k, calls, n)
    ensures Wealth(ConnectionAt(k, calls, n).tables) == Wealth(k.tables) + BroughtUpTo(k, calls, n)
       <==> forall i :: 0 <= i < n ==> !InflatesAt(k, calls, i)
  {
    hide Exec;
    if n > 0 {
      RunConservesIff(k, calls, n - 1);
      var before := ConnectionAt(k, calls, n - 1);
      assert InflatesAt(k, calls, n - 1) <==> !before.Open() && InflatingSplit(before.tables, calls[n - 1]);
      ExecMovesWealth(ConnectionAt(k, calls, n - 1).tables, calls[n - 1]);
    }
  }

  // ----- Calls that come through the router

  /** What the router lets through: it refuses amounts that are not positive, and shares that are negative. */
  predicate Routed(c: Call) {
    match c
    case CreateAccount(_, balance, _, _) => balance >= 0
    case CreditAccount(_, amount, _, _, _) => amount > 0
    case LockEscrow(_, _, amount, _, _, _, _) => amount > 0
    case ReleaseEscrow(_, _, _, _, _, _) => true
    case SplitEscrow(_, _, workerAmount, _, posterAmount, _, _, _, _, _) => workerAmount >= 0 && posterAmount >= 0
  }

  predicate NonNegative(t: Tables) {
    && (forall a :: a in t.accounts ==> t.accounts[a] >= 0)
    && (forall e :: e in t.escrows ==> t.escrows[e].amount >= 0)
  }

  lemma LockIsCovered(t: Tables, c: Call)
    requires c.LockEscrow? && Commits(Exec(t, c))
    ensures c.payer in t.accounts && t.accounts[c.payer] >= c.amount
  {
    hide HasTx, HasActive, ActiveEscrow;
  }

  lemma RoutedKeepsNonNegative(t: Tables, c: Call)
    requires NonNegative(t) && Routed(c)
    ensures NonNegative(Exec(t, c).tables)
  {
    AllOrNothing(t, c);
    if Commits(Exec(t, c)) {
      if c.LockEscrow? {
        LockIsCovered(t, c);
      }
      hide Exec, RowsWritten;
    }
  }

  /** Over whole runs of routed calls, forgotten transactions included, money is conserved and no balance goes below
      zero. */
  lemma {:induction false} RoutedRunsConserve(k: Connection, calls: seq<Call>, n: nat)
    requires n <= |calls| && NonNegative(k.tables) && forall i :: 0 <= i < |calls| ==> Routed(calls[i])
    ensures Wealth(ConnectionAt(k, calls, n).tables) == Wealth(k.tables) + BroughtUpTo(k, calls, n)
    ensures NonNegative(ConnectionAt(k, calls, n).tables)
  {
    hide Exec, Wealth, Brought, Inflation;
    if n > 0 {
      RoutedRunsConserve(k, calls, n - 1);
      var before := ConnectionAt(k, calls, n - 1);
      RoutedKeepsNonNegative(before.tables, calls[n - 1]);
      ExecMovesWealth(before.tables, calls[n - 1]);
      assert !InflatingSplit(before.tables, calls[n - 1]);
    }
  }

  // ----- Rows

  /** An escrow row's payer, amount and task never change, and a resolved one is final. */
  predicate RowsPersist(t: Tables, u: Tables) {
    && t.accounts.Keys <= u.accounts.Keys
    && forall e :: e in t.escrows ==>
         && e in u.escrows
         && u.escrows[e].payer == t.escrows[e].payer
         && u.escrows[e].amount == t.escrows[e].amount
         && u.escrows[e].task == t.escrows[e].task
         && (t.escrows[e].status != Ledger.Locked ==> u.escrows[e] == t.escrows[e])
  }

  lemma SharePersists(t: Tables, w: Tables, account: string, share: int, txId: string, e: string)
    ensures
      match ShareResult(t, w, account, share, txId, e)
      case Ok(x) => x.escrows == w.escrows && x.accounts.Keys == w.accounts.Keys
      case Err(o) => o.tables == t
  {
  }

  lemma FinishRowsPersist(t: Tables, w: Tables, e: string, status: Ledger.EscrowStatus, resolvedAt: string,
                          constraints: Option<Constraints>, event: Event, receipt: Receipt)
    requires w.escrows == t.escrows && w.accounts.Keys == t.accounts.Keys
    requires e in t.escrows && t.escrows[e].status == Ledger.Locked
    ensures RowsPersist(t, FinishOutcome(t, w, e, status, resolvedAt, constraints, event, receipt).tables)
  {
  }

  lemma SplitRowsPersist(t: Tables, c: Call)
    requires c.SplitEscrow?
    ensures RowsPersist(t, SplitOutcome(t, c).tables)
  {
    hide FinishOutcome;
    if && c.escrowId in t.escrows && t.escrows[c.escrowId].status == Ledger.Locked
       && c.workerAmount + c.posterAmount == t.escrows[c.escrowId].amount {
      SharePersists(t, t, c.worker, c.workerAmount, c.workerTx, c.escrowId);
      var r1 := ShareResult(t, t, c.worker, c.workerAmount, c.workerTx, c.escrowId);
      if r1.Ok? {
        SharePersists(t, r1.value, c.poster, c.posterAmount, c.posterTx, c.escrowId);
        var r2 := ShareResult(t, r1.value, c.poster, c.posterAmount, c.posterTx, c.escrowId);
        if r2.Ok? {
          FinishRowsPersist(t, r2.value, c.escrowId, Ledger.Split, c.resolvedAt, c.constraints, c.event,
                            EscrowSplit(c.escrowId, c.workerAmount, c.posterAmount));
        }
      }
    }
  }

  lemma ReleaseRowsPersist(t: Tables, c: Call)
    requires c.ReleaseEscrow?
    ensures RowsPersist(t, ReleaseOutcome(t, c).tables)
  {
    hide FinishOutcome;
    if c.escrowId in t.escrows && t.escrows[c.escrowId].status == Ledger.Locked && c.recipient in t.accounts {
      var amount := t.escrows[c.escrowId].amount;
      FinishRowsPersist(t, Post(t, c.txId, c.recipient, ReleaseRow, amount, amount, c.escrowId),
                        c.escrowId, Ledger.Released, c.resolvedAt, c.constraints, c.event,
                        EscrowReleased(c.escrowId, amount, c.recipient));
    }
  }

  lemma ExecRowsPersist(t: Tables, c: Call)
    ensures RowsPersist(t, Exec(t, c).tables)
  {
    hide ReleaseOutcome, SplitOutcome;
    match c
    case CreateAccount(_, _, _, _) =>
    case CreditAccount(_, _, _, _, _) =>
    case LockEscrow(_, _, _, _, _, _, _) =>
    case ReleaseEscrow(_, _, _, _, _, _) => ReleaseRowsPersist(t, c);
    case SplitEscrow(_, _, _, _, _, _, _, _, _, _) => SplitRowsPersist(t, c);
  }

  lemma {:induction false} RunRowsPersist(k: Connection, calls: seq<Call>, i: nat, n: nat)
    requires i <= n <= |calls|
    ensures RowsPersist(ConnectionAt(k, calls, i).tables, ConnectionAt(k, calls, n).tables)
  {
    hide Exec;
    if i < n {
      RunRowsPersist(k, calls, i, n - 1);
      ExecRowsPersist(ConnectionAt(k, calls, n - 1).tables, calls[n - 1]);
    }
  }
}
