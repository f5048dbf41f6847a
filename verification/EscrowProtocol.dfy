/** Many evaluators at work at once, each holding a row it read some time ago, over a network that loses
    requests and replies. Every event below is one step between two points where another process may run;
    a process that loads a task again abandons whatever it was doing, so crashes are included. A release whose sender
    has given up may still reach the bank, at any later time and any number of times.
    Posters, workers and the rest of the platform act through compare-and-sets on the store and calls of
    the bank; what is asked of them is stated by Allowed. */
module EscrowProtocol {
  import opened Common
  import Ledger
  import LedgerTheorems
  import opened TaskStore
  import Deadlines

  datatype Process =
    | Loaded(id: string, row: Row)
    | Due(id: string, row: Row, move: Deadlines.Transition, decidedAt: int)
    | Releasing(id: string, escrow: string, recipient: Option<string>, retrying: bool)
    | Flagging(id: string, ok: bool)

  datatype Payout = Payout(recipient: string, amount: int)

  /** A release request whose sender no longer waits for it. */
  datatype Request = Request(id: string, escrow: string, recipient: string)

  /** `adrift` holds the requests that may still arrive. `payouts` records, for each escrow, the money that has reached
      accounts from it. */
  datatype World = World(
    store: Store,
    bank: Ledger.State,
    now: int,
    processes: map<string, Process>,
    adrift: set<Request>,
    payouts: map<string, seq<Payout>>)

  datatype Event =
    | Load(p: string, id: string)
    | Evaluate(p: string)
    | Retry(p: string)  // somebody calls the coordinator's retry; evaluate_deadline itself never gets it to act
    | CompareAndSet(p: string)
    | Send(p: string, delivery: Delivery, txId: string)
    | Flag(p: string)
    | Arrive(request: Request, txId: string)
    | Tick(microseconds: nat)
    | Post(id: string, row: Row)
    | Accept(id: string, worker: string)
    | Submit(id: string)
    | Dispute(id: string)
    | Rule(id: string)
    | PlaceBid(bidId: string, bid: Bid)
    | BankCall(call: Ledger.Call)

  // ----- Steps

  function PaidFrom(payouts: map<string, seq<Payout>>, e: string): seq<Payout> {
    if e in payouts then payouts[e] else []
  }

  function Recorded(payouts: map<string, seq<Payout>>, c: Ledger.Call, answer: Ledger.Answer)
    : map<string, seq<Payout>>
  {
    match (c, answer)
    case (Release(e, recipient, _), Ok(EscrowReleased(_, amount, _))) =>
      payouts[e := PaidFrom(payouts, e) + [Payout(recipient, amount)]]
    case (SplitEscrow(e, worker, _, poster, _, _), Ok(EscrowSplit(_, toWorker, toPoster, _))) =>
      var shares := if worker == poster then [Payout(poster, toPoster)]
                    else [Payout(worker, toWorker), Payout(poster, toPoster)];
      payouts[e := PaidFrom(payouts, e) + shares]
    case _ => payouts
  }

  function Banked(w: World, c: Ledger.Call): World {
    var (bank, answer) := Ledger.Step(w.bank, c);
    w.(bank := bank, payouts := Recorded(w.payouts, c, answer))
  }

  function Become(w: World, p: string, process: Process): World {
    w.(processes := w.processes[p := process])
  }

  function Finish(w: World, p: string): World {
    w.(processes := w.processes - {p})
  }

  /** The release of process `p`, if it was about to send one, goes adrift. */
  function LetGo(w: World, p: string): World {
    if p in w.processes && w.processes[p].Releasing? && w.processes[p].recipient.Some? then
      var process := w.processes[p];
      w.(adrift := w.adrift + {Request(process.id, process.escrow, process.recipient.value)})
    else w
  }

  function LoadStep(w: World, p: string, id: string): World {
    if id in w.store.tasks then Become(LetGo(w, p), p, Loaded(id, w.store.tasks[id])) else Finish(LetGo(w, p), p)
  }

  function EvaluateStep(w: World, p: string): World {
    if p !in w.processes || !w.processes[p].Loaded? then w
    else
      var (id, row) := (w.processes[p].id, w.processes[p].row);
      var move := Deadlines.Decide(row, w.now);
      if Deadlines.IsTerminal(row.status) || move.None? then Finish(w, p)
      else Become(w, p, Due(id, row, move.value, w.now))
  }

  function RetryStep(w: World, p: string): World {
    if p !in w.processes || !w.processes[p].Loaded? then w
    else
      var (id, row) := (w.processes[p].id, w.processes[p].row);
      var recipient := Deadlines.RetryRecipient(row);
      if recipient.None? then Finish(w, p) else Become(w, p, Releasing(id, row.escrowId, recipient.value, true))
  }

  function CompareAndSetStep(w: World, p: string): World {
    if p !in w.processes || !w.processes[p].Due? then w
    else
      var (id, row, move) := (w.processes[p].id, w.processes[p].row, w.processes[p].move);
      var (store, changed) :=
        UpdateStep(w.store, id, Deadlines.TransitionUpdates(move.to, w.now), Some(move.from));
      if changed == Ok(1) then Become(w.(store := store), p, Releasing(id, row.escrowId, move.recipient, false))
      else Finish(w.(store := store), p)
  }

  /** RequestLost is a request that the sender sees fail before it has reached the bank. */
  function SendStep(w: World, p: string, delivery: Delivery, txId: string): World {
    if p !in w.processes || !w.processes[p].Releasing? then w
    else
      var (id, escrow, recipient) := (w.processes[p].id, w.processes[p].escrow, w.processes[p].recipient);
      var (_, ok) := Deadlines.ReleaseStep(w.bank, escrow, recipient, delivery, txId);
      var sent := if delivery == RequestLost || recipient.None? then LetGo(w, p)
                  else Banked(w, Ledger.Release(escrow, recipient.value, txId));
      if w.processes[p].retrying && !ok then Finish(sent, p) else Become(sent, p, Flagging(id, ok))
  }

  function FlagStep(w: World, p: string): World {
    if p !in w.processes || !w.processes[p].Flagging? then w
    else
      var (id, ok) := (w.processes[p].id, w.processes[p].ok);
      Finish(w.(store := UpdateStep(w.store, id, [SetEscrowPending(!ok)], None).0), p)
  }

  function AcceptUpdates(worker: string, now: int): seq<Assignment> {
    [SetStatus(Accepted), SetWorker(worker), SetOther("accepted_bid_id"), SetAcceptedAt(now)]
  }

  function SubmitUpdates(now: int): seq<Assignment> {
    [SetStatus(Submitted), SetSubmittedAt(now)]
  }

  function DisputeUpdates(): seq<Assignment> {
    [SetStatus(Disputed), SetOther("disputed_at"), SetOther("dispute_reason")]
  }

  function RuleUpdates(): seq<Assignment> {
    [SetStatus(Ruled), SetOther("ruled_at"), SetOther("ruling_id"), SetOther("worker_pct"), SetOther("ruling_summary")]
  }

  function Next(w: World, ev: Event): World {
    match ev
    case Load(p, id) => LoadStep(w, p, id)
    case Evaluate(p) => EvaluateStep(w, p)
    case Retry(p) => RetryStep(w, p)
    case CompareAndSet(p) => CompareAndSetStep(w, p)
    case Send(p, delivery, txId) => SendStep(w, p, delivery, txId)
    case Flag(p) => FlagStep(w, p)
    case Arrive(request, txId) =>
      if request in w.adrift then Banked(w, Ledger.Release(request.escrow, request.recipient, txId)) else w
    case Tick(d) => w.(now := w.now + d)
    case Post(id, row) => w.(store := InsertTaskStep(w.store, id, row).0)
    case Accept(id, worker) => w.(store := UpdateStep(w.store, id, AcceptUpdates(worker, w.now), Some(Open)).0)
    case Submit(id) => w.(store := UpdateStep(w.store, id, SubmitUpdates(w.now), Some(Accepted)).0)
    case Dispute(id) => w.(store := UpdateStep(w.store, id, DisputeUpdates(), Some(Submitted)).0)
    case Rule(id) => w.(store := UpdateStep(w.store, id, RuleUpdates(), Some(Disputed)).0)
    case PlaceBid(bidId, bid) => w.(store := InsertBidStep(w.store, bidId, bid).0)
    case BankCall(c) => Banked(w, c)
  }

  // ----- What is asked of the rest of the platform

  predicate Active(status: Status) {
    status == Open || status == Accepted || status == Submitted
  }

  predicate Fired(status: Status) {
    status == Expired || status == Approved
  }

  predicate Resolves(c: Ledger.Call, e: string) {
    (c.Release? || c.SplitEscrow?) && c.escrow == e
  }

  /** A new task is open, untouched, and comes with an escrow locked for it by its poster. */
  predicate WellPosted(w: World, id: string, row: Row) {
    && row.status == Open && row.worker.None? && !row.escrowPending
    && row.escrowId in w.bank.escrows
    && w.bank.escrows[row.escrowId] ==
         Ledger.Escrow(row.poster, w.bank.escrows[row.escrowId].amount, id, Ledger.Locked)
  }

  /** Others leave the escrow of a task alone until the task is in dispute. */
  predicate LeavesEscrowsAlone(w: World, c: Ledger.Call) {
    forall id :: id in w.store.tasks && (Active(w.store.tasks[id].status) || Fired(w.store.tasks[id].status))
      ==> !Resolves(c, w.store.tasks[id].escrowId)
  }

  predicate Allowed(w: World, ev: Event) {
    match ev
    case Post(id, row) => id in w.store.tasks || WellPosted(w, id, row)
    case BankCall(c) => Ledger.FreshIds(w.bank, c) && LeavesEscrowsAlone(w, c)
    case _ => true
  }

  // ----- Runs

  function Start(now: int): World {
    World(TaskStore.EMPTY, Ledger.EMPTY, now, map[], {}, map[])
  }

  function After(w: World, events: seq<Event>, n: nat): World
    requires n <= |events|
  {
    if n == 0 then w else Next(After(w, events, n - 1), events[n - 1])
  }

  predicate AllowedRun(w: World, events: seq<Event>) {
    forall i {:trigger Allowed(After(w, events, i), events[i])} ::
      0 <= i < |events| ==> Allowed(After(w, events, i), events[i])
  }

  // ----- How a row may change

  function Rank(status: Status): nat {
    match status
    case Open => 0
    case Accepted => 1
    case Submitted => 2
    case _ => 3
  }

  /** What a row keeps for good: its terms always, its worker once accepted, its submission once submitted,
      its outcome once the evaluator has fired. */
  predicate Evolves(a: Row, b: Row) {
    && (a.poster, a.escrowId, a.createdAt) == (b.poster, b.escrowId, b.createdAt)
    && (a.biddingSeconds, a.deadlineSeconds, a.reviewSeconds) == (b.biddingSeconds, b.deadlineSeconds, b.reviewSeconds)
    && Rank(a.status) <= Rank(b.status)
    && (Rank(a.status) >= 1 ==> (a.worker, a.acceptedAt) == (b.worker, b.acceptedAt))
    && (Rank(a.status) >= 2 ==> a.submittedAt == b.submittedAt)
    && (Fired(a.status) ==> (a.status, a.expiredAt, a.approvedAt) == (b.status, b.expiredAt, b.approvedAt))
  }

  lemma EvolvesTransitive(a: Row, b: Row, c: Row)
    requires Evolves(a, b) && Evolves(b, c)
    ensures Evolves(a, c)
  {
  }

  // ----- The invariant

  /** Who is entitled to the escrow of a task the evaluator has fired. */
  function Heir(row: Row): Option<string> {
    if row.status == Expired then Some(row.poster) else row.worker
  }

  /** The escrow of a fired task is locked with the flag up, or all of it went to the heir. */
  predicate Settling(row: Row, escrow: Ledger.Escrow, paid: seq<Payout>) {
    || (escrow.status == Ledger.Locked && row.escrowPending)
    || (escrow.status == Ledger.Released && Heir(row).Some? && paid == [Payout(Heir(row).value, escrow.amount)])
  }

  predicate FiredOnTime(row: Row, now: int) {
    && (row.status == Expired ==>
          && row.expiredAt.Some? && row.expiredAt.value <= now
          && if row.worker.None? then Deadlines.Passed(row.createdAt, row.biddingSeconds, row.expiredAt.value)
             else Deadlines.Passed(row.acceptedAt, row.deadlineSeconds, row.expiredAt.value))
    && (row.status == Approved ==>
          && row.approvedAt.Some? && row.approvedAt.value <= now
          && Deadlines.Passed(row.submittedAt, row.reviewSeconds, row.approvedAt.value))
  }

  predicate WorkerFits(row: Row) {
    && (row.status == Open ==> row.worker.None?)
    && (row.status == Accepted || row.status == Submitted || row.status == Approved ==> row.worker.Some?)
  }

  predicate EscrowFits(id: string, row: Row, bank: Ledger.State, payouts: map<string, seq<Payout>>) {
    && row.escrowId in bank.escrows
    && bank.escrows[row.escrowId].task == id && bank.escrows[row.escrowId].payer == row.poster
    && (Active(row.status) ==> bank.escrows[row.escrowId].status == Ledger.Locked)
    && (Fired(row.status) ==> Settling(row, bank.escrows[row.escrowId], PaidFrom(payouts, row.escrowId)))
  }

  predicate TaskFits(w: World, id: string)
    requires id in w.store.tasks
  {
    var row := w.store.tasks[id];
    EscrowFits(id, row, w.bank, w.payouts) && WorkerFits(row) && FiredOnTime(row, w.now)
  }

  predicate SnapshotFits(tasks: map<string, Row>, id: string, row: Row) {
    id in tasks && Evolves(row, tasks[id])
  }

  predicate ProcessFits(w: World, process: Process) {
    match process
    case Loaded(id, row) => SnapshotFits(w.store.tasks, id, row)
    case Due(id, row, move, at) =>
      SnapshotFits(w.store.tasks, id, row) && Deadlines.Decide(row, at) == Some(move) && at <= w.now
    case Releasing(id, escrow, recipient, _) =>
      && id in w.store.tasks && Fired(w.store.tasks[id].status)
      && escrow == w.store.tasks[id].escrowId && recipient == Heir(w.store.tasks[id])
    case Flagging(id, ok) =>
      && id in w.store.tasks && Fired(w.store.tasks[id].status)
      && (ok ==> IsReleased(w.bank, w.store.tasks[id].escrowId))
  }

  predicate IsReleased(bank: Ledger.State, e: string) {
    e in bank.escrows && bank.escrows[e].status == Ledger.Released
  }

  ghost predicate TasksFit(w: World) {
    forall id :: id in w.store.tasks ==> TaskFits(w, id)
  }

  ghost predicate ProcessesFit(w: World) {
    forall p :: p in w.processes ==> ProcessFits(w, w.processes[p])
  }

  /** A request adrift is one that the outcome of its task calls for. */
  predicate RequestFits(w: World, r: Request) {
    && r.id in w.store.tasks && Fired(w.store.tasks[r.id].status)
    && r.escrow == w.store.tasks[r.id].escrowId && Some(r.recipient) == Heir(w.store.tasks[r.id])
  }

  ghost predicate AdriftFits(w: World) {
    forall r :: r in w.adrift ==> RequestFits(w, r)
  }

  ghost predicate OnlyResolvedPaid(w: World) {
    forall e :: PaidFrom(w.payouts, e) != [] ==> LedgerTheorems.Resolved(w.bank, e)
  }

  ghost predicate Inv(w: World) {
    TasksFit(w) && ProcessesFit(w) && AdriftFits(w) && OnlyResolvedPaid(w)
  }

  // ----- What each part of the world may do without disturbing the rest

  /** One row evolves into a row that fits. */
  lemma RowStep(w: World, t: World, id: string)
    requires Inv(w) && id in w.store.tasks && t.store.tasks.Keys == w.store.tasks.Keys
    requires forall x :: x in w.store.tasks && x != id ==> t.store.tasks[x] == w.store.tasks[x]
    requires Evolves(w.store.tasks[id], t.store.tasks[id]) && TaskFits(t, id)
    requires (t.bank, t.now, t.processes, t.adrift, t.payouts) == (w.bank, w.now, w.processes, w.adrift, w.payouts)
    ensures Inv(t)
  {
    forall r | r in t.adrift ensures RequestFits(t, r) {
      assert RequestFits(w, r);
    }
    forall x | x in t.store.tasks ensures TaskFits(t, x) {
      assert TaskFits(w, x);
    }
    forall p | p in t.processes ensures ProcessFits(t, t.processes[p]) {
      ProcessSurvivesRow(w, t, id, t.processes[p]);
    }
    assert OnlyResolvedPaid(t);
  }

  lemma ProcessSurvivesRow(w: World, t: World, id: string, process: Process)
    requires ProcessFits(w, process) && id in w.store.tasks && t.store.tasks.Keys == w.store.tasks.Keys
    requires forall x :: x in w.store.tasks && x != id ==> t.store.tasks[x] == w.store.tasks[x]
    requires Evolves(w.store.tasks[id], t.store.tasks[id])
    requires (t.bank, t.now) == (w.bank, w.now)
    ensures ProcessFits(t, process)
  {
    if process.id == id && (process.Loaded? || process.Due?) {
      EvolvesTransitive(process.row, w.store.tasks[id], t.store.tasks[id]);
    }
  }

  lemma ProcessStep(w: World, t: World, p: string)
    requires Inv(w) && t == w.(processes := t.processes)
    requires forall q :: q in t.processes && q != p ==> q in w.processes && t.processes[q] == w.processes[q]
    requires p in t.processes ==> ProcessFits(w, t.processes[p])
    ensures Inv(t)
  {
    forall id | id in t.store.tasks ensures TaskFits(t, id) {
      assert TaskFits(w, id);
    }
    forall q | q in t.processes ensures ProcessFits(t, t.processes[q]) {
      assert ProcessFits(w, t.processes[q]);
    }
    assert OnlyResolvedPaid(t);
  }

  /** What a bank call does to an escrow it does not resolve, and to one it does. */
  lemma {:induction false} BankedEscrow(w: World, c: Ledger.Call, e: string)
    requires Ledger.FreshIds(w.bank, c) && OnlyResolvedPaid(w) && e in w.bank.escrows
    ensures
      var t := Banked(w, c);
      && e in t.bank.escrows
      && (!Resolves(c, e) ==>
            t.bank.escrows[e] == w.bank.escrows[e] && PaidFrom(t.payouts, e) == PaidFrom(w.payouts, e))
      && (Resolves(c, e) && Ledger.Step(w.bank, c).1.Err? ==> t == w)
      && (Resolves(c, e) && c.Release? && Ledger.Step(w.bank, c).1.Ok? ==>
            && w.bank.escrows[e].status == Ledger.Locked
            && t.bank.escrows[e] == w.bank.escrows[e].(status := Ledger.Released)
            && PaidFrom(t.payouts, e) == [Payout(c.recipient, w.bank.escrows[e].amount)])
  {
    assert LedgerTheorems.Resolved(w.bank, e) || PaidFrom(w.payouts, e) == [];
    match c
    case CreateAccount(_, _, _) =>
    case Credit(_, _, _, _) =>
    case Lock(_, _, _, _, _) =>
    case Release(_, _, _) =>
    case SplitEscrow(_, _, _, _, _, _) =>
  }

  lemma {:induction false} BankedKeepsPaid(w: World, c: Ledger.Call)
    requires Ledger.FreshIds(w.bank, c) && OnlyResolvedPaid(w)
    ensures OnlyResolvedPaid(Banked(w, c))
  {
    var t := Banked(w, c);
    forall e | PaidFrom(t.payouts, e) != [] ensures LedgerTheorems.Resolved(t.bank, e) {
      assert PaidFrom(w.payouts, e) != [] ==> LedgerTheorems.Resolved(w.bank, e);
      LedgerTheorems.StepRowsPersist(w.bank, c);
      match c
      case CreateAccount(_, _, _) =>
      case Credit(_, _, _, _) =>
      case Lock(_, _, _, _, _) =>
      case Release(_, _, _) =>
      case SplitEscrow(_, _, _, _, _, _) =>
    }
  }

  lemma OtherCallFits(w: World, c: Ledger.Call, id: string)
    requires Inv(w) && Ledger.FreshIds(w.bank, c) && LeavesEscrowsAlone(w, c) && id in w.store.tasks
    ensures TaskFits(Banked(w, c), id)
  {
    assert TaskFits(w, id);
    BankedEscrow(w, c, w.store.tasks[id].escrowId);
    LedgerTheorems.StepRowsPersist(w.bank, c);
    hide Inv, Ledger.Step, Recorded;
  }

  lemma BankedKeepsProcesses(w: World, c: Ledger.Call)
    requires ProcessesFit(w) && Ledger.FreshIds(w.bank, c)
    ensures ProcessesFit(Banked(w, c))
  {
    LedgerTheorems.StepRowsPersist(w.bank, c);
    hide Ledger.Step, Recorded;
    forall p | p in w.processes ensures ProcessFits(Banked(w, c), w.processes[p]) {
      assert ProcessFits(w, w.processes[p]);
    }
  }

  /** A bank call that resolves no escrow of an active or fired task leaves every task and process fitting. */
  lemma OtherCallStep(w: World, c: Ledger.Call)
    requires Inv(w) && Ledger.FreshIds(w.bank, c) && LeavesEscrowsAlone(w, c)
    ensures Inv(Banked(w, c))
  {
    BankedKeepsPaid(w, c);
    BankedKeepsProcesses(w, c);
    forall id | id in w.store.tasks ensures TaskFits(Banked(w, c), id) {
      OtherCallFits(w, c, id);
    }
    hide Ledger.Step, Recorded, TaskFits, ProcessesFit, OnlyResolvedPaid;
  }

  /** The release a process may send is the one that the task's outcome calls for. */
  lemma RightfulCallStep(w: World, id: string, txId: string)
    requires Inv(w) && id in w.store.tasks && Fired(w.store.tasks[id].status) && Heir(w.store.tasks[id]).Some?
    ensures Inv(Banked(w, Ledger.Release(w.store.tasks[id].escrowId, Heir(w.store.tasks[id]).value, txId)))
  {
    var row := w.store.tasks[id];
    var c := Ledger.Release(row.escrowId, Heir(row).value, txId);
    BankedKeepsPaid(w, c);
    BankedKeepsProcesses(w, c);
    forall x | x in w.store.tasks ensures TaskFits(Banked(w, c), x) {
      RightfulCallFits(w, id, c, x);
    }
    hide Ledger.Step, Recorded, TaskFits, ProcessesFit, OnlyResolvedPaid;
  }

  lemma RightfulCallFits(w: World, id: string, c: Ledger.Call, x: string)
    requires Inv(w) && id in w.store.tasks && Fired(w.store.tasks[id].status) && x in w.store.tasks
    requires c.Release? && c.escrow == w.store.tasks[id].escrowId && Heir(w.store.tasks[id]) == Some(c.recipient)
    ensures TaskFits(Banked(w, c), x)
  {
    assert TaskFits(w, id) && TaskFits(w, x);
    BankedEscrow(w, c, w.store.tasks[x].escrowId);
    LedgerTheorems.StepRowsPersist(w.bank, c);
    hide Inv, Ledger.Step, Recorded;
  }

  function Owed(payouts: seq<Payout>, a: string): int {
    if payouts == [] then 0 else (if payouts[0].recipient == a then payouts[0].amount else 0) + Owed(payouts[1..], a)
  }

  function BalanceOf(bank: Ledger.State, a: string): int {
    if a in bank.balances then bank.balances[a] else 0
  }

  /** The record of payouts is one of money: a call that resolves escrow `e` adds to it exactly what it adds to the
      balance of every account. */
  lemma PayoutsAreMoney(w: World, c: Ledger.Call, e: string, a: string)
    requires Resolves(c, e)
    ensures
      var t := Banked(w, c);
      && PaidFrom(w.payouts, e) <= PaidFrom(t.payouts, e)
      && var added := PaidFrom(t.payouts, e)[|PaidFrom(w.payouts, e)|..];
         BalanceOf(t.bank, a) == BalanceOf(w.bank, a) + Owed(added, a)
  {
    var t := Banked(w, c);
    if Ledger.Step(w.bank, c).1.Err? {
      LedgerTheorems.RejectedCallChangesNothing(w.bank, c);
      assert PaidFrom(t.payouts, e)[|PaidFrom(w.payouts, e)|..] == [];
    } else if c.Release? {
      ReleaseIsMoney(w, c, a);
    } else {
      SplitIsMoney(w, c, a);
    }
  }

  lemma ReleaseIsMoney(w: World, c: Ledger.Call, a: string)
    requires c.Release? && Ledger.Step(w.bank, c).1.Ok?
    ensures
      var t, paid := Banked(w, c), PaidFrom(w.payouts, c.escrow);
      && paid <= PaidFrom(t.payouts, c.escrow)
      && BalanceOf(t.bank, a) == BalanceOf(w.bank, a) + Owed(PaidFrom(t.payouts, c.escrow)[|paid|..], a)
  {
    var t, paid := Banked(w, c), PaidFrom(w.payouts, c.escrow);
    var added := [Payout(c.recipient, w.bank.escrows[c.escrow].amount)];
    assert PaidFrom(t.payouts, c.escrow) == paid + added;
    assert added[1..] == [] && PaidFrom(t.payouts, c.escrow)[|paid|..] == added;
  }

  lemma SplitIsMoney(w: World, c: Ledger.Call, a: string)
    requires c.SplitEscrow? && Ledger.Step(w.bank, c).1.Ok?
    ensures
      var t, paid := Banked(w, c), PaidFrom(w.payouts, c.escrow);
      && paid <= PaidFrom(t.payouts, c.escrow)
      && BalanceOf(t.bank, a) == BalanceOf(w.bank, a) + Owed(PaidFrom(t.payouts, c.escrow)[|paid|..], a)
  {
    hide Ledger.WorkerShare;
    var t, paid := Banked(w, c), PaidFrom(w.payouts, c.escrow);
    var toWorker := Ledger.WorkerShare(w.bank.escrows[c.escrow].amount, c.workerPct);
    var toPoster := w.bank.escrows[c.escrow].amount - toWorker;
    var added := if c.worker == c.poster then [Payout(c.poster, toPoster)]
                 else [Payout(c.worker, toWorker), Payout(c.poster, toPoster)];
    assert PaidFrom(t.payouts, c.escrow) == paid + added;
    assert PaidFrom(t.payouts, c.escrow)[|paid|..] == added;
    OwedOfShares(c.worker, toWorker, c.poster, toPoster, a);
    SplitBalances(w.bank, c, toWorker, a);
    hide Owed, Recorded, Ledger.Step, BalanceOf;
  }

  lemma SplitBalances(bank: Ledger.State, c: Ledger.Call, toWorker: int, a: string)
    requires c.SplitEscrow? && Ledger.Step(bank, c).1.Ok?
    requires toWorker == Ledger.WorkerShare(bank.escrows[c.escrow].amount, c.workerPct)
    ensures
      var toPoster := bank.escrows[c.escrow].amount - toWorker;
      BalanceOf(Ledger.Step(bank, c).0, a)
      == BalanceOf(bank, a) + (if c.worker != c.poster && c.worker == a then toWorker else 0)
       + (if c.poster == a then toPoster else 0)
  {
    hide Ledger.WorkerShare;
  }

  lemma OwedOfShares(worker: string, toWorker: int, poster: string, toPoster: int, a: string)
    ensures Owed([Payout(poster, toPoster)], a) == if poster == a then toPoster else 0
    ensures Owed([Payout(worker, toWorker), Payout(poster, toPoster)], a)
         == (if worker == a then toWorker else 0) + (if poster == a then toPoster else 0)
  {
    assert [Payout(poster, toPoster)][1..] == [];
    assert [Payout(worker, toWorker), Payout(poster, toPoster)][1..] == [Payout(poster, toPoster)];
  }

  // ----- Every event keeps the invariant

  /** The request of a process that gives up is one that fits. */
  lemma LetGoKeepsInv(w: World, p: string)
    requires Inv(w)
    ensures Inv(LetGo(w, p))
  {
    var t := LetGo(w, p);
    forall id | id in t.store.tasks ensures TaskFits(t, id) {
      assert TaskFits(w, id);
    }
    forall q | q in t.processes ensures ProcessFits(t, t.processes[q]) {
      assert ProcessFits(w, w.processes[q]);
    }
    assert AdriftFits(t) && OnlyResolvedPaid(t);
  }

  lemma LoadKeepsInv(w: World, p: string, id: string)
    requires Inv(w)
    ensures Inv(LoadStep(w, p, id))
  {
    hide Inv;
    LetGoKeepsInv(w, p);
    ProcessStep(LetGo(w, p), LoadStep(w, p, id), p);
  }

  lemma EvaluateKeepsInv(w: World, p: string)
    requires Inv(w)
    ensures Inv(EvaluateStep(w, p))
  {
    if p in w.processes {
      assert ProcessFits(w, w.processes[p]);
      hide Inv, Evolves, Deadlines.Decide;
      ProcessStep(w, EvaluateStep(w, p), p);
    }
  }

  lemma RetryKeepsInv(w: World, p: string)
    requires Inv(w)
    ensures Inv(RetryStep(w, p))
  {
    if p in w.processes {
      assert ProcessFits(w, w.processes[p]);
      hide Inv;
      ProcessStep(w, RetryStep(w, p), p);
    }
  }

  lemma PassedIsStable(base: Option<int>, seconds: int, at: int, now: int)
    requires Deadlines.Passed(base, seconds, at) && at <= now
    ensures Deadlines.Passed(base, seconds, now)
  {
  }

  /** The row a compare-and-set writes follows from the row it was decided on. */
  lemma LandedFits(w: World, id: string, row: Row, move: Deadlines.Transition, at: int)
    requires SnapshotFits(w.store.tasks, id, row) && TaskFits(w, id)
    requires Deadlines.Decide(row, at) == Some(move) && at <= w.now && w.store.tasks[id].status == move.from
    ensures
      var landed := Deadlines.Landed(w.store.tasks[id], move.to, w.now, true);
      && Evolves(w.store.tasks[id], landed) && WorkerFits(landed) && FiredOnTime(landed, w.now)
      && EscrowFits(id, landed, w.bank, w.payouts)
      && Fired(landed.status) && row.escrowId == landed.escrowId && move.recipient == Heir(landed)
  {
    var cur := w.store.tasks[id];
    if move.from == Open {
      PassedIsStable(cur.createdAt, cur.biddingSeconds, at, w.now);
    } else if move.from == Accepted {
      PassedIsStable(cur.acceptedAt, cur.deadlineSeconds, at, w.now);
    } else {
      PassedIsStable(cur.submittedAt, cur.reviewSeconds, at, w.now);
    }
  }

  lemma LandedKeepsInv(w: World, id: string, row: Row, move: Deadlines.Transition, at: int)
    requires Inv(w) && SnapshotFits(w.store.tasks, id, row)
    requires Deadlines.Decide(row, at) == Some(move) && at <= w.now && w.store.tasks[id].status == move.from
    ensures
      var landed := Deadlines.Landed(w.store.tasks[id], move.to, w.now, true);
      && Inv(w.(store := w.store.(tasks := w.store.tasks[id := landed])))
      && Fired(landed.status) && row.escrowId == landed.escrowId && move.recipient == Heir(landed)
  {
    assert TaskFits(w, id);
    LandedFits(w, id, row, move, at);
    var landed := Deadlines.Landed(w.store.tasks[id], move.to, w.now, true);
    hide Inv, Evolves, WorkerFits, FiredOnTime, EscrowFits, Deadlines.Landed, Deadlines.Decide;
    RowStep(w, w.(store := w.store.(tasks := w.store.tasks[id := landed])), id);
  }

  lemma CompareAndSetKeepsInv(w: World, p: string)
    requires Inv(w)
    ensures Inv(CompareAndSetStep(w, p))
  {
    hide UpdateStep;
    if p in w.processes && w.processes[p].Due? {
      var (id, row, move) := (w.processes[p].id, w.processes[p].row, w.processes[p].move);
      assert ProcessFits(w, w.processes[p]);
      assert TaskFits(w, id);
      assert move.to == Expired || move.to == Approved;
      Deadlines.TransitionUpdate(w.store, id, move, w.now);
      var t := CompareAndSetStep(w, p);
      if Deadlines.Lands(w.store, id, move) {
        LandedKeepsInv(w, id, row, move, w.processes[p].decidedAt);
        var landed := Deadlines.Landed(w.store.tasks[id], move.to, w.now, true);
        var u := w.(store := w.store.(tasks := w.store.tasks[id := landed]));
        hide Inv, Deadlines.Landed, Deadlines.Decide;
        assert t == Become(u, p, Releasing(id, row.escrowId, move.recipient, false));
        ProcessStep(u, t, p);
      } else {
        hide Inv;
        assert t == Finish(w, p);
        ProcessStep(w, t, p);
      }
    }
  }

  /** A success the caller sees is a release the bank has done. */
  lemma SeenSuccessIsReleased(bank: Ledger.State, e: string, recipient: Option<string>, delivery: Delivery,
                              txId: string)
    ensures
      var (after, ok) := Deadlines.ReleaseStep(bank, e, recipient, delivery, txId);
      ok ==> IsReleased(after, e)
  {
  }

  lemma SendKeepsInv(w: World, p: string, delivery: Delivery, txId: string)
    requires Inv(w)
    ensures Inv(SendStep(w, p, delivery, txId))
  {
    hide Ledger.ReleaseStep, Recorded, TasksFit, OnlyResolvedPaid;
    if p in w.processes && w.processes[p].Releasing? {
      var (id, escrow, recipient) := (w.processes[p].id, w.processes[p].escrow, w.processes[p].recipient);
      assert ProcessFits(w, w.processes[p]);
      SeenSuccessIsReleased(w.bank, escrow, recipient, delivery, txId);
      var (after, ok) := Deadlines.ReleaseStep(w.bank, escrow, recipient, delivery, txId);
      var sent := LetGo(w, p);
      LetGoKeepsInv(w, p);
      if delivery != RequestLost && recipient.Some? {
        RightfulCallStep(w, id, txId);
        sent := Banked(w, Ledger.Release(escrow, recipient.value, txId));
        assert sent.bank == after;
      }
      hide Inv;
      ProcessStep(sent, SendStep(w, p, delivery, txId), p);
    }
  }

  lemma FlagKeepsInv(w: World, p: string)
    requires Inv(w)
    ensures Inv(FlagStep(w, p))
  {
    hide UpdateStep;
    if p in w.processes && w.processes[p].Flagging? {
      var (id, ok) := (w.processes[p].id, w.processes[p].ok);
      assert ProcessFits(w, w.processes[p]);
      assert TaskFits(w, id);
      Deadlines.FlagUpdate(w.store, id, !ok);
      var row := w.store.tasks[id].(escrowPending := !ok);
      var u := w.(store := w.store.(tasks := w.store.tasks[id := row]));
      assert FlagStep(w, p) == Finish(u, p);
      assert TaskFits(u, id);
      hide Inv;
      RowStep(w, u, id);
      ProcessStep(u, Finish(u, p), p);
    }
  }

  lemma AcceptedRow(row: Row, worker: string, now: int)
    ensures AssignUpTo(row, AcceptUpdates(worker, now), 4)
         == row.(status := Accepted, worker := Some(worker), acceptedAt := Some(now))
  {
    var updates := AcceptUpdates(worker, now);
    assert AssignUpTo(row, updates, 1) == row.(status := Accepted);
    assert AssignUpTo(row, updates, 2) == Assign(AssignUpTo(row, updates, 1), updates[1]);
    assert AssignUpTo(row, updates, 3) == AssignUpTo(row, updates, 2);
  }

  lemma SubmittedRow(row: Row, now: int)
    ensures AssignUpTo(row, SubmitUpdates(now), 2) == row.(status := Submitted, submittedAt := Some(now))
  {
    var updates := SubmitUpdates(now);
    assert AssignUpTo(row, updates, 1) == row.(status := Submitted);
  }

  lemma {:induction false} OnlyStatusRow(row: Row, updates: seq<Assignment>, n: nat)
    requires 0 < n <= |updates| && updates[0].SetStatus? && forall i :: 0 < i < |updates| ==> updates[i].SetOther?
    ensures AssignUpTo(row, updates, n) == row.(status := updates[0].status)
  {
    if n > 1 {
      OnlyStatusRow(row, updates, n - 1);
    } else {
      assert AssignUpTo(row, updates, 0) == row;
    }
  }

  /** An update by the rest of the platform: it starts from status `from` or writes nothing. */
  lemma UpdateKeepsInv(w: World, id: string, updates: seq<Assignment>, from: Status, row: Row)
    requires Inv(w) && updates != [] && forall i :: 0 <= i < |updates| ==> !updates[i].SetUnknown?
    requires id in w.store.tasks ==> row == AssignUpTo(w.store.tasks[id], updates, |updates|)
    requires (Active(row.status) ==> Active(from)) && !Fired(row.status) && WorkerFits(row)
    requires id in w.store.tasks && w.store.tasks[id].status == from ==> Evolves(w.store.tasks[id], row)
    ensures Inv(w.(store := UpdateStep(w.store, id, updates, Some(from)).0))
  {
    var t := w.(store := UpdateStep(w.store, id, updates, Some(from)).0);
    assert KnownPrefix(updates) == |updates|;
    if id in w.store.tasks && w.store.tasks[id].status == from {
      assert t == w.(store := w.store.(tasks := w.store.tasks[id := row]));
      assert TaskFits(w, id);
      hide Inv, UpdateStep, AssignUpTo, WorkerFits;
      assert TaskFits(t, id);
      RowStep(w, t, id);
    } else {
      assert t == w;
    }
  }

  lemma AcceptKeepsInv(w: World, id: string, worker: string)
    requires Inv(w)
    ensures Inv(Next(w, Accept(id, worker)))
  {
    hide Inv, UpdateStep;
    if id in w.store.tasks {
      AcceptedRow(w.store.tasks[id], worker, w.now);
      UpdateKeepsInv(w, id, AcceptUpdates(worker, w.now), Open,
                     w.store.tasks[id].(status := Accepted, worker := Some(worker), acceptedAt := Some(w.now)));
    } else {
      NoSuchTask(w, id, AcceptUpdates(worker, w.now), Open);
    }
  }

  lemma NoSuchTask(w: World, id: string, updates: seq<Assignment>, from: Status)
    requires id !in w.store.tasks
    ensures w.(store := UpdateStep(w.store, id, updates, Some(from)).0) == w
  {
  }

  /** What the writer of a later status needs to know of the row. */
  lemma WorkerIsKnown(w: World, id: string)
    requires Inv(w) && id in w.store.tasks
    ensures WorkerFits(w.store.tasks[id])
  {
    assert TaskFits(w, id);
  }

  lemma SubmitKeepsInv(w: World, id: string)
    requires Inv(w)
    ensures Inv(Next(w, Submit(id)))
  {
    if id in w.store.tasks && w.store.tasks[id].status == Accepted {
      SubmittedRow(w.store.tasks[id], w.now);
      WorkerIsKnown(w, id);
      hide Inv, UpdateStep;
      UpdateKeepsInv(w, id, SubmitUpdates(w.now), Accepted,
                     w.store.tasks[id].(status := Submitted, submittedAt := Some(w.now)));
    }
  }

  lemma StatusKeepsInv(w: World, id: string, updates: seq<Assignment>, from: Status)
    requires Inv(w) && 0 < |updates| && updates[0].SetStatus?
    requires forall i :: 0 < i < |updates| ==> updates[i].SetOther?
    requires (updates[0].status == Disputed && from == Submitted) || (updates[0].status == Ruled && from == Disputed)
    ensures Inv(w.(store := UpdateStep(w.store, id, updates, Some(from)).0))
  {
    hide Inv, UpdateStep;
    if id in w.store.tasks {
      OnlyStatusRow(w.store.tasks[id], updates, |updates|);
      UpdateKeepsInv(w, id, updates, from, w.store.tasks[id].(status := updates[0].status));
    } else {
      NoSuchTask(w, id, updates, from);
    }
  }

  lemma PlaceBidKeepsInv(w: World, bidId: string, bid: Bid)
    requires Inv(w)
    ensures Inv(Next(w, PlaceBid(bidId, bid)))
  {
    if bid.task in w.store.tasks {
      assert TaskFits(w, bid.task);
      assert TaskFits(Next(w, PlaceBid(bidId, bid)), bid.task);
      hide Inv;
      RowStep(w, Next(w, PlaceBid(bidId, bid)), bid.task);
    }
  }

  lemma PostKeepsInv(w: World, id: string, row: Row)
    requires Inv(w) && Allowed(w, Post(id, row))
    ensures Inv(Next(w, Post(id, row)))
  {
    var t := Next(w, Post(id, row));
    forall x | x in t.store.tasks ensures TaskFits(t, x) {
      if x != id || id in w.store.tasks {
        assert TaskFits(w, x);
      }
    }
    forall p | p in t.processes ensures ProcessFits(t, t.processes[p]) {
      assert ProcessFits(w, w.processes[p]);
    }
    assert OnlyResolvedPaid(t);
  }

  /** A late release is the one that the task's outcome calls for, so it does no harm. */
  lemma ArriveKeepsInv(w: World, request: Request, txId: string)
    requires Inv(w)
    ensures Inv(Next(w, Arrive(request, txId)))
  {
    if request in w.adrift {
      assert RequestFits(w, request);
      hide Inv, Banked;
      RightfulCallStep(w, request.id, txId);
    }
  }

  lemma TickKeepsInv(w: World, d: nat)
    requires Inv(w)
    ensures Inv(Next(w, Tick(d)))
  {
    var t := Next(w, Tick(d));
    forall id | id in t.store.tasks ensures TaskFits(t, id) {
      assert TaskFits(w, id);
    }
    forall p | p in t.processes ensures ProcessFits(t, t.processes[p]) {
      assert ProcessFits(w, w.processes[p]);
    }
    assert OnlyResolvedPaid(t);
  }

  lemma NextKeepsInv(w: World, ev: Event)
    requires Inv(w) && Allowed(w, ev)
    ensures Inv(Next(w, ev))
  {
    hide Inv;
    match ev
    case Load(p, id) => LoadKeepsInv(w, p, id);
    case Evaluate(p) => EvaluateKeepsInv(w, p);
    case Retry(p) => RetryKeepsInv(w, p);
    case CompareAndSet(p) => CompareAndSetKeepsInv(w, p);
    case Send(p, delivery, txId) => SendKeepsInv(w, p, delivery, txId);
    case Flag(p) => FlagKeepsInv(w, p);
    case Arrive(request, txId) => ArriveKeepsInv(w, request, txId);
    case Tick(d) => TickKeepsInv(w, d);
    case Post(id, row) => PostKeepsInv(w, id, row);
    case Accept(id, worker) => AcceptKeepsInv(w, id, worker);
    case Submit(id) => SubmitKeepsInv(w, id);
    case Dispute(id) => StatusKeepsInv(w, id, DisputeUpdates(), Submitted);
    case Rule(id) => StatusKeepsInv(w, id, RuleUpdates(), Disputed);
    case PlaceBid(bidId, bid) => PlaceBidKeepsInv(w, bidId, bid);
    case BankCall(c) => OtherCallStep(w, c);
  }

  lemma {:induction false} RunKeepsInv(now: int, events: seq<Event>, n: nat)
    requires AllowedRun(Start(now), events) && n <= |events|
    ensures Inv(After(Start(now), events, n))
  {
    if n > 0 {
      hide Next, Inv, Allowed;
      RunKeepsInv(now, events, n - 1);
      NextKeepsInv(After(Start(now), events, n - 1), events[n - 1]);
    } else {
      assert Inv(Start(now));
    }
  }

  // ----- What a caller can rely on

  /** Whatever the interleaving and the network, wherever processes crash and however late their releases arrive: an
      active task still has its escrow locked with nothing paid from it; from the escrow of a fired task nothing has
      been paid, or one payment of the whole amount, to the poster if it expired and to the worker if it was approved;
      and once the flag is down that payment has been made. */
  lemma MoneyFollowsTheTask(now: int, events: seq<Event>, n: nat, id: string)
    requires AllowedRun(Start(now), events) && n <= |events|
    requires id in After(Start(now), events, n).store.tasks
    ensures
      var w := After(Start(now), events, n);
      var row := w.store.tasks[id];
      && row.escrowId in w.bank.escrows
      && var escrow, paid := w.bank.escrows[row.escrowId], PaidFrom(w.payouts, row.escrowId);
      && (Active(row.status) ==> escrow.status == Ledger.Locked && paid == [])
      && (row.status == Expired ==> paid == [] || paid == [Payout(row.poster, escrow.amount)])
      && (row.status == Expired && !row.escrowPending ==> paid == [Payout(row.poster, escrow.amount)])
      && (row.status == Approved ==> row.worker.Some?)
      && (row.status == Approved ==> paid == [] || paid == [Payout(row.worker.value, escrow.amount)])
      && (row.status == Approved && !row.escrowPending ==> paid == [Payout(row.worker.value, escrow.amount)])
  {
    var w := After(Start(now), events, n);
    RunKeepsInv(now, events, n);
    assert TaskFits(w, id);
    var e := w.store.tasks[id].escrowId;
    assert PaidFrom(w.payouts, e) != [] ==> LedgerTheorems.Resolved(w.bank, e);
    hide After, AllowedRun;
  }

  /** No transition fires before its deadline has passed on the clock that stamps it. */
  lemma NothingFiresEarly(now: int, events: seq<Event>, n: nat, id: string)
    requires AllowedRun(Start(now), events) && n <= |events|
    requires id in After(Start(now), events, n).store.tasks
    ensures FiredOnTime(After(Start(now), events, n).store.tasks[id], After(Start(now), events, n).now)
  {
    RunKeepsInv(now, events, n);
    assert TaskFits(After(Start(now), events, n), id);
  }

  // ----- One transition per task

  ghost predicate TasksEvolve(w: World, t: World) {
    forall id :: id in w.store.tasks ==> id in t.store.tasks && Evolves(w.store.tasks[id], t.store.tasks[id])
  }

  lemma CompareAndSetEvolves(w: World, p: string)
    requires Inv(w)
    ensures TasksEvolve(w, CompareAndSetStep(w, p))
  {
    if p in w.processes && w.processes[p].Due? {
      var (id, row, move) := (w.processes[p].id, w.processes[p].row, w.processes[p].move);
      assert ProcessFits(w, w.processes[p]);
      Deadlines.TransitionUpdate(w.store, id, move, w.now);
      hide UpdateStep, Inv;
    }
  }

  lemma FlagEvolves(w: World, p: string)
    requires Inv(w)
    ensures TasksEvolve(w, FlagStep(w, p))
  {
    if p in w.processes && w.processes[p].Flagging? {
      assert ProcessFits(w, w.processes[p]);
      Deadlines.FlagUpdate(w.store, w.processes[p].id, !w.processes[p].ok);
      hide UpdateStep, Inv;
    }
  }

  lemma UpdateEvolves(w: World, id: string, updates: seq<Assignment>, from: Status, row: Row)
    requires updates != [] && forall i :: 0 <= i < |updates| ==> !updates[i].SetUnknown?
    requires id in w.store.tasks ==> row == AssignUpTo(w.store.tasks[id], updates, |updates|)
    requires id in w.store.tasks && w.store.tasks[id].status == from ==> Evolves(w.store.tasks[id], row)
    ensures TasksEvolve(w, w.(store := UpdateStep(w.store, id, updates, Some(from)).0))
  {
    assert KnownPrefix(updates) == |updates|;
    hide AssignUpTo;
  }

  lemma NextEvolves(w: World, ev: Event)
    requires Inv(w)
    ensures TasksEvolve(w, Next(w, ev))
  {
    hide UpdateStep, Inv, Ledger.Step, Deadlines.ReleaseStep, Recorded, Deadlines.Decide, CompareAndSetStep, FlagStep;
    match ev
    case CompareAndSet(p) => CompareAndSetEvolves(w, p);
    case Flag(p) => FlagEvolves(w, p);
    case Accept(id, worker) => AcceptEvolves(w, id, worker);
    case Submit(id) => SubmitEvolves(w, id);
    case Dispute(id) => StatusEvolves(w, id, DisputeUpdates(), Submitted);
    case Rule(id) => StatusEvolves(w, id, RuleUpdates(), Disputed);
    case _ =>
  }

  lemma AcceptEvolves(w: World, id: string, worker: string)
    ensures TasksEvolve(w, Next(w, Accept(id, worker)))
  {
    hide UpdateStep;
    if id in w.store.tasks {
      AcceptedRow(w.store.tasks[id], worker, w.now);
      UpdateEvolves(w, id, AcceptUpdates(worker, w.now), Open,
                    w.store.tasks[id].(status := Accepted, worker := Some(worker), acceptedAt := Some(w.now)));
    } else {
      NoSuchTask(w, id, AcceptUpdates(worker, w.now), Open);
    }
  }

  lemma SubmitEvolves(w: World, id: string)
    ensures TasksEvolve(w, Next(w, Submit(id)))
  {
    hide UpdateStep;
    if id in w.store.tasks {
      SubmittedRow(w.store.tasks[id], w.now);
      UpdateEvolves(w, id, SubmitUpdates(w.now), Accepted,
                    w.store.tasks[id].(status := Submitted, submittedAt := Some(w.now)));
    } else {
      NoSuchTask(w, id, SubmitUpdates(w.now), Accepted);
    }
  }

  lemma StatusEvolves(w: World, id: string, updates: seq<Assignment>, from: Status)
    requires 0 < |updates| && updates[0].SetStatus? && forall i :: 0 < i < |updates| ==> updates[i].SetOther?
    requires (updates[0].status == Disputed && from == Submitted) || (updates[0].status == Ruled && from == Disputed)
    ensures TasksEvolve(w, w.(store := UpdateStep(w.store, id, updates, Some(from)).0))
  {
    hide UpdateStep;
    if id in w.store.tasks {
      OnlyStatusRow(w.store.tasks[id], updates, |updates|);
      UpdateEvolves(w, id, updates, from, w.store.tasks[id].(status := updates[0].status));
    } else {
      NoSuchTask(w, id, updates, from);
    }
  }

  lemma TasksEvolveTransitive(u: World, v: World, w: World)
    requires TasksEvolve(u, v) && TasksEvolve(v, w)
    ensures TasksEvolve(u, w)
  {
    forall id | id in u.store.tasks ensures id in w.store.tasks && Evolves(u.store.tasks[id], w.store.tasks[id]) {
      EvolvesTransitive(u.store.tasks[id], v.store.tasks[id], w.store.tasks[id]);
    }
  }

  lemma {:induction false} RunEvolves(now: int, events: seq<Event>, i: nat, n: nat)
    requires AllowedRun(Start(now), events) && i <= n <= |events|
    ensures TasksEvolve(After(Start(now), events, i), After(Start(now), events, n))
  {
    hide Next, Inv, AllowedRun;
    var w := Start(now);
    if i < n {
      RunEvolves(now, events, i, n - 1);
      RunKeepsInv(now, events, n - 1);
      NextEvolves(After(w, events, n - 1), events[n - 1]);
      TasksEvolveTransitive(After(w, events, i), After(w, events, n - 1), After(w, events, n));
    }
  }

  /** From `w` to `t`, task `id` goes from an active status to expired or approved. */
  predicate Fires(w: World, t: World, id: string) {
    && id in w.store.tasks && Active(w.store.tasks[id].status)
    && id in t.store.tasks && Fired(t.store.tasks[id].status)
  }

  /** However many evaluators hold the same stale row, one transition lands. */
  lemma FiresAtMostOnce(now: int, events: seq<Event>, id: string, i: nat, j: nat)
    requires AllowedRun(Start(now), events) && i < j < |events|
    requires Fires(After(Start(now), events, i), After(Start(now), events, i + 1), id)
    ensures !Fires(After(Start(now), events, j), After(Start(now), events, j + 1), id)
  {
    hide AllowedRun, TasksEvolve, After;
    RunEvolves(now, events, i + 1, j);
    FiredStaysFired(After(Start(now), events, i + 1), After(Start(now), events, j), id);
  }

  lemma FiredStaysFired(w: World, t: World, id: string)
    requires TasksEvolve(w, t) && id in w.store.tasks && Fired(w.store.tasks[id].status)
    ensures id in t.store.tasks && t.store.tasks[id].status == w.store.tasks[id].status
  {
    assert Evolves(w.store.tasks[id], t.store.tasks[id]);
  }

  // ----- One evaluator on its own

  /** A process nobody interrupts does what evaluate_deadline does in one call. */
  lemma UninterruptedIsEvaluate(w: World, p: string, id: string, delivery: Delivery, txId: string)
    requires id in w.store.tasks
    ensures
      var t := FlagStep(SendStep(CompareAndSetStep(EvaluateStep(LoadStep(w, p, id), p), p), p, delivery, txId), p);
      var e := Deadlines.EvaluateStep(w.store, w.bank, id, w.store.tasks[id], w.now, delivery, txId);
      t.store == e.store && t.bank == e.bank && t.processes == w.processes - {p}
  {
    hide CompareAndSetStep, SendStep, FlagStep, Deadlines.ReleaseStep;
    var row := w.store.tasks[id];
    var d := Deadlines.Decide(row, w.now);
    Deadlines.EvaluateIs(w.store, w.bank, id, row, w.now, delivery, txId);
    var v := LetGo(w, p);
    var decided := EvaluateStep(LoadStep(w, p, id), p);
    assert (v.store, v.bank, v.now, v.processes) == (w.store, w.bank, w.now, w.processes);
    LoadAndDecide(w, p, id);
    hide LoadStep, EvaluateStep, LetGo;
    if d.None? {
      NothingToDo(decided, p, delivery, txId);
    } else {
      LandAndSettle(v, decided, p, id, d.value, delivery, txId);
    }
  }

  /** After a process that nobody interrupted, the task it loaded is not overdue. */
  lemma UninterruptedLeavesNothingOverdue(w: World, p: string, id: string, delivery: Delivery, txId: string)
    requires id in w.store.tasks
    ensures
      var t := FlagStep(SendStep(CompareAndSetStep(EvaluateStep(LoadStep(w, p, id), p), p), p, delivery, txId), p);
      && id in t.store.tasks && !Deadlines.Overdue(t.store.tasks[id], w.now)
      && (t.store.tasks[id].status != w.store.tasks[id].status <==> Deadlines.Overdue(w.store.tasks[id], w.now))
  {
    UninterruptedIsEvaluate(w, p, id, delivery, txId);
    Deadlines.FiresIffOverdue(w.store, w.bank, id, w.store.tasks[id], w.now, delivery, txId);
    hide LoadStep, EvaluateStep, CompareAndSetStep, SendStep, FlagStep, Deadlines.EvaluateStep, Deadlines.CutToSecond;
  }

  lemma LoadAndDecide(w: World, p: string, id: string)
    requires id in w.store.tasks
    ensures
      var row, v := w.store.tasks[id], LetGo(w, p);
      var d := Deadlines.Decide(row, w.now);
      EvaluateStep(LoadStep(w, p, id), p)
      == if d.None? then Finish(v, p) else Become(v, p, Due(id, row, d.value, w.now))
  {
    hide LetGo;
    assert LetGo(w, p).now == w.now by {
      LetGoOnlyAdds(w, p);
    }
  }

  lemma LetGoOnlyAdds(w: World, p: string)
    ensures LetGo(w, p) == w.(adrift := LetGo(w, p).adrift) && w.adrift <= LetGo(w, p).adrift
  {
  }

  lemma NothingToDo(w: World, p: string, delivery: Delivery, txId: string)
    requires p !in w.processes
    ensures FlagStep(SendStep(CompareAndSetStep(w, p), p, delivery, txId), p) == w
  {
  }

  lemma LandAndSettle(w: World, decided: World, p: string, id: string, move: Deadlines.Transition,
                      delivery: Delivery, txId: string)
    requires id in w.store.tasks && decided == Become(w, p, Due(id, w.store.tasks[id], move, w.now))
    requires Deadlines.Decide(w.store.tasks[id], w.now) == Some(move)
    ensures
      var t := FlagStep(SendStep(CompareAndSetStep(decided, p), p, delivery, txId), p);
      var (paid, ok) := Deadlines.ReleaseStep(w.bank, w.store.tasks[id].escrowId, move.recipient, delivery, txId);
      var end := Deadlines.Landed(w.store.tasks[id], move.to, w.now, !ok);
      && t.store == w.store.(tasks := w.store.tasks[id := end]) && t.bank == paid
      && t.processes == w.processes - {p}
  {
    var row := w.store.tasks[id];
    var landed := w.(store := w.store.(tasks := w.store.tasks[id := Deadlines.Landed(row, move.to, w.now, true)]));
    LandStep(w, decided, p, id, move);
    hide Deadlines.Decide, CompareAndSetStep, SendStep, FlagStep, Deadlines.ReleaseStep;
    SendAndFlag(landed, p, id, row.escrowId, move.recipient, delivery, txId);
  }

  lemma LandStep(w: World, decided: World, p: string, id: string, move: Deadlines.Transition)
    requires id in w.store.tasks && decided == Become(w, p, Due(id, w.store.tasks[id], move, w.now))
    requires Deadlines.Decide(w.store.tasks[id], w.now) == Some(move)
    ensures
      var row := w.store.tasks[id];
      var landed := w.(store := w.store.(tasks := w.store.tasks[id := Deadlines.Landed(row, move.to, w.now, true)]));
      CompareAndSetStep(decided, p) == Become(landed, p, Releasing(id, row.escrowId, move.recipient, false))
  {
    Deadlines.TransitionUpdate(w.store, id, move, w.now);
    hide UpdateStep, Deadlines.Decide, Deadlines.Landed;
  }

  lemma SendAndFlag(w: World, p: string, id: string, escrow: string, recipient: Option<string>,
                    delivery: Delivery, txId: string)
    requires id in w.store.tasks
    ensures
      var t := FlagStep(SendStep(Become(w, p, Releasing(id, escrow, recipient, false)), p, delivery, txId), p);
      var (paid, ok) := Deadlines.ReleaseStep(w.bank, escrow, recipient, delivery, txId);
      && t.store == w.store.(tasks := w.store.tasks[id := w.store.tasks[id].(escrowPending := !ok)])
      && t.bank == paid && t.processes == w.processes - {p}
  {
    var (paid, ok) := Deadlines.ReleaseStep(w.bank, escrow, recipient, delivery, txId);
    var sent := SendStep(Become(w, p, Releasing(id, escrow, recipient, false)), p, delivery, txId);
    hide Ledger.ReleaseStep, Recorded, UpdateStep;
    assert sent.bank == paid && sent.store == w.store && sent.processes == w.processes[p := Flagging(id, ok)];
    hide Deadlines.ReleaseStep, SendStep;
    Deadlines.FlagUpdate(w.store, id, !ok);
  }

  // ----- What the assumption on others excludes

  /** Why others must leave the escrow of an active task alone. Two creations of one task share its escrow: the
      second lock is answered with the first one's escrow and changes nothing. If the second insert then fails,
      create_task takes its lock back by a release to the poster, and the task that was created is left without
      money while it is still active. */
  lemma LosingCreationUnfundsTask(w: World, id: string, newId: string, txId: string)
    requires Inv(w) && Ledger.IndexIsInverse(w.bank)
    requires id in w.store.tasks && Active(w.store.tasks[id].status)
    requires w.store.tasks[id].poster in w.bank.balances
    requires w.store.tasks[id].escrowId in w.bank.escrows && w.bank.escrows[w.store.tasks[id].escrowId].amount > 0
    ensures
      var row, escrow := w.store.tasks[id], w.bank.escrows[w.store.tasks[id].escrowId];
      var lock := Ledger.Lock(row.poster, escrow.amount, id, newId, txId);
      var rollback := Ledger.Release(row.escrowId, row.poster, txId);
      && Ledger.Step(w.bank, lock)
         == (w.bank, Ok(Ledger.EscrowLocked(row.escrowId, escrow.amount, id, Ledger.Locked)))
      && LedgerTheorems.Resolved(Banked(w, rollback).bank, row.escrowId)
      && !Inv(Banked(w, rollback))
  {
    assert TaskFits(w, id);
    var row := w.store.tasks[id];
    var t := Banked(w, Ledger.Release(row.escrowId, row.poster, txId));
    assert LedgerTheorems.Resolved(t.bank, row.escrowId);
    assert !TaskFits(t, id);
  }
}
