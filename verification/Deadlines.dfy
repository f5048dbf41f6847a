/** Lazy deadline evaluation and the escrow coordinator, run with nobody else at work: the task store
    and the bank are the in-memory ones, a remote release may fail or lose its reply. */
module Deadlines {
  import opened Common
  import Ledger
  import LedgerStore
  import opened TaskStore

  const SECOND := 1_000_000

  // ----- Deadlines

  /** The base time plus the seconds, cut down to a whole second. */
  function ComputeDeadline(base: Option<int>, seconds: int): Option<int> {
    if base.None? then None else Some((base.value + seconds * SECOND) / SECOND * SECOND)
  }

  predicate Passed(base: Option<int>, seconds: int, now: int) {
    ComputeDeadline(base, seconds).Some? && now >= ComputeDeadline(base, seconds).value
  }

  /** A deadline fires early by exactly the fraction of a second that the cut removes, so never by a second. */
  lemma FiresLessThanASecondEarly(base: int, seconds: int, now: int)
    ensures Passed(Some(base), seconds, now) <==> now >= base + seconds * SECOND - (base + seconds * SECOND) % SECOND
    ensures Passed(Some(base), seconds, now) ==> now > base + seconds * SECOND - SECOND
    ensures now >= base + seconds * SECOND ==> Passed(Some(base), seconds, now)
  {
  }

  predicate IsTerminal(status: Status) {
    status == Approved || status == Cancelled || status == Ruled || status == Expired
  }

  /** A transition that a passed deadline calls for. */
  datatype Transition = Transition(from: Status, to: Status, recipient: Option<string>)

  /** What the evaluator decides from the row it was given. */
  function Decide(row: Row, now: int): Option<Transition> {
    match row.status
    case Open =>
      if Passed(row.createdAt, row.biddingSeconds, now) && row.bidCount == 0
      then Some(Transition(Open, Expired, Some(row.poster))) else None
    case Accepted =>
      if Passed(row.acceptedAt, row.deadlineSeconds, now)
      then Some(Transition(Accepted, Expired, Some(row.poster))) else None
    case Submitted =>
      if Passed(row.submittedAt, row.reviewSeconds, now)
      then Some(Transition(Submitted, Approved, row.worker)) else None
    case _ => None
  }

  function TransitionUpdates(to: Status, now: int): seq<Assignment> {
    [SetStatus(to), if to == Expired then SetExpiredAt(now) else SetApprovedAt(now), SetEscrowPending(true)]
  }

  // ----- Steps as values

  /** One release request: what it does to the bank, and whether the caller sees a success. */
  function ReleaseStep(bank: Ledger.State, escrow: string, recipient: Option<string>, delivery: Delivery, txId: string)
    : (Ledger.State, bool)
  {
    if delivery == RequestLost || recipient.None? then (bank, false)
    else
      var (after, answer) := Ledger.ReleaseStep(bank, escrow, recipient.value, txId);
      (after, delivery == Delivered && answer.Ok?)
  }

  /** What evaluating one task leaves: the store, the bank, and the row handed back. */
  datatype Evaluation = Evaluation(store: Store, bank: Ledger.State, row: Row)

  function EvaluateStep(store: Store, bank: Ledger.State, id: string, row: Row, now: int, delivery: Delivery,
                        txId: string): Evaluation
  {
    if IsTerminal(row.status) || Decide(row, now).None? then Evaluation(store, bank, row)
    else
      var d := Decide(row, now).value;
      var (moved, changed) := UpdateStep(store, id, TransitionUpdates(d.to, now), Some(d.from));
      if changed != Ok(1) then Evaluation(moved, bank, row)
      else
        var (paid, ok) := ReleaseStep(bank, row.escrowId, d.recipient, delivery, txId);
        var end := UpdateStep(moved, id, [SetEscrowPending(!ok)], None).0;
        Evaluation(end, paid, if id in end.tasks then end.tasks[id] else row)
  }

  function RetryRecipient(row: Row): Option<Option<string>> {
    if !row.escrowPending then None
    else if row.status == Expired then Some(Some(row.poster))
    else if row.status == Approved then Some(row.worker)
    else None
  }

  function RetryStep(store: Store, bank: Ledger.State, id: string, row: Row, delivery: Delivery, txId: string)
    : Evaluation
  {
    if RetryRecipient(row).None? then Evaluation(store, bank, row)
    else
      var (paid, ok) := ReleaseStep(bank, row.escrowId, RetryRecipient(row).value, delivery, txId);
      if ok then
        Evaluation(UpdateStep(store, id, [SetEscrowPending(false)], None).0, paid, row.(escrowPending := false))
      else Evaluation(store, paid, row)
  }

  // ----- The coordinator and the evaluator

  class EscrowCoordinator {
    const bank: LedgerStore.InMemoryLedgerStore
    const store: InMemoryTaskStore

    constructor (bank: LedgerStore.InMemoryLedgerStore, store: InMemoryTaskStore)
      ensures this.bank == bank && this.store == store
    {
      this.bank := bank;
      this.store := store;
    }

    method ReleaseEscrow(escrow: string, recipient: Option<string>, delivery: Delivery, txId: string)
      returns (ok: bool)
      modifies bank
      ensures (bank.Snapshot(), ok) == ReleaseStep(old(bank.Snapshot()), escrow, recipient, delivery, txId)
    {
      if delivery == RequestLost || recipient.None? {
        return false;
      }
      var answer := bank.EscrowRelease(escrow, recipient.value, txId);
      return delivery == Delivered && answer.Ok?;
    }

    method TryReleaseEscrow(id: string, escrow: string, recipient: Option<string>, delivery: Delivery, txId: string)
      modifies bank, store`tasks
      ensures
        var (paid, ok) := ReleaseStep(old(bank.Snapshot()), escrow, recipient, delivery, txId);
        && bank.Snapshot() == paid
        && store.Snapshot() == UpdateStep(old(store.Snapshot()), id, [SetEscrowPending(!ok)], None).0
    {
      var ok := ReleaseEscrow(escrow, recipient, delivery, txId);
      if ok {
        var _ := store.UpdateTask(id, [SetEscrowPending(false)], None);
      } else {
        var _ := store.UpdateTask(id, [SetEscrowPending(true)], None);
      }
    }

    method RetryPendingEscrow(id: string, row: Row, delivery: Delivery, txId: string) returns (r: Row)
      modifies bank, store`tasks
      ensures Evaluation(store.Snapshot(), bank.Snapshot(), r)
           == RetryStep(old(store.Snapshot()), old(bank.Snapshot()), id, row, delivery, txId)
    {
      if !row.escrowPending {
        return row;
      }
      var recipient;
      if row.status == Expired {
        recipient := Some(row.poster);
      } else if row.status == Approved {
        recipient := row.worker;
      } else {
        return row;
      }
      var ok := ReleaseEscrow(row.escrowId, recipient, delivery, txId);
      if ok {
        var _ := store.UpdateTask(id, [SetEscrowPending(false)], None);
        return row.(escrowPending := false);
      }
      return row;
    }
  }

  /** A task as it is handed to the evaluator: its id and the row read for it. */
  datatype Item = Item(id: string, row: Row)

  class DeadlineEvaluator {
    const coordinator: EscrowCoordinator
    const store: InMemoryTaskStore

    constructor (coordinator: EscrowCoordinator)
      ensures this.coordinator == coordinator && store == coordinator.store
    {
      this.coordinator := coordinator;
      this.store := coordinator.store;
    }

    method EvaluateDeadline(id: string, task: Row, now: int, delivery: Delivery, txId: string) returns (r: Row)
      requires store == coordinator.store
      modifies coordinator.bank, store`tasks
      ensures Evaluation(store.Snapshot(), coordinator.bank.Snapshot(), r)
           == EvaluateStep(old(store.Snapshot()), old(coordinator.bank.Snapshot()), id, task, now, delivery, txId)
    {
      if IsTerminal(task.status) {
        return task;
      }
      var row := coordinator.RetryPendingEscrow(id, task, delivery, txId);
      r := row;
      var due := false;
      var from, to, recipient := Open, Expired, Some(row.poster);
      if row.status == Open {
        var deadline := ComputeDeadline(row.createdAt, row.biddingSeconds);
        due := deadline.Some? && now >= deadline.value && row.bidCount == 0;
      } else if row.status == Accepted {
        var deadline := ComputeDeadline(row.acceptedAt, row.deadlineSeconds);
        due := deadline.Some? && now >= deadline.value;
        from := Accepted;
      } else if row.status == Submitted {
        var deadline := ComputeDeadline(row.submittedAt, row.reviewSeconds);
        due := deadline.Some? && now >= deadline.value;
        from, to, recipient := Submitted, Approved, row.worker;
      }
      assert Decide(row, now) == if due then Some(Transition(from, to, recipient)) else None;
      hide Decide, Passed, ComputeDeadline, ReleaseStep;
      if due {
        var changed := store.UpdateTask(id, TransitionUpdates(to, now), Some(from));
        if changed == Ok(1) {
          coordinator.TryReleaseEscrow(id, row.escrowId, recipient, delivery, txId);
          var refreshed := store.GetTask(id);
          if refreshed.Some? {
            r := refreshed.value;
          }
        }
      }
    }

    method EvaluateDeadlinesBatch(items: seq<Item>, clock: string -> int, network: string -> Delivery,
                                  txIds: string -> string)
      returns (result: seq<Row>)
      requires store == coordinator.store
      modifies coordinator.bank, store`tasks
      ensures (store.Snapshot(), coordinator.bank.Snapshot(), result)
           == BatchUpTo(old(store.Snapshot()), old(coordinator.bank.Snapshot()), items, clock, network, txIds, |items|)
    {
      result := [];
      for i := 0 to |items|
        invariant (store.Snapshot(), coordinator.bank.Snapshot(), result)
               == BatchUpTo(old(store.Snapshot()), old(coordinator.bank.Snapshot()), items, clock, network, txIds, i)
      {
        var evaluated :=
          EvaluateDeadline(items[i].id, items[i].row, clock(items[i].id), network(items[i].id), txIds(items[i].id));
        result := result + [evaluated];
      }
    }
  }

  /** The batch after its first `n` items: store, bank, rows handed back. Each item has its own reading of the clock. */
  function BatchUpTo(store: Store, bank: Ledger.State, items: seq<Item>, clock: string -> int,
                     network: string -> Delivery, txIds: string -> string, n: nat): (Store, Ledger.State, seq<Row>)
    requires n <= |items|
  {
    if n == 0 then (store, bank, [])
    else
      var (s, b, rows) := BatchUpTo(store, bank, items, clock, network, txIds, n - 1);
      var item := items[n - 1];
      var e := EvaluateStep(s, b, item.id, item.row, clock(item.id), network(item.id), txIds(item.id));
      (e.store, e.bank, rows + [e.row])
  }

  // ----- What an evaluation amounts to

  /** A row after its transition at `now`. */
  function Landed(row: Row, to: Status, now: int, pending: bool): Row {
    if to == Expired then row.(status := to, expiredAt := Some(now), escrowPending := pending)
    else row.(status := to, approvedAt := Some(now), escrowPending := pending)
  }

  /** The compare-and-set of transition `d` on task `id` finds the status it expects. */
  predicate Lands(store: Store, id: string, d: Transition) {
    id in store.tasks && store.tasks[id].status == d.from
  }

  lemma TransitionUpdate(store: Store, id: string, d: Transition, now: int)
    requires d.to == Expired || d.to == Approved
    ensures UpdateStep(store, id, TransitionUpdates(d.to, now), Some(d.from))
         == if Lands(store, id, d)
            then (store.(tasks := store.tasks[id := Landed(store.tasks[id], d.to, now, true)]), Ok(1))
            else (store, Ok(0))
  {
    var updates := TransitionUpdates(d.to, now);
    assert KnownPrefix(updates) == 3;
    if Lands(store, id, d) {
      var row := store.tasks[id];
      assert AssignUpTo(row, updates, 1) == row.(status := d.to);
      assert AssignUpTo(row, updates, 2) == Assign(row.(status := d.to), updates[1]);
      assert AssignUpTo(row, updates, 3) == Assign(AssignUpTo(row, updates, 2), updates[2]);
    }
  }

  lemma FlagUpdate(store: Store, id: string, pending: bool)
    requires id in store.tasks
    ensures UpdateStep(store, id, [SetEscrowPending(pending)], None)
         == (store.(tasks := store.tasks[id := store.tasks[id].(escrowPending := pending)]), Ok(1))
  {
    var updates := [SetEscrowPending(pending)];
    assert KnownPrefix(updates) == 1;
    assert AssignUpTo(store.tasks[id], updates, 1) == Assign(AssignUpTo(store.tasks[id], updates, 0), updates[0]);
  }

  /** An evaluation either does nothing at all, or lands one transition, sends one release, and leaves the
      flag saying whether the reply was a success. */
  lemma EvaluateIs(store: Store, bank: Ledger.State, id: string, row: Row, now: int, delivery: Delivery, txId: string)
    ensures
      var d := Decide(row, now);
      EvaluateStep(store, bank, id, row, now, delivery, txId)
      == if d.None? || !Lands(store, id, d.value) then Evaluation(store, bank, row)
         else
           var (paid, ok) := ReleaseStep(bank, row.escrowId, d.value.recipient, delivery, txId);
           var end := Landed(store.tasks[id], d.value.to, now, !ok);
           Evaluation(store.(tasks := store.tasks[id := end]), paid, end)
  {
    var d := Decide(row, now);
    if d.Some? {
      TransitionUpdate(store, id, d.value, now);
      if Lands(store, id, d.value) {
        var moved := UpdateStep(store, id, TransitionUpdates(d.value.to, now), Some(d.value.from)).0;
        hide ReleaseStep, UpdateStep;
        FlagUpdate(moved, id, true);
        FlagUpdate(moved, id, false);
      }
    }
  }

  // ----- Exactly when a task fires

  /** The instant without its fraction of a second. */
  function CutToSecond(instant: int): int {
    instant - instant % 1_000_000
  }

  /** The deadline that applies to the task has come: an open task without bids has run out of time to collect them, an
      accepted one to be delivered, a submitted one to be reviewed. */
  predicate Overdue(row: Row, now: int) {
    || (row.status == Open && row.bidCount == 0 && row.createdAt.Some?
        && CutToSecond(row.createdAt.value + row.biddingSeconds * 1_000_000) <= now)
    || (row.status == Accepted && row.acceptedAt.Some?
        && CutToSecond(row.acceptedAt.value + row.deadlineSeconds * 1_000_000) <= now)
    || (row.status == Submitted && row.submittedAt.Some?
        && CutToSecond(row.submittedAt.value + row.reviewSeconds * 1_000_000) <= now)
  }

  /** A passed deadline in the evaluator's own terms, `/` and `*` against `%`. */
  lemma PassedIff(base: Option<int>, seconds: int, now: int)
    ensures Passed(base, seconds, now) <==> base.Some? && CutToSecond(base.value + seconds * 1_000_000) <= now
  {
  }

  /** An evaluation moves the task exactly if the row it was given is overdue and the store still has its status. */
  lemma FiresIffOverdue(store: Store, bank: Ledger.State, id: string, row: Row, now: int, delivery: Delivery,
                        txId: string)
    requires id in store.tasks && store.tasks[id].status == row.status
    ensures
      var e := EvaluateStep(store, bank, id, row, now, delivery, txId);
      && (!Overdue(row, now) ==> e == Evaluation(store, bank, row))
      && (Overdue(row, now) ==> e.store == store.(tasks := store.tasks[id := e.row]))
      && (Overdue(row, now) && row.status == Open ==>
            e.row == store.tasks[id].(status := Expired, expiredAt := Some(now), escrowPending := e.row.escrowPending))
      && (Overdue(row, now) && row.status == Accepted ==>
            e.row == store.tasks[id].(status := Expired, expiredAt := Some(now), escrowPending := e.row.escrowPending))
      && (Overdue(row, now) && row.status == Submitted ==>
            e.row
            == store.tasks[id].(status := Approved, approvedAt := Some(now), escrowPending := e.row.escrowPending))
  {
    EvaluateIs(store, bank, id, row, now, delivery, txId);
    PassedIff(row.createdAt, row.biddingSeconds, now);
    PassedIff(row.acceptedAt, row.deadlineSeconds, now);
    PassedIff(row.submittedAt, row.reviewSeconds, now);
    hide EvaluateStep, ReleaseStep, Passed, CutToSecond;
  }

  /** On a row whose status the store no longer has, an evaluation does nothing. */
  lemma StaleStatusIsIdle(store: Store, bank: Ledger.State, id: string, row: Row, now: int, delivery: Delivery,
                          txId: string)
    requires id in store.tasks ==> store.tasks[id].status != row.status
    ensures EvaluateStep(store, bank, id, row, now, delivery, txId) == Evaluation(store, bank, row)
  {
    EvaluateIs(store, bank, id, row, now, delivery, txId);
    hide EvaluateStep, ReleaseStep, Passed;
  }

  /** A task that fires sends one release, of its own escrow: to the poster if it expires, to the worker if it is
      approved. The bank carries it out unless it is lost on the way, and the flag stays up unless the bank has
      accepted it and said so. */
  lemma FiringPays(store: Store, bank: Ledger.State, id: string, row: Row, now: int, delivery: Delivery, txId: string)
    requires id in store.tasks && store.tasks[id].status == row.status && Overdue(row, now)
    ensures
      var e := EvaluateStep(store, bank, id, row, now, delivery, txId);
      var payee := if row.status == Submitted then row.worker else Some(row.poster);
      && (delivery == RequestLost || payee.None? ==> e.bank == bank && e.row.escrowPending)
      && (delivery != RequestLost && payee.Some? ==>
            var (after, answer) := Ledger.Step(bank, Ledger.Release(row.escrowId, payee.value, txId));
            e.bank == after && (e.row.escrowPending <==> delivery == ReplyLost || answer.Err?))
  {
    EvaluateIs(store, bank, id, row, now, delivery, txId);
    PassedIff(row.createdAt, row.biddingSeconds, now);
    PassedIff(row.acceptedAt, row.deadlineSeconds, now);
    PassedIff(row.submittedAt, row.reviewSeconds, now);
    hide EvaluateStep, Ledger.ReleaseStep, Passed, CutToSecond;
    var d := Decide(row, now).value;
    var ok := ReleaseStep(bank, row.escrowId, d.recipient, delivery, txId).1;
    assert EvaluateStep(store, bank, id, row, now, delivery, txId).row == Landed(store.tasks[id], d.to, now, !ok);
    assert Landed(store.tasks[id], d.to, now, !ok).escrowPending == !ok;
    if delivery != RequestLost && d.recipient.Some? {
      var answer := Ledger.Step(bank, Ledger.Release(row.escrowId, d.recipient.value, txId)).1;
      assert ok <==> delivery == Delivered && answer.Ok?;
      assert answer.Ok? <==> !answer.Err?;
    }
  }

  /** The retry acts exactly on an expired or approved row with its flag up: it sends the release of its escrow, to the
      poster or to the worker, and only a success takes the flag down, in the store and in the row it hands back. */
  lemma RetryPays(store: Store, bank: Ledger.State, id: string, row: Row, delivery: Delivery, txId: string)
    requires id in store.tasks
    ensures
      var e := RetryStep(store, bank, id, row, delivery, txId);
      var payee := if row.status == Approved then row.worker else Some(row.poster);
      if row.escrowPending && (row.status == Expired || row.status == Approved) && payee.Some?
         && delivery != RequestLost
      then
        var (after, answer) := Ledger.Step(bank, Ledger.Release(row.escrowId, payee.value, txId));
        && e.bank == after
        && if delivery == Delivered && answer.Ok? then
             && e.row == row.(escrowPending := false)
             && e.store == store.(tasks := store.tasks[id := store.tasks[id].(escrowPending := false)])
           else (e.store, e.row) == (store, row)
      else e == Evaluation(store, bank, row)
  {
    FlagUpdate(store, id, false);
    hide Ledger.ReleaseStep, UpdateStep;
  }

  // ----- What the evaluator never does

  /** evaluate_deadline reaches the retry only for statuses on which the retry does nothing: a release
      that failed is never sent again from here. */
  lemma RetryIsIdleInsideEvaluate(store: Store, bank: Ledger.State, id: string, row: Row, delivery: Delivery,
                                  txId: string)
    requires !IsTerminal(row.status)
    ensures RetryStep(store, bank, id, row, delivery, txId) == Evaluation(store, bank, row)
  {
  }

  /** Evaluating twice at one instant is evaluating once: the second call, whatever the network would do to a
      request and whatever bank would receive it, changes neither store nor bank and hands the same row back.
      As the bank may be any, no request reaches it. */
  lemma EvaluateIsIdempotent(store: Store, bank: Ledger.State, id: string, row: Row, now: int,
                             delivery: Delivery, txId: string, bank': Ledger.State, delivery': Delivery, txId': string)
    ensures
      var e := EvaluateStep(store, bank, id, row, now, delivery, txId);
      EvaluateStep(e.store, bank', id, e.row, now, delivery', txId') == Evaluation(e.store, bank', e.row)
  {
    var e := EvaluateStep(store, bank, id, row, now, delivery, txId);
    EvaluateIs(store, bank, id, row, now, delivery, txId);
    EvaluateIs(e.store, bank', id, e.row, now, delivery', txId');
    hide EvaluateStep, ReleaseStep;
  }

  /** A task that has a bid in the row read for it never expires from open. */
  lemma OpenTaskWithBidsStays(store: Store, bank: Ledger.State, id: string, row: Row, now: int, delivery: Delivery,
                              txId: string)
    requires row.status == Open && row.bidCount != 0
    ensures EvaluateStep(store, bank, id, row, now, delivery, txId) == Evaluation(store, bank, row)
  {
  }

  // ----- Batches in any order

  /** What a batch is compared on: rows, balances and escrows; journals record the order of the payments. */
  datatype World = World(tasks: map<string, Row>, balances: map<string, int>, escrows: map<string, Ledger.Escrow>)

  function View(store: Store, bank: Ledger.State): World {
    World(store.tasks, bank.balances, bank.escrows)
  }

  /** The effect of one release on balances and escrows, and whether the bank accepts it. */
  function PayStep(w: World, escrow: string, recipient: Option<string>, delivery: Delivery): (World, bool) {
    if delivery == RequestLost || recipient.None? || escrow !in w.escrows || recipient.value !in w.balances
       || w.escrows[escrow].status != Ledger.Locked
    then (w, false)
    else
      var a, row := recipient.value, w.escrows[escrow];
      (w.(balances := w.balances[a := w.balances[a] + row.amount],
          escrows := w.escrows[escrow := row.(status := Ledger.Released)]),
       delivery == Delivered)
  }

  function WorldStep(w: World, item: Item, clock: string -> int, network: string -> Delivery): World {
    var d := Decide(item.row, clock(item.id));
    if d.None? || item.id !in w.tasks || w.tasks[item.id].status != d.value.from then w
    else
      var (paid, ok) := PayStep(w, item.row.escrowId, d.value.recipient, network(item.id));
      paid.(tasks := paid.tasks[item.id := Landed(paid.tasks[item.id], d.value.to, clock(item.id), !ok)])
  }

  function WorldBatch(w: World, items: seq<Item>, clock: string -> int, network: string -> Delivery): World
    decreases |items|
  {
    if items == [] then w else WorldBatch(WorldStep(w, items[0], clock, network), items[1..], clock, network)
  }

  lemma ReleaseView(store: Store, bank: Ledger.State, escrow: string, recipient: Option<string>, delivery: Delivery,
                    txId: string)
    ensures
      var (paid, ok) := ReleaseStep(bank, escrow, recipient, delivery, txId);
      PayStep(View(store, bank), escrow, recipient, delivery) == (View(store, paid), ok)
  {
  }

  lemma EvaluateView(store: Store, bank: Ledger.State, item: Item, clock: string -> int, network: string -> Delivery,
                     txId: string)
    ensures
      var e := EvaluateStep(store, bank, item.id, item.row, clock(item.id), network(item.id), txId);
      View(e.store, e.bank) == WorldStep(View(store, bank), item, clock, network)
  {
    EvaluateIs(store, bank, item.id, item.row, clock(item.id), network(item.id), txId);
    hide EvaluateStep;
    var d := Decide(item.row, clock(item.id));
    if d.Some? {
      ReleaseView(store, bank, item.row.escrowId, d.value.recipient, network(item.id), txId);
      hide ReleaseStep, PayStep, Landed;
    }
  }

  lemma {:induction false} WorldBatchSnoc(w: World, items: seq<Item>, item: Item, clock: string -> int,
                                          network: string -> Delivery)
    ensures WorldBatch(w, items + [item], clock, network)
         == WorldStep(WorldBatch(w, items, clock, network), item, clock, network)
    decreases |items|
  {
    if items == [] {
      assert WorldBatch(w, [item], clock, network)
          == WorldBatch(WorldStep(w, item, clock, network), [], clock, network);
    } else {
      hide WorldStep;
      WorldBatchSnoc(WorldStep(w, items[0], clock, network), items[1..], item, clock, network);
      assert (items + [item])[1..] == items[1..] + [item];
    }
  }

  /** The batch loop, seen on rows, balances and escrows. */
  lemma {:induction false} BatchView(store: Store, bank: Ledger.State, items: seq<Item>, clock: string -> int,
                                     network: string -> Delivery, txIds: string -> string, n: nat)
    requires n <= |items|
    ensures
      var (s, b, rows) := BatchUpTo(store, bank, items, clock, network, txIds, n);
      View(s, b) == WorldBatch(View(store, bank), items[..n], clock, network) && |rows| == n
  {
    if n > 0 {
      BatchView(store, bank, items, clock, network, txIds, n - 1);
      var (s, b, rows) := BatchUpTo(store, bank, items, clock, network, txIds, n - 1);
      EvaluateView(s, b, items[n - 1], clock, network, txIds(items[n - 1].id));
      WorldBatchSnoc(View(store, bank), items[..n - 1], items[n - 1], clock, network);
      assert items[..n - 1] + [items[n - 1]] == items[..n];
    }
  }

  /** Batch over the first `n` items: each of these tasks is as its row was handed back, and is not overdue at the
      instant at which it was evaluated. */
  ghost predicate DoneUpTo(store: Store, rows: seq<Row>, items: seq<Item>, clock: string -> int, n: nat)
    requires n <= |items|
  {
    && |rows| == n
    && (forall k :: 0 <= k < n ==>
          items[k].id in store.tasks && store.tasks[items[k].id] == rows[k] && !Overdue(rows[k], clock(items[k].id)))
    && (forall k :: n <= k < |items| ==> items[k].id in store.tasks && store.tasks[items[k].id] == items[k].row)
  }

  /** After a batch over the rows as they are stored, no task of it is overdue, and the rows handed back are the rows
      stored. */
  lemma {:induction false} BatchLeavesNothingOverdue(store: Store, bank: Ledger.State, items: seq<Item>,
                                                     clock: string -> int, network: string -> Delivery,
                                                     txIds: string -> string, n: nat)
    requires n <= |items| && forall i, j :: 0 <= i < j < |items| ==> items[i].id != items[j].id
    requires forall k :: 0 <= k < |items| ==> items[k].id in store.tasks && store.tasks[items[k].id] == items[k].row
    ensures
      var (s, _, rows) := BatchUpTo(store, bank, items, clock, network, txIds, n);
      DoneUpTo(s, rows, items, clock, n)
  {
    if n > 0 {
      BatchLeavesNothingOverdue(store, bank, items, clock, network, txIds, n - 1);
      var (s, b, rows) := BatchUpTo(store, bank, items, clock, network, txIds, n - 1);
      var id, row := items[n - 1].id, items[n - 1].row;
      var e := EvaluateStep(s, b, id, row, clock(id), network(id), txIds(id));
      FiresIffOverdue(s, b, id, row, clock(id), network(id), txIds(id));
      hide EvaluateStep, Overdue, BatchUpTo;
      assert !Overdue(e.row, clock(id)) by {
        FiredIsNotOverdue(e.row, clock(id));
      }
      OneMoreDone(s, e.store, rows, e.row, items, clock, n);
    }
  }

  lemma FiredIsNotOverdue(row: Row, now: int)
    requires row.status == Expired || row.status == Approved || !Overdue(row, now)
    ensures !Overdue(row, now)
  {
  }

  lemma OneMoreDone(s: Store, t: Store, rows: seq<Row>, row: Row, items: seq<Item>, clock: string -> int, n: nat)
    requires 0 < n <= |items| && forall i, j :: 0 <= i < j < |items| ==> items[i].id != items[j].id
    requires DoneUpTo(s, rows, items, clock, n - 1)
    requires t == s || t == s.(tasks := s.tasks[items[n - 1].id := row])
    requires t == s ==> row == items[n - 1].row || row == s.tasks[items[n - 1].id]
    requires !Overdue(row, clock(items[n - 1].id))
    ensures DoneUpTo(t, rows + [row], items, clock, n)
  {
    hide Overdue;
  }

  predicate Apart(x: Item, y: Item) {
    x.id != y.id && x.row.escrowId != y.row.escrowId
  }

  predicate EachApart(items: seq<Item>, x: Item) {
    forall i :: 0 <= i < |items| ==> Apart(items[i], x)
  }

  predicate AllApart(items: seq<Item>) {
    forall i, j :: 0 <= i < j < |items| ==> Apart(items[i], items[j])
  }

  lemma PaymentsCommute(w: World, e: string, a: Option<string>, de: Delivery, f: string, b: Option<string>,
                        df: Delivery)
    requires e != f
    ensures
      var (w1, okE) := PayStep(w, e, a, de);
      var (w2, okF) := PayStep(w, f, b, df);
      && PayStep(w1, f, b, df) == (PayStep(w2, e, a, de).0, okF)
      && PayStep(w2, e, a, de).1 == okE
  {
    var w1, w2 := PayStep(w, e, a, de).0, PayStep(w, f, b, df).0;
    var x, y := PayStep(w1, f, b, df).0, PayStep(w2, e, a, de).0;
    assert x.balances == y.balances && x.escrows == y.escrows;
  }

  lemma PayIgnoresTasks(w: World, tasks: map<string, Row>, e: string, a: Option<string>, de: Delivery)
    ensures PayStep(w.(tasks := tasks), e, a, de) == (PayStep(w, e, a, de).0.(tasks := tasks), PayStep(w, e, a, de).1)
    ensures PayStep(w, e, a, de).0.tasks == w.tasks
  {
  }

  /** Two evaluations of different tasks on different escrows can be done in either order. */
  lemma EvaluationsCommute(w: World, x: Item, y: Item, clock: string -> int, network: string -> Delivery)
    requires Apart(x, y)
    ensures WorldStep(WorldStep(w, x, clock, network), y, clock, network)
         == WorldStep(WorldStep(w, y, clock, network), x, clock, network)
  {
    var dx, dy := Decide(x.row, clock(x.id)), Decide(y.row, clock(y.id));
    if dx.Some? && dy.Some? {
      var ex, ey := x.row.escrowId, y.row.escrowId;
      var wx, wy := WorldStep(w, x, clock, network), WorldStep(w, y, clock, network);
      var (px, okX) := PayStep(w, ex, dx.value.recipient, network(x.id));
      var (py, okY) := PayStep(w, ey, dy.value.recipient, network(y.id));
      PaymentsCommute(w, ex, dx.value.recipient, network(x.id), ey, dy.value.recipient, network(y.id));
      PayIgnoresTasks(w, w.tasks, ex, dx.value.recipient, network(x.id));
      PayIgnoresTasks(w, w.tasks, ey, dy.value.recipient, network(y.id));
      PayIgnoresTasks(px, wx.tasks, ey, dy.value.recipient, network(y.id));
      PayIgnoresTasks(py, wy.tasks, ex, dx.value.recipient, network(x.id));
      hide PayStep, Decide, Landed;
      assert WorldStep(wx, y, clock, network).tasks == WorldStep(wy, x, clock, network).tasks;
    }
  }

  /** An item that is apart from all before it can be evaluated first. */
  lemma {:induction false} EvaluateFirst(w: World, before: seq<Item>, x: Item, after: seq<Item>, clock: string -> int,
                                         network: string -> Delivery)
    requires EachApart(before, x)
    ensures WorldBatch(w, before + [x] + after, clock, network) == WorldBatch(w, [x] + before + after, clock, network)
    decreases |before|
  {
    hide WorldStep;
    if before != [] {
      var y, rest := before[0], before[1..];
      var wy := WorldStep(w, y, clock, network);
      assert (before + [x] + after)[1..] == rest + [x] + after;
      EvaluateFirst(wy, rest, x, after, clock, network);
      assert ([x] + rest + after)[1..] == rest + after;
      EvaluationsCommute(w, y, x, clock, network);
      var wx := WorldStep(w, x, clock, network);
      assert ([x] + before + after)[1..] == before + after && (before + after)[0] == y
         && (before + after)[1..] == rest + after;
    } else {
      assert before + [x] + after == [x] + before + after;
    }
  }

  lemma OthersAreApart(items: seq<Item>, k: nat)
    requires AllApart(items) && k < |items|
    ensures EachApart(items[..k], items[k]) && EachApart(items[..k] + items[k + 1..], items[k])
  {
    var others := items[..k] + items[k + 1..];
    forall i | 0 <= i < |others| ensures Apart(others[i], items[k]) {
      if i < k {
        assert Apart(items[i], items[k]);
      } else {
        assert Apart(items[k], items[i + 1]);
      }
    }
    forall i | 0 <= i < k ensures Apart(items[..k][i], items[k]) {
      assert Apart(items[i], items[k]);
    }
  }

  /** Any item of a batch can be evaluated first. */
  lemma BringForward(w: World, items: seq<Item>, k: nat, clock: string -> int, network: string -> Delivery)
    requires AllApart(items) && k < |items|
    ensures WorldBatch(w, items, clock, network)
         == WorldBatch(WorldStep(w, items[k], clock, network), items[..k] + items[k + 1..], clock, network)
  {
    OthersAreApart(items, k);
    hide WorldStep, AllApart, EachApart;
    var x, rest := items[k], items[..k] + items[k + 1..];
    EvaluateFirst(w, items[..k], x, items[k + 1..], clock, network);
    assert items == items[..k] + [x] + items[k + 1..];
    assert [x] + items[..k] + items[k + 1..] == [x] + rest;
    assert ([x] + rest)[1..] == rest;
  }

  lemma ApartUnderPermutation(items: seq<Item>, other: seq<Item>)
    requires AllApart(items) && multiset(items) == multiset(other)
    ensures AllApart(other)
  {
    forall i, j | 0 <= i < j < |other| ensures Apart(other[i], other[j]) {
      var x, y := other[i], other[j];
      assert other == other[..i] + [x] + other[i + 1..j] + [y] + other[j + 1..];
      assert multiset(items)
          == multiset(other[..i]) + multiset{x} + multiset(other[i + 1..j]) + multiset{y} + multiset(other[j + 1..]);
      assert x in multiset(items) && y in multiset(items);
      assert x in items && y in items;
      var a :| 0 <= a < |items| && items[a] == x;
      var b :| 0 <= b < |items| && items[b] == y;
      if a == b {
        assert multiset(items)[x] >= 2;
        DistinctItemsAppearOnce(items, a);
      } else if a < b {
        assert Apart(items[a], items[b]);
      } else {
        assert Apart(items[b], items[a]);
      }
    }
  }

  lemma DistinctItemsAppearOnce(items: seq<Item>, a: nat)
    requires AllApart(items) && a < |items|
    ensures multiset(items)[items[a]] == 1
  {
    assert items == items[..a] + [items[a]] + items[a + 1..];
    assert forall i :: 0 <= i < a ==> Apart(items[i], items[a]);
    assert forall i :: a < i < |items| ==> Apart(items[a], items[i]);
    assert items[a] !in items[..a] && items[a] !in items[a + 1..];
    assert multiset(items) == multiset(items[..a]) + multiset{items[a]} + multiset(items[a + 1..]);
  }

  lemma WithoutOne(items: seq<Item>, other: seq<Item>, k: nat)
    requires items != [] && multiset(items) == multiset(other) && k < |other| && other[k] == items[0]
    ensures multiset(items[1..]) == multiset(other[..k] + other[k + 1..])
  {
    var x := items[0];
    var rest := other[..k] + other[k + 1..];
    assert items == [x] + items[1..];
    assert other == other[..k] + [x] + other[k + 1..];
    assert multiset(items) - multiset{x} == multiset(items[1..]);
    assert multiset(other) == multiset(rest) + multiset{x};
    assert multiset(other) - multiset{x} == multiset(rest);
  }

  /** A batch over distinct tasks with distinct escrows ends the same in any order. */
  lemma {:induction false} BatchInAnyOrder(w: World, items: seq<Item>, other: seq<Item>, clock: string -> int,
                                           network: string -> Delivery)
    requires AllApart(items) && multiset(items) == multiset(other)
    ensures WorldBatch(w, items, clock, network) == WorldBatch(w, other, clock, network)
    decreases |items|
  {
    if items == [] {
      assert |multiset(other)| == 0;
      assert other == [];
    } else {
      hide WorldStep;
      var x := items[0];
      assert x in multiset(other);
      var k :| 0 <= k < |other| && other[k] == x;
      var rest := other[..k] + other[k + 1..];
      WithoutOne(items, other, k);
      ApartUnderPermutation(items, other);
      BringForward(w, other, k, clock, network);
      BatchInAnyOrder(WorldStep(w, x, clock, network), items[1..], rest, clock, network);
    }
  }

  lemma {:induction false} BatchLeavesOthers(w: World, items: seq<Item>, clock: string -> int,
                                             network: string -> Delivery,
                                             x: Item)
    requires EachApart(items, x)
    ensures
      var end := WorldBatch(w, items, clock, network);
      var id, e := x.id, x.row.escrowId;
      && (id in w.tasks <==> id in end.tasks) && (id in w.tasks ==> end.tasks[id] == w.tasks[id])
      && (e in w.escrows <==> e in end.escrows) && (e in w.escrows ==> end.escrows[e] == w.escrows[e])
    decreases |items|
  {
    if items != [] {
      BatchLeavesOthers(WorldStep(w, items[0], clock, network), items[1..], clock, network, x);
    }
  }

  lemma StepKeepsKeys(w: World, x: Item, clock: string -> int, network: string -> Delivery)
    ensures WorldStep(w, x, clock, network).tasks.Keys == w.tasks.Keys
    ensures WorldStep(w, x, clock, network).escrows.Keys == w.escrows.Keys
  {
  }

  /** In a batch every task and its escrow end as if the task had been evaluated alone. */
  lemma EachAsIfAlone(w: World, items: seq<Item>, k: nat, clock: string -> int, network: string -> Delivery)
    requires AllApart(items) && k < |items| && items[k].id in w.tasks && items[k].row.escrowId in w.escrows
    ensures
      var end := WorldBatch(w, items, clock, network);
      var alone := WorldStep(w, items[k], clock, network);
      var id, e := items[k].id, items[k].row.escrowId;
      && id in end.tasks && id in alone.tasks && end.tasks[id] == alone.tasks[id]
      && e in end.escrows && e in alone.escrows && end.escrows[e] == alone.escrows[e]
  {
    StepKeepsKeys(w, items[k], clock, network);
    OthersAreApart(items, k);
    BringForward(w, items, k, clock, network);
    hide WorldStep, AllApart, EachApart;
    BatchLeavesOthers(WorldStep(w, items[k], clock, network), items[..k] + items[k + 1..], clock, network, items[k]);
  }

  /** What evaluating `x` alone brings to account `a`. */
  function Gain(w: World, x: Item, clock: string -> int, network: string -> Delivery, a: string): int {
    var t := WorldStep(w, x, clock, network);
    (if a in t.balances then t.balances[a] else 0) - (if a in w.balances then w.balances[a] else 0)
  }

  function Gains(w: World, items: seq<Item>, clock: string -> int, network: string -> Delivery, a: string): int {
    if items == [] then 0 else Gain(w, items[0], clock, network, a) + Gains(w, items[1..], clock, network, a)
  }

  lemma StepKeepsAccounts(w: World, x: Item, clock: string -> int, network: string -> Delivery)
    ensures WorldStep(w, x, clock, network).balances.Keys == w.balances.Keys
  {
  }

  lemma GainIsUndisturbed(w: World, x: Item, y: Item, clock: string -> int, network: string -> Delivery, a: string)
    requires Apart(x, y)
    ensures Gain(WorldStep(w, x, clock, network), y, clock, network, a) == Gain(w, y, clock, network, a)
  {
    hide Decide, Landed;
  }

  lemma {:induction false} GainsAreUndisturbed(w: World, x: Item, items: seq<Item>, clock: string -> int,
                                               network: string -> Delivery, a: string)
    requires EachApart(items, x)
    ensures Gains(WorldStep(w, x, clock, network), items, clock, network, a) == Gains(w, items, clock, network, a)
  {
    hide WorldStep, Gain;
    if items != [] {
      assert Apart(items[0], x);
      GainIsUndisturbed(w, x, items[0], clock, network, a);
      GainsAreUndisturbed(w, x, items[1..], clock, network, a);
    }
  }

  /** In such a batch every account ends with what it had plus what each evaluation alone would have brought it. */
  lemma {:induction false} BalancesAddUp(w: World, items: seq<Item>, clock: string -> int, network: string -> Delivery,
                                         a: string)
    requires AllApart(items) && a in w.balances
    ensures a in WorldBatch(w, items, clock, network).balances
    ensures WorldBatch(w, items, clock, network).balances[a] == w.balances[a] + Gains(w, items, clock, network, a)
    decreases |items|
  {
    if items != [] {
      var x, rest := items[0], items[1..];
      var t := WorldStep(w, x, clock, network);
      StepKeepsAccounts(w, x, clock, network);
      OthersAreApart(items, 0);
      assert items[..0] + items[1..] == rest;
      assert AllApart(rest);
      hide WorldStep, AllApart, EachApart;
      BalancesAddUp(t, rest, clock, network, a);
      GainsAreUndisturbed(w, x, rest, clock, network, a);
    }
  }

  // ----- Repeating a batch

  /** The items of a second batch: the rows the first one handed back. */
  function Again(items: seq<Item>, rows: seq<Row>): seq<Item>
    requires |rows| == |items|
  {
    seq(|items|, i requires 0 <= i < |items| => Item(items[i].id, rows[i]))
  }

  /** Nothing is left to do for `item`: its row calls for no transition, or the transition cannot land. */
  predicate Settled(store: Store, item: Item, now: int) {
    var d := Decide(item.row, now);
    d.None? || !Lands(store, item.id, d.value)
  }

  /** Each of `rows` is settled as the row of the item at its place. */
  predicate AllSettled(store: Store, items: seq<Item>, rows: seq<Row>, clock: string -> int) {
    |rows| <= |items| && forall i :: 0 <= i < |rows| ==> Settled(store, Item(items[i].id, rows[i]), clock(items[i].id))
  }

  /** An evaluation settles its own item and unsettles no item of another task. */
  lemma EvaluationSettles(s: Store, b: Ledger.State, item: Item, now: int, delivery: Delivery, txId: string)
    ensures
      var e := EvaluateStep(s, b, item.id, item.row, now, delivery, txId);
      && Settled(e.store, Item(item.id, e.row), now)
      && forall other: Item, at: int :: other.id != item.id && Settled(s, other, at) ==> Settled(e.store, other, at)
  {
    EvaluateIs(s, b, item.id, item.row, now, delivery, txId);
    hide EvaluateStep, ReleaseStep;
  }

  lemma EvaluationSettlesOneMore(s: Store, b: Ledger.State, items: seq<Item>, rows: seq<Row>, clock: string -> int,
                                 delivery: Delivery, txId: string)
    requires AllApart(items) && |rows| < |items| && AllSettled(s, items, rows, clock)
    ensures
      var item := items[|rows|];
      var e := EvaluateStep(s, b, item.id, item.row, clock(item.id), delivery, txId);
      AllSettled(e.store, items, rows + [e.row], clock)
  {
    var item := items[|rows|];
    EvaluationSettles(s, b, item, clock(item.id), delivery, txId);
    hide EvaluateStep, Settled;
    assert forall i :: 0 <= i < |rows| ==> Apart(items[i], item);
  }

  /** After the first `n` items of a batch, the rows handed back so far are settled. */
  lemma {:induction false} BatchSettles(store: Store, bank: Ledger.State, items: seq<Item>, clock: string -> int,
                                        network: string -> Delivery, txIds: string -> string, n: nat)
    requires AllApart(items) && n <= |items|
    ensures
      var (s, b, rows) := BatchUpTo(store, bank, items, clock, network, txIds, n);
      |rows| == n && AllSettled(s, items, rows, clock)
  {
    if n > 0 {
      BatchSettles(store, bank, items, clock, network, txIds, n - 1);
      var (s, b, rows) := BatchUpTo(store, bank, items, clock, network, txIds, n - 1);
      EvaluationSettlesOneMore(s, b, items, rows, clock, network(items[n - 1].id), txIds(items[n - 1].id));
      hide EvaluateStep, AllSettled, AllApart;
    }
  }

  /** Repeating the whole batch at the same instant changes nothing, on whatever network and against whatever
      bank: no request is sent. */
  lemma RepeatedBatchIsIdle(store: Store, bank: Ledger.State, items: seq<Item>, clock: string -> int,
                            network: string -> Delivery, txIds: string -> string,
                            bank': Ledger.State, network': string -> Delivery, txIds': string -> string)
    requires AllApart(items)
    ensures
      var (s, _, rows) := BatchUpTo(store, bank, items, clock, network, txIds, |items|);
      |rows| == |items| && BatchUpTo(s, bank', Again(items, rows), clock, network', txIds', |items|) == (s, bank', rows)
  {
    BatchSettles(store, bank, items, clock, network, txIds, |items|);
    var (s, _, rows) := BatchUpTo(store, bank, items, clock, network, txIds, |items|);
    SettledBatchIsIdle(s, bank', Again(items, rows), clock, network', txIds', |items|);
    assert seq(|items|, i requires 0 <= i < |items| => Again(items, rows)[i].row) == rows;
  }

  lemma {:induction false} SettledBatchIsIdle(s: Store, b: Ledger.State, items: seq<Item>, clock: string -> int,
                                              network: string -> Delivery, txIds: string -> string, n: nat)
    requires n <= |items| && forall i :: 0 <= i < |items| ==> Settled(s, items[i], clock(items[i].id))
    ensures BatchUpTo(s, b, items, clock, network, txIds, n)
         == (s, b, seq(n, i requires 0 <= i < n => items[i].row))
  {
    if n > 0 {
      SettledBatchIsIdle(s, b, items, clock, network, txIds, n - 1);
      var item := items[n - 1];
      EvaluateIs(s, b, item.id, item.row, clock(item.id), network(item.id), txIds(item.id));
      assert Settled(s, item, clock(item.id));
      hide EvaluateStep;
      assert seq(n, i requires 0 <= i < n => items[i].row)
          == seq(n - 1, i requires 0 <= i < n - 1 => items[i].row) + [items[n - 1].row];
    }
  }
}
