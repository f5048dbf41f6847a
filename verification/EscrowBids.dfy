/** Open tasks, their bids and stale rows. The evaluator tests the bid count of the row it was given. In a batch that
    row goes stale while an earlier item of the batch awaits its release; bids placed meanwhile are not seen. */
module EscrowBids {
  import opened Common
  import Ledger
  import opened TaskStore
  import Deadlines
  import opened EscrowProtocol

  /** The event is a bid that the store takes for task `id`. */
  predicate AcceptsBid(w: World, ev: Event, id: string) {
    ev.PlaceBid? && ev.bid.task == id && InsertBidStep(w.store, ev.bidId, ev.bid).1 == Ok(1)
  }

  /** How many bids the store took for `id` in the events from `i` up to, not including, `n`. */
  function BidsBetween(w: World, events: seq<Event>, i: nat, n: nat, id: string): nat
    requires i <= n <= |events|
  {
    if n == i then 0
    else BidsBetween(w, events, i, n - 1, id) + if AcceptsBid(After(w, events, n - 1), events[n - 1], id) then 1 else 0
  }

  lemma UpdateKeepsCount(store: Store, x: string, updates: seq<Assignment>, expected: Option<Status>, id: string)
    requires id in store.tasks && forall i :: 0 <= i < |updates| ==> !updates[i].SetBidCount?
    ensures
      var t := UpdateStep(store, x, updates, expected).0;
      id in t.tasks && t.tasks[id].bidCount == store.tasks[id].bidCount
  {
    if x in store.tasks {
      AssignKeepsCount(store.tasks[x], updates, KnownPrefix(updates));
    }
    hide AssignUpTo;
  }

  predicate LeavesStore(ev: Event) {
    ev.Load? || ev.Evaluate? || ev.Retry? || ev.Send? || ev.Arrive? || ev.Tick? || ev.BankCall?
  }

  lemma StoreIsLeft(w: World, ev: Event)
    requires LeavesStore(ev)
    ensures Next(w, ev).store == w.store
  {
    hide Ledger.Step, Deadlines.ReleaseStep, Recorded, Deadlines.Decide;
  }

  lemma NextCounts(w: World, ev: Event, id: string)
    requires id in w.store.tasks
    ensures id in Next(w, ev).store.tasks
    ensures Next(w, ev).store.tasks[id].bidCount == w.store.tasks[id].bidCount + if AcceptsBid(w, ev, id) then 1 else 0
  {
    hide UpdateStep, LoadStep, EvaluateStep, RetryStep, SendStep, Banked;
    match ev
    case CompareAndSet(p) =>
      if p in w.processes && w.processes[p].Due? {
        var move := w.processes[p].move;
        UpdateKeepsCount(w.store, w.processes[p].id, Deadlines.TransitionUpdates(move.to, w.now), Some(move.from), id);
      }
    case Flag(p) =>
      if p in w.processes && w.processes[p].Flagging? {
        UpdateKeepsCount(w.store, w.processes[p].id, [SetEscrowPending(!w.processes[p].ok)], None, id);
      }
    case Accept(x, worker) => UpdateKeepsCount(w.store, x, AcceptUpdates(worker, w.now), Some(Open), id);
    case Submit(x) => UpdateKeepsCount(w.store, x, SubmitUpdates(w.now), Some(Accepted), id);
    case Dispute(x) => UpdateKeepsCount(w.store, x, DisputeUpdates(), Some(Submitted), id);
    case Rule(x) => UpdateKeepsCount(w.store, x, RuleUpdates(), Some(Disputed), id);
    case _ =>
      if LeavesStore(ev) {
        StoreIsLeft(w, ev);
      }
  }

  lemma {:induction false} CountGrowsByBids(w: World, events: seq<Event>, i: nat, n: nat, id: string)
    requires i <= n <= |events| && id in After(w, events, i).store.tasks
    ensures id in After(w, events, n).store.tasks
    ensures After(w, events, n).store.tasks[id].bidCount
         == After(w, events, i).store.tasks[id].bidCount + BidsBetween(w, events, i, n, id)
  {
    if i < n {
      hide Next, AcceptsBid;
      CountGrowsByBids(w, events, i, n - 1, id);
      NextCounts(After(w, events, n - 1), events[n - 1], id);
    }
  }

  lemma {:induction false} SomeBidIff(w: World, events: seq<Event>, i: nat, n: nat, id: string)
    requires i <= n <= |events|
    ensures BidsBetween(w, events, i, n, id) > 0
       <==> exists k :: i <= k < n && AcceptsBid(After(w, events, k), events[k], id)
  {
    hide After, AcceptsBid;
    if i < n {
      SomeBidIff(w, events, i, n - 1, id);
      if AcceptsBid(After(w, events, n - 1), events[n - 1], id) {
        assert BidsBetween(w, events, i, n, id) > 0;
      } else {
        hide BidsBetween;
        assert BidsBetween(w, events, i, n, id) == BidsBetween(w, events, i, n - 1, id) by {
          LastIsNoBid(w, events, i, n, id);
        }
      }
    }
  }

  lemma LastIsNoBid(w: World, events: seq<Event>, i: nat, n: nat, id: string)
    requires i < n <= |events| && !AcceptsBid(After(w, events, n - 1), events[n - 1], id)
    ensures BidsBetween(w, events, i, n, id) == BidsBetween(w, events, i, n - 1, id)
  {
  }

  // ----- The row a process acts on

  predicate HoldsRow(process: Process, id: string, row: Row) {
    (process.Loaded? || process.Due?) && process.id == id && process.row == row
  }

  predicate LoadsAgain(ev: Event, p: string) {
    ev.Load? && ev.p == p
  }

  /** Event `i` is the last time before `n` that process `p` loaded a row, and it loaded `row` for task `id`. */
  predicate LastLoad(w: World, events: seq<Event>, i: nat, n: nat, p: string, id: string, row: Row)
    requires i < n <= |events|
  {
    && events[i] == Load(p, id)
    && id in After(w, events, i).store.tasks && After(w, events, i).store.tasks[id] == row
    && forall k :: i < k < n ==> !LoadsAgain(events[k], p)
  }

  lemma RowFromBefore(w: World, ev: Event, p: string, id: string, row: Row)
    requires p in Next(w, ev).processes && HoldsRow(Next(w, ev).processes[p], id, row) && !LoadsAgain(ev, p)
    ensures p in w.processes && HoldsRow(w.processes[p], id, row)
  {
    hide UpdateStep, Ledger.Step, Deadlines.ReleaseStep, Recorded, Deadlines.Decide;
  }

  lemma RowFromLoad(w: World, ev: Event, p: string, id: string, row: Row)
    requires p in Next(w, ev).processes && HoldsRow(Next(w, ev).processes[p], id, row) && LoadsAgain(ev, p)
    ensures ev.id == id && id in w.store.tasks && w.store.tasks[id] == row
  {
  }

  /** Every row a process holds is one it read from the store at a load, its last. */
  lemma {:induction false} RowWasLoaded(now: int, events: seq<Event>, n: nat, p: string, id: string, row: Row)
    requires n <= |events| && p in After(Start(now), events, n).processes
    requires HoldsRow(After(Start(now), events, n).processes[p], id, row)
    ensures exists i :: 0 <= i < n && LastLoad(Start(now), events, i, n, p, id, row)
  {
    hide Next, HoldsRow;
    var w := Start(now);
    var ev := events[n - 1];
    assert After(w, events, n) == Next(After(w, events, n - 1), ev);
    if LoadsAgain(ev, p) {
      RowFromLoad(After(w, events, n - 1), ev, p, id, row);
      assert LastLoad(w, events, n - 1, n, p, id, row);
    } else {
      RowFromBefore(After(w, events, n - 1), ev, p, id, row);
      RowWasLoaded(now, events, n - 1, p, id, row);
      var i :| 0 <= i < n - 1 && LastLoad(w, events, i, n - 1, p, id, row);
      assert LastLoad(w, events, i, n, p, id, row);
    }
  }

  // ----- Expiry from open

  /** From `w` to `t`, task `id` goes from open to expired. */
  predicate ExpiresOpen(w: World, t: World, id: string) {
    && id in w.store.tasks && w.store.tasks[id].status == Open
    && id in t.store.tasks && t.store.tasks[id].status == Expired
  }

  lemma UpdateDoesNotExpire(store: Store, x: string, updates: seq<Assignment>, from: Status, row: Row, id: string)
    requires updates != [] && forall i :: 0 <= i < |updates| ==> !updates[i].SetUnknown?
    requires x in store.tasks ==> row == AssignUpTo(store.tasks[x], updates, |updates|)
    requires row.status != Expired && id in store.tasks && store.tasks[id].status == Open
    ensures
      var t := UpdateStep(store, x, updates, Some(from)).0;
      id in t.tasks && t.tasks[id].status != Expired
  {
    assert KnownPrefix(updates) == |updates|;
    hide AssignUpTo;
  }

  lemma OthersDoNotExpire(w: World, ev: Event, id: string)
    requires id in w.store.tasks && w.store.tasks[id].status == Open
    requires ev.Accept? || ev.Submit? || ev.Dispute? || ev.Rule?
    ensures !ExpiresOpen(w, Next(w, ev), id)
  {
    hide UpdateStep, AssignUpTo;
    var row := if ev.id in w.store.tasks then w.store.tasks[ev.id] else w.store.tasks[id];
    match ev
    case Accept(x, worker) =>
      AcceptedRow(row, worker, w.now);
      UpdateDoesNotExpire(w.store, x, AcceptUpdates(worker, w.now), Open,
                          row.(status := Accepted, worker := Some(worker), acceptedAt := Some(w.now)), id);
    case Submit(x) =>
      SubmittedRow(row, w.now);
      UpdateDoesNotExpire(w.store, x, SubmitUpdates(w.now), Accepted,
                          row.(status := Submitted, submittedAt := Some(w.now)), id);
    case Dispute(x) =>
      OnlyStatusRow(row, DisputeUpdates(), 3);
      UpdateDoesNotExpire(w.store, x, DisputeUpdates(), Submitted, row.(status := Disputed), id);
    case Rule(x) =>
      OnlyStatusRow(row, RuleUpdates(), 5);
      UpdateDoesNotExpire(w.store, x, RuleUpdates(), Disputed, row.(status := Ruled), id);
  }

  lemma FlagDoesNotExpire(w: World, p: string, id: string)
    requires Inv(w) && id in w.store.tasks && w.store.tasks[id].status == Open
    ensures !ExpiresOpen(w, FlagStep(w, p), id)
  {
    if p in w.processes && w.processes[p].Flagging? {
      assert ProcessFits(w, w.processes[p]);
      Deadlines.FlagUpdate(w.store, w.processes[p].id, !w.processes[p].ok);
      hide UpdateStep, Inv;
    }
  }

  lemma NewRowsDoNotExpire(w: World, ev: Event, id: string)
    requires id in w.store.tasks && w.store.tasks[id].status == Open && (ev.Post? || ev.PlaceBid?)
    ensures !ExpiresOpen(w, Next(w, ev), id)
  {
  }

  lemma ExpiryIsDue(w: World, p: string, id: string)
    requires Inv(w) && ExpiresOpen(w, CompareAndSetStep(w, p), id)
    ensures p in w.processes && w.processes[p].Due? && w.processes[p].id == id && w.processes[p].row.bidCount == 0
  {
    hide UpdateStep;
    if p in w.processes && w.processes[p].Due? {
      assert ProcessFits(w, w.processes[p]);
      Deadlines.TransitionUpdate(w.store, w.processes[p].id, w.processes[p].move, w.now);
    }
    hide Inv;
  }

  /** Only a compare-and-set expires an open task, and it acts on a row of that task without bids. */
  lemma ExpiresByCompareAndSet(w: World, ev: Event, id: string)
    requires Inv(w) && ExpiresOpen(w, Next(w, ev), id)
    ensures ev.CompareAndSet? && ev.p in w.processes && w.processes[ev.p].Due?
    ensures w.processes[ev.p].id == id && w.processes[ev.p].row.bidCount == 0
  {
    hide Inv, UpdateStep, CompareAndSetStep, FlagStep, LoadStep, EvaluateStep, RetryStep, SendStep, Banked;
    if ev.Accept? || ev.Submit? || ev.Dispute? || ev.Rule? {
      OthersDoNotExpire(w, ev, id);
    } else if ev.Post? || ev.PlaceBid? {
      NewRowsDoNotExpire(w, ev, id);
    } else if ev.Flag? {
      FlagDoesNotExpire(w, ev.p, id);
    } else if LeavesStore(ev) {
      StoreIsLeft(w, ev);
    } else {
      ExpiryIsDue(w, ev.p, id);
    }
  }

  /** The process that expires task `id` with event `n` loaded its row with event `i`. */
  predicate ExpiryLoadedAt(now: int, events: seq<Event>, i: nat, n: nat, id: string)
    requires i < n < |events|
  {
    var w := Start(now);
    && events[n].CompareAndSet? && events[i] == Load(events[n].p, id)
    && (forall k :: i < k < n ==> !LoadsAgain(events[k], events[n].p))
    && id in After(w, events, i).store.tasks && After(w, events, i).store.tasks[id].bidCount == 0
  }

  /** When an open task expires, its stored bid count is the number of bids that the store took between the load of
      the process that expires it and that event. So a task with bids expires from open if and only if a bid came in
      between. */
  lemma ExpiredBidsCameAfterLoad(now: int, events: seq<Event>, n: nat, id: string) returns (i: nat)
    requires AllowedRun(Start(now), events) && n < |events|
    requires ExpiresOpen(After(Start(now), events, n), After(Start(now), events, n + 1), id)
    ensures i < n && ExpiryLoadedAt(now, events, i, n, id)
    ensures id in After(Start(now), events, n + 1).store.tasks
    ensures After(Start(now), events, n + 1).store.tasks[id].bidCount == BidsBetween(Start(now), events, i, n, id)
    ensures After(Start(now), events, n + 1).store.tasks[id].bidCount != 0
       <==> exists k :: i <= k < n && AcceptsBid(After(Start(now), events, k), events[k], id)
  {
    var w := Start(now);
    RunKeepsInv(now, events, n);
    var before := After(w, events, n);
    assert After(w, events, n + 1) == Next(before, events[n]);
    hide Next, Inv, AllowedRun, ExpiresOpen, After;
    ExpiresByCompareAndSet(before, events[n], id);
    var p, row := events[n].p, before.processes[events[n].p].row;
    RowWasLoaded(now, events, n, p, id, row);
    i :| 0 <= i < n && LastLoad(w, events, i, n, p, id, row);
    CountGrowsByBids(w, events, i, n, id);
    NextCounts(before, events[n], id);
    SomeBidIff(w, events, i, n, id);
  }

  /** The gap is real: whatever the world, a bid that is placed between the load and the decision is not seen. */
  lemma TaskWithBidExpires(w: World, p: string, id: string, bidId: string, bid: Bid)
    requires id in w.store.tasks && w.store.tasks[id].status == Open && w.store.tasks[id].bidCount == 0
    requires Deadlines.Passed(w.store.tasks[id].createdAt, w.store.tasks[id].biddingSeconds, w.now)
    requires bid.task == id && (id, bid.bidder) !in w.store.bidIndex
    ensures
      var loaded := Next(w, Load(p, id));
      var t := Next(Next(Next(loaded, PlaceBid(bidId, bid)), Evaluate(p)), CompareAndSet(p));
      id in t.store.tasks && t.store.tasks[id].status == Expired && t.store.tasks[id].bidCount == 1
  {
    hide Next, Deadlines.Decide, UpdateStep;
    var row := w.store.tasks[id];
    var move := Deadlines.Transition(Open, Expired, Some(row.poster));
    var u := Next(Next(w, Load(p, id)), PlaceBid(bidId, bid));
    BidAfterLoad(w, p, id, bidId, bid);
    StillDue(u, p, id, row);
    LandsOnStaleRow(Next(u, Evaluate(p)), p, id, row, move);
  }

  lemma BidAfterLoad(w: World, p: string, id: string, bidId: string, bid: Bid)
    requires id in w.store.tasks && bid.task == id && (id, bid.bidder) !in w.store.bidIndex
    ensures
      var u, row := Next(Next(w, Load(p, id)), PlaceBid(bidId, bid)), w.store.tasks[id];
      && id in u.store.tasks && u.store.tasks[id] == row.(bidCount := row.bidCount + 1) && u.now == w.now
      && p in u.processes && u.processes[p] == Loaded(id, row)
  {
  }

  lemma StillDue(u: World, p: string, id: string, row: Row)
    requires p in u.processes && u.processes[p] == Loaded(id, row) && row.status == Open && row.bidCount == 0
    requires Deadlines.Passed(row.createdAt, row.biddingSeconds, u.now)
    ensures Next(u, Evaluate(p))
         == Become(u, p, Due(id, row, Deadlines.Transition(Open, Expired, Some(row.poster)), u.now))
  {
  }

  lemma LandsOnStaleRow(v: World, p: string, id: string, row: Row, move: Deadlines.Transition)
    requires p in v.processes && v.processes[p] == Due(id, row, move, v.now) && move.from == Open && move.to == Expired
    requires id in v.store.tasks && v.store.tasks[id].status == Open
    ensures
      var t := Next(v, CompareAndSet(p));
      && id in t.store.tasks && t.store.tasks[id].status == Expired
      && t.store.tasks[id].bidCount == v.store.tasks[id].bidCount
  {
    hide UpdateStep;
    Deadlines.TransitionUpdate(v.store, id, move, v.now);
  }
}
