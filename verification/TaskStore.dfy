/** InMemoryTaskStore: task rows updated by compare-and-set, bids with their index and per-task count.
    Times are microseconds since the epoch; the columns no step of this model reads are not kept. */
module TaskStore {
  import opened Common

  datatype Status = Open | Accepted | Submitted | Approved | Cancelled | Disputed | Ruled | Expired

  datatype Row = Row(
    poster: string,
    escrowId: string,
    status: Status,
    bidCount: int,
    worker: Option<string>,
    biddingSeconds: int,
    deadlineSeconds: int,
    reviewSeconds: int,
    createdAt: Option<int>,
    acceptedAt: Option<int>,
    submittedAt: Option<int>,
    approvedAt: Option<int>,
    expiredAt: Option<int>,
    escrowPending: bool)

  datatype Bid = Bid(task: string, bidder: string, amount: int, submittedAt: int)

  /** One entry of an updates dictionary. */
  datatype Assignment =
    | SetStatus(status: Status)
    | SetEscrowPending(pending: bool)
    | SetExpiredAt(at: int)
    | SetApprovedAt(at: int)
    | SetAcceptedAt(at: int)
    | SetSubmittedAt(at: int)
    | SetWorker(worker: string)
    | SetBidCount(count: int)
    | SetOther(column: string)    // a column of the table that this model does not keep
    | SetUnknown(column: string)  // no column of the table

  datatype StoreError = DuplicateTask | DuplicateBid | UnknownColumn

  datatype Store = Store(tasks: map<string, Row>, bids: map<string, Bid>, bidIndex: map<(string, string), string>)

  const EMPTY := Store(map[], map[], map[])

  function Assign(row: Row, a: Assignment): Row {
    match a
    case SetStatus(status) => row.(status := status)
    case SetEscrowPending(pending) => row.(escrowPending := pending)
    case SetExpiredAt(at) => row.(expiredAt := Some(at))
    case SetApprovedAt(at) => row.(approvedAt := Some(at))
    case SetAcceptedAt(at) => row.(acceptedAt := Some(at))
    case SetSubmittedAt(at) => row.(submittedAt := Some(at))
    case SetWorker(worker) => row.(worker := Some(worker))
    case SetBidCount(count) => row.(bidCount := count)
    case SetOther(_) => row
    case SetUnknown(_) => row
  }

  /** The row after the first `n` assignments. */
  function AssignUpTo(row: Row, updates: seq<Assignment>, n: nat): Row
    requires n <= |updates|
  {
    if n == 0 then row else Assign(AssignUpTo(row, updates, n - 1), updates[n - 1])
  }

  /** How many assignments are made before the first unknown column stops the loop. */
  function KnownPrefix(updates: seq<Assignment>): (n: nat)
    ensures n <= |updates|
    ensures forall i :: 0 <= i < n ==> !updates[i].SetUnknown?
    ensures n < |updates| ==> updates[n].SetUnknown?
  {
    if updates == [] || updates[0].SetUnknown? then 0 else 1 + KnownPrefix(updates[1..])
  }

  /** Does update_task get as far as writing? */
  predicate UpdateApplies(s: Store, task: string, updates: seq<Assignment>, expected: Option<Status>) {
    updates != [] && task in s.tasks && (expected.Some? ==> s.tasks[task].status == expected.value)
  }

  function UpdateStep(s: Store, task: string, updates: seq<Assignment>, expected: Option<Status>)
    : (Store, Result<nat, StoreError>)
  {
    if !UpdateApplies(s, task, updates, expected) then (s, Ok(0))
    else
      var n := KnownPrefix(updates);
      (s.(tasks := s.tasks[task := AssignUpTo(s.tasks[task], updates, n)]),
       if n < |updates| then Err(UnknownColumn) else Ok(1))
  }

  function InsertTaskStep(s: Store, task: string, row: Row): (Store, Result<nat, StoreError>) {
    if task in s.tasks then (s, Err(DuplicateTask)) else (s.(tasks := s.tasks[task := row]), Ok(1))
  }

  function InsertBidStep(s: Store, bidId: string, bid: Bid): (Store, Result<nat, StoreError>) {
    if bid.task !in s.tasks then (s, Ok(0))
    else if (bid.task, bid.bidder) in s.bidIndex then (s, Err(DuplicateBid))
    else
      var row := s.tasks[bid.task];
      (Store(s.tasks[bid.task := row.(bidCount := row.bidCount + 1)],
             s.bids[bidId := bid],
             s.bidIndex[(bid.task, bid.bidder) := bidId]),
       Ok(1))
  }

  class InMemoryTaskStore {
    var tasks: map<string, Row>
    var bids: map<string, Bid>
    var bidIndex: map<(string, string), string>

    function Snapshot(): Store
      reads this
    {
      Store(tasks, bids, bidIndex)
    }

    constructor ()
      ensures Snapshot() == EMPTY
    {
      tasks, bids, bidIndex := map[], map[], map[];
    }

    method InsertTask(task: string, row: Row) returns (r: Result<nat, StoreError>)
      modifies this`tasks
      ensures (Snapshot(), r) == InsertTaskStep(old(Snapshot()), task, row)
    {
      if task in tasks {
        return Err(DuplicateTask);
      }
      tasks := tasks[task := row];
      return Ok(1);
    }

    method GetTask(task: string) returns (r: Option<Row>)
      ensures r == if task in tasks then Some(tasks[task]) else None
    {
      if task !in tasks {
        return None;
      }
      return Some(tasks[task]);
    }

    method UpdateTask(task: string, updates: seq<Assignment>, expected: Option<Status>)
      returns (r: Result<nat, StoreError>)
      modifies this`tasks
      ensures (Snapshot(), r) == UpdateStep(old(Snapshot()), task, updates, expected)
    {
      if |updates| == 0 {
        return Ok(0);
      }
      if task !in tasks {
        return Ok(0);
      }
      if expected.Some? && tasks[task].status != expected.value {
        return Ok(0);
      }
      ghost var before := tasks;
      for i := 0 to |updates|
        invariant task in tasks && before == old(tasks)
        invariant i <= KnownPrefix(updates)
        invariant tasks == before[task := AssignUpTo(before[task], updates, i)]
      {
        if updates[i].SetUnknown? {
          return Err(UnknownColumn);
        }
        tasks := tasks[task := Assign(tasks[task], updates[i])];
      }
      return Ok(1);
    }

    method InsertBid(bidId: string, bid: Bid) returns (r: Result<nat, StoreError>)
      modifies this
      ensures (Snapshot(), r) == InsertBidStep(old(Snapshot()), bidId, bid)
    {
      if bid.task !in tasks {
        return Ok(0);
      }
      var key := (bid.task, bid.bidder);
      if key in bidIndex {
        return Err(DuplicateBid);
      }
      bids := bids[bidId := bid];
      bidIndex := bidIndex[key := bidId];
      var row := tasks[bid.task];
      tasks := tasks[bid.task := row.(bidCount := row.bidCount + 1)];
      return Ok(1);
    }
  }

  // ----- Updates

  /** A compare-and-set writes exactly the updated row if it finds the status it expects, and then says so; else it
      writes nothing and says that. No other row, and no bid, is touched either way. */
  lemma CompareAndSet(s: Store, task: string, updates: seq<Assignment>, from: Status)
    requires task in s.tasks && updates != [] && forall i :: 0 <= i < |updates| ==> !updates[i].SetUnknown?
    ensures
      UpdateStep(s, task, updates, Some(from))
      == if s.tasks[task].status == from
         then (s.(tasks := s.tasks[task := AssignUpTo(s.tasks[task], updates, |updates|)]), Ok(1))
         else (s, Ok(0))
  {
    assert KnownPrefix(updates) == |updates|;
  }

  /** What an update answers and whom it touches: nothing is written unless it names something, finds the task, and
      finds the status it expects if it expects one; an unknown column is an error, and what stood before it has been
      written; all other rows, and all bids, stay. */
  lemma UpdateAnswers(s: Store, task: string, updates: seq<Assignment>, expected: Option<Status>)
    ensures
      var (t, answer) := UpdateStep(s, task, updates, expected);
      && (answer == Ok(0)
          <==> updates == [] || task !in s.tasks || (expected.Some? && s.tasks[task].status != expected.value))
      && (answer == Ok(0) ==> t == s)
      && (answer.Err? <==> answer != Ok(0) && exists i :: 0 <= i < |updates| && updates[i].SetUnknown?)
      && (answer.Ok? ==> answer.value <= 1)
      && t.tasks.Keys == s.tasks.Keys && t.tasks - {task} == s.tasks - {task}
      && (t.bids, t.bidIndex) == (s.bids, s.bidIndex)
  {
  }

  /** The row has the value that the assignment gives. */
  predicate Shows(row: Row, a: Assignment) {
    match a
    case SetStatus(status) => row.status == status
    case SetEscrowPending(pending) => row.escrowPending == pending
    case SetExpiredAt(at) => row.expiredAt == Some(at)
    case SetApprovedAt(at) => row.approvedAt == Some(at)
    case SetAcceptedAt(at) => row.acceptedAt == Some(at)
    case SetSubmittedAt(at) => row.submittedAt == Some(at)
    case SetWorker(worker) => row.worker == Some(worker)
    case SetBidCount(count) => row.bidCount == count
    case SetOther(_) => true
    case SetUnknown(_) => true
  }

  predicate SameColumn(a: Assignment, b: Assignment) {
    || (a.SetStatus? && b.SetStatus?) || (a.SetEscrowPending? && b.SetEscrowPending?)
    || (a.SetExpiredAt? && b.SetExpiredAt?) || (a.SetApprovedAt? && b.SetApprovedAt?)
    || (a.SetAcceptedAt? && b.SetAcceptedAt?) || (a.SetSubmittedAt? && b.SetSubmittedAt?)
    || (a.SetWorker? && b.SetWorker?) || (a.SetBidCount? && b.SetBidCount?)
  }

  /** The last assignment to a column decides its value. */
  lemma {:induction false} LastAssignmentWins(row: Row, updates: seq<Assignment>, n: nat, i: nat)
    requires i < n <= |updates| && forall k :: i < k < n ==> !SameColumn(updates[i], updates[k])
    ensures Shows(AssignUpTo(row, updates, n), updates[i])
  {
    if i < n - 1 {
      LastAssignmentWins(row, updates, n - 1, i);
      OtherColumnStays(AssignUpTo(row, updates, n - 1), updates[n - 1], updates[i]);
    }
  }

  lemma OtherColumnStays(row: Row, a: Assignment, b: Assignment)
    requires !SameColumn(b, a)
    ensures Shows(row, b) <==> Shows(Assign(row, a), b)
  {
  }

  /** A column that is not assigned to keeps its value, and poster, escrow, creation and periods always do. */
  lemma {:induction false} UnassignedStays(row: Row, updates: seq<Assignment>, n: nat, b: Assignment)
    requires n <= |updates| && forall k :: 0 <= k < n ==> !SameColumn(b, updates[k])
    ensures
      var t := AssignUpTo(row, updates, n);
      && (Shows(row, b) <==> Shows(t, b))
      && (t.poster, t.escrowId, t.createdAt) == (row.poster, row.escrowId, row.createdAt)
      && (t.biddingSeconds, t.deadlineSeconds, t.reviewSeconds)
         == (row.biddingSeconds, row.deadlineSeconds, row.reviewSeconds)
  {
    if n > 0 {
      UnassignedStays(row, updates, n - 1, b);
      OtherColumnStays(AssignUpTo(row, updates, n - 1), updates[n - 1], b);
    }
  }

  lemma {:induction false} LastAssignment(row: Row, updates: seq<Assignment>, n: nat, i: nat)
    requires i < n <= |updates| && updates[i].SetStatus?
    requires forall k :: i < k < n ==> !updates[k].SetStatus?
    ensures AssignUpTo(row, updates, n).status == updates[i].status
  {
    if i < n - 1 {
      LastAssignment(row, updates, n - 1, i);
    }
  }

  /** Of two compare-and-sets on one status, both leading away from it, the second writes nothing. */
  lemma SecondCompareAndSetLoses(s: Store, task: string, first: seq<Assignment>, second: seq<Assignment>, from: Status)
    requires task in s.tasks && s.tasks[task].status == from && first != [] && second != []
    requires first[0].SetStatus? && first[0].status != from
    requires forall i :: 0 < i < |first| ==> !first[i].SetStatus? && !first[i].SetUnknown?
    ensures
      var t := UpdateStep(s, task, first, Some(from)).0;
      UpdateStep(t, task, second, Some(from)) == (t, Ok(0))
  {
    CompareAndSet(s, task, first, from);
    LastAssignment(s.tasks[task], first, |first|, 0);
  }

  // ----- Bids

  /** What an insert of a bid answers, exactly, and what it stores: the bid as given, with its amount and time. */
  lemma BidIsStoredAsGiven(s: Store, bidId: string, bid: Bid)
    ensures
      var (t, answer) := InsertBidStep(s, bidId, bid);
      && (answer == Ok(1) <==> bid.task in s.tasks && (bid.task, bid.bidder) !in s.bidIndex)
      && (answer == Ok(0) <==> bid.task !in s.tasks)
      && (answer == Err(DuplicateBid) <==> bid.task in s.tasks && (bid.task, bid.bidder) in s.bidIndex)
      && (answer != Ok(1) ==> t == s)
      && (answer == Ok(1) ==>
            && bidId in t.bids && t.bids[bidId].task == bid.task && t.bids[bidId].bidder == bid.bidder
            && t.bids[bidId].amount == bid.amount && t.bids[bidId].submittedAt == bid.submittedAt
            && t.bids - {bidId} == s.bids - {bidId} && t.bidIndex == s.bidIndex[(bid.task, bid.bidder) := bidId]
            && t.tasks[bid.task].bidCount == s.tasks[bid.task].bidCount + 1
            && t.tasks[bid.task].(bidCount := s.tasks[bid.task].bidCount) == s.tasks[bid.task]
            && t.tasks - {bid.task} == s.tasks - {bid.task})
  {
  }

  /** A task is inserted as given, or its id is known and nothing changes. */
  lemma TaskIsStoredAsGiven(s: Store, task: string, row: Row)
    ensures
      var (t, answer) := InsertTaskStep(s, task, row);
      && (answer == Ok(1) <==> task !in s.tasks) && (answer == Err(DuplicateTask) <==> task in s.tasks)
      && (answer.Err? ==> t == s)
      && (answer.Ok? ==> task in t.tasks && t.tasks[task] == row && t.tasks - {task} == s.tasks - {task}
                         && (t.bids, t.bidIndex) == (s.bids, s.bidIndex))
  {
  }

  /** No call ever removes or changes a bid, if bids have ids of their own. */
  lemma {:induction false} BidsAreKept(calls: seq<Call>, i: nat, n: nat, bidId: string)
    requires i <= n <= |calls| && bidId in At(EMPTY, calls, i).bids
    requires forall k :: i <= k < n && calls[k].InsertBid? ==> calls[k].bidId != bidId
    ensures bidId in At(EMPTY, calls, n).bids && At(EMPTY, calls, n).bids[bidId] == At(EMPTY, calls, i).bids[bidId]
  {
    if i < n {
      BidsAreKept(calls, i, n - 1, bidId);
    }
  }

  // ----- Bid counts

  datatype Call =
    | InsertTask(task: string, row: Row)
    | UpdateTask(task: string, updates: seq<Assignment>, expected: Option<Status>)
    | InsertBid(bidId: string, bid: Bid)

  function Step(s: Store, c: Call): (Store, Result<nat, StoreError>) {
    match c
    case InsertTask(task, row) => InsertTaskStep(s, task, row)
    case UpdateTask(task, updates, expected) => UpdateStep(s, task, updates, expected)
    case InsertBid(bidId, bid) => InsertBidStep(s, bidId, bid)
  }

  function At(s: Store, calls: seq<Call>, n: nat): Store
    requires n <= |calls|
  {
    if n == 0 then s else Step(At(s, calls, n - 1), calls[n - 1]).0
  }

  function BidsOf(s: Store, task: string): set<string> {
    set b | b in s.bids && s.bids[b].task == task
  }

  function EntriesOf(s: Store, task: string): set<(string, string)> {
    set k | k in s.bidIndex && k.0 == task
  }

  /** Bids and index are each other's inverse. */
  predicate IndexIsInverse(s: Store) {
    && (forall k :: k in s.bidIndex ==>
          s.bidIndex[k] in s.bids && (s.bids[s.bidIndex[k]].task, s.bids[s.bidIndex[k]].bidder) == k)
    && (forall b :: b in s.bids ==>
          && s.bids[b].task in s.tasks
          && (s.bids[b].task, s.bids[b].bidder) in s.bidIndex
          && s.bidIndex[(s.bids[b].task, s.bids[b].bidder)] == b)
  }

  predicate CountIsRight(s: Store, t: string)
    requires t in s.tasks
  {
    s.tasks[t].bidCount == |BidsOf(s, t)| == |EntriesOf(s, t)|
  }

  predicate CountsAreRight(s: Store) {
    forall t :: t in s.tasks ==> CountIsRight(s, t)
  }

  /** No agent has two bids on a task. */
  predicate OneBidEach(s: Store) {
    forall b, d :: (b in s.bids && d in s.bids && SamePair(s.bids[b], s.bids[d])) ==> b == d
  }

  predicate SamePair(b: Bid, d: Bid) {
    b.task == d.task && b.bidder == d.bidder
  }

  /** What the callers of the store hold to: new bid ids, a new task starts with no bids, and only
      insert_bid writes the count. */
  predicate Disciplined(s: Store, c: Call) {
    match c
    case InsertTask(_, row) => row.bidCount == 0
    case UpdateTask(_, updates, _) => forall i :: 0 <= i < |updates| ==> !updates[i].SetBidCount?
    case InsertBid(bidId, _) => bidId !in s.bids
  }

  lemma {:induction false} AssignKeepsCount(row: Row, updates: seq<Assignment>, n: nat)
    requires n <= |updates| && forall i :: 0 <= i < |updates| ==> !updates[i].SetBidCount?
    ensures AssignUpTo(row, updates, n).bidCount == row.bidCount
  {
    if n > 0 {
      AssignKeepsCount(row, updates, n - 1);
    }
  }

  lemma InsertBidKeepsIndex(s: Store, bidId: string, bid: Bid)
    requires IndexIsInverse(s) && bidId !in s.bids
    ensures IndexIsInverse(InsertBidStep(s, bidId, bid).0)
  {
  }

  lemma BidsAfterInsert(s: Store, t: Store, bidId: string, bid: Bid, x: string)
    requires t.bids == s.bids[bidId := bid] && bidId !in s.bids
    ensures |BidsOf(t, x)| == |BidsOf(s, x)| + if x == bid.task then 1 else 0
  {
    if x == bid.task {
      assert BidsOf(t, x) == BidsOf(s, x) + {bidId};
    } else {
      assert BidsOf(t, x) == BidsOf(s, x);
    }
  }

  lemma EntriesAfterInsert(s: Store, t: Store, key: (string, string), bidId: string, x: string)
    requires t.bidIndex == s.bidIndex[key := bidId] && key !in s.bidIndex
    ensures |EntriesOf(t, x)| == |EntriesOf(s, x)| + if x == key.0 then 1 else 0
  {
    if x == key.0 {
      assert EntriesOf(t, x) == EntriesOf(s, x) + {key};
    } else {
      assert EntriesOf(t, x) == EntriesOf(s, x);
    }
  }

  lemma InsertBidKeepsCount(s: Store, bidId: string, bid: Bid, x: string)
    requires x in s.tasks && CountIsRight(s, x) && bidId !in s.bids
    ensures CountIsRight(InsertBidStep(s, bidId, bid).0, x)
  {
    hide BidsOf, EntriesOf;
    if bid.task in s.tasks && (bid.task, bid.bidder) !in s.bidIndex {
      var t := InsertBidStep(s, bidId, bid).0;
      BidsAfterInsert(s, t, bidId, bid, x);
      EntriesAfterInsert(s, t, (bid.task, bid.bidder), bidId, x);
    }
  }

  lemma UpdateKeepsCounts(s: Store, task: string, updates: seq<Assignment>, expected: Option<Status>)
    requires IndexIsInverse(s) && CountsAreRight(s) && forall i :: 0 <= i < |updates| ==> !updates[i].SetBidCount?
    ensures
      var t := UpdateStep(s, task, updates, expected).0;
      IndexIsInverse(t) && CountsAreRight(t)
  {
    var t := UpdateStep(s, task, updates, expected).0;
    if task in s.tasks {
      AssignKeepsCount(s.tasks[task], updates, KnownPrefix(updates));
    }
    hide AssignUpTo, KnownPrefix;
    forall x | x in t.tasks ensures CountIsRight(t, x) {
      assert CountIsRight(s, x);
      assert BidsOf(t, x) == BidsOf(s, x) && EntriesOf(t, x) == EntriesOf(s, x);
    }
  }

  lemma {:induction false} StepKeepsCounts(s: Store, c: Call)
    requires IndexIsInverse(s) && CountsAreRight(s) && Disciplined(s, c)
    ensures IndexIsInverse(Step(s, c).0) && CountsAreRight(Step(s, c).0)
  {
    var t := Step(s, c).0;
    match c
    case InsertTask(task, row) =>
      forall x | x in t.tasks ensures CountIsRight(t, x) {
        assert BidsOf(t, x) == BidsOf(s, x) && EntriesOf(t, x) == EntriesOf(s, x);
        if x !in s.tasks {
          assert BidsOf(s, x) == {} && EntriesOf(s, x) == {};
        } else {
          assert CountIsRight(s, x);
        }
      }
    case UpdateTask(task, updates, expected) =>
      UpdateKeepsCounts(s, task, updates, expected);
    case InsertBid(bidId, bid) =>
      InsertBidKeepsIndex(s, bidId, bid);
      forall x | x in t.tasks ensures CountIsRight(t, x) {
        InsertBidKeepsCount(s, bidId, bid, x);
      }
  }

  /** In every reachable store a task's count is the number of its bids and of its index entries, and an
      agent has at most one bid on a task. */
  lemma {:induction false} BidCountsAreRight(calls: seq<Call>, n: nat)
    requires n <= |calls|
    requires forall i {:trigger Disciplined(At(EMPTY, calls, i), calls[i])} ::
               0 <= i < |calls| ==> Disciplined(At(EMPTY, calls, i), calls[i])
    ensures IndexIsInverse(At(EMPTY, calls, n)) && CountsAreRight(At(EMPTY, calls, n))
    ensures OneBidEach(At(EMPTY, calls, n))
  {
    hide Step;
    if n > 0 {
      BidCountsAreRight(calls, n - 1);
      assert Disciplined(At(EMPTY, calls, n - 1), calls[n - 1]);
      StepKeepsCounts(At(EMPTY, calls, n - 1), calls[n - 1]);
    }
  }
}
