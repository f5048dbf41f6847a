/** Rulings in progress on one event loop. execute_ruling runs undisturbed between two awaits; at an await any
    other call may run. Each event below is one such undisturbed stretch: the reply that ends an await and
    everything up to the next one. A caller that gives up cancels its call at an await, and the handlers of
    execute_ruling do not see that.
    The task board works on an announcement in steps of its own: it checks that the task is in dispute, has the bank
    resolve the escrow, and then writes the row. It does so whether or not the call that sent the announcement still
    waits, and any of these steps may fail to happen. */
module RulingProtocol {
  import opened Common
  import opened Median
  import opened DisputeStore

  /** A call of execute_ruling, suspended. `before` is the record it found. */
  datatype Ruling =
    | Polling(id: string, before: Row, judges: nat, votes: seq<Vote>)
    | Announcing(id: string, before: Row, votes: seq<Vote>, pct: int, summary: string, request: nat)
    | Rating(id: string, before: Row, votes: seq<Vote>, pct: int, summary: string, sent: nat)

  /** How far an announcement has come: on its way, found its task in dispute, had the bank pay, written by the board;
      or given up for whatever reason. */
  datatype Stage = Underway | Checked | Paid | Written | Gone

  datatype Announcement = Announcement(task: string, pct: int, stage: Stage)

  /** `sent` holds every announcement made so far. `spent` holds the tasks whose escrow the bank has resolved. `board`
      lists, for each task, the shares the task board has written for it, and `abandoned` holds the disputes whose call
      was cancelled. */
  datatype World = World(
    store: Store,
    calls: map<string, Ruling>,
    sent: seq<Announcement>,
    spent: set<string>,
    board: map<string, seq<int>>,
    abandoned: set<string>)

  datatype RulingError = NotFound | AlreadyRuled | NotReady

  datatype Event =
    | File(id: string, claim: Claim, now: string)
    | Rebut(id: string, rebuttal: string, now: string)
    | Begin(p: string, id: string, judges: nat, contextOk: bool)
    | JudgeReplies(p: string, reply: Reply, now: string)
    | BoardReplies(p: string, ok: bool)  // not ok: an error, or no reply in time
    | FeedbackReplies(p: string, ok: bool, now: string, voteIds: nat -> string)
    | Cancel(p: string)
    | Handle(k: nat)        // the board or its bank does the next thing for announcement k
    | Drop(k: nat)          // announcement k is lost, refused, or its handler fails
    | Spend(task: string)   // the bank resolves the escrow for somebody else, or after the board stopped waiting

  const START := World(DisputeStore.EMPTY, map[], [], {}, map[], {})

  // ----- Steps

  function Refusal(s: Store, id: string): Option<RulingError> {
    if id !in s.disputes then Some(NotFound)
    else if s.disputes[id].status == Ruled || s.disputes[id].ruledAt.Some? then Some(AlreadyRuled)
    else if s.disputes[id].status != RebuttalPending && s.disputes[id].status != RebuttalSubmitted then Some(NotReady)
    else None
  }

  /** When a ruling is refused, and as what: an unknown dispute, one that is ruled or bears a time of ruling, one that
      is being judged. */
  lemma RefusedIff(s: Store, id: string)
    ensures Refusal(s, id) == Some(NotFound) <==> id !in s.disputes
    ensures Refusal(s, id) == Some(AlreadyRuled)
       <==> id in s.disputes && (s.disputes[id].status == Ruled || s.disputes[id].ruledAt.Some?)
    ensures Refusal(s, id) == Some(NotReady)
       <==> id in s.disputes && s.disputes[id].status == Judging && s.disputes[id].ruledAt.None?
  {
  }

  function BeginStep(w: World, p: string, id: string, judges: nat, contextOk: bool): World {
    if p in w.calls || Refusal(w.store, id).Some? then w
    else
      var judging := StatusStep(w.store, id, Judging);
      if !contextOk || judges == 0 then w.(store := RevertStep(judging, id))
      else w.(store := judging, calls := w.calls[p := Polling(id, w.store.disputes[id], judges, [])])
  }

  /** The handler of a failed call: put the dispute back and raise. */
  function Fail(w: World, p: string): World
    requires p in w.calls
  {
    w.(store := RevertStep(w.store, w.calls[p].id), calls := w.calls - {p})
  }

  function JudgeStep(w: World, p: string, reply: Reply, now: string): World {
    if p !in w.calls || !w.calls[p].Polling? then w
    else
      var c := w.calls[p];
      if reply.Failed? || Normalized(reply.raw, |c.votes|, now).None? then Fail(w, p)
      else
        var votes := c.votes + [Normalized(reply.raw, |c.votes|, now).value];
        if |votes| < c.judges then w.(calls := w.calls[p := Polling(c.id, c.before, c.judges, votes)])
        else
          var (pct, summary) := ComputeRuling(votes);
          w.(calls := w.calls[p := Announcing(c.id, c.before, votes, pct, summary, |w.sent|)],
             sent := w.sent + [Announcement(c.before.task, pct, Underway)])
  }

  function Accepted(board: map<string, seq<int>>, task: string): seq<int> {
    if task in board then board[task] else []
  }

  predicate Took(w: World, k: nat) {
    k < |w.sent| && w.sent[k].stage == Written
  }

  /** The board answers with a success only after it has written the row. A failure can come at any time. */
  function BoardStep(w: World, p: string, ok: bool): World {
    if p !in w.calls || !w.calls[p].Announcing? then w
    else
      var c := w.calls[p];
      if !ok then Fail(w, p)
      else if !Took(w, c.request) then w
      else w.(calls := w.calls[p := Rating(c.id, c.before, c.votes, c.pct, c.summary, 0)])
  }

  function InStage(w: World, k: nat, stage: Stage): World
    requires k < |w.sent|
  {
    w.(sent := w.sent[k := w.sent[k].(stage := stage)])
  }

  /** record_ruling at the board: a task with a share is no longer in dispute; the bank refuses an escrow it has
      resolved; the row is written without another look at the status. */
  function HandleStep(w: World, k: nat): World {
    if k >= |w.sent| then w
    else
      var task := w.sent[k].task;
      match w.sent[k].stage
      case Underway => InStage(w, k, if Accepted(w.board, task) == [] then Checked else Gone)
      case Checked => if task in w.spent then InStage(w, k, Gone) else InStage(w, k, Paid).(spent := w.spent + {task})
      case Paid => InStage(w, k, Written).(board := w.board[task := Accepted(w.board, task) + [w.sent[k].pct]])
      case Written => w
      case Gone => w
  }

  function DropStep(w: World, k: nat): World {
    if k >= |w.sent| || w.sent[k].stage == Written then w else InStage(w, k, Gone)
  }

  function FeedbackStep(w: World, p: string, ok: bool, now: string, voteIds: nat -> string): World {
    if p !in w.calls || !w.calls[p].Rating? then w
    else
      var c := w.calls[p];
      if !ok then Fail(w, p)
      else if c.sent == 0 then w.(calls := w.calls[p := Rating(c.id, c.before, c.votes, c.pct, c.summary, 1)])
      else w.(store := PersistStep(w.store, c.id, c.pct, c.summary, c.votes, now, voteIds), calls := w.calls - {p})
  }

  function CancelStep(w: World, p: string): World {
    if p !in w.calls then w
    else w.(calls := w.calls - {p}, abandoned := w.abandoned + {w.calls[p].id})
  }

  function Next(w: World, ev: Event): World {
    match ev
    case File(id, claim, now) => w.(store := FileStep(w.store, id, claim, now).0)
    case Rebut(id, rebuttal, now) => w.(store := SubmitRebuttalStep(w.store, id, rebuttal, now).0)
    case Begin(p, id, judges, contextOk) => BeginStep(w, p, id, judges, contextOk)
    case JudgeReplies(p, reply, now) => JudgeStep(w, p, reply, now)
    case BoardReplies(p, ok) => BoardStep(w, p, ok)
    case FeedbackReplies(p, ok, now, voteIds) => FeedbackStep(w, p, ok, now, voteIds)
    case Cancel(p) => CancelStep(w, p)
    case Handle(k) => HandleStep(w, k)
    case Drop(k) => DropStep(w, k)
    case Spend(task) => w.(spent := w.spent + {task})
  }

  /** A new dispute gets an identifier no dispute has. */
  predicate FreshId(w: World, ev: Event) {
    ev.File? ==> ev.id !in w.store.disputes
  }

  function After(w: World, events: seq<Event>, n: nat): World
    requires n <= |events|
  {
    if n == 0 then w else Next(After(w, events, n - 1), events[n - 1])
  }

  predicate FreshRun(w: World, events: seq<Event>) {
    forall i {:trigger FreshId(After(w, events, i), events[i])} ::
      0 <= i < |events| ==> FreshId(After(w, events, i), events[i])
  }

  // ----- The invariant

  ghost predicate InFlight(w: World, id: string) {
    exists p :: p in w.calls && w.calls[p].id == id
  }

  ghost predicate DisputeFits(w: World, id: string)
    requires id in w.store.disputes
  {
    var row := w.store.disputes[id];
    && RecordFits(w.store, id) && row.status != RebuttalSubmitted
    && (row.status == Ruled ==> row.workerPct.Some? && Accepted(w.board, row.task) == [row.workerPct.value])
    && (row.status == Judging <==> id in w.abandoned || InFlight(w, id))
    && !(id in w.abandoned && InFlight(w, id))
  }

  predicate AllClean(votes: seq<Vote>) {
    forall i :: 0 <= i < |votes| ==> IsClean(votes[i])
  }

  /** A suspended call found its dispute pending and unruled, and the dispute is as it was but for the status. */
  predicate CallFits(w: World, c: Ruling) {
    && c.id in w.store.disputes
    && c.before.status == RebuttalPending && IsUnruled(c.before, [])
    && w.store.disputes[c.id] == c.before.(status := Judging)
    && VotesOf(w.store, c.id) == []
    && AllClean(c.votes)
    && match c
       case Polling(_, _, judges, votes) => |votes| < judges
       case Announcing(_, before, votes, pct, summary, request) =>
         && votes != [] && ComputeRuling(votes) == (pct, summary)
         && request < |w.sent| && (w.sent[request].task, w.sent[request].pct) == (before.task, pct)
       case Rating(_, before, votes, pct, summary, _) =>
         votes != [] && ComputeRuling(votes) == (pct, summary) && Accepted(w.board, before.task) == [pct]
  }

  ghost predicate DisputesFit(w: World) {
    forall id :: id in w.store.disputes ==> DisputeFits(w, id)
  }

  ghost predicate CallsFit(w: World) {
    forall p :: p in w.calls ==> CallFits(w, w.calls[p])
  }

  ghost predicate OneCallEach(w: World) {
    forall p, q :: p in w.calls && q in w.calls && w.calls[p].id == w.calls[q].id ==> p == q
  }

  /** What the bank's paying once makes of the board: an announcement that is paid for but not written finds no share
      for its task, one that is written is the only share there. */
  predicate AnnouncementFits(a: Announcement, spent: set<string>, board: map<string, seq<int>>) {
    && (a.stage == Paid ==> a.task in spent && Accepted(board, a.task) == [])
    && (a.stage == Written ==> Accepted(board, a.task) == [a.pct])
  }

  /** The board has written at most one share for any task, and the bank has resolved the escrow of that task; at most
      one announcement of a task is paid for and not written. */
  ghost predicate BoardFits(sent: seq<Announcement>, spent: set<string>, board: map<string, seq<int>>) {
    && (forall task :: |Accepted(board, task)| <= 1 && (Accepted(board, task) != [] ==> task in spent))
    && (forall k :: 0 <= k < |sent| ==> AnnouncementFits(sent[k], spent, board))
    && (forall j, k :: 0 <= j < k < |sent| && sent[j].stage == sent[k].stage == Paid ==> sent[j].task != sent[k].task)
  }

  ghost predicate Inv(w: World) {
    && OnePerTask(w.store) && DisputesFit(w) && CallsFit(w) && OneCallEach(w) && BoardFits(w.sent, w.spent, w.board)
    && w.abandoned <= w.store.disputes.Keys
  }

  // ----- One event touches one dispute and one call

  ghost predicate Touches(w: World, t: World, id: string, p: string) {
    && id in w.store.disputes && id in t.store.disputes
    && t.store.disputes[id].task == w.store.disputes[id].task
    && w.sent <= t.sent && t.spent == w.spent && t.board == w.board && BoardFits(t.sent, t.spent, t.board)
    && t.store.disputeByTask == w.store.disputeByTask
    && t.store.disputes.Keys == w.store.disputes.Keys && t.store.votes.Keys == w.store.votes.Keys
    && (forall x :: x in w.store.disputes && x != id ==> t.store.disputes[x] == w.store.disputes[x])
    && (forall x :: x in w.store.votes && x != id ==> t.store.votes[x] == w.store.votes[x])
    && (forall x :: x != id ==> (x in t.abandoned <==> x in w.abandoned))
    && (forall q :: q != p ==> (q in t.calls <==> q in w.calls))
    && (forall q :: q in w.calls && q != p ==> t.calls[q] == w.calls[q])
    && (p in w.calls ==> w.calls[p].id == id)
    && (p in t.calls ==> t.calls[p].id == id)
  }

  lemma TouchLeavesFlight(w: World, t: World, id: string, p: string, x: string)
    requires Touches(w, t, id, p) && x != id
    ensures InFlight(w, x) <==> InFlight(t, x)
  {
    if InFlight(w, x) {
      var q :| q in w.calls && w.calls[q].id == x;
      assert q in t.calls && t.calls[q].id == x;
    }
    if InFlight(t, x) {
      var q :| q in t.calls && t.calls[q].id == x;
      assert q in w.calls && w.calls[q].id == x;
    }
  }

  lemma TouchKeepsDisputes(w: World, t: World, id: string, p: string)
    requires OnePerTask(w.store) && DisputesFit(w) && Touches(w, t, id, p) && DisputeFits(t, id)
    ensures DisputesFit(t)
  {
    forall x | x in t.store.disputes ensures DisputeFits(t, x) {
      if x != id {
        assert DisputeFits(w, x);
        TouchLeavesFlight(w, t, id, p, x);
      }
    }
  }

  /** A call on another dispute, which is another task's, is not disturbed. */
  lemma OtherCallFits(w: World, t: World, id: string, p: string, c: Ruling)
    requires OnePerTask(w.store) && Touches(w, t, id, p) && c.id != id && CallFits(w, c)
    ensures CallFits(t, c)
  {
  }

  lemma TouchKeepsCalls(w: World, t: World, id: string, p: string)
    requires OnePerTask(w.store) && CallsFit(w) && OneCallEach(w) && Touches(w, t, id, p)
    requires forall q :: q in w.calls && q != p ==> w.calls[q].id != id
    requires p in t.calls ==> CallFits(t, t.calls[p])
    ensures CallsFit(t) && OneCallEach(t)
  {
    hide OnePerTask, CallFits;
    forall q | q in t.calls ensures CallFits(t, t.calls[q]) {
      if q != p {
        assert CallFits(w, w.calls[q]);
        OtherCallFits(w, t, id, p, w.calls[q]);
      }
    }
  }

  lemma TouchKeepsOnePerTask(w: World, t: World, id: string, p: string)
    requires OnePerTask(w.store) && w.abandoned <= w.store.disputes.Keys && Touches(w, t, id, p)
    ensures OnePerTask(t.store) && t.abandoned <= t.store.disputes.Keys && BoardFits(t.sent, t.spent, t.board)
  {
  }

  lemma TouchKeepsInv(w: World, t: World, id: string, p: string)
    requires Inv(w) && Touches(w, t, id, p) && id in t.store.disputes
    requires forall q :: q in w.calls && q != p ==> w.calls[q].id != id
    requires DisputeFits(t, id) && (p in t.calls ==> CallFits(t, t.calls[p]))
    ensures Inv(t)
  {
    hide Touches, DisputesFit, CallsFit, OneCallEach, OnePerTask, DisputeFits, CallFits, BoardFits;
    TouchKeepsDisputes(w, t, id, p);
    TouchKeepsCalls(w, t, id, p);
    TouchKeepsOnePerTask(w, t, id, p);
  }

  lemma AloneOnItsDispute(w: World, p: string)
    requires Inv(w) && p in w.calls
    ensures forall q :: q in w.calls && q != p ==> w.calls[q].id != w.calls[p].id
    ensures CallFits(w, w.calls[p])
    ensures w.calls[p].id !in w.abandoned && w.calls[p].id in w.store.votes
  {
    assert CallFits(w, w.calls[p]);
    assert DisputeFits(w, w.calls[p].id);
  }

  // ----- Every event keeps the invariant

  lemma NewDisputeFits(w: World, id: string, claim: Claim, now: string)
    requires Inv(w) && id !in w.store.disputes && claim.task !in w.store.disputeByTask
    ensures DisputeFits(Next(w, File(id, claim, now)), id)
  {
    var t := Next(w, File(id, claim, now));
    assert forall p :: p in w.calls ==> CallFits(w, w.calls[p]);
    assert !InFlight(t, id) && id !in t.abandoned;
  }

  /** The store changed at dispute `id` only, which no call is about. */
  ghost predicate OnlyAt(w: World, t: World, id: string) {
    && t == w.(store := t.store)
    && id in t.store.disputes && t.store.disputes.Keys == w.store.disputes.Keys + {id}
    && (forall x :: x in w.store.disputes && x != id ==>
          t.store.disputes[x] == w.store.disputes[x] && VotesOf(t.store, x) == VotesOf(w.store, x))
    && (id in w.store.disputes ==> w.store.disputes[id].status != Judging)
  }

  lemma OldDisputeFits(w: World, t: World, x: string)
    requires x in w.store.disputes && DisputeFits(w, x)
    requires x in t.store.disputes && t.store.disputes[x] == w.store.disputes[x]
    requires VotesOf(t.store, x) == VotesOf(w.store, x)
    requires (t.calls, t.board, t.abandoned) == (w.calls, w.board, w.abandoned)
    ensures DisputeFits(t, x)
  {
    assert InFlight(t, x) <==> InFlight(w, x);
  }

  lemma OldDisputesFit(w: World, t: World, id: string)
    requires DisputesFit(w) && OnlyAt(w, t, id) && DisputeFits(t, id)
    ensures DisputesFit(t)
  {
    hide DisputeFits;
    forall x | x in t.store.disputes ensures DisputeFits(t, x) {
      if x != id {
        OldDisputeFits(w, t, x);
      }
    }
  }

  lemma OldCallFits(w: World, t: World, id: string, c: Ruling)
    requires CallFits(w, c) && OnlyAt(w, t, id)
    ensures CallFits(t, c)
  {
    assert c.id != id;
    hide ComputeRuling, AllClean, IsUnruled;
  }

  lemma OldCallsFit(w: World, t: World, id: string)
    requires CallsFit(w) && OnlyAt(w, t, id)
    ensures CallsFit(t)
  {
    hide CallFits;
    forall p | p in t.calls ensures CallFits(t, t.calls[p]) {
      OldCallFits(w, t, id, w.calls[p]);
    }
  }

  lemma StoreChangeKeepsInv(w: World, t: World, id: string)
    requires Inv(w) && OnlyAt(w, t, id) && DisputeFits(t, id) && OnePerTask(t.store)
    ensures Inv(t)
  {
    hide DisputeFits, OnePerTask, DisputesFit, CallsFit;
    OldDisputesFit(w, t, id);
    OldCallsFit(w, t, id);
    assert OneCallEach(t);
  }

  lemma FiledOnlyAt(w: World, id: string, claim: Claim, now: string)
    requires id !in w.store.disputes && claim.task !in w.store.disputeByTask
    ensures OnlyAt(w, Next(w, File(id, claim, now)), id)
    ensures Next(w, File(id, claim, now)).store == InsertStep(w.store, id, claim, now).0
  {
  }

  lemma FileKeepsInv(w: World, id: string, claim: Claim, now: string)
    requires Inv(w) && id !in w.store.disputes
    ensures Inv(Next(w, File(id, claim, now)))
  {
    InsertKeepsOnePerTask(w.store, id, claim, now);
    if claim.task !in w.store.disputeByTask {
      NewDisputeFits(w, id, claim, now);
      FiledOnlyAt(w, id, claim, now);
      hide Inv, DisputeFits, OnePerTask, OnlyAt, Next, InsertStep;
      StoreChangeKeepsInv(w, Next(w, File(id, claim, now)), id);
    }
  }

  lemma RebuttedFits(w: World, id: string, rebuttal: string, now: string)
    requires id in w.store.disputes && DisputeFits(w, id) && w.store.disputes[id].status == RebuttalPending
    requires OnePerTask(w.store)
    ensures
      var t := w.(store := RebuttalStep(w.store, id, rebuttal, now));
      OnlyAt(w, t, id) && DisputeFits(t, id) && OnePerTask(t.store)
  {
    var t := w.(store := RebuttalStep(w.store, id, rebuttal, now));
    assert InFlight(t, id) <==> InFlight(w, id);
    assert IsUnruled(t.store.disputes[id], VotesOf(t.store, id));
  }

  lemma RebutKeepsInv(w: World, id: string, rebuttal: string, now: string)
    requires Inv(w)
    ensures Inv(Next(w, Rebut(id, rebuttal, now)))
  {
    if SubmitRebuttalStep(w.store, id, rebuttal, now).1.Ok? {
      assert DisputeFits(w, id);
      RebuttedFits(w, id, rebuttal, now);
      hide Inv, DisputeFits, OnePerTask, OnlyAt, RebuttalStep;
      StoreChangeKeepsInv(w, Next(w, Rebut(id, rebuttal, now)), id);
    }
  }

  lemma NotYetJudged(w: World, id: string)
    requires Inv(w) && Refusal(w.store, id).None?
    ensures w.store.disputes[id].status == RebuttalPending && IsUnruled(w.store.disputes[id], VotesOf(w.store, id))
    ensures id in w.store.votes && id !in w.abandoned && forall q :: q in w.calls ==> w.calls[q].id != id
  {
    assert DisputeFits(w, id);
    assert forall q :: q in w.calls ==> CallFits(w, w.calls[q]);
  }

  lemma BegunFits(w: World, p: string, id: string, judges: nat)
    requires p !in w.calls && Refusal(w.store, id).None? && judges > 0
    requires w.store.disputes[id].status == RebuttalPending && IsUnruled(w.store.disputes[id], VotesOf(w.store, id))
    requires id !in w.abandoned && BoardFits(w.sent, w.spent, w.board)
    ensures
      var t := BeginStep(w, p, id, judges, true);
      Touches(w, t, id, p) && DisputeFits(t, id) && CallFits(t, t.calls[p])
  {
    var t := BeginStep(w, p, id, judges, true);
    assert p in t.calls && t.calls[p].id == id;
    assert IsUnruled(t.store.disputes[id], VotesOf(t.store, id));
  }

  lemma BeginKeepsInv(w: World, p: string, id: string, judges: nat, contextOk: bool)
    requires Inv(w)
    ensures Inv(BeginStep(w, p, id, judges, contextOk))
  {
    if p !in w.calls && Refusal(w.store, id).None? {
      if !contextOk || judges == 0 {
        NotYetJudged(w, id);
        RevertRestoresIff(w.store, id);
        hide Inv, StatusStep, RevertStep;
        assert BeginStep(w, p, id, judges, contextOk) == w;
      } else {
        NotYetJudged(w, id);
        BegunFits(w, p, id, judges);
        hide Inv, Touches, DisputeFits, CallFits;
        TouchKeepsInv(w, BeginStep(w, p, id, judges, contextOk), id, p);
      }
    }
  }

  /** What a failed call leaves: the record it found. */
  lemma FailedFits(w: World, p: string)
    requires p in w.calls && CallFits(w, w.calls[p]) && w.calls[p].id !in w.abandoned
    requires BoardFits(w.sent, w.spent, w.board)
    requires w.calls[p].id in w.store.votes
    requires forall q :: q in w.calls && q != p ==> w.calls[q].id != w.calls[p].id
    ensures
      var t, id := Fail(w, p), w.calls[p].id;
      && Touches(w, t, id, p) && DisputeFits(t, id)
      && t.store.disputes[id] == w.calls[p].before && VotesOf(t.store, id) == []
  {
    var t, id := Fail(w, p), w.calls[p].id;
    assert !InFlight(t, id);
    assert t.store.disputes[id] == w.calls[p].before;
    assert IsUnruled(t.store.disputes[id], VotesOf(t.store, id));
  }

  lemma FailKeepsInv(w: World, p: string)
    requires Inv(w) && p in w.calls
    ensures Inv(Fail(w, p))
    ensures
      var t, id := Fail(w, p), w.calls[p].id;
      id in t.store.disputes && t.store.disputes[id] == w.calls[p].before && VotesOf(t.store, id) == []
  {
    AloneOnItsDispute(w, p);
    FailedFits(w, p);
    assert w.calls[p].before.task == w.store.disputes[w.calls[p].id].task;
    hide Inv, Touches, DisputeFits, CallFits;
    TouchKeepsInv(w, Fail(w, p), w.calls[p].id, p);
  }

  /** Call `p` became `next`, and may have sent something. */
  ghost predicate MovesOn(w: World, t: World, p: string, next: Ruling) {
    && p in w.calls && next.id == w.calls[p].id
    && t == w.(calls := w.calls[p := next], sent := t.sent)
    && w.sent <= t.sent && BoardFits(t.sent, t.spent, t.board)
    && next.before.task == w.calls[p].before.task
  }

  /** A call that moves on to its next await leaves its dispute alone. */
  lemma CallMovesOn(w: World, t: World, p: string, next: Ruling)
    requires Inv(w) && MovesOn(w, t, p, next) && CallFits(t, next)
    ensures Inv(t)
  {
    AloneOnItsDispute(w, p);
    MovedFits(w, t, p, next);
    hide Inv, Touches, DisputeFits, CallFits;
    TouchKeepsInv(w, t, next.id, p);
  }

  lemma MovedFits(w: World, t: World, p: string, next: Ruling)
    requires MovesOn(w, t, p, next) && CallFits(w, w.calls[p]) && next.id !in w.abandoned
    ensures Touches(w, t, next.id, p) && DisputeFits(t, next.id)
    ensures next.id in w.store.disputes && w.store.disputes == t.store.disputes
  {
    assert p in t.calls && t.calls[p].id == next.id;
    assert IsUnruled(t.store.disputes[next.id], VotesOf(t.store, next.id));
  }

  lemma JudgedFits(w: World, p: string, reply: Reply, now: string)
    requires p in w.calls && w.calls[p].Polling? && CallFits(w, w.calls[p]) && BoardFits(w.sent, w.spent, w.board)
    requires reply.Answered? && Normalized(reply.raw, |w.calls[p].votes|, now).Some?
    ensures
      var t := JudgeStep(w, p, reply, now);
      p in t.calls && MovesOn(w, t, p, t.calls[p]) && CallFits(t, t.calls[p])
  {
    CleaningCleans(Read(reply.raw).value, |w.calls[p].votes|, now);
    hide IsClean, ComputeRuling, Cleaned, IsUnruled;
  }

  lemma JudgeKeepsInv(w: World, p: string, reply: Reply, now: string)
    requires Inv(w)
    ensures Inv(JudgeStep(w, p, reply, now))
  {
    if p in w.calls && w.calls[p].Polling? {
      var c := w.calls[p];
      if reply.Failed? || Normalized(reply.raw, |c.votes|, now).None? {
        FailKeepsInv(w, p);
      } else {
        AloneOnItsDispute(w, p);
        JudgedFits(w, p, reply, now);
        hide Inv, JudgeStep, CallFits, MovesOn;
        CallMovesOn(w, JudgeStep(w, p, reply, now), p, JudgeStep(w, p, reply, now).calls[p]);
      }
    }
  }

  lemma RepliedFits(w: World, p: string)
    requires p in w.calls && w.calls[p].Announcing? && CallFits(w, w.calls[p]) && Took(w, w.calls[p].request)
    requires BoardFits(w.sent, w.spent, w.board)
    ensures
      var c := w.calls[p];
      var next := Rating(c.id, c.before, c.votes, c.pct, c.summary, 0);
      MovesOn(w, BoardStep(w, p, true), p, next) && CallFits(BoardStep(w, p, true), next)
  {
    assert AnnouncementFits(w.sent[w.calls[p].request], w.spent, w.board);
    hide ComputeRuling, IsUnruled, AllClean;
  }

  lemma BoardKeepsInv(w: World, p: string, ok: bool)
    requires Inv(w)
    ensures Inv(BoardStep(w, p, ok))
  {
    if p in w.calls && w.calls[p].Announcing? {
      var c := w.calls[p];
      if !ok {
        hide Inv;
        FailKeepsInv(w, p);
      } else if Took(w, c.request) {
        AloneOnItsDispute(w, p);
        RepliedFits(w, p);
        hide Inv, CallFits, MovesOn;
        CallMovesOn(w, BoardStep(w, p, ok), p, Rating(c.id, c.before, c.votes, c.pct, c.summary, 0));
      }
    }
  }

  // ----- The board's own steps

  /** Only the board's side changed: announcements got on, and no share that was written is touched. */
  ghost predicate OnlyBoard(w: World, t: World) {
    && t == w.(sent := t.sent, spent := t.spent, board := t.board) && BoardFits(t.sent, t.spent, t.board)
    && w.spent <= t.spent && |t.sent| == |w.sent|
    && (forall k :: 0 <= k < |w.sent| ==> (t.sent[k].task, t.sent[k].pct) == (w.sent[k].task, w.sent[k].pct))
    && forall task :: Accepted(w.board, task) != [] ==> Accepted(t.board, task) == Accepted(w.board, task)
  }

  lemma BoardSideKeepsInv(w: World, t: World)
    requires Inv(w) && OnlyBoard(w, t)
    ensures Inv(t)
  {
    forall id | id in t.store.disputes ensures DisputeFits(t, id) {
      assert DisputeFits(w, id);
      assert InFlight(t, id) <==> InFlight(w, id);
    }
    forall p | p in t.calls ensures CallFits(t, t.calls[p]) {
      BoardSideKeepsCall(w, t, t.calls[p]);
    }
    hide DisputesFit, BoardFits, OnePerTask;
  }

  lemma BoardSideKeepsCall(w: World, t: World, c: Ruling)
    requires CallFits(w, c) && OnlyBoard(w, t)
    ensures CallFits(t, c)
  {
    hide ComputeRuling, IsUnruled, AllClean, BoardFits;
  }

  /** The bank pays at most once, so the board writes at most once, whatever announcements are still under way. */
  lemma HandledOnlyBoard(w: World, k: nat)
    requires BoardFits(w.sent, w.spent, w.board)
    ensures OnlyBoard(w, HandleStep(w, k))
  {
    if k < |w.sent| {
      assert AnnouncementFits(w.sent[k], w.spent, w.board);
      HandledFits(w, k);
    }
  }

  lemma HandledFits(w: World, k: nat)
    requires BoardFits(w.sent, w.spent, w.board) && k < |w.sent|
    ensures
      var t := HandleStep(w, k);
      BoardFits(t.sent, t.spent, t.board)
  {
    var t, task := HandleStep(w, k), w.sent[k].task;
    assert |Accepted(w.board, task)| <= 1;
    forall other
      ensures |Accepted(t.board, other)| <= 1 && (Accepted(t.board, other) != [] ==> other in t.spent)
    {
      assert |Accepted(w.board, other)| <= 1;
      assert AnnouncementFits(w.sent[k], w.spent, w.board);
    }
    forall j | 0 <= j < |t.sent| ensures AnnouncementFits(t.sent[j], t.spent, t.board) {
      assert AnnouncementFits(w.sent[j], w.spent, w.board) && AnnouncementFits(w.sent[k], w.spent, w.board);
    }
    forall i, j | 0 <= i < j < |t.sent| && t.sent[i].stage == t.sent[j].stage == Paid
      ensures t.sent[i].task != t.sent[j].task
    {
      assert AnnouncementFits(w.sent[i], w.spent, w.board) && AnnouncementFits(w.sent[j], w.spent, w.board);
    }
  }

  lemma DroppedOnlyBoard(w: World, k: nat)
    requires BoardFits(w.sent, w.spent, w.board)
    ensures OnlyBoard(w, DropStep(w, k))
  {
  }

  lemma SpentOnlyBoard(w: World, task: string)
    requires BoardFits(w.sent, w.spent, w.board)
    ensures OnlyBoard(w, w.(spent := w.spent + {task}))
  {
  }

  lemma BoardEventOnlyBoard(w: World, ev: Event)
    requires BoardFits(w.sent, w.spent, w.board) && (ev.Handle? || ev.Drop? || ev.Spend?)
    ensures OnlyBoard(w, Next(w, ev))
  {
    hide BoardFits, OnlyBoard, HandleStep, DropStep;
    match ev
    case Handle(k) => HandledOnlyBoard(w, k);
    case Drop(k) => DroppedOnlyBoard(w, k);
    case Spend(task) => SpentOnlyBoard(w, task);
  }

  lemma BoardEventKeepsInv(w: World, ev: Event)
    requires Inv(w) && (ev.Handle? || ev.Drop? || ev.Spend?)
    ensures Inv(Next(w, ev))
  {
    BoardEventOnlyBoard(w, ev);
    hide Inv, Next, OnlyBoard;
    BoardSideKeepsInv(w, Next(w, ev));
  }

  lemma SharesArePersisted(id: string, votes: seq<Vote>, voteIds: nat -> string)
    ensures CastShares(Persisted(id, votes, voteIds)) == Shares(votes)
    ensures votes != [] ==> ComputeRuling(votes).1 == Join(CastReasons(Persisted(id, votes, voteIds)))
  {
    if votes != [] {
      var reasons := seq(|votes|, i requires 0 <= i < |votes| => votes[i].reasoning);
      assert reasons == CastReasons(Persisted(id, votes, voteIds));
    }
  }

  lemma PersistedFits(w: World, p: string, now: string, voteIds: nat -> string)
    requires p in w.calls && w.calls[p].Rating? && CallFits(w, w.calls[p]) && w.calls[p].id !in w.abandoned
    requires w.calls[p].id in w.store.votes && BoardFits(w.sent, w.spent, w.board)
    requires forall q :: q in w.calls && q != p ==> w.calls[q].id != w.calls[p].id
    ensures
      var c := w.calls[p];
      var t := w.(store := PersistStep(w.store, c.id, c.pct, c.summary, c.votes, now, voteIds), calls := w.calls - {p});
      Touches(w, t, c.id, p) && DisputeFits(t, c.id)
  {
    var c := w.calls[p];
    var t := w.(store := PersistStep(w.store, c.id, c.pct, c.summary, c.votes, now, voteIds), calls := w.calls - {p});
    SharesArePersisted(c.id, c.votes, voteIds);
    RulingIsAPercentage(c.votes);
    assert !InFlight(t, c.id);
    hide UpperMedian, CastShares, Shares, Join, CastReasons;
    assert IsRuled(t.store.disputes[c.id], VotesOf(t.store, c.id));
  }

  lemma PersistKeepsInv(w: World, p: string, now: string, voteIds: nat -> string)
    requires Inv(w) && p in w.calls && w.calls[p].Rating?
    ensures
      var c := w.calls[p];
      Inv(w.(store := PersistStep(w.store, c.id, c.pct, c.summary, c.votes, now, voteIds), calls := w.calls - {p}))
  {
    var c := w.calls[p];
    var t := w.(store := PersistStep(w.store, c.id, c.pct, c.summary, c.votes, now, voteIds), calls := w.calls - {p});
    AloneOnItsDispute(w, p);
    PersistedFits(w, p, now, voteIds);
    assert c.id in w.store.disputes;
    hide Inv, Touches, DisputeFits, CallFits;
    TouchKeepsInv(w, t, c.id, p);
  }

  lemma FirstFeedbackKeepsInv(w: World, p: string)
    requires Inv(w) && p in w.calls && w.calls[p].Rating?
    ensures
      var c := w.calls[p];
      Inv(w.(calls := w.calls[p := Rating(c.id, c.before, c.votes, c.pct, c.summary, 1)]))
  {
    var c := w.calls[p];
    AloneOnItsDispute(w, p);
    hide Inv, ComputeRuling, IsUnruled, AllClean;
    var next := Rating(c.id, c.before, c.votes, c.pct, c.summary, 1);
    var t := w.(calls := w.calls[p := next]);
    assert CallFits(t, next) && MovesOn(w, t, p, next);
    hide CallFits, MovesOn;
    CallMovesOn(w, t, p, next);
  }

  lemma FeedbackKeepsInv(w: World, p: string, ok: bool, now: string, voteIds: nat -> string)
    requires Inv(w)
    ensures Inv(FeedbackStep(w, p, ok, now, voteIds))
  {
    if p in w.calls && w.calls[p].Rating? {
      var c := w.calls[p];
      if !ok {
        FailKeepsInv(w, p);
      } else if c.sent == 0 {
        FirstFeedbackKeepsInv(w, p);
        hide Inv;
      } else {
        PersistKeepsInv(w, p, now, voteIds);
      }
    }
  }

  lemma CancelledFits(w: World, p: string)
    requires p in w.calls && CallFits(w, w.calls[p]) && BoardFits(w.sent, w.spent, w.board)
    requires forall q :: q in w.calls && q != p ==> w.calls[q].id != w.calls[p].id
    ensures
      var t, id := CancelStep(w, p), w.calls[p].id;
      Touches(w, t, id, p) && DisputeFits(t, id)
  {
    var t, id := CancelStep(w, p), w.calls[p].id;
    assert !InFlight(t, id);
    assert IsUnruled(t.store.disputes[id], VotesOf(t.store, id));
  }

  lemma CancelKeepsInv(w: World, p: string)
    requires Inv(w)
    ensures Inv(CancelStep(w, p))
  {
    if p in w.calls {
      AloneOnItsDispute(w, p);
      CancelledFits(w, p);
      hide Inv, Touches, DisputeFits;
      TouchKeepsInv(w, CancelStep(w, p), w.calls[p].id, p);
    }
  }

  lemma NextKeepsInv(w: World, ev: Event)
    requires Inv(w) && FreshId(w, ev)
    ensures Inv(Next(w, ev))
  {
    hide Inv;
    match ev
    case File(id, claim, now) => FileKeepsInv(w, id, claim, now);
    case Rebut(id, rebuttal, now) => RebutKeepsInv(w, id, rebuttal, now);
    case Begin(p, id, judges, contextOk) => BeginKeepsInv(w, p, id, judges, contextOk);
    case JudgeReplies(p, reply, now) => JudgeKeepsInv(w, p, reply, now);
    case BoardReplies(p, ok) => BoardKeepsInv(w, p, ok);
    case FeedbackReplies(p, ok, now, voteIds) => FeedbackKeepsInv(w, p, ok, now, voteIds);
    case Cancel(p) => CancelKeepsInv(w, p);
    case Handle(_) => BoardEventKeepsInv(w, ev);
    case Drop(_) => BoardEventKeepsInv(w, ev);
    case Spend(_) => BoardEventKeepsInv(w, ev);
  }

  lemma {:induction false} RunKeepsInv(events: seq<Event>, n: nat)
    requires FreshRun(START, events) && n <= |events|
    ensures Inv(After(START, events, n))
  {
    if n > 0 {
      hide Next, Inv, FreshId;
      RunKeepsInv(events, n - 1);
      NextKeepsInv(After(START, events, n - 1), events[n - 1]);
    }
  }

  // ----- What a caller can rely on

  /** At any time a dispute is being ruled on by at most one call. */
  lemma OneRulingInFlight(events: seq<Event>, n: nat, p: string, q: string)
    requires FreshRun(START, events) && n <= |events| && p != q
    ensures
      var calls := After(START, events, n).calls;
      p in calls && q in calls ==> calls[p].id != calls[q].id
  {
    RunKeepsInv(events, n);
    hide After, FreshRun, DisputesFit, CallsFit, OnePerTask;
  }

  /** A task has at most one dispute. */
  lemma OneDisputePerTask(events: seq<Event>, n: nat, d: string, e: string)
    requires FreshRun(START, events) && n <= |events|
    ensures
      var disputes := After(START, events, n).store.disputes;
      d in disputes && e in disputes && disputes[d].task == disputes[e].task ==> d == e
  {
    RunKeepsInv(events, n);
    hide After, FreshRun, DisputesFit, CallsFit, OneCallEach;
  }

  /** A dispute is in judging exactly while a call is ruling on it, or after such a call was cancelled. It is
      ruled exactly when the ruling fields and the votes are there, and then its summary is the reasons of its votes
      and its share their median, a percentage, and the one share the task board has written for its task. */
  lemma StatusMeansWhatItSays(events: seq<Event>, n: nat, id: string)
    requires FreshRun(START, events) && n <= |events| && id in After(START, events, n).store.disputes
    ensures
      var w := After(START, events, n);
      var row, votes := w.store.disputes[id], VotesOf(w.store, id);
      && (row.status == Judging <==> id in w.abandoned || InFlight(w, id))
      && (row.status == Ruled <==> row.workerPct.Some?) && (row.status == Ruled <==> row.summary.Some?)
      && (row.status == Ruled <==> row.ruledAt.Some?) && (row.status == Ruled <==> votes != [])
      && (row.status == Ruled ==>
            && 0 <= row.workerPct.value <= 100 && row.workerPct.value == UpperMedian(CastShares(votes))
            && row.summary.value == Join(CastReasons(votes))
            && Accepted(w.board, row.task) == [row.workerPct.value])
  {
    RunKeepsInv(events, n);
    assert DisputeFits(After(START, events, n), id);
    hide After, FreshRun, Inv, UpperMedian, CastShares, Join, CastReasons;
  }

  /** What a record keeps: once ruled it does not change. */
  ghost predicate RuledStays(w: World, t: World) {
    forall id :: id in w.store.disputes && w.store.disputes[id].status == Ruled ==>
      && id in t.store.disputes && t.store.disputes[id] == w.store.disputes[id]
      && VotesOf(t.store, id) == VotesOf(w.store, id)
      && Accepted(t.board, w.store.disputes[id].task) == Accepted(w.board, w.store.disputes[id].task)
  }

  lemma CallIsNotRuled(w: World, p: string)
    requires Inv(w) && p in w.calls
    ensures w.calls[p].id in w.store.disputes && w.store.disputes[w.calls[p].id].status == Judging
  {
    assert CallFits(w, w.calls[p]);
  }

  /** Of the disputes none but that of call `c` changed, and at the board nothing. */
  ghost predicate SameElsewhere(w: World, t: World, c: Ruling) {
    && t.board == w.board
    && forall x :: x in w.store.disputes && x != c.id ==>
         && x in t.store.disputes && t.store.disputes[x] == w.store.disputes[x]
         && VotesOf(t.store, x) == VotesOf(w.store, x)
  }

  lemma JudgeElsewhere(w: World, p: string, reply: Reply, now: string)
    requires p in w.calls
    ensures SameElsewhere(w, JudgeStep(w, p, reply, now), w.calls[p])
  {
    hide ComputeRuling, Normalized;
  }

  lemma BoardElsewhere(w: World, p: string, ok: bool)
    requires p in w.calls
    ensures SameElsewhere(w, BoardStep(w, p, ok), w.calls[p])
  {
  }

  lemma FeedbackElsewhere(w: World, p: string, ok: bool, now: string, voteIds: nat -> string)
    requires p in w.calls
    ensures SameElsewhere(w, FeedbackStep(w, p, ok, now, voteIds), w.calls[p])
  {
    hide Persisted, RuledRow;
  }

  lemma CallEventKeepsRuled(w: World, t: World, p: string)
    requires Inv(w) && p in w.calls && SameElsewhere(w, t, w.calls[p])
    ensures RuledStays(w, t)
  {
    assert CallFits(w, w.calls[p]);
    hide DisputesFit, CallsFit, OneCallEach, BoardFits;
  }

  lemma NextKeepsRuled(w: World, ev: Event)
    requires Inv(w) && FreshId(w, ev)
    ensures RuledStays(w, Next(w, ev))
  {
    hide Inv, JudgeStep, BoardStep, FeedbackStep, SameElsewhere, HandleStep, DropStep;
    match ev
    case Handle(_) => BoardEventKeepsRuled(w, ev);
    case Drop(_) => BoardEventKeepsRuled(w, ev);
    case Spend(_) => BoardEventKeepsRuled(w, ev);
    case JudgeReplies(p, reply, now) =>
      if p in w.calls {
        JudgeElsewhere(w, p, reply, now);
        CallEventKeepsRuled(w, JudgeStep(w, p, reply, now), p);
      } else {
        hide RuledStays;
        IdleCall(w, ev);
      }
    case BoardReplies(p, ok) =>
      if p in w.calls {
        BoardElsewhere(w, p, ok);
        CallEventKeepsRuled(w, BoardStep(w, p, ok), p);
      } else {
        hide RuledStays;
        IdleCall(w, ev);
      }
    case FeedbackReplies(p, ok, now, voteIds) =>
      if p in w.calls {
        FeedbackElsewhere(w, p, ok, now, voteIds);
        CallEventKeepsRuled(w, FeedbackStep(w, p, ok, now, voteIds), p);
      } else {
        hide RuledStays;
        IdleCall(w, ev);
      }
    case _ =>
  }

  lemma BoardEventKeepsRuled(w: World, ev: Event)
    requires Inv(w) && (ev.Handle? || ev.Drop? || ev.Spend?)
    ensures RuledStays(w, Next(w, ev))
  {
    BoardEventOnlyBoard(w, ev);
    assert forall id :: id in w.store.disputes ==> DisputeFits(w, id);
    hide Next, CallsFit, BoardFits, OnePerTask, OneCallEach;
  }

  lemma IdleCall(w: World, ev: Event)
    requires (ev.JudgeReplies? || ev.BoardReplies? || ev.FeedbackReplies?) && ev.p !in w.calls
    ensures Next(w, ev) == w && RuledStays(w, w)
  {
  }

  lemma {:induction false} RuledForGood(events: seq<Event>, i: nat, n: nat)
    requires FreshRun(START, events) && i <= n <= |events|
    ensures RuledStays(After(START, events, i), After(START, events, n))
  {
    hide Next, Inv, FreshId;
    if i < n {
      RuledForGood(events, i, n - 1);
      RunKeepsInv(events, n - 1);
      NextKeepsRuled(After(START, events, n - 1), events[n - 1]);
    }
  }

  /** A call that ends without a ruling leaves its dispute exactly as it found it, rebuttal included, unless it
      was cancelled. */
  lemma FailedRulingRestores(events: seq<Event>, n: nat, p: string)
    requires FreshRun(START, events) && n < |events| && !events[n].Cancel?
    requires p in After(START, events, n).calls && p !in After(START, events, n + 1).calls
    ensures
      var w, t := After(START, events, n), After(START, events, n + 1);
      EndedWell(t, w.calls[p])
  {
    RunKeepsInv(events, n);
    hide Next, Inv;
    EndedCall(After(START, events, n), events[n], p);
  }

  /** Call `c` is over: its dispute is ruled, or is the record the call found. */
  predicate EndedWell(t: World, c: Ruling) {
    && c.id in t.store.disputes
    && (t.store.disputes[c.id].status == Ruled
        || (t.store.disputes[c.id] == c.before && VotesOf(t.store, c.id) == []))
  }

  lemma FailEndsWell(w: World, p: string)
    requires Inv(w) && p in w.calls
    ensures EndedWell(Fail(w, p), w.calls[p])
  {
    FailKeepsInv(w, p);
    hide Inv;
  }

  lemma JudgeEndsWell(w: World, p: string, reply: Reply, now: string)
    requires Inv(w) && p in w.calls && p !in JudgeStep(w, p, reply, now).calls
    ensures EndedWell(JudgeStep(w, p, reply, now), w.calls[p])
  {
    FailEndsWell(w, p);
    EndedByJudge(w, p, reply, now);
    hide Inv, EndedWell, Fail, JudgeStep;
  }

  lemma EndedByJudge(w: World, p: string, reply: Reply, now: string)
    requires p in w.calls && p !in JudgeStep(w, p, reply, now).calls
    ensures JudgeStep(w, p, reply, now) == Fail(w, p)
  {
    hide ComputeRuling, Normalized, RevertStep;
  }

  lemma BoardEndsWell(w: World, p: string, ok: bool)
    requires Inv(w) && p in w.calls && p !in BoardStep(w, p, ok).calls
    ensures EndedWell(BoardStep(w, p, ok), w.calls[p])
  {
    FailEndsWell(w, p);
    EndedByBoard(w, p, ok);
    hide Inv, BoardStep, Fail;
  }

  lemma EndedByBoard(w: World, p: string, ok: bool)
    requires p in w.calls && p !in BoardStep(w, p, ok).calls
    ensures BoardStep(w, p, ok) == Fail(w, p)
  {
    hide RevertStep;
  }

  lemma FeedbackEndsWell(w: World, p: string, ok: bool, now: string, voteIds: nat -> string)
    requires Inv(w) && p in w.calls && p !in FeedbackStep(w, p, ok, now, voteIds).calls
    ensures EndedWell(FeedbackStep(w, p, ok, now, voteIds), w.calls[p])
  {
    FailEndsWell(w, p);
    CallIsNotRuled(w, p);
    hide Inv, RevertStep;
  }

  lemma EndedCall(w: World, ev: Event, p: string)
    requires Inv(w) && !ev.Cancel? && p in w.calls && p !in Next(w, ev).calls
    ensures EndedWell(Next(w, ev), w.calls[p])
  {
    OnlyItsOwnEvent(w, ev, p);
    hide Inv, EndedWell, JudgeStep, BoardStep, FeedbackStep, BeginStep, CancelStep, FileStep, SubmitRebuttalStep;
    if ev.JudgeReplies? {
      JudgeEndsWell(w, p, ev.reply, ev.now);
    } else if ev.BoardReplies? {
      BoardEndsWell(w, p, ev.ok);
    } else {
      FeedbackEndsWell(w, p, ev.ok, ev.now, ev.voteIds);
    }
  }

  lemma OnlyItsOwnEvent(w: World, ev: Event, p: string)
    requires !ev.Cancel? && p in w.calls && p !in Next(w, ev).calls
    ensures (ev.JudgeReplies? || ev.BoardReplies? || ev.FeedbackReplies?) && ev.p == p
  {
    hide ComputeRuling, Normalized, RevertStep, PersistStep;
  }

  /** What `before` is: the record at the moment the call began. */
  lemma BeginRemembers(w: World, p: string, id: string, judges: nat, contextOk: bool)
    requires p !in w.calls && p in BeginStep(w, p, id, judges, contextOk).calls
    ensures id in w.store.disputes && BeginStep(w, p, id, judges, contextOk).calls[p].before == w.store.disputes[id]
    ensures BeginStep(w, p, id, judges, contextOk).calls[p].id == id
  {
  }

  lemma BeforeIsKept(w: World, ev: Event, p: string)
    requires p in w.calls && p in Next(w, ev).calls
    ensures (Next(w, ev).calls[p].id, Next(w, ev).calls[p].before) == (w.calls[p].id, w.calls[p].before)
  {
    hide ComputeRuling, Normalized, Persisted, RevertStep, PersistStep;
  }

  lemma {:induction false} BeforeIsCarried(events: seq<Event>, i: nat, n: nat, p: string)
    requires i <= n <= |events| && forall k :: i <= k <= n ==> p in After(START, events, k).calls
    ensures
      var c, d := After(START, events, i).calls[p], After(START, events, n).calls[p];
      (c.id, c.before) == (d.id, d.before)
  {
    hide Next;
    if i < n {
      BeforeIsCarried(events, i, n - 1, p);
      assert After(START, events, n) == Next(After(START, events, n - 1), events[n - 1]);
      assert p in After(START, events, n).calls;
      BeforeIsKept(After(START, events, n - 1), events[n - 1], p);
    }
  }

  /** Call `p` begins with event `i` and ends with event `n`. */
  ghost predicate Spans(events: seq<Event>, i: nat, n: nat, p: string) {
    && i < n < |events| && events[i].Begin? && events[i].p == p
    && p !in After(START, events, i).calls && p !in After(START, events, n + 1).calls
    && forall k :: i < k <= n ==> p in After(START, events, k).calls
  }

  lemma BeginIsNext(events: seq<Event>, i: nat)
    requires i < |events| && events[i].Begin?
    ensures After(START, events, i + 1)
         == BeginStep(After(START, events, i), events[i].p, events[i].id, events[i].judges, events[i].contextOk)
  {
  }

  /** A ruling as a whole: unless it was cancelled, the dispute is ruled when the call ends or its record is the
      one from before the call began, whatever ran in between. */
  lemma RulingIsAllOrNothing(events: seq<Event>, i: nat, n: nat, p: string)
    requires FreshRun(START, events) && Spans(events, i, n, p) && !events[n].Cancel?
    ensures
      var u, t, id := After(START, events, i), After(START, events, n + 1), events[i].id;
      && id in u.store.disputes && id in t.store.disputes
      && (t.store.disputes[id].status == Ruled
          || (t.store.disputes[id] == u.store.disputes[id] && VotesOf(t.store, id) == []))
  {
    hide Next, Inv, FreshRun, After, BeginStep;
    var u := After(START, events, i);
    BeginIsNext(events, i);
    BeginRemembers(u, p, events[i].id, events[i].judges, events[i].contextOk);
    BeforeIsCarried(events, i + 1, n, p);
    FailedRulingRestores(events, n, p);
  }

  // ----- A cancelled call

  /** A dispute whose call was cancelled stays in judging for good: every later attempt is refused, and nothing
      else ends judging. */
  lemma NextKeepsAbandoned(w: World, ev: Event, id: string)
    requires Inv(w) && FreshId(w, ev) && id in w.abandoned
    ensures id in Next(w, ev).abandoned
  {
    hide Inv, ComputeRuling, Normalized, RevertStep, PersistStep;
  }

  lemma {:induction false} AbandonedForGood(events: seq<Event>, i: nat, n: nat, id: string)
    requires FreshRun(START, events) && i <= n <= |events| && id in After(START, events, i).abandoned
    ensures
      var w := After(START, events, n);
      && id in w.store.disputes && w.store.disputes[id].status == Judging && Refusal(w.store, id) == Some(NotReady)
  {
    StaysAbandoned(events, i, n, id);
    RunKeepsInv(events, n);
    assert DisputeFits(After(START, events, n), id);
    hide After, FreshRun, InFlight;
  }

  lemma {:induction false} StaysAbandoned(events: seq<Event>, i: nat, n: nat, id: string)
    requires FreshRun(START, events) && i <= n <= |events| && id in After(START, events, i).abandoned
    ensures id in After(START, events, n).abandoned
  {
    hide Next, Inv, FreshId;
    if i < n {
      StaysAbandoned(events, i, n - 1, id);
      RunKeepsInv(events, n - 1);
      NextKeepsAbandoned(After(START, events, n - 1), events[n - 1], id);
    }
  }

}
