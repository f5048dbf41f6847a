/** The court's dispute and the board's task are ruled in two steps that can come apart. When they do, and what
    becomes of the dispute. */
module RulingOutcome {
  import opened Common
  import opened Median
  import opened DisputeStore
  import opened RulingProtocol

  // ----- The board

  /** Over every run, announcements that arrive after their sender has given up included, the board writes at most one
      share for a task, and only with the escrow resolved. A ruled dispute's share is that one. */
  lemma BoardAcceptsOnce(events: seq<Event>, n: nat, task: string)
    requires FreshRun(START, events) && n <= |events|
    ensures
      var w := After(START, events, n);
      && |Accepted(w.board, task)| <= 1 && (Accepted(w.board, task) != [] ==> task in w.spent)
      && forall id :: id in w.store.disputes && w.store.disputes[id].task == task
                      && w.store.disputes[id].status == Ruled ==>
           w.store.disputes[id].workerPct.Some? && Accepted(w.board, task) == [w.store.disputes[id].workerPct.value]
  {
    RunKeepsInv(events, n);
    var w := After(START, events, n);
    assert forall id :: id in w.store.disputes ==> DisputeFits(w, id);
    hide After, FreshRun;
  }

  // ----- When a dispute can still be ruled

  /** Call `c` on dispute `id` has the board's success, or its own announcement is the one the bank has paid for. */
  predicate Delivers(w: World, c: Ruling, id: string) {
    && c.id == id
    && (|| c.Rating?
        || (&& c.Announcing? && c.request < |w.sent|
            && (w.sent[c.request].stage == Paid || w.sent[c.request].stage == Written)))
  }

  ghost predicate OnCourse(w: World, id: string) {
    exists p :: p in w.calls && Delivers(w, w.calls[p], id)
  }

  /** The dispute's call was cancelled, or the escrow of its task is resolved and no call under way is the one it was
      resolved for. */
  ghost predicate Lost(w: World, id: string)
    requires id in w.store.disputes
  {
    id in w.abandoned || (w.store.disputes[id].task in w.spent && !OnCourse(w, id))
  }

  /** Dispute `id` is not ruled and is lost. */
  ghost predicate Doomed(w: World, id: string) {
    id in w.store.disputes && w.store.disputes[id].status != Ruled && Lost(w, id)
  }

  /** What an event leaves of an unruled dispute. */
  predicate Leaves(w: World, t: World, id: string)
    requires id in w.store.disputes
  {
    && id in t.store.disputes && t.store.disputes[id].task == w.store.disputes[id].task
    && (t.store.disputes[id].status == Ruled ==> w.store.disputes[id].status == Ruled)
    && w.spent <= t.spent
  }

  lemma NobodyGetsOnCourse(w: World, t: World, p: string, id: string)
    requires !OnCourse(w, id)
    requires forall q :: q in t.calls && q != p ==>
               q in w.calls && t.calls[q] == w.calls[q] && (Delivers(t, t.calls[q], id) ==> Delivers(w, w.calls[q], id))
    requires p in t.calls ==> !Delivers(t, t.calls[p], id)
    ensures !OnCourse(t, id)
  {
    forall q | q in t.calls ensures !Delivers(t, t.calls[q], id) {
      if q != p {
        assert !Delivers(w, w.calls[q], id);
      }
    }
  }

  lemma JudgeLeaves(w: World, p: string, reply: Reply, now: string, id: string)
    requires id in w.store.disputes && !OnCourse(w, id)
    ensures Leaves(w, JudgeStep(w, p, reply, now), id) && !OnCourse(JudgeStep(w, p, reply, now), id)
  {
    hide ComputeRuling, Normalized;
    var t := JudgeStep(w, p, reply, now);
    if p in w.calls {
      assert !Delivers(w, w.calls[p], id);
    }
    NobodyGetsOnCourse(w, t, p, id);
  }

  lemma BoardLeaves(w: World, p: string, ok: bool, id: string)
    requires id in w.store.disputes && !OnCourse(w, id)
    ensures Leaves(w, BoardStep(w, p, ok), id) && !OnCourse(BoardStep(w, p, ok), id)
  {
    if p in w.calls {
      assert !Delivers(w, w.calls[p], id);
    }
    NobodyGetsOnCourse(w, BoardStep(w, p, ok), p, id);
  }

  lemma FeedbackLeaves(w: World, p: string, ok: bool, now: string, voteIds: nat -> string, id: string)
    requires id in w.store.disputes && !OnCourse(w, id)
    ensures Leaves(w, FeedbackStep(w, p, ok, now, voteIds), id) && !OnCourse(FeedbackStep(w, p, ok, now, voteIds), id)
  {
    hide Persisted;
    if p in w.calls {
      assert !Delivers(w, w.calls[p], id);
    }
    NobodyGetsOnCourse(w, FeedbackStep(w, p, ok, now, voteIds), p, id);
  }

  lemma QuietLeaves(w: World, ev: Event, id: string)
    requires ev.File? || ev.Rebut? || ev.Begin? || ev.Cancel?
    requires id in w.store.disputes && FreshId(w, ev) && !OnCourse(w, id)
    ensures Leaves(w, Next(w, ev), id)
  {
  }

  lemma QuietStartsNothing(w: World, ev: Event, id: string)
    requires ev.File? || ev.Rebut? || ev.Begin? || ev.Cancel?
    requires !OnCourse(w, id)
    ensures !OnCourse(Next(w, ev), id)
  {
    hide FileStep, SubmitRebuttalStep, StatusStep, RevertStep;
    var p := if ev.Begin? || ev.Cancel? then ev.p else "";
    if p in w.calls {
      assert !Delivers(w, w.calls[p], id);
    }
    NobodyGetsOnCourse(w, Next(w, ev), p, id);
  }

  /** The bank does not pay a second time, so no announcement for a spent task gets any further. */
  lemma BoardSideDelivers(w: World, ev: Event, c: Ruling, id: string)
    requires (ev.Handle? || ev.Drop? || ev.Spend?) && CallFits(w, c)
    requires id in w.store.disputes && w.store.disputes[id].task in w.spent
    requires Delivers(Next(w, ev), c, id)
    ensures Delivers(w, c, id)
  {
    hide ComputeRuling, IsUnruled, AllClean;
  }

  lemma BoardSideLeaves(w: World, ev: Event, id: string)
    requires Inv(w) && (ev.Handle? || ev.Drop? || ev.Spend?)
    requires id in w.store.disputes && w.store.disputes[id].task in w.spent && !OnCourse(w, id)
    ensures Leaves(w, Next(w, ev), id) && !OnCourse(Next(w, ev), id)
  {
    BoardEventOnlyBoard(w, ev);
    var t := Next(w, ev);
    assert forall p :: p in w.calls ==> CallFits(w, w.calls[p]);
    hide Inv, Next, CallFits;
    forall p | p in t.calls ensures !Delivers(t, t.calls[p], id) {
      assert !Delivers(w, w.calls[p], id);
      if Delivers(t, t.calls[p], id) {
        BoardSideDelivers(w, ev, w.calls[p], id);
      }
    }
  }

  lemma AbandonedIsJudging(w: World, id: string)
    requires Inv(w) && id in w.abandoned
    ensures id in w.store.disputes && w.store.disputes[id].status == Judging
  {
    assert DisputeFits(w, id);
  }

  lemma NextKeepsDoomed(w: World, ev: Event, id: string)
    requires Inv(w) && FreshId(w, ev) && Doomed(w, id)
    ensures Doomed(Next(w, ev), id)
  {
    if id in w.abandoned {
      NextKeepsInv(w, ev);
      NextKeepsAbandoned(w, ev, id);
      hide Inv, Next;
      AbandonedIsJudging(Next(w, ev), id);
    } else {
      hide Inv, OnCourse, JudgeStep, BoardStep, FeedbackStep, HandleStep, DropStep;
      match ev
      case JudgeReplies(p, reply, now) => JudgeLeaves(w, p, reply, now, id);
      case BoardReplies(p, ok) => BoardLeaves(w, p, ok, id);
      case FeedbackReplies(p, ok, now, voteIds) => FeedbackLeaves(w, p, ok, now, voteIds, id);
      case Handle(_) => BoardSideLeaves(w, ev, id);
      case Drop(_) => BoardSideLeaves(w, ev, id);
      case Spend(_) => BoardSideLeaves(w, ev, id);
      case _ =>
        QuietLeaves(w, ev, id);
        QuietStartsNothing(w, ev, id);
    }
  }

  lemma {:induction false} DoomedForGood(w: World, events: seq<Event>, n: nat, id: string)
    requires Inv(w) && FreshRun(w, events) && n <= |events| && Doomed(w, id)
    ensures Inv(After(w, events, n)) && Doomed(After(w, events, n), id)
  {
    hide Next, Inv, FreshId, Doomed;
    if n > 0 {
      DoomedForGood(w, events, n - 1, id);
      NextKeepsInv(After(w, events, n - 1), events[n - 1]);
      NextKeepsDoomed(After(w, events, n - 1), events[n - 1], id);
    }
  }

  // ----- Continuations that rule

  /** A continuation at the end of which dispute `id` is ruled. */
  predicate Rules(w: World, events: seq<Event>, id: string) {
    && FreshRun(w, events)
    && id in After(w, events, |events|).store.disputes
    && After(w, events, |events|).store.disputes[id].status == Ruled
  }

  ghost predicate CanBeRuled(w: World, id: string) {
    exists events :: Rules(w, events, id)
  }

  lemma {:induction false} AfterFirst(w: World, ev: Event, events: seq<Event>, n: nat)
    requires n <= |events|
    ensures After(w, [ev] + events, n + 1) == After(Next(w, ev), events, n)
  {
    hide Next;
    if n > 0 {
      AfterFirst(w, ev, events, n - 1);
    } else {
      assert After(w, [ev] + events, 1) == Next(After(w, [ev] + events, 0), ([ev] + events)[0]);
    }
  }

  /** What can be ruled after one more event can be ruled now. */
  lemma FirstStep(w: World, ev: Event, id: string)
    requires FreshId(w, ev) && CanBeRuled(Next(w, ev), id)
    ensures CanBeRuled(w, id)
  {
    hide Next, FreshId;
    var events :| Rules(Next(w, ev), events, id);
    var all := [ev] + events;
    AfterFirst(w, ev, events, |events|);
    forall i | 0 <= i < |all| ensures FreshId(After(w, all, i), all[i]) {
      if i > 0 {
        AfterFirst(w, ev, events, i - 1);
        assert FreshId(After(Next(w, ev), events, i - 1), events[i - 1]);
      }
    }
    assert Rules(w, all, id);
  }

  lemma AlreadyRuled(w: World, id: string)
    requires id in w.store.disputes && w.store.disputes[id].status == Ruled
    ensures CanBeRuled(w, id)
  {
    assert Rules(w, [], id);
  }

  const NO_IDS: nat -> string := i => ""

  /** A call that has the board's success rules its dispute if its feedback is taken. */
  lemma RatingCanRule(w: World, p: string, id: string)
    requires id in w.store.disputes && p in w.calls && w.calls[p].Rating? && w.calls[p].id == id
    ensures CanBeRuled(w, id)
  {
    var ev := FeedbackReplies(p, true, "", NO_IDS);
    if w.calls[p].sent != 0 {
      LastFeedbackRules(w, p, id);
    } else {
      var t := Next(w, ev);
      assert t.store == w.store && p in t.calls && t.calls[p].Rating? && t.calls[p].id == id && t.calls[p].sent != 0;
      LastFeedbackRules(t, p, id);
      hide Next, CanBeRuled;
      FirstStep(w, ev, id);
    }
  }

  lemma LastFeedbackRules(w: World, p: string, id: string)
    requires id in w.store.disputes && p in w.calls && w.calls[p].Rating? && w.calls[p].id == id && w.calls[p].sent != 0
    ensures CanBeRuled(w, id)
  {
    var ev := FeedbackReplies(p, true, "", NO_IDS);
    AlreadyRuled(Next(w, ev), id);
    hide Next, CanBeRuled;
    FirstStep(w, ev, id);
  }

  /** Call `p` on dispute `id` waits for the board, its announcement being at `stage`. */
  predicate WaitsAt(w: World, p: string, id: string, stage: Stage) {
    && id in w.store.disputes && p in w.calls && w.calls[p].Announcing? && w.calls[p].id == id
    && w.calls[p].request < |w.sent| && w.sent[w.calls[p].request].stage == stage
  }

  lemma WrittenCanRule(w: World, p: string, id: string)
    requires WaitsAt(w, p, id, Written)
    ensures CanBeRuled(w, id)
  {
    var ev := BoardReplies(p, true);
    RatingCanRule(Next(w, ev), p, id);
    hide Next, CanBeRuled;
    FirstStep(w, ev, id);
  }

  lemma PaidCanRule(w: World, p: string, id: string)
    requires WaitsAt(w, p, id, Paid)
    ensures CanBeRuled(w, id)
  {
    var ev := Handle(w.calls[p].request);
    WrittenCanRule(Next(w, ev), p, id);
    hide Next, CanBeRuled;
    FirstStep(w, ev, id);
  }

  /** An announcement that has just set out can get through, if the task is in dispute and its escrow is locked. */
  lemma UnderwayCanRule(w: World, p: string, id: string)
    requires WaitsAt(w, p, id, Underway)
    requires
      var task := w.sent[w.calls[p].request].task;
      Accepted(w.board, task) == [] && task !in w.spent
    ensures CanBeRuled(w, id)
  {
    var ev := Handle(w.calls[p].request);
    var t := Next(w, ev);
    assert WaitsAt(t, p, id, Checked) && t.calls == w.calls && t.spent == w.spent;
    assert WaitsAt(Next(t, ev), p, id, Paid);
    PaidCanRule(Next(t, ev), p, id);
    hide Next, CanBeRuled;
    FirstStep(t, ev, id);
    FirstStep(w, ev, id);
  }

  const SOME_VOTE := Vote("judge", 50, "reason", "now")

  lemma PendingBegins(w: World, p: string, id: string)
    requires Inv(w) && id in w.store.disputes && w.store.disputes[id].status == RebuttalPending && p !in w.calls
    requires w.store.disputes[id].task !in w.spent
    ensures Accepted(w.board, w.store.disputes[id].task) == []
    ensures
      var begun := Next(w, Begin(p, id, 1, true));
      && p in begun.calls && begun.calls[p] == Polling(id, w.store.disputes[id], 1, []) && id in begun.store.disputes
      && (begun.board, begun.spent) == (w.board, w.spent)
  {
    assert DisputeFits(w, id);
    hide DisputesFit, CallsFit, OneCallEach, OnePerTask;
  }

  /** A pending dispute whose task's escrow is not resolved can be ruled by a call under any free name. */
  lemma PendingCanRule(w: World, p: string, id: string)
    requires Inv(w) && id in w.store.disputes && w.store.disputes[id].status == RebuttalPending && p !in w.calls
    requires w.store.disputes[id].task !in w.spent
    ensures CanBeRuled(w, id)
  {
    hide Inv, CanBeRuled;
    PendingBegins(w, p, id);
    hide Next;
    var begin := Begin(p, id, 1, true);
    var begun := Next(w, begin);
    var vote := JudgeReplies(p, Answered(JudgeVote(SOME_VOTE)), "");
    OneVoteAnnounces(begun, p, id, w.store.disputes[id]);
    UnderwayCanRule(Next(begun, vote), p, id);
    FirstStep(begun, vote, id);
    FirstStep(w, begin, id);
  }

  lemma OneVoteAnnounces(w: World, p: string, id: string, before: Row)
    requires p in w.calls && w.calls[p] == Polling(id, before, 1, []) && id in w.store.disputes
    ensures
      var t := Next(w, JudgeReplies(p, Answered(JudgeVote(SOME_VOTE)), ""));
      && WaitsAt(t, p, id, Underway) && t.sent[t.calls[p].request].task == before.task
      && t.store == w.store && (t.board, t.spent) == (w.board, w.spent)
  {
    hide ComputeRuling, Cleaned;
  }

  // ----- A name no call has

  predicate AllShorter(names: set<string>, n: nat) {
    forall s :: s in names ==> |s| < n
  }

  lemma {:induction false} NamesAreBounded(names: set<string>) returns (n: nat)
    ensures AllShorter(names, n)
    decreases |names|
  {
    if names == {} {
      n := 0;
    } else {
      var s :| s in names;
      var m := NamesAreBounded(names - {s});
      n := if m <= |s| then |s| + 1 else m;
      forall x | x in names ensures |x| < n {
        if x != s {
          assert x in names - {s};
        }
      }
    }
  }

  lemma FreeName(w: World) returns (p: string)
    ensures p !in w.calls
  {
    var n := NamesAreBounded(w.calls.Keys);
    p := seq(n, i => 'x');
    assert |p| == n;
  }

  lemma FailFirst(w: World, p: string, ev: Event, id: string)
    requires Inv(w) && p in w.calls && w.calls[p].id == id && FreshId(w, ev) && Next(w, ev) == Fail(w, p)
    requires w.calls[p].before.task !in w.spent
    ensures CanBeRuled(w, id)
  {
    AloneOnItsDispute(w, p);
    FailKeepsInv(w, p);
    hide Inv, CanBeRuled, RevertStep;
    PendingCanRule(Fail(w, p), p, id);
    FirstStep(w, ev, id);
  }

  lemma OnCourseCanRule(w: World, id: string)
    requires id in w.store.disputes && OnCourse(w, id)
    ensures CanBeRuled(w, id)
  {
    var p :| p in w.calls && Delivers(w, w.calls[p], id);
    if w.calls[p].Rating? {
      RatingCanRule(w, p, id);
    } else if w.sent[w.calls[p].request].stage == Paid {
      PaidCanRule(w, p, id);
    } else {
      WrittenCanRule(w, p, id);
    }
  }

  /** A dispute that is not lost can be ruled. */
  lemma NotLostCanRule(w: World, id: string)
    requires Inv(w) && id in w.store.disputes && !Lost(w, id)
    ensures CanBeRuled(w, id)
  {
    assert DisputeFits(w, id);
    if OnCourse(w, id) {
      OnCourseCanRule(w, id);
    } else if w.store.disputes[id].status == Ruled {
      AlreadyRuled(w, id);
    } else if w.store.disputes[id].status == RebuttalPending {
      var p := FreeName(w);
      PendingCanRule(w, p, id);
    } else {
      var p :| p in w.calls && w.calls[p].id == id;
      assert !Delivers(w, w.calls[p], id);
      hide Inv, CanBeRuled;
      InFlightCanRule(w, p, id);
    }
  }

  /** A call that is not on course can fail, and its dispute be tried again. */
  lemma InFlightCanRule(w: World, p: string, id: string)
    requires Inv(w) && p in w.calls && w.calls[p].id == id && !w.calls[p].Rating?
    requires id in w.store.disputes && w.store.disputes[id].task !in w.spent
    ensures CanBeRuled(w, id)
  {
    hide Inv, CanBeRuled, RevertStep, ComputeRuling, Normalized;
    AloneOnItsDispute(w, p);
    var ev := if w.calls[p].Polling? then JudgeReplies(p, Failed, "") else BoardReplies(p, false);
    FailFirst(w, p, ev, id);
  }

  /** Exactly when a dispute that is not ruled yet can still be: unless its call was cancelled, or the escrow of its
      task is resolved and not for a call that is still under way. From then on the bank refuses to pay again, the board
      fails every further announcement, and every further call puts the dispute back. */
  lemma CanBeRuledIff(w: World, id: string)
    requires Inv(w) && id in w.store.disputes && w.store.disputes[id].status != Ruled
    ensures CanBeRuled(w, id) <==> !Lost(w, id)
  {
    if Lost(w, id) {
      hide Inv, FreshRun, After, Lost;
      forall events | FreshRun(w, events) ensures !Rules(w, events, id) {
        DoomedForGood(w, events, |events|, id);
      }
    } else {
      NotLostCanRule(w, id);
    }
  }

  // ----- How it comes about

  /** A call that fails after its share was written or paid for leaves its dispute as it was before, and lost. */
  lemma FailureLosesDispute(w: World, p: string)
    requires Inv(w) && p in w.calls && w.calls[p].before.task in w.spent
    ensures Inv(Fail(w, p)) && Doomed(Fail(w, p), w.calls[p].id)
    ensures Fail(w, p).store.disputes[w.calls[p].id] == w.calls[p].before
    ensures (Fail(w, p).sent, Fail(w, p).spent, Fail(w, p).board) == (w.sent, w.spent, w.board)
  {
    AloneOnItsDispute(w, p);
    FailKeepsInv(w, p);
    var t := Fail(w, p);
    hide Inv, RevertStep;
    assert !OnCourse(t, w.calls[p].id);
  }

  /** The board writes the share, the feedback fails, and the dispute is pending again while its task is ruled. */
  lemma FailedFeedbackLosesDispute(w: World, p: string, ok: bool, now: string, voteIds: nat -> string)
    requires Inv(w) && p in w.calls && w.calls[p].Rating? && !ok
    ensures
      var t, c := FeedbackStep(w, p, ok, now, voteIds), w.calls[p];
      && Inv(t) && Doomed(t, c.id) && t.store.disputes[c.id] == c.before
      && Accepted(t.board, c.before.task) == [c.pct]
  {
    assert CallFits(w, w.calls[p]);
    assert FeedbackStep(w, p, ok, now, voteIds) == Fail(w, p);
    FailureLosesDispute(w, p);
    hide Inv, Fail, FeedbackStep, Doomed;
  }

  /** The same when the board writes the share and its reply is lost. */
  lemma LostReplyLosesDispute(w: World, p: string)
    requires Inv(w) && p in w.calls && w.calls[p].Announcing? && Took(w, w.calls[p].request)
    ensures
      var t, c := BoardStep(w, p, false), w.calls[p];
      && Inv(t) && Doomed(t, c.id) && t.store.disputes[c.id] == c.before
      && Accepted(t.board, c.before.task) == [c.pct]
  {
    assert CallFits(w, w.calls[p]) && AnnouncementFits(w.sent[w.calls[p].request], w.spent, w.board);
    FailureLosesDispute(w, p);
    hide Inv, Fail, Doomed;
  }

  /** The escrow of the task is resolved, and there is no share at the board and nobody to write one. */
  predicate Barren(w: World, task: string) {
    && task in w.spent && Accepted(w.board, task) == []
    && forall k :: 0 <= k < |w.sent| && w.sent[k].task == task ==> w.sent[k].stage != Paid
  }

  /** The bank pays, the board does not get to write: the dispute is pending as before and lost, the task is in dispute
      as before, and the money is gone. */
  lemma UnwrittenShareLosesDispute(w: World, p: string)
    requires Inv(w) && p in w.calls && w.calls[p].Announcing?
    requires w.calls[p].request < |w.sent| && w.sent[w.calls[p].request].stage == Paid
    ensures
      var t, c := BoardStep(DropStep(w, w.calls[p].request), p, false), w.calls[p];
      Inv(t) && Doomed(t, c.id) && t.store.disputes[c.id] == c.before && Barren(t, c.before.task)
  {
    hide Inv, Doomed, Fail, Barren, DropStep, BoardStep;
    var k := w.calls[p].request;
    AloneOnItsDispute(w, p);
    DropLeavesBarren(w, k);
    BoardEventKeepsInv(w, Drop(k));
    var u := DropStep(w, k);
    assert Barren(u, w.calls[p].before.task) && u.calls == w.calls;
    BarrenIsSpent(u, w.calls[p].before.task);
    ErrorIsFailure(u, p);
    FailureLosesDispute(u, p);
    BarrenElsewhere(u, Fail(u, p), w.calls[p].before.task);
  }

  lemma DropLeavesBarren(w: World, k: nat)
    requires Inv(w) && k < |w.sent| && w.sent[k].stage == Paid
    ensures Barren(DropStep(w, k), w.sent[k].task) && DropStep(w, k).calls == w.calls
  {
    hide DisputesFit, CallsFit, OneCallEach, OnePerTask;
    assert AnnouncementFits(w.sent[k], w.spent, w.board);
    assert forall j :: 0 <= j < |w.sent| && j != k && w.sent[j].stage == Paid ==> w.sent[j].task != w.sent[k].task;
  }

  lemma BarrenIsSpent(w: World, task: string)
    requires Barren(w, task)
    ensures task in w.spent
  {
  }

  lemma ErrorIsFailure(w: World, p: string)
    requires p in w.calls && w.calls[p].Announcing?
    ensures BoardStep(w, p, false) == Fail(w, p)
  {
  }

  lemma BarrenElsewhere(w: World, t: World, task: string)
    requires Barren(w, task) && (t.sent, t.spent, t.board) == (w.sent, w.spent, w.board)
    ensures Barren(t, task)
  {
  }

  lemma NextKeepsBarren(w: World, ev: Event, task: string)
    requires Barren(w, task)
    ensures Barren(Next(w, ev), task)
  {
    hide FileStep, SubmitRebuttalStep, StatusStep, RevertStep, PersistStep, ComputeRuling, Normalized;
  }

  /** Such a task is never given a share, whatever the court goes on to do. */
  lemma {:induction false} BarrenForGood(w: World, events: seq<Event>, n: nat, task: string)
    requires n <= |events| && Barren(w, task)
    ensures Barren(After(w, events, n), task)
  {
    hide Next, Barren;
    if n > 0 {
      BarrenForGood(w, events, n - 1, task);
      NextKeepsBarren(After(w, events, n - 1), events[n - 1], task);
    }
  }
}
