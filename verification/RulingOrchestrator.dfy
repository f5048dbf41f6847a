/** execute_ruling in one piece: what it leaves in the store and what it answers, and that a call nobody
    interrupts does exactly this in the protocol of suspended calls. */
module RulingOrchestrator {
  import opened Common
  import opened Median
  import opened DisputeStore
  import RulingProtocol

  datatype Failure = Refused(error: RulingProtocol.RulingError) | PutBack

  /** What the outside world answers during one ruling. `boardOk` says that the board's success was received. */
  datatype Outside = Outside(
    contextOk: bool,
    replies: seq<Reply>,
    boardOk: bool,
    firstFeedback: bool,
    secondFeedback: bool)

  predicate Usable(reply: Reply) {
    reply.Answered? && !reply.raw.Unsupported?
  }

  function CleanVote(reply: Reply, index: nat, now: string): Vote
    requires Usable(reply)
  {
    Normalized(reply.raw, index, now).value
  }

  /** The votes the judges cast, cleaned. */
  function Cast(replies: seq<Reply>, now: string): (votes: seq<Vote>)
    requires FirstFailure(replies) == |replies|
    ensures |votes| == |replies|
  {
    seq(|replies|, i requires 0 <= i < |replies| => CleanVote(replies[i], i, now))
  }

  /** Everybody outside does their part. */
  predicate Succeeds(o: Outside) {
    && o.contextOk && o.replies != [] && FirstFailure(o.replies) == |o.replies|
    && o.boardOk && o.firstFeedback && o.secondFeedback
  }

  /** The store after a ruling that was not refused: the whole ruling, or the dispute put back. */
  function Outcome(s: Store, id: string, o: Outside, now: string, voteIds: nat -> string): Store {
    if Succeeds(o) then
      var votes := Cast(o.replies, now);
      PersistStep(StatusStep(s, id, Judging), id, ComputeRuling(votes).0, ComputeRuling(votes).1, votes, now, voteIds)
    else RevertStep(StatusStep(s, id, Judging), id)
  }

  class RulingOrchestrator {
    const store: InMemoryDisputeStore

    constructor (store: InMemoryDisputeStore)
      ensures this.store == store
    {
      this.store := store;
    }

    method ValidateRulingPreconditions(id: string) returns (r: Result<Dispute, RulingProtocol.RulingError>)
      ensures r.Err? ==> RulingProtocol.Refusal(store.Snapshot(), id) == Some(r.error)
      ensures r.Ok? ==>
                RulingProtocol.Refusal(store.Snapshot(), id).None? && Find(store.Snapshot(), id) == Some(r.value)
    {
      var dispute := store.GetDispute(id);
      if dispute.None? {
        return Err(RulingProtocol.NotFound);
      }
      if dispute.value.row.status == Ruled || dispute.value.row.ruledAt.Some? {
        return Err(RulingProtocol.AlreadyRuled);
      }
      if dispute.value.row.status != RebuttalPending && dispute.value.row.status != RebuttalSubmitted {
        return Err(RulingProtocol.NotReady);
      }
      return Ok(dispute.value);
    }

    method ExecuteRuling(id: string, o: Outside, now: string, voteIds: nat -> string)
      returns (r: Result<Dispute, Failure>)
      modifies store
      ensures RulingProtocol.Refusal(old(store.Snapshot()), id).Some? ==>
                && store.Snapshot() == old(store.Snapshot())
                && r == Err(Refused(RulingProtocol.Refusal(old(store.Snapshot()), id).value))
      ensures RulingProtocol.Refusal(old(store.Snapshot()), id).None? ==>
                && store.Snapshot() == Outcome(old(store.Snapshot()), id, o, now, voteIds)
                && (r.Ok? <==> Succeeds(o)) && (r.Err? ==> r.error == PutBack)
                && (r.Ok? ==> Find(store.Snapshot(), id) == Some(r.value))
    {
      var checked := ValidateRulingPreconditions(id);
      if checked.Err? {
        return Err(Refused(checked.error));
      }
      store.SetStatus(id, Judging);
      if !o.contextOk {
        store.RevertToRebuttalPending(id);
        return Err(PutBack);
      }
      var evaluated := EvaluateJudges(o.replies, now);
      AllUsableIff(o.replies);
      if evaluated.Err? {
        store.RevertToRebuttalPending(id);
        return Err(PutBack);
      }
      var votes := evaluated.value;
      var (pct, summary) := ComputeRuling(votes);
      if !o.boardOk || !o.firstFeedback || !o.secondFeedback {
        store.RevertToRebuttalPending(id);
        return Err(PutBack);
      }
      assert votes == Cast(o.replies, now);
      store.PersistRuling(id, pct, summary, votes, now, voteIds);
      var ruled := store.GetDispute(id);
      return Ok(ruled.value);
    }
  }

  // ----- The same call, suspended at each await and resumed at once

  /** Call `p` after the first `k` judges replied. */
  function Polled(w: RulingProtocol.World, p: string, replies: seq<Reply>, now: string, k: nat): RulingProtocol.World
    requires k <= |replies|
  {
    if k == 0 then w else RulingProtocol.JudgeStep(Polled(w, p, replies, now, k - 1), p, replies[k - 1], now)
  }

  /** The board after `n` steps of its handler for announcement `k`. */
  function Handled(w: RulingProtocol.World, k: nat, n: nat): RulingProtocol.World {
    if n == 0 then w else RulingProtocol.HandleStep(Handled(w, k, n - 1), k)
  }

  /** The board gets `n` steps far with the announcement of a call that is resumed at once after every await. */
  function Uninterrupted(w: RulingProtocol.World, p: string, id: string, o: Outside, n: nat, now: string,
                         voteIds: nat -> string)
    : RulingProtocol.World
  {
    var begun := RulingProtocol.BeginStep(w, p, id, |o.replies|, o.contextOk);
    var polled := Polled(begun, p, o.replies, now, |o.replies|);
    AfterPolling(polled, |w.sent|, p, o, n, now, voteIds)
  }

  /** The rest of the call, whose announcement, if it gets to make one, is number `k`. */
  function AfterPolling(w: RulingProtocol.World, k: nat, p: string, o: Outside, n: nat, now: string,
                        voteIds: nat -> string)
    : RulingProtocol.World
  {
    var handled := Handled(w, k, n);
    var told := RulingProtocol.BoardStep(handled, p, o.boardOk && RulingProtocol.Took(handled, k));
    RulingProtocol.FeedbackStep(RulingProtocol.FeedbackStep(told, p, o.firstFeedback, now, voteIds), p,
                                o.secondFeedback, now, voteIds)
  }

  /** The votes of the first `k` judges. */
  function CastBy(replies: seq<Reply>, now: string, k: nat): (votes: seq<Vote>)
    requires k <= FirstFailure(replies)
    ensures |votes| == k
  {
    seq(k, i requires 0 <= i < k => CleanVote(replies[i], i, now))
  }

  function Waiting(w: RulingProtocol.World, p: string, c: RulingProtocol.Ruling): RulingProtocol.World {
    w.(calls := w.calls[p := c])
  }

  function PutBackWorld(w: RulingProtocol.World, p: string, id: string): RulingProtocol.World {
    w.(store := RevertStep(w.store, id), calls := w.calls - {p})
  }

  /** The call with all its votes: their ruling is sent to the board. */
  function Sending(w: RulingProtocol.World, p: string, id: string, before: Row, votes: seq<Vote>)
    : RulingProtocol.World
    requires votes != []
  {
    var (pct, summary) := ComputeRuling(votes);
    w.(calls := w.calls[p := RulingProtocol.Announcing(id, before, votes, pct, summary, |w.sent|)],
       sent := w.sent + [RulingProtocol.Announcement(before.task, pct, RulingProtocol.Underway)])
  }

  function AfterVotes(w: RulingProtocol.World, p: string, id: string, before: Row, judges: nat, votes: seq<Vote>)
    : RulingProtocol.World
    requires votes != []
  {
    if |votes| < judges then Waiting(w, p, RulingProtocol.Polling(id, before, judges, votes))
    else Sending(w, p, id, before, votes)
  }

  /** What one reply does to a call that waits for it. */
  lemma OneReply(w: RulingProtocol.World, p: string, id: string, before: Row, judges: nat, votes: seq<Vote>,
                 reply: Reply, now: string)
    ensures
      var waiting := Waiting(w, p, RulingProtocol.Polling(id, before, judges, votes));
      RulingProtocol.JudgeStep(waiting, p, reply, now)
      == if Usable(reply)
         then AfterVotes(w, p, id, before, judges, votes + [CleanVote(reply, |votes|, now)])
         else PutBackWorld(w, p, id)
  {
    hide ComputeRuling, Cleaned, RevertStep;
    var c := RulingProtocol.Polling(id, before, judges, votes);
    assert w.calls[p := c] - {p} == w.calls - {p};
    if Usable(reply) {
      var t := AfterVotes(w, p, id, before, judges, votes + [CleanVote(reply, |votes|, now)]);
      assert w.calls[p := c][p := t.calls[p]] == w.calls[p := t.calls[p]];
    }
  }

  lemma {:induction false} PollWithoutFailure(w: RulingProtocol.World, p: string, id: string, before: Row,
                                              replies: seq<Reply>, now: string, k: nat)
    requires p in w.calls && w.calls[p] == RulingProtocol.Polling(id, before, |replies|, [])
    requires k <= FirstFailure(replies) && k < |replies|
    ensures Polled(w, p, replies, now, k)
         == Waiting(w, p, RulingProtocol.Polling(id, before, |replies|, CastBy(replies, now, k)))
  {
    if k == 0 {
      assert w.calls[p := w.calls[p]] == w.calls && CastBy(replies, now, 0) == [];
    } else {
      hide CleanVote, RulingProtocol.JudgeStep, Waiting, CastBy;
      PollWithoutFailure(w, p, id, before, replies, now, k - 1);
      OneReply(w, p, id, before, |replies|, CastBy(replies, now, k - 1), replies[k - 1], now);
      OneMoreVote(replies, now, k - 1);
    }
  }

  lemma OneMoreVote(replies: seq<Reply>, now: string, k: nat)
    requires k < FirstFailure(replies)
    ensures CastBy(replies, now, k + 1) == CastBy(replies, now, k) + [CleanVote(replies[k], k, now)]
  {
    hide CleanVote, FirstFailure;
  }

  lemma AllVotes(replies: seq<Reply>, now: string)
    requires FirstFailure(replies) == |replies|
    ensures CastBy(replies, now, |replies|) == Cast(replies, now)
  {
  }

  /** After a judge failed nothing more happens to the call. */
  lemma {:induction false} PollAfterFailure(w: RulingProtocol.World, p: string, replies: seq<Reply>, now: string,
                                            j: nat, k: nat)
    requires j <= k <= |replies| && p !in Polled(w, p, replies, now, j).calls
    ensures Polled(w, p, replies, now, k) == Polled(w, p, replies, now, j)
  {
    if j < k {
      PollAfterFailure(w, p, replies, now, j, k - 1);
    }
  }

  /** All judges vote: the call goes on to the task board with the ruling of the votes cast. */
  lemma PollSucceeds(w: RulingProtocol.World, p: string, id: string, before: Row, replies: seq<Reply>, now: string)
    requires p in w.calls && w.calls[p] == RulingProtocol.Polling(id, before, |replies|, [])
    requires replies != [] && FirstFailure(replies) == |replies|
    ensures Polled(w, p, replies, now, |replies|) == Sending(w, p, id, before, Cast(replies, now))
  {
    var k := |replies| - 1;
    hide CleanVote, RulingProtocol.JudgeStep, Waiting, Sending;
    PollWithoutFailure(w, p, id, before, replies, now, k);
    OneReply(w, p, id, before, |replies|, CastBy(replies, now, k), replies[k], now);
    OneMoreVote(replies, now, k);
    AllVotes(replies, now);
    hide CastBy, Cast;
  }

  /** A judge fails: the dispute is put back, and later replies find no call. */
  lemma PollFails(w: RulingProtocol.World, p: string, id: string, before: Row, replies: seq<Reply>, now: string)
    requires p in w.calls && w.calls[p] == RulingProtocol.Polling(id, before, |replies|, [])
    requires FirstFailure(replies) < |replies|
    ensures Polled(w, p, replies, now, |replies|) == PutBackWorld(w, p, id)
  {
    var f := FirstFailure(replies);
    assert p !in PutBackWorld(w, p, id).calls;
    hide CleanVote, RulingProtocol.JudgeStep, CastBy, Waiting, PutBackWorld;
    PollWithoutFailure(w, p, id, before, replies, now, f);
    OneReply(w, p, id, before, |replies|, CastBy(replies, now, f), replies[f], now);
    assert Polled(w, p, replies, now, f + 1) == PutBackWorld(w, p, id);
    PollAfterFailure(w, p, replies, now, f + 1, |replies|);
  }

  /** How far the handler of an announcement gets in `n` steps. */
  function StageAfter(w: RulingProtocol.World, task: string, n: nat): RulingProtocol.Stage {
    if n == 0 then RulingProtocol.Underway
    else if RulingProtocol.Accepted(w.board, task) != [] then RulingProtocol.Gone
    else if n == 1 then RulingProtocol.Checked
    else if task in w.spent then RulingProtocol.Gone
    else if n == 2 then RulingProtocol.Paid
    else RulingProtocol.Written
  }

  lemma {:induction false} HandledIs(w: RulingProtocol.World, k: nat, n: nat)
    requires k < |w.sent| && w.sent[k].stage == RulingProtocol.Underway
    ensures
      var t := Handled(w, k, n);
      && (t.store, t.calls) == (w.store, w.calls) && |t.sent| == |w.sent|
      && t.sent[k] == w.sent[k].(stage := StageAfter(w, w.sent[k].task, n))
      && (n <= 2 ==> t.board == w.board) && (n <= 1 ==> t.spent == w.spent)
  {
    if n > 0 {
      HandledIs(w, k, n - 1);
    }
  }

  lemma {:induction false} NothingToHandle(w: RulingProtocol.World, k: nat, n: nat)
    requires k >= |w.sent|
    ensures Handled(w, k, n) == w
  {
    if n > 0 {
      NothingToHandle(w, k, n - 1);
    }
  }

  /** What the outside amounts to: the board's success needs three steps of it, a task in dispute and an escrow not yet
      resolved. */
  function Seen(w: RulingProtocol.World, task: string, n: nat, o: Outside): Outside {
    o.(boardOk := o.boardOk && n >= 3 && RulingProtocol.Accepted(w.board, task) == [] && task !in w.spent)
  }

  lemma TookIff(w: RulingProtocol.World, k: nat, n: nat)
    requires k < |w.sent| && w.sent[k].stage == RulingProtocol.Underway
    ensures
      var task := w.sent[k].task;
      RulingProtocol.Took(Handled(w, k, n), k)
      <==> n >= 3 && RulingProtocol.Accepted(w.board, task) == [] && task !in w.spent
  {
    HandledIs(w, k, n);
  }

  /** The rest of a call that has sent its announcement. */
  lemma RestOfCall(w: RulingProtocol.World, p: string, o: Outside, n: nat, now: string, voteIds: nat -> string)
    requires p in w.calls && w.calls[p].Announcing? && w.calls[p].request < |w.sent|
    requires w.sent[w.calls[p].request].stage == RulingProtocol.Underway
    ensures
      var c := w.calls[p];
      var t := AfterPolling(w, c.request, p, o, n, now, voteIds);
      var seen := Seen(w, w.sent[c.request].task, n, o);
      && t.store == (if seen.boardOk && o.firstFeedback && o.secondFeedback
                     then PersistStep(w.store, c.id, c.pct, c.summary, c.votes, now, voteIds)
                     else RevertStep(w.store, c.id))
      && t.calls == w.calls - {p}
  {
    HandledIs(w, w.calls[p].request, n);
    TookIff(w, w.calls[p].request, n);
    hide PersistStep, RevertStep, Handled, StageAfter;
  }

  /** A call that ended before it announced anything is left alone. */
  lemma NothingLeft(w: RulingProtocol.World, k: nat, p: string, o: Outside, n: nat, now: string, voteIds: nat -> string)
    requires p !in w.calls && k >= |w.sent|
    ensures AfterPolling(w, k, p, o, n, now, voteIds) == w
  {
    NothingToHandle(w, k, n);
  }

  /** A call that is resumed at once after every await leaves in the store what ExecuteRuling leaves, whatever the board
      did with its announcement. */
  lemma UninterruptedIsExecute(w: RulingProtocol.World, p: string, id: string, o: Outside, n: nat, now: string,
                               voteIds: nat -> string)
    requires p !in w.calls && RulingProtocol.Refusal(w.store, id).None?
    ensures
      var seen := Seen(w, w.store.disputes[id].task, n, o);
      Uninterrupted(w, p, id, o, n, now, voteIds).store == Outcome(w.store, id, seen, now, voteIds)
    ensures Uninterrupted(w, p, id, o, n, now, voteIds).calls == w.calls
  {
    var begun := RulingProtocol.BeginStep(w, p, id, |o.replies|, o.contextOk);
    hide StatusStep, RevertStep, PersistStep, ComputeRuling, AfterPolling;
    if !o.contextOk || o.replies == [] {
      assert p !in begun.calls;
      PollAfterFailure(begun, p, o.replies, now, 0, |o.replies|);
      NothingLeft(begun, |w.sent|, p, o, n, now, voteIds);
      hide RulingProtocol.BeginStep;
    } else {
      assert begun.calls == w.calls[p := RulingProtocol.Polling(id, w.store.disputes[id], |o.replies|, [])];
      assert begun.calls - {p} == w.calls && begun.store == StatusStep(w.store, id, Judging);
      hide RulingProtocol.BeginStep;
      RestFromBegin(begun, p, id, w.store.disputes[id], o, n, now, voteIds);
    }
  }

  lemma RestFromBegin(w: RulingProtocol.World, p: string, id: string, before: Row, o: Outside, n: nat, now: string,
                      voteIds: nat -> string)
    requires p in w.calls && w.calls[p] == RulingProtocol.Polling(id, before, |o.replies|, [])
    requires o.contextOk && o.replies != []
    ensures
      var t := AfterPolling(Polled(w, p, o.replies, now, |o.replies|), |w.sent|, p, o, n, now, voteIds);
      && t.calls == w.calls - {p}
      && t.store == (if Succeeds(Seen(w, before.task, n, o)) then
                       var votes := Cast(o.replies, now);
                       PersistStep(w.store, id, ComputeRuling(votes).0, ComputeRuling(votes).1, votes, now, voteIds)
                     else RevertStep(w.store, id))
  {
    hide RevertStep, PersistStep, ComputeRuling, RulingProtocol.JudgeStep, Polled, Cast, AfterPolling;
    if FirstFailure(o.replies) == |o.replies| {
      PollSucceeds(w, p, id, before, o.replies, now);
      var polled := Polled(w, p, o.replies, now, |o.replies|);
      assert polled.calls - {p} == w.calls - {p};
      RestOfCall(polled, p, o, n, now, voteIds);
    } else {
      PollFails(w, p, id, before, o.replies, now);
      NothingLeft(PutBackWorld(w, p, id), |w.sent|, p, o, n, now, voteIds);
    }
  }
}
