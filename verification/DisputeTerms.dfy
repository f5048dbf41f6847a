/** What the parties said, over whole runs of the court: the terms under which a dispute was filed and the rebuttal
    that was given stay as they were, whatever rulings come and fail. */
module DisputeTerms {
  import opened Common
  import opened Median
  import opened DisputeStore
  import opened RulingProtocol

  /** The terms of the record are those of the claim. */
  predicate HasTerms(row: Row, c: Claim, filedAt: string) {
    && row.task == c.task && row.claimant == c.claimant && row.respondent == c.respondent && row.claim == c.text
    && row.escrow == c.escrow && row.rebuttalDeadline == c.rebuttalDeadline && row.filedAt == filedAt
  }

  /** Row `q` has the terms of row `r`, and its rebuttal if it has one. */
  predicate Keeps(r: Row, q: Row) {
    && (r.task, r.claimant, r.respondent, r.claim) == (q.task, q.claimant, q.respondent, q.claim)
    && (r.escrow, r.rebuttalDeadline, r.filedAt) == (q.escrow, q.rebuttalDeadline, q.filedAt)
    && (r.rebuttal.Some? ==> (q.rebuttal, q.rebuttedAt) == (r.rebuttal, r.rebuttedAt))
  }

  ghost predicate TermsKept(w: World, t: World) {
    forall id :: id in w.store.disputes ==> id in t.store.disputes && Keeps(w.store.disputes[id], t.store.disputes[id])
  }

  lemma NextKeepsTerms(w: World, ev: Event)
    requires FreshId(w, ev)
    ensures TermsKept(w, Next(w, ev))
  {
    hide JudgeStep, BoardStep, FeedbackStep, HandleStep, DropStep, FileStep, SubmitRebuttalStep, BeginStep;
    match ev
    case File(id, claim, now) => FileKeepsTerms(w, id, claim, now);
    case Rebut(id, rebuttal, now) => RebutKeepsTerms(w, id, rebuttal, now);
    case Begin(p, id, judges, contextOk) => BeginKeepsTerms(w, p, id, judges, contextOk);
    case JudgeReplies(p, reply, now) => JudgeKeepsTerms(w, p, reply, now);
    case BoardReplies(p, ok) => ReplyKeepsTerms(w, p, ok);
    case FeedbackReplies(p, ok, now, voteIds) => FeedbackKeepsTerms(w, p, ok, now, voteIds);
    case Handle(k) => BoardLeavesStore(w, k);
    case Drop(k) => BoardLeavesStore(w, k);
    case _ =>
  }

  lemma FileKeepsTerms(w: World, id: string, claim: Claim, now: string)
    requires id !in w.store.disputes
    ensures TermsKept(w, w.(store := FileStep(w.store, id, claim, now).0))
  {
  }

  lemma RebutKeepsTerms(w: World, id: string, rebuttal: string, now: string)
    ensures TermsKept(w, w.(store := SubmitRebuttalStep(w.store, id, rebuttal, now).0))
  {
  }

  lemma BeginKeepsTerms(w: World, p: string, id: string, judges: nat, contextOk: bool)
    ensures TermsKept(w, BeginStep(w, p, id, judges, contextOk))
  {
  }

  lemma JudgeKeepsTerms(w: World, p: string, reply: Reply, now: string)
    ensures TermsKept(w, JudgeStep(w, p, reply, now))
  {
    hide ComputeRuling, Normalized;
  }

  lemma ReplyKeepsTerms(w: World, p: string, ok: bool)
    ensures TermsKept(w, BoardStep(w, p, ok))
  {
  }

  lemma FeedbackKeepsTerms(w: World, p: string, ok: bool, now: string, voteIds: nat -> string)
    ensures TermsKept(w, FeedbackStep(w, p, ok, now, voteIds))
  {
    hide Persisted;
  }

  lemma BoardLeavesStore(w: World, k: nat)
    ensures HandleStep(w, k).store == w.store && DropStep(w, k).store == w.store
  {
  }

  /** Over any stretch of a run every dispute keeps its terms, and its rebuttal once it has one. */
  lemma {:induction false} RunKeepsTerms(events: seq<Event>, i: nat, n: nat)
    requires FreshRun(START, events) && i <= n <= |events|
    ensures TermsKept(After(START, events, i), After(START, events, n))
  {
    hide Next, FreshId, Keeps;
    if i < n {
      RunKeepsTerms(events, i, n - 1);
      NextKeepsTerms(After(START, events, n - 1), events[n - 1]);
      TermsKeptTransitive(After(START, events, i), After(START, events, n - 1), After(START, events, n));
    } else {
      SameTerms(After(START, events, n));
    }
  }

  lemma SameTerms(w: World)
    ensures TermsKept(w, w)
  {
  }

  lemma TermsKeptTransitive(u: World, v: World, w: World)
    requires TermsKept(u, v) && TermsKept(v, w)
    ensures TermsKept(u, w)
  {
    forall id | id in u.store.disputes
      ensures id in w.store.disputes && Keeps(u.store.disputes[id], w.store.disputes[id])
    {
      assert Keeps(u.store.disputes[id], v.store.disputes[id]) && Keeps(v.store.disputes[id], w.store.disputes[id]);
    }
  }

  lemma FiledHasTerms(s: Store, id: string, c: Claim, now: string)
    requires c.task !in s.disputeByTask
    ensures id in FileStep(s, id, c, now).0.disputes && HasTerms(FileStep(s, id, c, now).0.disputes[id], c, now)
  {
    FiledRecord(s, id, c, now);
    hide FileStep;
  }

  lemma TermsGoOn(r: Row, q: Row, c: Claim, filedAt: string)
    requires HasTerms(r, c, filedAt) && Keeps(r, q)
    ensures HasTerms(q, c, filedAt)
  {
  }

  lemma FileIsNext(events: seq<Event>, i: nat)
    requires i < |events| && events[i].File?
    ensures After(START, events, i + 1).store
         == FileStep(After(START, events, i).store, events[i].id, events[i].claim, events[i].now).0
  {
    hide FileStep;
  }

  /** A dispute that event `i` files has the terms of its claim ever after. */
  lemma FiledTermsLast(events: seq<Event>, i: nat, n: nat)
    requires FreshRun(START, events) && i < n <= |events| && events[i].File?
    requires events[i].claim.task !in After(START, events, i).store.disputeByTask
    ensures
      var w, id := After(START, events, n), events[i].id;
      id in w.store.disputes && HasTerms(w.store.disputes[id], events[i].claim, events[i].now)
  {
    hide FreshRun, FileStep, After, HasTerms, Keeps;
    var u, w, ev := After(START, events, i + 1), After(START, events, n), events[i];
    FileIsNext(events, i);
    FiledHasTerms(After(START, events, i).store, ev.id, ev.claim, ev.now);
    RunKeepsTerms(events, i + 1, n);
    TermsGoOn(u.store.disputes[ev.id], w.store.disputes[ev.id], ev.claim, ev.now);
  }

  /** The disputes that are counted as active are, after every run, those without a share. */
  lemma ActiveMeansNoShare(events: seq<Event>, n: nat, id: string)
    requires FreshRun(START, events) && n <= |events|
    ensures
      var s := After(START, events, n).store;
      id in ActiveDisputes(s) <==> id in s.disputes && s.disputes[id].workerPct.None?
  {
    if id in After(START, events, n).store.disputes {
      StatusMeansWhatItSays(events, n, id);
    }
    hide After, FreshRun;
  }

  /** Event `k` is a rebuttal of dispute `id` with this text and time. */
  predicate IsRebuttal(ev: Event, id: string, rebuttal: Option<string>, at: Option<string>) {
    ev.Rebut? && ev.id == id && rebuttal == Some(ev.rebuttal) && at == Some(ev.now)
  }

  /** No event but a rebuttal gives a dispute one. */
  lemma RebuttalFromEvent(w: World, ev: Event, id: string)
    requires FreshId(w, ev) && id in Next(w, ev).store.disputes && Next(w, ev).store.disputes[id].rebuttal.Some?
    ensures
      var row := Next(w, ev).store.disputes[id];
      || IsRebuttal(ev, id, row.rebuttal, row.rebuttedAt)
      || (id in w.store.disputes && (w.store.disputes[id].rebuttal, w.store.disputes[id].rebuttedAt)
                                    == (row.rebuttal, row.rebuttedAt))
  {
    hide ComputeRuling, Normalized, Persisted, HandleStep, DropStep;
    match ev
    case Handle(k) => BoardLeavesStore(w, k);
    case Drop(k) => BoardLeavesStore(w, k);
    case _ =>
  }

  /** The rebuttal of a dispute, if it has one, is the text and the time of a rebuttal that was submitted for it. */
  lemma {:induction false} RebuttalAsGiven(events: seq<Event>, n: nat, id: string)
    requires FreshRun(START, events) && n <= |events| && id in After(START, events, n).store.disputes
    requires After(START, events, n).store.disputes[id].rebuttal.Some?
    ensures
      var row := After(START, events, n).store.disputes[id];
      exists k :: 0 <= k < n && IsRebuttal(events[k], id, row.rebuttal, row.rebuttedAt)
  {
    hide Next, FreshId, IsRebuttal;
    if n > 0 {
      var w, row := After(START, events, n - 1), After(START, events, n).store.disputes[id];
      RebuttalFromEvent(w, events[n - 1], id);
      if !IsRebuttal(events[n - 1], id, row.rebuttal, row.rebuttedAt) {
        RebuttalAsGiven(events, n - 1, id);
      }
    }
  }
}
