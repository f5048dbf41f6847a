/** InMemoryDisputeStore and the two synchronous calls of DisputeService. Identifiers and the clock are
    arguments; the shared table of databases and the lock are left out. */
module DisputeStore {
  import opened Common
  import opened Median

  datatype Status = RebuttalPending | RebuttalSubmitted | Judging | Ruled

  datatype Row = Row(
    task: string,
    claimant: string,
    respondent: string,
    claim: string,
    rebuttal: Option<string>,
    status: Status,
    rebuttalDeadline: string,
    workerPct: Option<int>,
    summary: Option<string>,
    escrow: string,
    filedAt: string,
    rebuttedAt: Option<string>,
    ruledAt: Option<string>)

  datatype StoredVote = StoredVote(id: string, dispute: string, vote: Vote)

  datatype Dispute = Dispute(row: Row, votes: seq<StoredVote>)

  datatype Claim = Claim(task: string, claimant: string, respondent: string, text: string, escrow: string,
                         rebuttalDeadline: string)

  datatype Store = Store(
    disputes: map<string, Row>,
    disputeByTask: map<string, string>,
    votes: map<string, seq<StoredVote>>)

  datatype StoreError = DuplicateDispute

  datatype ServiceError =
    | DisputeAlreadyExists
    | DisputeNotFound
    | InvalidDisputeStatus
    | RebuttalAlreadySubmitted

  const EMPTY := Store(map[], map[], map[])

  function VotesOf(s: Store, id: string): seq<StoredVote> {
    if id in s.votes then s.votes[id] else []
  }

  function Find(s: Store, id: string): Option<Dispute> {
    if id in s.disputes then Some(Dispute(s.disputes[id], VotesOf(s, id))) else None
  }

  function NewRow(c: Claim, now: string): Row {
    Row(c.task, c.claimant, c.respondent, c.text, None, RebuttalPending, c.rebuttalDeadline, None, None, c.escrow,
        now, None, None)
  }

  function InsertStep(s: Store, id: string, c: Claim, now: string): (Store, Result<Dispute, StoreError>) {
    if c.task in s.disputeByTask then (s, Err(DuplicateDispute))
    else
      (Store(s.disputes[id := NewRow(c, now)], s.disputeByTask[c.task := id], s.votes[id := []]),
       Ok(Dispute(NewRow(c, now), [])))
  }

  function RebuttalStep(s: Store, id: string, rebuttal: string, now: string): Store {
    if id !in s.disputes then s
    else
      var row := s.disputes[id];
      s.(disputes := s.disputes[id := row.(rebuttal := Some(rebuttal), rebuttedAt := Some(now))])
  }

  function StatusStep(s: Store, id: string, status: Status): Store {
    if id !in s.disputes then s else s.(disputes := s.disputes[id := s.disputes[id].(status := status)])
  }

  function Reverted(row: Row): Row {
    row.(status := RebuttalPending, workerPct := None, summary := None, ruledAt := None)
  }

  function RevertStep(s: Store, id: string): Store {
    if id !in s.disputes then s
    else s.(disputes := s.disputes[id := Reverted(s.disputes[id])], votes := s.votes[id := []])
  }

  function RuledRow(row: Row, pct: int, summary: string, now: string): Row {
    row.(status := Ruled, workerPct := Some(pct), summary := Some(summary), ruledAt := Some(now))
  }

  function Persisted(id: string, votes: seq<Vote>, voteIds: nat -> string): seq<StoredVote> {
    seq(|votes|, i requires 0 <= i < |votes| => StoredVote(voteIds(i), id, votes[i]))
  }

  function PersistStep(s: Store, id: string, pct: int, summary: string, votes: seq<Vote>, now: string,
                       voteIds: nat -> string): Store
  {
    if id !in s.disputes then s
    else
      s.(disputes := s.disputes[id := RuledRow(s.disputes[id], pct, summary, now)],
         votes := s.votes[id := Persisted(id, votes, voteIds)])
  }

  function ActiveDisputes(s: Store): set<string> {
    set id | id in s.disputes && s.disputes[id].status != Ruled
  }

  class InMemoryDisputeStore {
    var disputes: map<string, Row>
    var disputeByTask: map<string, string>
    var votes: map<string, seq<StoredVote>>

    function Snapshot(): Store
      reads this
    {
      Store(disputes, disputeByTask, votes)
    }

    constructor ()
      ensures Snapshot() == EMPTY
    {
      disputes, disputeByTask, votes := map[], map[], map[];
    }

    method InsertDispute(id: string, c: Claim, now: string) returns (r: Result<Dispute, StoreError>)
      modifies this
      ensures (Snapshot(), r) == InsertStep(old(Snapshot()), id, c, now)
    {
      if c.task in disputeByTask {
        return Err(DuplicateDispute);
      }
      var row := NewRow(c, now);
      disputes := disputes[id := row];
      disputeByTask := disputeByTask[c.task := id];
      votes := votes[id := []];
      return Ok(Dispute(row, []));
    }

    method GetDispute(id: string) returns (r: Option<Dispute>)
      ensures r == Find(Snapshot(), id)
    {
      if id !in disputes {
        return None;
      }
      return Some(Dispute(disputes[id], if id in votes then votes[id] else []));
    }

    method UpdateRebuttal(id: string, rebuttal: string, now: string)
      modifies this`disputes
      ensures Snapshot() == RebuttalStep(old(Snapshot()), id, rebuttal, now)
    {
      if id !in disputes {
        return;
      }
      disputes := disputes[id := disputes[id].(rebuttal := Some(rebuttal))];
      disputes := disputes[id := disputes[id].(rebuttedAt := Some(now))];
    }

    method SetStatus(id: string, status: Status)
      modifies this`disputes
      ensures Snapshot() == StatusStep(old(Snapshot()), id, status)
    {
      if id !in disputes {
        return;
      }
      disputes := disputes[id := disputes[id].(status := status)];
    }

    method RevertToRebuttalPending(id: string)
      modifies this`disputes, this`votes
      ensures Snapshot() == RevertStep(old(Snapshot()), id)
    {
      if id !in disputes {
        return;
      }
      var row := disputes[id];
      row := row.(status := RebuttalPending);
      row := row.(workerPct := None);
      row := row.(summary := None);
      row := row.(ruledAt := None);
      disputes := disputes[id := row];
      votes := votes[id := []];
    }

    method PersistRuling(id: string, pct: int, summary: string, cast: seq<Vote>, now: string, voteIds: nat -> string)
      modifies this`disputes, this`votes
      ensures Snapshot() == PersistStep(old(Snapshot()), id, pct, summary, cast, now, voteIds)
    {
      if id !in disputes {
        return;
      }
      var row := disputes[id];
      row := row.(status := Ruled);
      row := row.(workerPct := Some(pct));
      row := row.(summary := Some(summary));
      row := row.(ruledAt := Some(now));
      disputes := disputes[id := row];
      var persisted := [];
      for i := 0 to |cast|
        invariant persisted == Persisted(id, cast, voteIds)[..i]
      {
        persisted := persisted + [StoredVote(voteIds(i), id, cast[i])];
      }
      assert persisted == Persisted(id, cast, voteIds);
      votes := votes[id := persisted];
    }

    method CountActive() returns (n: nat)
      ensures n == |ActiveDisputes(Snapshot())|
    {
      n := 0;
      var rest := disputes.Keys;
      ghost var active := ActiveDisputes(Snapshot());
      assert active * rest == active;
      while rest != {}
        invariant rest <= disputes.Keys
        invariant n + |active * rest| == |active|
        decreases |rest|
      {
        var id :| id in rest;
        if disputes[id].status != Ruled {
          assert active * (rest - {id}) == active * rest - {id};
          n := n + 1;
        } else {
          assert active * (rest - {id}) == active * rest;
        }
        rest := rest - {id};
      }
    }
  }

  // ----- The service's synchronous calls

  function FileStep(s: Store, id: string, c: Claim, now: string): (Store, Result<Dispute, ServiceError>) {
    match InsertStep(s, id, c, now)
    case (t, Ok(d)) => (t, Ok(d))
    case (t, Err(_)) => (t, Err(DisputeAlreadyExists))
  }

  function SubmitRebuttalStep(s: Store, id: string, rebuttal: string, now: string)
    : (Store, Result<Dispute, ServiceError>)
  {
    if id !in s.disputes then (s, Err(DisputeNotFound))
    else if s.disputes[id].status != RebuttalPending then (s, Err(InvalidDisputeStatus))
    else if s.disputes[id].rebuttal.Some? then (s, Err(RebuttalAlreadySubmitted))
    else
      var t := RebuttalStep(s, id, rebuttal, now);
      (t, Ok(Dispute(t.disputes[id], VotesOf(t, id))))
  }

  class DisputeService {
    const store: InMemoryDisputeStore

    constructor (store: InMemoryDisputeStore)
      ensures this.store == store
    {
      this.store := store;
    }

    method FileDispute(id: string, c: Claim, now: string) returns (r: Result<Dispute, ServiceError>)
      modifies store
      ensures (store.Snapshot(), r) == FileStep(old(store.Snapshot()), id, c, now)
    {
      var inserted := store.InsertDispute(id, c, now);
      match inserted {
        case Ok(d) => return Ok(d);
        case Err(_) => return Err(DisputeAlreadyExists);
      }
    }

    method SubmitRebuttal(id: string, rebuttal: string, now: string) returns (r: Result<Dispute, ServiceError>)
      modifies store
      ensures (store.Snapshot(), r) == SubmitRebuttalStep(old(store.Snapshot()), id, rebuttal, now)
    {
      var dispute := store.GetDispute(id);
      if dispute.None? {
        return Err(DisputeNotFound);
      }
      if dispute.value.row.status != RebuttalPending {
        return Err(InvalidDisputeStatus);
      }
      if dispute.value.row.rebuttal.Some? {
        return Err(RebuttalAlreadySubmitted);
      }
      store.UpdateRebuttal(id, rebuttal, now);
      var updated := store.GetDispute(id);
      return Ok(updated.value);
    }
  }

  // ----- Records

  /** Every dispute is the one of its task, and no task has two. */
  predicate OnePerTask(s: Store) {
    && (forall t :: t in s.disputeByTask ==>
          s.disputeByTask[t] in s.disputes && s.disputes[s.disputeByTask[t]].task == t)
    && (forall id :: id in s.disputes ==>
          s.disputes[id].task in s.disputeByTask && s.disputeByTask[s.disputes[id].task] == id)
    && s.votes.Keys == s.disputes.Keys
  }

  function CastShares(votes: seq<StoredVote>): seq<int> {
    seq(|votes|, i requires 0 <= i < |votes| => votes[i].vote.workerPct)
  }

  function CastReasons(votes: seq<StoredVote>): seq<string> {
    seq(|votes|, i requires 0 <= i < |votes| => votes[i].vote.reasoning)
  }

  /** The ruling fields and the votes are there together; the stored share is the median of the stored votes, and the
      stored summary is their reasons. */
  predicate IsRuled(row: Row, votes: seq<StoredVote>) {
    && row.status == Ruled && row.workerPct.Some? && row.summary.Some? && row.ruledAt.Some?
    && votes != [] && row.workerPct.value == UpperMedian(CastShares(votes)) && 0 <= row.workerPct.value <= 100
    && row.summary.value == Join(CastReasons(votes))
  }

  predicate IsUnruled(row: Row, votes: seq<StoredVote>) {
    row.status != Ruled && row.workerPct.None? && row.summary.None? && row.ruledAt.None? && votes == []
  }

  predicate RecordFits(s: Store, id: string)
    requires id in s.disputes
  {
    IsRuled(s.disputes[id], VotesOf(s, id)) || IsUnruled(s.disputes[id], VotesOf(s, id))
  }

  /** Filing: the answer and the stored record have exactly the terms of the claim, a time of filing, no rebuttal and no
      ruling. It fails, changing nothing, only for a task that has a dispute. */
  lemma FiledRecord(s: Store, id: string, c: Claim, now: string)
    ensures c.task in s.disputeByTask ==> FileStep(s, id, c, now) == (s, Err(DisputeAlreadyExists))
    ensures
      var (t, answer) := FileStep(s, id, c, now);
      c.task !in s.disputeByTask ==>
        && answer.Ok? && answer.value.votes == [] && id in t.disputes && t.disputes[id] == answer.value.row
        && t.disputes - {id} == s.disputes - {id} && t.votes == s.votes[id := []]
        && t.disputeByTask == s.disputeByTask[c.task := id]
    ensures
      var (_, answer) := FileStep(s, id, c, now);
      answer.Ok? ==>
        var row := answer.value.row;
        && row.task == c.task && row.claimant == c.claimant && row.respondent == c.respondent
        && row.claim == c.text && row.escrow == c.escrow && row.rebuttalDeadline == c.rebuttalDeadline
        && row.filedAt == now && row.rebuttal.None? && row.rebuttedAt.None? && row.status == RebuttalPending
        && row.workerPct.None? && row.summary.None? && row.ruledAt.None?
  {
  }

  /** Two records agree but for the rebuttal. */
  predicate SameButRebuttal(r: Row, q: Row) {
    && (r.task, r.claimant, r.respondent, r.claim) == (q.task, q.claimant, q.respondent, q.claim)
    && (r.escrow, r.rebuttalDeadline, r.filedAt, r.status) == (q.escrow, q.rebuttalDeadline, q.filedAt, q.status)
    && (r.workerPct, r.summary, r.ruledAt) == (q.workerPct, q.summary, q.ruledAt)
  }

  /** A rebuttal: the answer and the stored record hold the text given and its time, and nothing else changes. */
  lemma RebuttedRecord(s: Store, id: string, rebuttal: string, now: string)
    requires SubmitRebuttalStep(s, id, rebuttal, now).1.Ok?
    ensures
      var (t, answer) := SubmitRebuttalStep(s, id, rebuttal, now);
      && id in s.disputes && id in t.disputes && t.disputes[id] == answer.value.row
      && answer.value.row.rebuttal == Some(rebuttal) && answer.value.row.rebuttedAt == Some(now)
      && SameButRebuttal(answer.value.row, s.disputes[id]) && answer.value.votes == VotesOf(s, id)
      && t.disputes - {id} == s.disputes - {id} && (t.votes, t.disputeByTask) == (s.votes, s.disputeByTask)
  {
  }

  /** A refused rebuttal changes nothing; the three refusals in the order in which they are looked for. */
  lemma RebuttalRefusedIff(s: Store, id: string, rebuttal: string, now: string)
    ensures
      var (t, answer) := SubmitRebuttalStep(s, id, rebuttal, now);
      && (answer.Err? ==> t == s)
      && (answer == Err(DisputeNotFound) <==> id !in s.disputes)
      && (answer == Err(InvalidDisputeStatus) <==> id in s.disputes && s.disputes[id].status != RebuttalPending)
      && (answer == Err(RebuttalAlreadySubmitted)
          <==> id in s.disputes && s.disputes[id].status == RebuttalPending && s.disputes[id].rebuttal.Some?)
  {
  }

  /** A stored ruling: share, summary and time as given, and vote `i` stored with its own id for this dispute; terms and
      rebuttal stay. */
  lemma RuledRecord(s: Store, id: string, pct: int, summary: string, votes: seq<Vote>, now: string,
                    voteIds: nat -> string)
    requires id in s.disputes
    ensures
      var t := PersistStep(s, id, pct, summary, votes, now, voteIds);
      && id in t.disputes && t.disputes[id].status == Ruled && t.disputes[id].workerPct == Some(pct)
      && t.disputes[id].summary == Some(summary) && t.disputes[id].ruledAt == Some(now)
      && (t.disputes[id].rebuttal, t.disputes[id].rebuttedAt) == (s.disputes[id].rebuttal, s.disputes[id].rebuttedAt)
      && t.disputes[id].(status := s.disputes[id].status, workerPct := s.disputes[id].workerPct,
                         summary := s.disputes[id].summary, ruledAt := s.disputes[id].ruledAt) == s.disputes[id]
      && id in t.votes && |t.votes[id]| == |votes|
      && (forall i :: 0 <= i < |votes| ==>
            t.votes[id][i].vote == votes[i] && t.votes[id][i].dispute == id && t.votes[id][i].id == voteIds(i))
      && t.disputes - {id} == s.disputes - {id} && t.votes - {id} == s.votes - {id}
      && t.disputeByTask == s.disputeByTask
  {
  }

  /** What a failed ruling puts back. set_status followed by the revert restores the store exactly if the ruling
      began on an untouched pending dispute. A dispute that began as rebuttal_submitted comes back as
      rebuttal_pending. */
  lemma RevertRestoresIff(s: Store, id: string)
    requires id in s.disputes && id in s.votes
    ensures RevertStep(StatusStep(s, id, Judging), id) == s
       <==> s.disputes[id].status == RebuttalPending && IsUnruled(s.disputes[id], s.votes[id])
  {
    var t := RevertStep(StatusStep(s, id, Judging), id);
    assert t.disputes[id] == Reverted(s.disputes[id]) && t.votes[id] == [];
    if s.disputes[id].status == RebuttalPending && IsUnruled(s.disputes[id], s.votes[id]) {
      assert t.disputes == s.disputes && t.votes == s.votes;
    }
  }

  /** Whatever the record was, the claim and the rebuttal survive a failed ruling. */
  lemma RevertKeepsRebuttal(s: Store, id: string)
    requires id in s.disputes
    ensures
      var t := RevertStep(StatusStep(s, id, Judging), id);
      && t.disputes[id].rebuttal == s.disputes[id].rebuttal && t.disputes[id].rebuttedAt == s.disputes[id].rebuttedAt
      && t.disputes[id].claim == s.disputes[id].claim
      && IsUnruled(t.disputes[id], VotesOf(t, id))
  {
  }

  lemma InsertKeepsOnePerTask(s: Store, id: string, c: Claim, now: string)
    requires OnePerTask(s) && id !in s.disputes
    ensures OnePerTask(InsertStep(s, id, c, now).0)
    ensures InsertStep(s, id, c, now).1.Ok? <==> forall d :: d in s.disputes ==> s.disputes[d].task != c.task
  {
    if c.task in s.disputeByTask {
      assert s.disputes[s.disputeByTask[c.task]].task == c.task;
    }
  }

  /** A rebuttal is taken once, and only while the dispute is pending. */
  lemma RebuttalIsTakenOnceIff(s: Store, id: string, rebuttal: string, now: string)
    ensures SubmitRebuttalStep(s, id, rebuttal, now).1.Ok?
       <==> id in s.disputes && s.disputes[id].status == RebuttalPending && s.disputes[id].rebuttal.None?
    ensures
      var t := SubmitRebuttalStep(s, id, rebuttal, now).0;
      forall again, later :: SubmitRebuttalStep(t, id, again, later) == (t, SubmitRebuttalStep(t, id, again, later).1)
  {
  }
}
