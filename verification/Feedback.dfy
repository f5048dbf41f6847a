/** Sealed feedback: the store that reveals two sides together, and the readers that hide what is sealed.
    Identifiers and the clock are arguments; times are microseconds. */
module Feedback {
  import opened Common

  const SECOND := 1_000_000

  /** What the unique index of the table covers. */
  datatype Key = Key(task: string, sender: string, recipient: string)

  datatype Content = Content(category: string, rating: string, comment: Option<string>)

  datatype Submission = Submission(id: string, key: Key, content: Content, submittedAt: int, forced: bool)

  datatype Record = Record(id: string, key: Key, content: Content, submittedAt: int, visible: bool)

  datatype StoreError = DuplicateFeedback

  function Reverse(k: Key): Key {
    Key(k.task, k.recipient, k.sender)
  }

  function RecordOf(s: Submission, visible: bool): Record {
    Record(s.id, s.key, s.content, s.submittedAt, visible)
  }

  /** The first row with key `k`. */
  function Lookup(rows: seq<Record>, k: Key): Option<Record> {
    if rows == [] then None else if rows[0].key == k then Some(rows[0]) else Lookup(rows[1..], k)
  }

  predicate IdTaken(rows: seq<Record>, id: string) {
    exists i :: 0 <= i < |rows| && rows[i].id == id
  }

  /** UPDATE feedback SET visible = 1 WHERE feedback_id IN (a, b). */
  function Reveal(rows: seq<Record>, a: string, b: string): seq<Record> {
    seq(|rows|, i requires 0 <= i < |rows| =>
      if rows[i].id == a || rows[i].id == b then rows[i].(visible := true) else rows[i])
  }

  function InsertStep(rows: seq<Record>, s: Submission): (seq<Record>, Result<Record, StoreError>) {
    if Lookup(rows, s.key).Some? || IdTaken(rows, s.id) then (rows, Err(DuplicateFeedback))
    else
      var inserted := rows + [RecordOf(s, s.forced)];
      var other := Lookup(inserted, Reverse(s.key));
      if s.forced || other.None? then (inserted, Ok(RecordOf(s, s.forced)))
      else (Reveal(inserted, s.id, other.value.id), Ok(RecordOf(s, true)))
  }

  class SqliteFeedbackStore {
    var table: seq<Record>

    constructor ()
      ensures table == []
    {
      table := [];
    }

    /** SELECT ... WHERE key, then fetchone. */
    method Select(rows: seq<Record>, k: Key) returns (r: Option<Record>)
      ensures r == Lookup(rows, k)
    {
      for i := 0 to |rows|
        invariant Lookup(rows, k) == Lookup(rows[i..], k)
      {
        if rows[i].key == k {
          return Some(rows[i]);
        }
      }
      return None;
    }

    method InsertFeedback(s: Submission) returns (r: Result<Record, StoreError>)
      modifies this
      ensures (table, r) == InsertStep(old(table), s)
    {
      var working := table;
      var same := Select(working, s.key);
      if same.Some? || IdTaken(working, s.id) {
        return Err(DuplicateFeedback);
      }
      working := working + [RecordOf(s, s.forced)];
      var visible := s.forced;
      if !visible {
        var other := Select(working, Reverse(s.key));
        if other.Some? {
          working := Reveal(working, s.id, other.value.id);
          visible := true;
        }
      }
      table := working;
      return Ok(RecordOf(s, visible));
    }
  }

  // ----- Readers

  predicate IsVisible(r: Record, timeoutSeconds: int, now: int) {
    r.visible || now - r.submittedAt >= timeoutSeconds * SECOND
  }

  function GetFeedbackById(rows: seq<Record>, id: string, timeout: int, now: int): (r: Option<Record>)
    ensures r.Some? ==> r.value in rows && r.value.id == id && IsVisible(r.value, timeout, now)
  {
    if rows == [] then None
    else if rows[0].id == id then (if IsVisible(rows[0], timeout, now) then Some(rows[0]) else None)
    else GetFeedbackById(rows[1..], id, timeout, now)
  }

  predicate TimeOrdered(rows: seq<Record>) {
    forall i, j :: 0 <= i < j < |rows| ==> rows[i].submittedAt <= rows[j].submittedAt
  }

  /** `x` put behind everything that is not later. */
  function InsertByTime(rows: seq<Record>, x: Record): (r: seq<Record>)
    requires TimeOrdered(rows)
    ensures TimeOrdered(r) && multiset(r) == multiset(rows) + multiset{x}
  {
    if rows == [] || rows[|rows| - 1].submittedAt <= x.submittedAt then rows + [x]
    else
      var last, front := rows[|rows| - 1], rows[..|rows| - 1];
      var r := InsertByTime(front, x);
      LaterStaysBehind(front, last, x, r);
      assert rows == front + [last];
      r + [last]
  }

  lemma LaterStaysBehind(front: seq<Record>, last: Record, x: Record, r: seq<Record>)
    requires TimeOrdered(front + [last]) && x.submittedAt <= last.submittedAt
    requires TimeOrdered(r) && multiset(r) == multiset(front) + multiset{x}
    ensures TimeOrdered(r + [last])
  {
    forall i | 0 <= i < |r| ensures r[i].submittedAt <= last.submittedAt {
      assert r[i] in multiset(r);
      if r[i] != x {
        assert r[i] in multiset(front);
        var k :| 0 <= k < |front| && front[k] == r[i];
        assert (front + [last])[k].submittedAt <= (front + [last])[|front|].submittedAt;
      }
    }
  }

  /** ORDER BY submitted_at. */
  function ByTime(rows: seq<Record>): (r: seq<Record>)
    ensures TimeOrdered(r) && multiset(r) == multiset(rows)
  {
    if rows == [] then []
    else
      assert rows == rows[..|rows| - 1] + [rows[|rows| - 1]];
      InsertByTime(ByTime(rows[..|rows| - 1]), rows[|rows| - 1])
  }

  /** The rows of the task. */
  function OfTask(rows: seq<Record>, task: string): (r: seq<Record>)
    ensures forall x :: multiset(r)[x] == if x.key.task == task then multiset(rows)[x] else 0
  {
    if rows == [] then []
    else
      assert rows == rows[..|rows| - 1] + [rows[|rows| - 1]];
      OfTask(rows[..|rows| - 1], task) + (if rows[|rows| - 1].key.task == task then [rows[|rows| - 1]] else [])
  }

  /** The rows about the agent. */
  function OfAgent(rows: seq<Record>, agent: string): (r: seq<Record>)
    ensures forall x :: multiset(r)[x] == if x.key.recipient == agent then multiset(rows)[x] else 0
  {
    if rows == [] then []
    else
      assert rows == rows[..|rows| - 1] + [rows[|rows| - 1]];
      OfAgent(rows[..|rows| - 1], agent) + (if rows[|rows| - 1].key.recipient == agent then [rows[|rows| - 1]] else [])
  }

  /** The rows that are revealed or timed out, in the order they come in. */
  function Shown(rows: seq<Record>, timeout: int, now: int): (r: seq<Record>)
    ensures forall x :: multiset(r)[x] == if IsVisible(x, timeout, now) then multiset(rows)[x] else 0
    ensures TimeOrdered(rows) ==> TimeOrdered(r)
  {
    if rows == [] then []
    else
      var last, front := rows[|rows| - 1], rows[..|rows| - 1];
      assert rows == front + [last];
      var r := Shown(front, timeout, now);
      var all := r + (if IsVisible(last, timeout, now) then [last] else []);
      ShownAreEarlier(front, last, r);
      ShownCounts(front, last, r, all, timeout, now);
      all
  }

  lemma ShownCounts(front: seq<Record>, last: Record, r: seq<Record>, all: seq<Record>, timeout: int, now: int)
    requires forall x :: multiset(r)[x] == if IsVisible(x, timeout, now) then multiset(front)[x] else 0
    requires all == r + if IsVisible(last, timeout, now) then [last] else []
    ensures forall x :: multiset(all)[x] == if IsVisible(x, timeout, now) then multiset(front + [last])[x] else 0
  {
    assert multiset(front + [last]) == multiset(front) + multiset{last};
    if IsVisible(last, timeout, now) {
      assert multiset(all) == multiset(r) + multiset{last};
    } else {
      assert all == r;
    }
    hide IsVisible;
  }

  lemma ShownAreEarlier(front: seq<Record>, last: Record, r: seq<Record>)
    requires forall x :: multiset(r)[x] <= multiset(front)[x]
    requires TimeOrdered(front) ==> TimeOrdered(r)
    ensures TimeOrdered(front + [last]) ==> TimeOrdered(r + [last])
  {
    var rows := front + [last];
    if TimeOrdered(rows) {
      forall i, j | 0 <= i < j < |front| ensures front[i].submittedAt <= front[j].submittedAt {
        assert rows[i] == front[i] && rows[j] == front[j];
      }
      forall i | 0 <= i < |r| ensures r[i].submittedAt <= last.submittedAt {
        assert multiset(r)[r[i]] > 0;
        assert r[i] in multiset(front);
        var k :| 0 <= k < |front| && front[k] == r[i];
        assert rows[k].submittedAt <= rows[|front|].submittedAt;
      }
    }
  }

  /** Exactly the rows of the task that are revealed or timed out, each as often as it is stored, by time. */
  function GetFeedbackForTask(rows: seq<Record>, task: string, timeout: int, now: int): (r: seq<Record>)
    ensures TimeOrdered(r)
    ensures forall x ::
              multiset(r)[x] == if x.key.task == task && IsVisible(x, timeout, now) then multiset(rows)[x] else 0
  {
    Shown(ByTime(OfTask(rows, task)), timeout, now)
  }

  /** Exactly the rows about the agent that are revealed or timed out, each as often as it is stored, by time. */
  function GetFeedbackForAgent(rows: seq<Record>, agent: string, timeout: int, now: int): (r: seq<Record>)
    ensures TimeOrdered(r)
    ensures forall x ::
              multiset(r)[x] == if x.key.recipient == agent && IsVisible(x, timeout, now) then multiset(rows)[x] else 0
  {
    Shown(ByTime(OfAgent(rows, agent)), timeout, now)
  }

  // ----- Looking rows up

  lemma {:induction false} LookupFinds(rows: seq<Record>, k: Key)
    ensures Lookup(rows, k).Some? ==> Lookup(rows, k).value in rows && Lookup(rows, k).value.key == k
  {
    if rows != [] {
      LookupFinds(rows[1..], k);
    }
  }

  lemma {:induction false} LookupAfterAppend(rows: seq<Record>, r: Record, k: Key)
    ensures Lookup(rows + [r], k)
         == if Lookup(rows, k).Some? then Lookup(rows, k) else if r.key == k then Some(r) else None
  {
    if rows == [] {
      assert rows + [r] == [r];
    } else {
      assert (rows + [r])[1..] == rows[1..] + [r];
      LookupAfterAppend(rows[1..], r, k);
    }
  }

  lemma {:induction false} LookupAfterReveal(rows: seq<Record>, a: string, b: string, k: Key)
    ensures Lookup(Reveal(rows, a, b), k)
         == match Lookup(rows, k)
            case None => None
            case Some(x) => Some(if x.id == a || x.id == b then x.(visible := true) else x)
  {
    if rows != [] {
      assert Reveal(rows, a, b)[1..] == Reveal(rows[1..], a, b);
      LookupAfterReveal(rows[1..], a, b, k);
    }
  }

  predicate IdsDiffer(rows: seq<Record>) {
    forall i, j :: 0 <= i < j < |rows| ==> rows[i].id != rows[j].id
  }

  lemma SameIdSameKey(rows: seq<Record>, x: Record, y: Record)
    requires IdsDiffer(rows) && x in rows && y in rows && x.id == y.id
    ensures x == y
  {
    var i :| 0 <= i < |rows| && rows[i] == x;
    var j :| 0 <= j < |rows| && rows[j] == y;
  }

  lemma InsertKeepsIdsDiffer(rows: seq<Record>, s: Submission)
    requires IdsDiffer(rows)
    ensures IdsDiffer(InsertStep(rows, s).0)
  {
  }

  /** What an accepted insert does to every row of the table: it adds its own, revealed if forced or if the
      other side is there (its own row being the other side of a submission to oneself), and unless forced it
      reveals the other side. */
  lemma InsertedRows(rows: seq<Record>, s: Submission, k: Key)
    requires IdsDiffer(rows) && InsertStep(rows, s).1.Ok?
    ensures Lookup(InsertStep(rows, s).0, k)
         == if k == s.key then
              Some(RecordOf(s, s.forced || Reverse(s.key) == s.key || Lookup(rows, Reverse(s.key)).Some?))
            else if k == Reverse(s.key) && !s.forced && Lookup(rows, k).Some? then
              Some(Lookup(rows, k).value.(visible := true))
            else Lookup(rows, k)
  {
    var r := RecordOf(s, s.forced);
    var other := Lookup(rows + [r], Reverse(s.key));
    LookupAfterAppend(rows, r, k);
    LookupAfterAppend(rows, r, Reverse(s.key));
    LookupFinds(rows, k);
    LookupFinds(rows, Reverse(s.key));
    if !s.forced && other.Some? {
      LookupAfterReveal(rows + [r], s.id, other.value.id, k);
      if k != s.key && Lookup(rows, k).Some? {
        var x := Lookup(rows, k).value;
        assert x.id != s.id;
        if x.id == other.value.id {
          SameIdSameKey(rows, x, other.value);
        }
      }
    }
  }

  // ----- Histories

  function After(subs: seq<Submission>, n: nat): seq<Record>
    requires n <= |subs|
  {
    if n == 0 then [] else InsertStep(After(subs, n - 1), subs[n - 1]).0
  }

  /** Identifiers are drawn afresh. */
  predicate FreshIds(subs: seq<Submission>) {
    forall i, j :: 0 <= i < j < |subs| ==> subs[i].id != subs[j].id
  }

  /** Nobody has rated the same agent on the same task before. */
  predicate First(subs: seq<Submission>, i: nat)
    requires i < |subs|
  {
    forall j :: 0 <= j < i ==> subs[j].key != subs[i].key
  }

  /** Submission `j` is the other side of `i`. It reveals `i` unless it came later and was forced. */
  predicate Reveals(subs: seq<Submission>, j: nat, i: nat)
    requires i < |subs| && j < |subs|
  {
    First(subs, j) && subs[j].key == Reverse(subs[i].key) && (j <= i || !subs[j].forced)
  }

  predicate Revealed(subs: seq<Submission>, n: nat, i: nat)
    requires i < n <= |subs|
  {
    subs[i].forced || exists j :: 0 <= j < n && Reveals(subs, j, i)
  }

  predicate Submitted(subs: seq<Submission>, n: nat, k: Key)
    requires n <= |subs|
  {
    exists j :: 0 <= j < n && subs[j].key == k
  }

  lemma {:induction false} SomebodyWasFirst(subs: seq<Submission>, n: nat, k: Key)
    requires n <= |subs| && Submitted(subs, n, k)
    ensures exists j :: 0 <= j < n && First(subs, j) && subs[j].key == k
  {
    var j :| 0 <= j < n && subs[j].key == k;
    if !First(subs, j) {
      SomebodyWasFirst(subs, j, k);
    }
  }

  lemma {:induction false} TableIsSound(subs: seq<Submission>, n: nat)
    requires FreshIds(subs) && n <= |subs|
    ensures IdsDiffer(After(subs, n))
    ensures forall r :: r in After(subs, n) ==> exists i :: 0 <= i < n && subs[i].id == r.id
  {
    if n > 0 {
      TableIsSound(subs, n - 1);
      InsertKeepsIdsDiffer(After(subs, n - 1), subs[n - 1]);
      InsertAddsOneId(After(subs, n - 1), subs[n - 1]);
    }
  }

  lemma InsertAddsOneId(rows: seq<Record>, s: Submission)
    ensures forall r :: r in InsertStep(rows, s).0 ==> r.id == s.id || exists x :: x in rows && x.id == r.id
  {
  }

  lemma InsertAddsItsKey(rows: seq<Record>, s: Submission, k: Key)
    requires IdsDiffer(rows) && !IdTaken(rows, s.id)
    ensures Lookup(InsertStep(rows, s).0, k).Some? <==> Lookup(rows, k).Some? || k == s.key
  {
    if InsertStep(rows, s).1.Ok? {
      InsertedRows(rows, s, k);
      hide InsertStep;
    }
  }

  lemma SubmittedOneMore(subs: seq<Submission>, n: nat, k: Key)
    requires n < |subs|
    ensures Submitted(subs, n + 1, k) <==> Submitted(subs, n, k) || subs[n].key == k
  {
  }

  lemma {:induction false} RowsAreSubmissions(subs: seq<Submission>, n: nat, k: Key)
    requires FreshIds(subs) && n <= |subs|
    ensures Lookup(After(subs, n), k).Some? <==> Submitted(subs, n, k)
  {
    if n > 0 {
      var rows, s := After(subs, n - 1), subs[n - 1];
      TableIsSound(subs, n - 1);
      assert !IdTaken(rows, s.id);
      hide Lookup, InsertStep, Submitted, FreshIds, IdsDiffer;
      RowsAreSubmissions(subs, n - 1, k);
      InsertAddsItsKey(rows, s, k);
      SubmittedOneMore(subs, n - 1, k);
    }
  }

  /** A submission is accepted if and only if it is the first with its key. */
  lemma AcceptedIff(subs: seq<Submission>, n: nat)
    requires FreshIds(subs) && n < |subs|
    ensures InsertStep(After(subs, n), subs[n]).1.Ok? <==> First(subs, n)
  {
    TableIsSound(subs, n);
    assert !IdTaken(After(subs, n), subs[n].id);
    RowsAreSubmissions(subs, n, subs[n].key);
  }

  /** Exactly which records are visible, over every history of submissions: the record of the first submission
      with its key is in the table with its own content, and it is visible if and only if it was forced, or its
      other side was accepted earlier, or its other side was accepted later and was not forced. */
  lemma {:induction false} VisibleIff(subs: seq<Submission>, n: nat, i: nat)
    requires FreshIds(subs) && i < n <= |subs| && First(subs, i)
    ensures Lookup(After(subs, n), subs[i].key) == Some(RecordOf(subs[i], Revealed(subs, n, i)))
    decreases n
  {
    hide Lookup, InsertStep, FreshIds, Revealed, After;
    if i == n - 1 {
      NewestIsVisibleIff(subs, n);
    } else {
      VisibleIff(subs, n - 1, i);
      OlderStaysVisibleIff(subs, n, i);
    }
  }

  /** The row under the key of an accepted submission, column by column: identifier, task, parties, category, rating,
      comment and time are the submission's, and it is visible exactly if it was forced or the two parties the other
      way round have rated each other on the task, the later of the two not being a forced answer. */
  lemma RowHoldsSubmission(subs: seq<Submission>, n: nat, i: nat)
    requires FreshIds(subs) && i < n <= |subs| && First(subs, i)
    ensures
      var row, s := Lookup(After(subs, n), subs[i].key), subs[i];
      && row.Some? && row.value.id == s.id && row.value.submittedAt == s.submittedAt
      && row.value.key.task == s.key.task && row.value.key.sender == s.key.sender
      && row.value.key.recipient == s.key.recipient
      && row.value.content.category == s.content.category && row.value.content.rating == s.content.rating
      && row.value.content.comment == s.content.comment
    ensures
      var visible := Lookup(After(subs, n), subs[i].key).value.visible;
      visible <==> subs[i].forced || exists j :: 0 <= j < n && First(subs, j) && AnswersEachOther(subs[j], subs[i])
                                                 && (j <= i || !subs[j].forced)
  {
    VisibleIff(subs, n, i);
    assert forall j :: 0 <= j < n ==> (Reveals(subs, j, i) <==>
             First(subs, j) && AnswersEachOther(subs[j], subs[i]) && (j <= i || !subs[j].forced));
    hide Lookup, After, First, FreshIds;
  }

  /** The same task, and each the sender of what the other receives. */
  predicate AnswersEachOther(a: Submission, b: Submission) {
    a.key.task == b.key.task && a.key.sender == b.key.recipient && a.key.recipient == b.key.sender
  }

  /** The record an accepted submission is answered with is the row that is then in the table, its visibility included,
      and it holds what was submitted. */
  lemma AnswerIsStoredRow(rows: seq<Record>, s: Submission)
    requires IdsDiffer(rows) && InsertStep(rows, s).1.Ok?
    ensures
      var answer := InsertStep(rows, s).1.value;
      && Lookup(InsertStep(rows, s).0, s.key) == Some(answer)
      && answer.id == s.id && answer.key == s.key && answer.submittedAt == s.submittedAt
      && answer.content.category == s.content.category && answer.content.rating == s.content.rating
      && answer.content.comment == s.content.comment
  {
    InsertedRows(rows, s, s.key);
    LookupAfterAppend(rows, RecordOf(s, s.forced), Reverse(s.key));
    hide Lookup;
  }

  lemma NewestIsVisibleIff(subs: seq<Submission>, n: nat)
    requires FreshIds(subs) && 0 < n <= |subs| && First(subs, n - 1)
    ensures Lookup(After(subs, n), subs[n - 1].key) == Some(RecordOf(subs[n - 1], Revealed(subs, n, n - 1)))
  {
    var rows, s := After(subs, n - 1), subs[n - 1];
    TableIsSound(subs, n - 1);
    AcceptedIff(subs, n - 1);
    InsertedRows(rows, s, s.key);
    hide Lookup, InsertStep, FreshIds, IdsDiffer, First, Revealed, Submitted;
    RowsAreSubmissions(subs, n - 1, Reverse(s.key));
    NewestRevealedIff(subs, n);
  }

  lemma OlderStaysVisibleIff(subs: seq<Submission>, n: nat, i: nat)
    requires FreshIds(subs) && i < n - 1 < |subs| && First(subs, i)
    requires Lookup(After(subs, n - 1), subs[i].key) == Some(RecordOf(subs[i], Revealed(subs, n - 1, i)))
    ensures Lookup(After(subs, n), subs[i].key) == Some(RecordOf(subs[i], Revealed(subs, n, i)))
  {
    OlderRevealedIff(subs, n, i);
    hide Lookup, Revealed, Reveals, FreshIds, First;
    LookupAfterNext(subs, n, i);
  }

  /** The next submission changes nothing of an older record but to reveal it. */
  lemma LookupAfterNext(subs: seq<Submission>, n: nat, i: nat)
    requires FreshIds(subs) && i < n - 1 < |subs| && Lookup(After(subs, n - 1), subs[i].key).Some?
    ensures
      var r := Lookup(After(subs, n - 1), subs[i].key).value;
      Lookup(After(subs, n), subs[i].key) == Some(if Reveals(subs, n - 1, i) then r.(visible := true) else r)
  {
    LatestReveals(subs, n, i);
    TableIsSound(subs, n - 1);
    AcceptedIff(subs, n - 1);
    hide First, Reveals, FreshIds, IdsDiffer, InsertStep, Lookup;
    var rows, s, k := After(subs, n - 1), subs[n - 1], subs[i].key;
    assert After(subs, n) == InsertStep(rows, s).0;
    hide After;
    if First(subs, n - 1) {
      InsertedRows(rows, s, k);
    } else {
      RejectedIsIdle(rows, s);
    }
  }

  lemma LatestReveals(subs: seq<Submission>, n: nat, i: nat)
    requires i < n - 1 < |subs|
    ensures First(subs, n - 1) ==> subs[i].key != subs[n - 1].key
    ensures Reveals(subs, n - 1, i)
       <==> First(subs, n - 1) && subs[i].key == Reverse(subs[n - 1].key) && !subs[n - 1].forced
  {
  }

  lemma RejectedIsIdle(rows: seq<Record>, s: Submission)
    requires InsertStep(rows, s).1.Err?
    ensures InsertStep(rows, s).0 == rows
  {
  }

  lemma NewestRevealedIff(subs: seq<Submission>, n: nat)
    requires 0 < n <= |subs| && First(subs, n - 1)
    ensures Revealed(subs, n, n - 1)
       <==> subs[n - 1].forced || Reverse(subs[n - 1].key) == subs[n - 1].key
            || Submitted(subs, n - 1, Reverse(subs[n - 1].key))
  {
    var k := Reverse(subs[n - 1].key);
    if k == subs[n - 1].key {
      assert Reveals(subs, n - 1, n - 1);
    }
    if Submitted(subs, n - 1, k) {
      SomebodyWasFirst(subs, n - 1, k);
      var j :| 0 <= j < n - 1 && First(subs, j) && subs[j].key == k;
      assert Reveals(subs, j, n - 1);
    }
  }

  lemma OlderRevealedIff(subs: seq<Submission>, n: nat, i: nat)
    requires i < n - 1 < |subs|
    ensures Revealed(subs, n, i) <==> Revealed(subs, n - 1, i) || Reveals(subs, n - 1, i)
  {
  }

  // ----- What follows

  /** A record that was not forced stays sealed until its other side is accepted. */
  lemma SealedUntilAnswered(subs: seq<Submission>, n: nat, i: nat)
    requires FreshIds(subs) && i < n <= |subs| && First(subs, i) && !subs[i].forced
    requires !Submitted(subs, n, Reverse(subs[i].key))
    ensures Lookup(After(subs, n), subs[i].key) == Some(RecordOf(subs[i], false))
  {
    VisibleIff(subs, n, i);
    forall j | 0 <= j < n ensures !Reveals(subs, j, i) {
    }
  }

  /** Once both sides of a pair are there, neither forced, both are visible. */
  lemma RevealIsMutual(subs: seq<Submission>, n: nat, i: nat, j: nat)
    requires FreshIds(subs) && i < n <= |subs| && j < n && First(subs, i) && First(subs, j)
    requires subs[j].key == Reverse(subs[i].key) && !subs[i].forced && !subs[j].forced
    ensures Lookup(After(subs, n), subs[i].key) == Some(RecordOf(subs[i], true))
    ensures Lookup(After(subs, n), subs[j].key) == Some(RecordOf(subs[j], true))
  {
    VisibleIff(subs, n, i);
    VisibleIff(subs, n, j);
    assert Reveals(subs, j, i) && Reveals(subs, i, j);
  }

  /** A forced submission does not unseal the other side that was there before it. */
  lemma ForcedDoesNotUnseal(subs: seq<Submission>, n: nat, i: nat, j: nat)
    requires FreshIds(subs) && i < j < n <= |subs| && First(subs, i) && First(subs, j)
    requires subs[j].key == Reverse(subs[i].key) && !subs[i].forced && subs[j].forced
    ensures Lookup(After(subs, n), subs[i].key) == Some(RecordOf(subs[i], false))
    ensures Lookup(After(subs, n), subs[j].key) == Some(RecordOf(subs[j], true))
  {
    VisibleIff(subs, n, i);
    VisibleIff(subs, n, j);
    forall x | 0 <= x < n ensures !Reveals(subs, x, i) {
      if First(subs, x) && subs[x].key == subs[j].key {
        OneFirst(subs, x, j);
      }
    }
  }

  lemma OneFirst(subs: seq<Submission>, i: nat, j: nat)
    requires i < |subs| && j < |subs| && First(subs, i) && First(subs, j) && subs[i].key == subs[j].key
    ensures i == j
  {
  }

  /** Nothing visible is ever sealed again, and no record is lost or altered otherwise. */
  lemma NeverWithdrawn(subs: seq<Submission>, m: nat, n: nat, k: Key)
    requires FreshIds(subs) && m <= n <= |subs| && Lookup(After(subs, m), k).Some?
    ensures
      var earlier, later := Lookup(After(subs, m), k).value, Lookup(After(subs, n), k);
      && later.Some? && later.value == earlier.(visible := later.value.visible)
      && (earlier.visible ==> later.value.visible)
  {
    RowsAreSubmissions(subs, m, k);
    SomebodyWasFirst(subs, m, k);
    var i :| 0 <= i < m && First(subs, i) && subs[i].key == k;
    VisibleIff(subs, m, i);
    VisibleIff(subs, n, i);
    if Revealed(subs, m, i) && !subs[i].forced {
      var j :| 0 <= j < m && Reveals(subs, j, i);
      assert j < n && Reveals(subs, j, i);
    }
  }

  /** In a table without shared identifiers the reader by identifier finds a row exactly if it is revealed or
      timed out. */
  lemma {:induction false} ByIdIff(rows: seq<Record>, x: Record, timeout: int, now: int)
    requires IdsDiffer(rows) && x in rows
    ensures GetFeedbackById(rows, x.id, timeout, now) == if IsVisible(x, timeout, now) then Some(x) else None
  {
    if rows[0].id == x.id {
      SameIdSameKey(rows, rows[0], x);
    } else {
      assert x in rows[1..];
      ByIdIff(rows[1..], x, timeout, now);
    }
  }

  /** What the three readers show of a submission, after any history and at any time: its record, if it was
      revealed or its time has run out, and nothing otherwise. */
  lemma ReadersShowIff(subs: seq<Submission>, n: nat, i: nat, timeout: int, now: int)
    requires FreshIds(subs) && i < n <= |subs| && First(subs, i)
    ensures
      var rows, r := After(subs, n), RecordOf(subs[i], Revealed(subs, n, i));
      var shown := Revealed(subs, n, i) || now - subs[i].submittedAt >= timeout * 1_000_000;
      && multiset(GetFeedbackForTask(rows, r.key.task, timeout, now))[r] == (if shown then 1 else 0)
      && multiset(GetFeedbackForAgent(rows, r.key.recipient, timeout, now))[r] == (if shown then 1 else 0)
      && GetFeedbackById(rows, r.id, timeout, now) == if shown then Some(r) else None
  {
    var rows, r := After(subs, n), RecordOf(subs[i], Revealed(subs, n, i));
    VisibleIff(subs, n, i);
    LookupFinds(rows, subs[i].key);
    TableIsSound(subs, n);
    ByIdIff(rows, r, timeout, now);
    hide After, Lookup, Revealed;
    StoredOnce(rows, r);
  }

  lemma StoredOnce(rows: seq<Record>, x: Record)
    requires IdsDiffer(rows) && x in rows
    ensures multiset(rows)[x] == 1
  {
    var k :| 0 <= k < |rows| && rows[k] == x;
    var before, after := rows[..k], rows[k + 1..];
    assert rows == before + [x] + after;
    forall i | 0 <= i < |rows| && i != k ensures rows[i].id != x.id {
      if i < k {
        assert rows[i].id != rows[k].id;
      } else {
        assert rows[k].id != rows[i].id;
      }
    }
    assert x !in before && x !in after;
    assert multiset(rows) == multiset(before) + multiset{x} + multiset(after);
  }
}
