/** The panel's vote: each judge's reply cleaned up, and the share the panel awards, which is the upper median
    of the cleaned votes. */
module Median {
  import opened Common
  import opened Sorting

  datatype Vote = Vote(judge: string, workerPct: int, reasoning: string, votedAt: string)

  /** What a judge may hand back: a vote, a dictionary with some of the fields readable, or something else. */
  datatype RawVote =
    | JudgeVote(vote: Vote)
    | Fields(judge: Option<string>, workerPct: Option<int>, reasoning: Option<string>, votedAt: Option<string>)
    | Unsupported

  datatype Reply = Answered(raw: RawVote) | Failed

  datatype PanelError = NoJudges | JudgeFailed(index: nat) | UnsupportedVote(index: nat)

  const NO_REASONING := "No reasoning provided."

  predicate IsSpace(c: char) {
    c == ' ' || '\t' <= c <= '\r' || '\U{1c}' <= c <= '\U{1f}'
  }

  predicate Blank(s: string) {
    forall i :: 0 <= i < |s| ==> IsSpace(s[i])
  }

  /** A cleaned vote: its share is a percentage, and no text is blank. */
  predicate IsClean(v: Vote) {
    0 <= v.workerPct <= 100 && !Blank(v.reasoning) && !Blank(v.judge)
  }

  function Clamp(pct: int): int {
    if pct < 0 then 0 else if pct > 100 then 100 else pct
  }

  /** The text if it says something, else the default. */
  function OrElse(text: string, default: string): string {
    if Blank(text) then default else text
  }

  function Text(field: Option<string>): string {
    if field.Some? then field.value else ""
  }

  function Read(raw: RawVote): Option<Vote> {
    match raw
    case JudgeVote(vote) => Some(vote)
    case Fields(judge, pct, reasoning, votedAt) =>
      Some(Vote(Text(judge), if pct.Some? then pct.value else 50, OrElse(Text(reasoning), NO_REASONING), Text(votedAt)))
    case Unsupported => None
  }

  function Cleaned(v: Vote, index: nat, now: string): Vote {
    Vote(OrElse(v.judge, "judge-" + Decimal(index)), Clamp(v.workerPct), OrElse(v.reasoning, NO_REASONING),
         OrElse(v.votedAt, now))
  }

  function Normalized(raw: RawVote, index: nat, now: string): Option<Vote> {
    if Read(raw).None? then None else Some(Cleaned(Read(raw).value, index, now))
  }

  method NormalizeVote(raw: RawVote, index: nat, now: string) returns (r: Option<Vote>)
    ensures r == Normalized(raw, index, now)
  {
    var judge, pct, reasoning, votedAt;
    match raw {
      case JudgeVote(vote) =>
        judge, pct, reasoning, votedAt := vote.judge, vote.workerPct, vote.reasoning, vote.votedAt;
      case Fields(judgeField, pctField, reasoningField, votedAtField) =>
        judge := if judgeField.Some? then judgeField.value else "";
        votedAt := if votedAtField.Some? then votedAtField.value else "";
        pct := if pctField.Some? then pctField.value else 50;
        reasoning :=
          if reasoningField.Some? && !Blank(reasoningField.value) then reasoningField.value else NO_REASONING;
      case Unsupported =>
        return None;
    }
    if pct < 0 {
      pct := 0;
    } else if pct > 100 {
      pct := 100;
    }
    if Blank(reasoning) {
      reasoning := NO_REASONING;
    }
    if Blank(judge) {
      judge := "judge-" + Decimal(index);
    }
    if Blank(votedAt) {
      votedAt := now;
    }
    return Some(Vote(judge, pct, reasoning, votedAt));
  }

  /** What becomes of a judge's vote, field by field: a share out of range becomes the nearest percentage, and a text
      that says nothing becomes the default. */
  lemma VoteIsKeptOrMended(v: Vote, index: nat, now: string)
    ensures
      var r := Normalized(JudgeVote(v), index, now);
      && r.Some?
      && (v.workerPct < 0 ==> r.value.workerPct == 0)
      && (v.workerPct > 100 ==> r.value.workerPct == 100)
      && (0 <= v.workerPct <= 100 ==> r.value.workerPct == v.workerPct)
      && r.value.judge == (if exists i :: 0 <= i < |v.judge| && !IsSpace(v.judge[i]) then v.judge
                           else "judge-" + Decimal(index))
      && r.value.reasoning == (if exists i :: 0 <= i < |v.reasoning| && !IsSpace(v.reasoning[i]) then v.reasoning
                               else "No reasoning provided.")
      && r.value.votedAt == (if exists i :: 0 <= i < |v.votedAt| && !IsSpace(v.votedAt[i]) then v.votedAt else now)
  {
  }

  /** A dictionary counts as the vote of its fields; a share that is missing is one half, a text that is missing says
      nothing. Anything else is no vote. */
  lemma DictionaryIsReadAsVote(raw: RawVote, index: nat, now: string)
    ensures raw.Unsupported? <==> Normalized(raw, index, now).None?
    ensures raw.Fields? ==>
              var judge := if raw.judge.Some? then raw.judge.value else "";
              var pct := if raw.workerPct.Some? then raw.workerPct.value else 50;
              var reasoning := if raw.reasoning.Some? then raw.reasoning.value else "";
              var votedAt := if raw.votedAt.Some? then raw.votedAt.value else "";
              Normalized(raw, index, now) == Normalized(JudgeVote(Vote(judge, pct, reasoning, votedAt)), index, now)
  {
    assert Blank("");
    assert !IsSpace(NO_REASONING[0]);
  }

  /** A higher share never becomes a lower one. */
  lemma NormalizingIsMonotone(v: Vote, w: Vote, index: nat, now: string)
    requires v.workerPct <= w.workerPct
    ensures
      var r, s := Normalized(JudgeVote(v), index, now), Normalized(JudgeVote(w), index, now);
      r.Some? && s.Some? && r.value.workerPct <= s.value.workerPct
  {
    VoteIsKeptOrMended(v, index, now);
    VoteIsKeptOrMended(w, index, now);
    hide Normalized;
  }

  /** Cleaning always yields a clean vote and leaves a clean one as it is. */
  lemma CleaningCleans(v: Vote, index: nat, now: string)
    ensures IsClean(Cleaned(v, index, now))
    ensures IsClean(v) && !Blank(v.votedAt) ==> Cleaned(v, index, now) == v
  {
    assert !IsSpace(NO_REASONING[0]);
    assert !IsSpace(("judge-" + Decimal(index))[0]);
  }

  // ----- The panel

  /** The first judge whose reply stops the evaluation, or the number of judges. */
  function FirstFailure(replies: seq<Reply>): (n: nat)
    ensures n <= |replies|
    ensures forall i :: 0 <= i < n ==> replies[i].Answered? && !replies[i].raw.Unsupported?
    ensures n < |replies| ==> replies[n].Failed? || replies[n].raw.Unsupported?
  {
    if replies == [] || replies[0].Failed? || replies[0].raw.Unsupported? then 0 else 1 + FirstFailure(replies[1..])
  }

  /** The error names the first judge without a usable reply, and whether the judge failed or said something that is no
      vote; without judges it says so. */
  predicate NamesFirstFailure(replies: seq<Reply>, error: PanelError) {
    match error
    case NoJudges => replies == []
    case JudgeFailed(n) => n < |replies| && replies[n].Failed? && UsableUpTo(replies, n)
    case UnsupportedVote(n) => n < |replies| && replies[n] == Answered(Unsupported) && UsableUpTo(replies, n)
  }

  /** The first `n` judges answer with something that is a vote. */
  predicate UsableUpTo(replies: seq<Reply>, n: nat)
    requires n <= |replies|
  {
    forall i :: 0 <= i < n ==> replies[i].Answered? && !replies[i].raw.Unsupported?
  }

  lemma AllUsableIff(replies: seq<Reply>)
    ensures FirstFailure(replies) == |replies| <==> UsableUpTo(replies, |replies|)
  {
    hide FirstFailure;
  }

  /** The vote is judge `i`'s reply, cleaned up. */
  predicate CastAs(reply: Reply, i: nat, now: string, vote: Vote) {
    reply.Answered? && Normalized(reply.raw, i, now) == Some(vote) && IsClean(vote)
  }

  lemma NormalizedIsClean(raw: RawVote, i: nat, now: string)
    requires !raw.Unsupported?
    ensures Normalized(raw, i, now).Some? && IsClean(Normalized(raw, i, now).value)
  {
    hide Cleaned, IsClean;
    CleaningCleans(Read(raw).value, i, now);
  }

  /** Ask the judges in turn; the first failure ends the evaluation. */
  method EvaluateJudges(replies: seq<Reply>, now: string) returns (r: Result<seq<Vote>, PanelError>)
    ensures r.Ok? <==> replies != [] && UsableUpTo(replies, |replies|)
    ensures r.Ok? ==> |r.value| == |replies|
    ensures r.Ok? ==> forall i :: 0 <= i < |replies| ==> CastAs(replies[i], i, now, r.value[i])
    ensures r.Err? ==> NamesFirstFailure(replies, r.error)
  {
    if |replies| == 0 {
      return Err(NoJudges);
    }
    hide Normalized, IsClean;
    var votes := [];
    for index := 0 to |replies|
      invariant |votes| == index && UsableUpTo(replies, index)
      invariant forall i :: 0 <= i < index ==> CastAs(replies[i], i, now, votes[i])
    {
      if replies[index].Failed? {
        return Err(JudgeFailed(index));
      }
      var vote := NormalizeVote(replies[index].raw, index, now);
      assert vote.None? <==> replies[index].raw.Unsupported?;
      if vote.None? {
        return Err(UnsupportedVote(index));
      }
      NormalizedIsClean(replies[index].raw, index, now);
      votes := votes + [vote.value];
    }
    return Ok(votes);
  }

  function Shares(votes: seq<Vote>): seq<int> {
    seq(|votes|, i requires 0 <= i < |votes| => votes[i].workerPct)
  }

  function UpperMedian(pcts: seq<int>): int
    requires pcts != []
  {
    Sorted(pcts)[|pcts| / 2]
  }

  function Join(texts: seq<string>): string {
    if texts == [] then "" else if |texts| == 1 then texts[0] else texts[0] + "\n\n" + Join(texts[1..])
  }

  function ComputeRuling(votes: seq<Vote>): (int, string)
    requires votes != []
  {
    (UpperMedian(Shares(votes)), Join(seq(|votes|, i requires 0 <= i < |votes| => votes[i].reasoning)))
  }

  // ----- What the panel's share is

  /** The share is at most `x` exactly when the number of votes at most `x` exceeds half of all, rounded down. */
  lemma MedianAtMostIff(pcts: seq<int>, x: int)
    requires pcts != []
    ensures UpperMedian(pcts) <= x <==> |pcts| / 2 < CountAtMost(pcts, x)
  {
    RankInOrdered(Sorted(pcts), x, |pcts| / 2);
    CountIgnoresOrder(Sorted(pcts), pcts, x);
  }

  /** The median without sorting, `h` being half of the votes, rounded down: the one value with at most `h` votes
      below it and more than `h` votes not above it. */
  lemma MedianIff(pcts: seq<int>, m: int)
    requires pcts != []
    ensures m == UpperMedian(pcts) <==> CountAtMost(pcts, m - 1) <= |pcts| / 2 < CountAtMost(pcts, m)
  {
    MedianAtMostIff(pcts, m);
    MedianAtMostIff(pcts, m - 1);
  }

  /** At least half of the votes are no more than the panel's share and at least half are no less; it is one
      of the votes. */
  lemma HalfOnEachSide(pcts: seq<int>)
    requires pcts != []
    ensures
      var m := UpperMedian(pcts);
      && m in pcts
      && 2 * CountAtMost(pcts, m) >= |pcts|
      && 2 * (|pcts| - CountAtMost(pcts, m - 1)) >= |pcts|
  {
    hide UpperMedian, CountAtMost;
    MedianIff(pcts, UpperMedian(pcts));
    MedianIsAVote(pcts);
  }

  lemma MedianIsAVote(pcts: seq<int>)
    requires pcts != []
    ensures UpperMedian(pcts) in pcts
  {
    var sorted := Sorted(pcts);
    assert sorted[|pcts| / 2] in multiset(sorted);
    assert sorted[|pcts| / 2] in multiset(pcts);
  }

  lemma MedianIgnoresOrder(pcts: seq<int>, other: seq<int>)
    requires pcts != [] && multiset(pcts) == multiset(other)
    ensures other != [] && UpperMedian(pcts) == UpperMedian(other)
  {
    assert |multiset(pcts)| == |multiset(other)|;
    OrderedIsUnique(Sorted(pcts), Sorted(other));
  }

  lemma {:induction false} RaisingLowersCount(pcts: seq<int>, other: seq<int>, x: int)
    requires |pcts| == |other| && forall i :: 0 <= i < |pcts| ==> pcts[i] <= other[i]
    ensures CountAtMost(other, x) <= CountAtMost(pcts, x)
  {
    if pcts != [] {
      RaisingLowersCount(pcts[1..], other[1..], x);
    }
  }

  /** Judges who raise their votes never lower the panel's share. */
  lemma RaisingNeverLowers(pcts: seq<int>, other: seq<int>)
    requires pcts != [] && |pcts| == |other| && forall i :: 0 <= i < |pcts| ==> pcts[i] <= other[i]
    ensures UpperMedian(pcts) <= UpperMedian(other)
  {
    var m := UpperMedian(other);
    RaisingLowersCount(pcts, other, m);
    MedianAtMostIff(other, m);
    MedianAtMostIff(pcts, m);
  }

  lemma {:induction false} CountIsMonotone(s: seq<int>, x: int, y: int)
    requires x <= y
    ensures CountAtMost(s, x) <= CountAtMost(s, y)
  {
    if s != [] {
      CountIsMonotone(s[1..], x, y);
    }
  }

  /** A strict majority of votes inside an interval forces the panel's share into it. */
  lemma MajorityDecides(pcts: seq<int>, low: int, high: int)
    requires low <= high && 2 * (CountAtMost(pcts, high) - CountAtMost(pcts, low - 1)) > |pcts|
    ensures pcts != [] && low <= UpperMedian(pcts) <= high
  {
    CountIsMonotone(pcts, low - 1, high);
    MedianAtMostIff(pcts, high);
    MedianAtMostIff(pcts, low - 1);
  }

  /** The share of a panel of clean votes is a percentage, and equals a vote that was cast. */
  lemma RulingIsAPercentage(votes: seq<Vote>)
    requires votes != [] && forall i :: 0 <= i < |votes| ==> IsClean(votes[i])
    ensures 0 <= ComputeRuling(votes).0 <= 100
    ensures exists i :: 0 <= i < |votes| && votes[i].workerPct == ComputeRuling(votes).0
  {
    var pcts := Shares(votes);
    HalfOnEachSide(pcts);
    var i :| 0 <= i < |pcts| && pcts[i] == UpperMedian(pcts);
    assert IsClean(votes[i]);
  }

  // ----- What the summary is

  /** Where the text of judge `k` begins: behind the earlier texts, each with its blank line. */
  function Offset(texts: seq<string>, k: nat): nat
    requires k <= |texts|
  {
    if k == 0 then 0 else Offset(texts, k - 1) + |texts[k - 1]| + 2
  }

  lemma {:induction false} OffsetOfTail(texts: seq<string>, k: nat)
    requires texts != [] && k < |texts|
    ensures Offset(texts, k + 1) == |texts[0]| + 2 + Offset(texts[1..], k)
  {
    if k > 0 {
      OffsetOfTail(texts, k - 1);
    } else {
      assert Offset(texts, 1) == Offset(texts, 0) + |texts[0]| + 2;
    }
  }

  lemma Shifted(front: string, tail: string, x: nat, y: nat)
    requires x <= y <= |tail|
    ensures (front + tail)[|front| + x..|front| + y] == tail[x..y]
    ensures forall i :: 0 <= i < |tail| ==> (front + tail)[|front| + i] == tail[i]
  {
  }

  lemma {:induction false} JoinLength(texts: seq<string>)
    requires texts != []
    ensures |Join(texts)| + 2 == Offset(texts, |texts|)
    decreases |texts|
  {
    if |texts| == 1 {
      assert Offset(texts, 1) == Offset(texts, 0) + |texts[0]| + 2;
    } else {
      JoinLength(texts[1..]);
      OffsetOfTail(texts, |texts| - 1);
    }
  }

  /** Text `k` and, unless it is the last one, a blank line after it stand where they should. */
  predicate StandsIn(all: string, texts: seq<string>, k: nat)
    requires k < |texts|
  {
    var at := Offset(texts, k);
    var end := at + |texts[k]|;
    && end <= |all| && all[at..end] == texts[k]
    && (k < |texts| - 1 ==> end + 2 <= |all| && all[end] == all[end + 1] == '\n')
  }

  lemma StandsFurtherBack(all: string, texts: seq<string>, k: nat)
    requires 0 < k < |texts| && StandsIn(all, texts[1..], k - 1)
    ensures StandsIn(texts[0] + "\n\n" + all, texts, k)
  {
    OffsetOfTail(texts, k - 1);
    var front, at := texts[0] + "\n\n", Offset(texts[1..], k - 1);
    Shifted(front, all, at, at + |texts[k]|);
    hide Offset;
  }

  /** The summary holds every text whole and in order, one blank line between two, and nothing else. */
  lemma {:induction false} JoinKeepsTexts(texts: seq<string>, k: nat)
    requires k < |texts|
    ensures |Join(texts)| + 2 == Offset(texts, |texts|) && StandsIn(Join(texts), texts, k)
    decreases |texts|
  {
    JoinLength(texts);
    if k > 0 {
      JoinKeepsTexts(texts[1..], k - 1);
      StandsFurtherBack(Join(texts[1..]), texts, k);
    }
    hide Offset;
  }
}
