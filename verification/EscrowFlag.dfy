/** The flag that says a payment is still pending: when it can come down, and when it is up for good. */
module EscrowFlag {
  import opened Common
  import Ledger
  import LedgerTheorems
  import opened TaskStore
  import Deadlines
  import opened EscrowProtocol

  // ----- A lost reply

  /** The flag of a fired task is up and no process is about to report a success. */
  predicate Raised(w: World, id: string) {
    && id in w.store.tasks && Fired(w.store.tasks[id].status) && w.store.tasks[id].escrowPending
    && NoSuccessInFlight(w, id)
  }

  /** ... and its escrow is resolved. */
  predicate Stuck(w: World, id: string) {
    Raised(w, id) && LedgerTheorems.Resolved(w.bank, w.store.tasks[id].escrowId)
  }

  predicate NoSuccessInFlight(w: World, id: string) {
    forall p :: p in w.processes ==> w.processes[p] != Flagging(id, true)
  }

  /** The bank refuses a second release, so a retry sees no success. */
  lemma SecondReleaseFails(bank: Ledger.State, e: string, recipient: Option<string>, delivery: Delivery,
                           txId: string)
    requires LedgerTheorems.Resolved(bank, e)
    ensures !Deadlines.ReleaseStep(bank, e, recipient, delivery, txId).1
  {
  }

  lemma StuckFrame(w: World, t: World, id: string)
    requires Stuck(w, id) && TasksEvolve(w, t) && LedgerTheorems.RowsPersist(w.bank, t.bank)
    requires id in t.store.tasks && t.store.tasks[id].escrowPending && NoSuccessInFlight(t, id)
    ensures Stuck(t, id)
  {
    assert Evolves(w.store.tasks[id], t.store.tasks[id]);
  }

  lemma BankedRowsPersist(w: World, ev: Event)
    requires Allowed(w, ev)
    ensures LedgerTheorems.RowsPersist(w.bank, Next(w, ev).bank)
  {
    hide UpdateStep, Ledger.Step, Deadlines.ReleaseStep, Recorded;
    match ev
    case BankCall(c) => LedgerTheorems.StepRowsPersist(w.bank, c);
    case Arrive(r, txId) => LedgerTheorems.StepRowsPersist(w.bank, Ledger.Release(r.escrow, r.recipient, txId));
    case Send(p, _, txId) =>
      if p in w.processes && w.processes[p].Releasing? && w.processes[p].recipient.Some? {
        LedgerTheorems.StepRowsPersist(w.bank,
                                       Ledger.Release(w.processes[p].escrow, w.processes[p].recipient.value, txId));
      }
    case _ =>
  }

  lemma SendSeesNoSuccess(w: World, p: string, delivery: Delivery, txId: string, id: string)
    requires Inv(w) && Stuck(w, id)
    ensures NoSuccessInFlight(SendStep(w, p, delivery, txId), id)
  {
    if p in w.processes && w.processes[p].Releasing? {
      assert ProcessFits(w, w.processes[p]);
      var process := w.processes[p];
      hide Inv, Ledger.Step, Recorded;
      if process.id == id {
        SecondReleaseFails(w.bank, process.escrow, process.recipient, delivery, txId);
      }
      hide Deadlines.ReleaseStep, UpdateStep;
    }
  }

  lemma EventSeesNoSuccess(w: World, ev: Event, id: string)
    requires Inv(w) && Stuck(w, id)
    ensures NoSuccessInFlight(Next(w, ev), id)
  {
    hide UpdateStep, Inv, Ledger.Step, Deadlines.ReleaseStep, Recorded, Deadlines.Decide;
    match ev
    case Send(p, delivery, txId) => SendSeesNoSuccess(w, p, delivery, txId, id);
    case _ =>
  }

  lemma UpdateLeavesFired(w: World, id: string, updates: seq<Assignment>, from: Status, fired: string)
    requires fired in w.store.tasks && Fired(w.store.tasks[fired].status) && !Fired(from)
    ensures
      var t := UpdateStep(w.store, id, updates, Some(from)).0;
      fired in t.tasks && t.tasks[fired] == w.store.tasks[fired]
  {
  }

  lemma CompareAndSetLeavesFired(w: World, p: string, id: string)
    requires Inv(w) && id in w.store.tasks && Fired(w.store.tasks[id].status)
    ensures
      var t := CompareAndSetStep(w, p);
      id in t.store.tasks && t.store.tasks[id] == w.store.tasks[id]
  {
    if p in w.processes && w.processes[p].Due? {
      assert ProcessFits(w, w.processes[p]);
      var move := w.processes[p].move;
      UpdateLeavesFired(w, w.processes[p].id, Deadlines.TransitionUpdates(move.to, w.now), move.from, id);
      hide UpdateStep, Inv;
    }
  }

  lemma FlagLeavesRaised(w: World, p: string, id: string)
    requires Inv(w) && Raised(w, id)
    ensures
      var t := FlagStep(w, p);
      id in t.store.tasks && t.store.tasks[id].escrowPending
  {
    if p in w.processes && w.processes[p].Flagging? {
      assert ProcessFits(w, w.processes[p]);
      Deadlines.FlagUpdate(w.store, w.processes[p].id, !w.processes[p].ok);
      hide UpdateStep, Inv;
    }
  }

  lemma FlagStaysUp(w: World, ev: Event, id: string)
    requires Inv(w) && Raised(w, id)
    ensures id in Next(w, ev).store.tasks && Next(w, ev).store.tasks[id].escrowPending
  {
    hide UpdateStep, Inv, Ledger.Step, Deadlines.ReleaseStep, Recorded, Deadlines.Decide, CompareAndSetStep, FlagStep;
    match ev
    case CompareAndSet(p) => CompareAndSetLeavesFired(w, p, id);
    case Flag(p) => FlagLeavesRaised(w, p, id);
    case Accept(x, worker) => UpdateLeavesFired(w, x, AcceptUpdates(worker, w.now), Open, id);
    case Submit(x) => UpdateLeavesFired(w, x, SubmitUpdates(w.now), Accepted, id);
    case Dispute(x) => UpdateLeavesFired(w, x, DisputeUpdates(), Submitted, id);
    case Rule(x) => UpdateLeavesFired(w, x, RuleUpdates(), Disputed, id);
    case _ =>
  }

  lemma NextKeepsStuck(w: World, ev: Event, id: string)
    requires Inv(w) && Allowed(w, ev) && Stuck(w, id)
    ensures Stuck(Next(w, ev), id)
  {
    hide Next, Inv, Allowed, TasksEvolve;
    NextEvolves(w, ev);
    BankedRowsPersist(w, ev);
    FlagStaysUp(w, ev, id);
    EventSeesNoSuccess(w, ev, id);
    StuckFrame(w, Next(w, ev), id);
  }

  lemma {:induction false} StuckForGood(w: World, events: seq<Event>, n: nat, id: string)
    requires Inv(w) && AllowedRun(w, events) && n <= |events| && Stuck(w, id)
    ensures Inv(After(w, events, n)) && Stuck(After(w, events, n), id)
  {
    hide Next, Inv, Stuck, Allowed;
    if n > 0 {
      StuckForGood(w, events, n - 1, id);
      NextKeepsInv(After(w, events, n - 1), events[n - 1]);
      NextKeepsStuck(After(w, events, n - 1), events[n - 1], id);
    }
  }

  // ----- Without a retry

  /** The program as it stands: nobody calls the coordinator's retry on a row on which it acts. */
  predicate RetryFree(events: seq<Event>) {
    forall i :: 0 <= i < |events| ==> !events[i].Retry?
  }

  /** The process is about to report a success for task `id`, or can still get one from the bank. */
  predicate MayReport(w: World, process: Process, id: string) {
    || process == Flagging(id, true)
    || (process.Releasing? && process.id == id && !LedgerTheorems.Resolved(w.bank, process.escrow))
  }

  ghost predicate OnItsWay(w: World, id: string) {
    exists p :: p in w.processes && MayReport(w, w.processes[p], id)
  }

  /** The flag of a fired task is up and no process is under way that could bring it down. */
  ghost predicate Stranded(w: World, id: string) {
    && id in w.store.tasks && Fired(w.store.tasks[id].status) && w.store.tasks[id].escrowPending
    && !OnItsWay(w, id)
  }

  /** From `w` to `t` only process `p` changed, and what the bank had resolved stays resolved. */
  ghost predicate OnlyProcess(w: World, t: World, p: string) {
    && LedgerTheorems.RowsPersist(w.bank, t.bank)
    && forall q :: q in t.processes && q != p ==> q in w.processes && t.processes[q] == w.processes[q]
  }

  lemma NobodyNew(w: World, t: World, p: string, id: string)
    requires OnlyProcess(w, t, p) && !OnItsWay(w, id)
    requires p in t.processes ==> !MayReport(t, t.processes[p], id)
    ensures !OnItsWay(t, id)
  {
    forall q | q in t.processes ensures !MayReport(t, t.processes[q], id) {
      if q != p {
        assert !MayReport(w, w.processes[q], id);
      }
    }
  }

  lemma ChangesOneProcess(w: World, ev: Event, p: string)
    requires Allowed(w, ev)
    requires ev.Load? || ev.Evaluate? || ev.Retry? || ev.CompareAndSet? || ev.Send? || ev.Flag? ==> ev.p == p
    ensures OnlyProcess(w, Next(w, ev), p)
  {
    BankedRowsPersist(w, ev);
    hide UpdateStep, Ledger.Step, Deadlines.ReleaseStep, Recorded, Deadlines.Decide;
  }

  lemma NoNewRelease(w: World, p: string, id: string)
    requires Inv(w) && id in w.store.tasks && Fired(w.store.tasks[id].status)
    ensures
      var t := CompareAndSetStep(w, p);
      p in t.processes && p in w.processes && w.processes[p].Due? ==> !MayReport(t, t.processes[p], id)
  {
    if p in w.processes && w.processes[p].Due? {
      assert ProcessFits(w, w.processes[p]);
      var process := w.processes[p];
      Deadlines.TransitionUpdate(w.store, process.id, process.move, w.now);
      hide UpdateStep, Inv;
    }
  }

  lemma SendBringsNothing(w: World, p: string, delivery: Delivery, txId: string, id: string)
    requires p in w.processes && !MayReport(w, w.processes[p], id)
    ensures
      var t := SendStep(w, p, delivery, txId);
      p in t.processes && w.processes[p].Releasing? ==> !MayReport(t, t.processes[p], id)
  {
    var process := w.processes[p];
    if process.Releasing? && process.id == id {
      SecondReleaseFails(w.bank, process.escrow, process.recipient, delivery, txId);
    }
    hide Ledger.Step, Recorded, Deadlines.ReleaseStep;
  }

  /** Loading, evaluating and flagging leave a process with nothing to report. */
  lemma QuietStep(w: World, ev: Event, p: string, id: string)
    requires (ev.Load? || ev.Evaluate? || ev.Flag?) && ev.p == p
    requires p in w.processes ==> !MayReport(w, w.processes[p], id)
    ensures
      var t := Next(w, ev);
      p in t.processes ==> !MayReport(t, t.processes[p], id)
  {
    hide UpdateStep, Deadlines.Decide;
  }

  lemma NobodySetsOut(w: World, ev: Event, p: string, id: string)
    requires Inv(w) && Stranded(w, id) && !ev.Retry? && HasProcess(ev) && ev.p == p
    ensures
      var t := Next(w, ev);
      p in t.processes ==> !MayReport(t, t.processes[p], id)
  {
    assert p in w.processes ==> !MayReport(w, w.processes[p], id);
    hide Inv, CompareAndSetStep, SendStep;
    match ev
    case CompareAndSet(_) =>
      NoNewRelease(w, p, id);
      NotDue(w, p);
    case Send(_, delivery, txId) =>
      NotReleasing(w, p, delivery, txId);
      if p in w.processes {
        SendBringsNothing(w, p, delivery, txId, id);
      }
    case _ => QuietStep(w, ev, p, id);
  }

  lemma NotDue(w: World, p: string)
    ensures p !in w.processes || !w.processes[p].Due? ==> CompareAndSetStep(w, p) == w
  {
  }

  lemma NotReleasing(w: World, p: string, delivery: Delivery, txId: string)
    ensures p !in w.processes || !w.processes[p].Releasing? ==> SendStep(w, p, delivery, txId) == w
  {
  }

  predicate HasProcess(ev: Event) {
    ev.Load? || ev.Evaluate? || ev.Retry? || ev.CompareAndSet? || ev.Send? || ev.Flag?
  }

  lemma NextKeepsStranded(w: World, ev: Event, id: string)
    requires Inv(w) && Allowed(w, ev) && Stranded(w, id) && !ev.Retry?
    ensures Stranded(Next(w, ev), id)
  {
    var p := if HasProcess(ev) then ev.p else "";
    var t := Next(w, ev);
    assert NoSuccessInFlight(w, id) by {
      assert forall q :: q in w.processes ==> !MayReport(w, w.processes[q], id);
    }
    NextEvolves(w, ev);
    FlagStaysUp(w, ev, id);
    ChangesOneProcess(w, ev, p);
    if p in t.processes {
      if HasProcess(ev) {
        NobodySetsOut(w, ev, p, id);
      } else {
        QuietEvent(w, ev, p, id);
      }
    }
    hide Next, Inv, Allowed, OnItsWay, OnlyProcess;
    NobodyNew(w, t, p, id);
    FiredStaysFired(w, t, id);
  }

  lemma QuietEvent(w: World, ev: Event, p: string, id: string)
    requires !HasProcess(ev) && !OnItsWay(w, id) && OnlyProcess(w, Next(w, ev), p) && p in Next(w, ev).processes
    ensures !MayReport(Next(w, ev), Next(w, ev).processes[p], id)
  {
    hide UpdateStep, Ledger.Step, Recorded;
    assert p in w.processes && !MayReport(w, w.processes[p], id);
  }

  /** A flag that is up with nothing on its way stays up in every run in which nobody calls the retry, even while the
      bank still holds the escrow. */
  lemma {:induction false} StrandedForGood(w: World, events: seq<Event>, n: nat, id: string)
    requires Inv(w) && AllowedRun(w, events) && RetryFree(events) && n <= |events| && Stranded(w, id)
    ensures Inv(After(w, events, n)) && Stranded(After(w, events, n), id)
  {
    hide Next, Inv, Stranded, Allowed;
    if n > 0 {
      StrandedForGood(w, events, n - 1, id);
      NextKeepsInv(After(w, events, n - 1), events[n - 1]);
      NextKeepsStranded(After(w, events, n - 1), events[n - 1], id);
    }
  }

  // ----- Continuations that bring the flag down

  /** An allowed continuation that ends with the flag of `id` down. */
  predicate Lowers(w: World, events: seq<Event>, id: string) {
    && AllowedRun(w, events)
    && id in After(w, events, |events|).store.tasks
    && !After(w, events, |events|).store.tasks[id].escrowPending
  }

  lemma AlwaysAllowed(w: World, events: seq<Event>)
    requires forall i :: 0 <= i < |events| ==>
               !events[i].Post? && (events[i].BankCall? ==> events[i].call.CreateAccount?)
    ensures AllowedRun(w, events)
  {
    forall i | 0 <= i < |events| ensures Allowed(After(w, events, i), events[i]) {
      hide After;
    }
  }

  /** Report the success that process `p` has seen. */
  lemma ReportLowers(w: World, p: string, id: string)
    requires id in w.store.tasks && p in w.processes && w.processes[p] == Flagging(id, true)
    ensures Lowers(w, [Flag(p)], id) && RetryFree([Flag(p)])
  {
    Deadlines.FlagUpdate(w.store, id, false);
    assert After(w, [Flag(p)], 1) == Next(After(w, [Flag(p)], 0), Flag(p));
    AlwaysAllowed(w, [Flag(p)]);
    hide UpdateStep, AllowedRun;
  }

  /** A release that reaches a bank still holding the escrow brings the flag down. */
  lemma DeliveryLowersFlag(w: World, p: string, id: string, retrying: bool)
    requires id in w.store.tasks && Heir(w.store.tasks[id]).Some?
    requires p in w.processes
    requires w.processes[p] == Releasing(id, w.store.tasks[id].escrowId, Heir(w.store.tasks[id]), retrying)
    requires Heir(w.store.tasks[id]).value in w.bank.balances && w.store.tasks[id].escrowId in w.bank.escrows
    requires w.bank.escrows[w.store.tasks[id].escrowId].status == Ledger.Locked
    ensures
      var t := FlagStep(SendStep(w, p, Delivered, ""), p);
      id in t.store.tasks && !t.store.tasks[id].escrowPending
  {
    var row := w.store.tasks[id];
    var (_, ok) := Deadlines.ReleaseStep(w.bank, row.escrowId, Heir(row), Delivered, "");
    assert ok;
    hide Ledger.Step, Recorded, Ledger.ReleaseStep, Deadlines.ReleaseStep, UpdateStep;
    var sent := SendStep(w, p, Delivered, "");
    assert sent.store == w.store && p in sent.processes && sent.processes[p] == Flagging(id, true);
    Deadlines.FlagUpdate(sent.store, id, false);
  }

  /** Give the heir an account, then deliver the release that process `p` is about to send. */
  function Delivery3(p: string, heir: string): seq<Event> {
    [BankCall(Ledger.CreateAccount(heir, 0, "")), Send(p, Delivered, ""), Flag(p)]
  }

  lemma DeliveryRuns(w: World, p: string, heir: string)
    ensures
      var banked := Banked(w, Ledger.CreateAccount(heir, 0, ""));
      After(w, Delivery3(p, heir), 3) == FlagStep(SendStep(banked, p, Delivered, ""), p)
  {
    hide FlagStep, SendStep, Banked;
    var events := Delivery3(p, heir);
    assert After(w, events, 1) == Next(After(w, events, 0), events[0]);
    assert After(w, events, 2) == Next(After(w, events, 1), events[1]);
    assert After(w, events, 3) == Next(After(w, events, 2), events[2]);
  }

  lemma OpeningLeaves(w: World, heir: string)
    ensures
      var t := Banked(w, Ledger.CreateAccount(heir, 0, ""));
      && heir in t.bank.balances && t.bank.escrows == w.bank.escrows
      && t == w.(bank := t.bank)
  {
  }

  lemma DeliverySucceeds(w: World, p: string, id: string, heir: string, retrying: bool)
    requires id in w.store.tasks && Heir(w.store.tasks[id]) == Some(heir)
    requires p in w.processes
    requires w.processes[p] == Releasing(id, w.store.tasks[id].escrowId, Some(heir), retrying)
    requires w.store.tasks[id].escrowId in w.bank.escrows
    requires w.bank.escrows[w.store.tasks[id].escrowId].status == Ledger.Locked
    ensures Lowers(w, Delivery3(p, heir), id)
  {
    OpeningLeaves(w, heir);
    hide Banked, After, FlagStep, SendStep, AllowedRun;
    DeliveryLowersFlag(Banked(w, Ledger.CreateAccount(heir, 0, "")), p, id, retrying);
    DeliveryRuns(w, p, heir);
    AlwaysAllowed(w, Delivery3(p, heir));
  }

  lemma ReleaseUnderWayFits(w: World, p: string, id: string)
    requires Inv(w) && p in w.processes && w.processes[p].Releasing? && w.processes[p].id == id
    requires MayReport(w, w.processes[p], id)
    ensures id in w.store.tasks && Heir(w.store.tasks[id]).Some?
    ensures w.processes[p].escrow == w.store.tasks[id].escrowId && w.processes[p].recipient == Heir(w.store.tasks[id])
    ensures w.store.tasks[id].escrowId in w.bank.escrows
    ensures w.bank.escrows[w.store.tasks[id].escrowId].status == Ledger.Locked
  {
    assert ProcessFits(w, w.processes[p]);
    assert TaskFits(w, id);
  }

  lemma ReleaseUnderWayLowers(w: World, p: string, id: string)
    requires Inv(w) && p in w.processes && w.processes[p].Releasing? && w.processes[p].id == id
    requires MayReport(w, w.processes[p], id)
    ensures exists events :: RetryFree(events) && Lowers(w, events, id)
  {
    ReleaseUnderWayFits(w, p, id);
    hide Inv, MayReport, Lowers, Heir;
    var heir := w.processes[p].recipient.value;
    DeliverySucceeds(w, p, id, heir, w.processes[p].retrying);
    assert RetryFree(Delivery3(p, heir));
  }

  /** Exactly when the raised flag of a fired task can still come down in the program as it stands: as long as some
      process has seen a success it has yet to report, or is about to send its release to a bank that still holds the
      escrow. A release that failed, whose reply was lost, or that arrives late, is never made up for. */
  lemma FlagComesDownIff(w: World, id: string)
    requires Inv(w) && id in w.store.tasks && Fired(w.store.tasks[id].status) && w.store.tasks[id].escrowPending
    ensures (exists events :: RetryFree(events) && Lowers(w, events, id)) <==> OnItsWay(w, id)
  {
    if OnItsWay(w, id) {
      var p :| p in w.processes && MayReport(w, w.processes[p], id);
      if w.processes[p].Releasing? {
        ReleaseUnderWayLowers(w, p, id);
      } else {
        ReportLowers(w, p, id);
      }
    } else {
      hide Inv, AllowedRun, After, OnItsWay;
      forall events | RetryFree(events) && AllowedRun(w, events) ensures !Lowers(w, events, id) {
        StrandedForGood(w, events, |events|, id);
      }
    }
  }

  // ----- With a retry

  /** Load the row, retry, and give the heir an account. */
  lemma RetrySetsOut(w: World, p: string, id: string)
    requires Inv(w) && id in w.store.tasks && Fired(w.store.tasks[id].status) && w.store.tasks[id].escrowPending
    ensures
      var row := w.store.tasks[id];
      Next(Next(w, Load(p, id)), Retry(p)) == Become(LetGo(w, p), p, Releasing(id, row.escrowId, Heir(row), true))
  {
    hide Inv;
  }

  function Rescue(p: string, id: string, heir: string): seq<Event> {
    [Load(p, id), Retry(p), BankCall(Ledger.CreateAccount(heir, 0, "")), Send(p, Delivered, ""), Flag(p)]
  }

  lemma RescueRuns(w: World, p: string, id: string, heir: string)
    ensures
      var banked := Banked(Next(Next(w, Load(p, id)), Retry(p)), Ledger.CreateAccount(heir, 0, ""));
      After(w, Rescue(p, id, heir), 5) == FlagStep(SendStep(banked, p, Delivered, ""), p)
  {
    hide FlagStep, SendStep, Banked, RetryStep, LoadStep;
    var events := Rescue(p, id, heir);
    assert After(w, events, 1) == Next(After(w, events, 0), events[0]);
    assert After(w, events, 2) == Next(After(w, events, 1), events[1]);
    assert After(w, events, 3) == Next(After(w, events, 2), events[2]);
    assert After(w, events, 4) == Next(After(w, events, 3), events[3]);
    assert After(w, events, 5) == Next(After(w, events, 4), events[4]);
  }

  lemma RescueLowers(w: World, id: string)
    requires Inv(w) && id in w.store.tasks && Fired(w.store.tasks[id].status) && w.store.tasks[id].escrowPending
    requires !LedgerTheorems.Resolved(w.bank, w.store.tasks[id].escrowId)
    ensures exists events :: Lowers(w, events, id)
  {
    assert TaskFits(w, id);
    var heir := Heir(w.store.tasks[id]).value;
    RetrySetsOut(w, "retry", id);
    hide Inv, TaskFits, Heir;
    RescueSucceeds(w, id, heir);
  }

  lemma RescueSucceeds(w: World, id: string, heir: string)
    requires id in w.store.tasks && Heir(w.store.tasks[id]) == Some(heir)
    requires w.store.tasks[id].escrowId in w.bank.escrows
    requires w.bank.escrows[w.store.tasks[id].escrowId].status == Ledger.Locked
    requires
      Next(Next(w, Load("retry", id)), Retry("retry"))
      == Become(LetGo(w, "retry"), "retry", Releasing(id, w.store.tasks[id].escrowId, Some(heir), true))
    ensures Lowers(w, Rescue("retry", id, heir), id)
  {
    hide Banked, After, FlagStep, SendStep, AllowedRun, Next;
    var retrying := Next(Next(w, Load("retry", id)), Retry("retry"));
    OpeningLeaves(retrying, heir);
    DeliveryLowersFlag(Banked(retrying, Ledger.CreateAccount(heir, 0, "")), "retry", id, true);
    RescueRuns(w, "retry", id, heir);
    AlwaysAllowed(w, Rescue("retry", id, heir));
  }

  /** What a caller of the coordinator's retry could still reach, if there were one: the flag can come down as long as
      the bank holds the escrow or some process has a success to report. Once the bank has paid and the reply was lost
      not even a retry clears it, for the bank refuses a second release and the coordinator takes the refusal for a
      failure. */
  lemma FlagCanComeDownIff(w: World, id: string)
    requires Inv(w) && id in w.store.tasks && Fired(w.store.tasks[id].status) && w.store.tasks[id].escrowPending
    ensures (exists events :: Lowers(w, events, id))
        <==> !LedgerTheorems.Resolved(w.bank, w.store.tasks[id].escrowId) || !NoSuccessInFlight(w, id)
  {
    if !NoSuccessInFlight(w, id) {
      var p :| p in w.processes && w.processes[p] == Flagging(id, true);
      ReportLowers(w, p, id);
    } else if LedgerTheorems.Resolved(w.bank, w.store.tasks[id].escrowId) {
      hide Inv, AllowedRun, After;
      forall events | AllowedRun(w, events) ensures !Lowers(w, events, id) {
        StuckForGood(w, events, |events|, id);
      }
    } else {
      RescueLowers(w, id);
    }
  }
}
