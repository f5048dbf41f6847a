/** Refusals of the gateway bank against refusals of the in-memory ledger: when both refuse a call, exactly
    when the caller sees the same error. */
module Refusals {
  import opened Common
  import Ledger
  import opened SqlBank
  import opened SqlTheorems
  import opened GatewayClient
  import opened Refinement

  /** The error the client raises for a refusal of the bank; None is the RuntimeError of an answer it
      does not know. Every 409 of one request becomes the same error. */
  function ErrorOf(c: Ledger.Call, failure: Failure): Option<Ledger.Error> {
    match failure
    case AccountExists => Some(Ledger.AccountExists)
    case AccountNotFound => Some(Ledger.AccountNotFound)
    case InsufficientFunds => Some(Ledger.InsufficientFunds)
    case ReferenceConflict => Some(Ledger.PayloadMismatch)
    case EscrowAlreadyLocked => Some(Ledger.EscrowAlreadyLocked)
    case EscrowNotFound => Some(Ledger.EscrowNotFound)
    case EscrowAlreadyResolved => Some(Ledger.EscrowAlreadyResolved)
    case ConstraintViolation => Some(Ledger.EscrowAlreadyResolved)
    case ForeignKeyViolation =>
      if c.CreateAccount? then Some(Ledger.AccountExists)
      else if c.Lock? then Some(Ledger.EscrowAlreadyLocked)
      else None
    case _ => None
  }

  /** The error a caller of the client sees, if it sees one it can name. */
  ghost function ClientError(t: Tables, c: Ledger.Call, now: string): Option<Ledger.Error> {
    match Translate(t, c, now)
    case Err(e) => Some(e)
    case Ok(call) =>
      var reply := Exec(t, call).reply;
      if reply.Refused? then ErrorOf(c, reply.failure) else None
  }

  /** A lock with another amount than the one held, beyond the payer's means: the bank tests funds first. */
  predicate LockTwiceOver(s: Ledger.State, c: Ledger.Call) {
    && c.Lock? && c.amount > 0 && c.payer in s.balances && s.balances[c.payer] < c.amount
    && (c.payer, c.task) in s.lockedByTask && s.lockedByTask[(c.payer, c.task)] in s.escrows
    && s.escrows[s.lockedByTask[(c.payer, c.task)]].amount != c.amount
  }

  /** A resolved escrow released to a missing account: the bank tests the status first. */
  predicate LateReleaseToNobody(s: Ledger.State, c: Ledger.Call) {
    && c.Release? && c.escrow in s.escrows && s.escrows[c.escrow].status != Ledger.Locked
    && c.recipient !in s.balances
  }

  /** A percentage out of range, which the two name differently, or a poster other than the payer with an
      account missing: the client tests the poster first. */
  predicate SplitNamedDifferently(s: Ledger.State, c: Ledger.Call) {
    && c.SplitEscrow?
    && (|| c.workerPct < 0 || c.workerPct > 100
        || (&& c.escrow in s.escrows && s.escrows[c.escrow].status == Ledger.Locked
            && c.poster != s.escrows[c.escrow].payer && (c.worker !in s.balances || c.poster !in s.balances)))
  }

  predicate RefusesDifferently(s: Ledger.State, c: Ledger.Call) {
    LockTwiceOver(s, c) || LateReleaseToNobody(s, c) || SplitNamedDifferently(s, c)
  }

  ghost predicate SameError(t: Tables, s: Ledger.State, c: Ledger.Call, now: string) {
    Ledger.Step(s, c).1.Err? ==> ClientError(t, c, now) == Some(Ledger.Step(s, c).1.error)
  }

  lemma CreateErrors(t: Tables, s: Ledger.State, c: Ledger.Call, now: string)
    requires Coupled(t, s) && Healthy(t, c) && c.CreateAccount?
    ensures SameError(t, s, c, now)
  {
    hide LogsCoupled, RefsCoupled, Ledger.Inv, SchemaHolds;
  }

  lemma CreditErrors(t: Tables, s: Ledger.State, c: Ledger.Call, now: string)
    requires Coupled(t, s) && Healthy(t, c) && c.Credit?
    ensures SameError(t, s, c, now)
  {
    assert RefCoupled(t, s, c.account, c.reference);
    hide LogsCoupled, RefsCoupled, Ledger.Inv, SchemaHolds;
  }

  lemma LockErrors(t: Tables, s: Ledger.State, c: Ledger.Call, now: string)
    requires Coupled(t, s) && Healthy(t, c) && c.Lock? && Ledger.Step(s, c).1.Err?
    ensures SameError(t, s, c, now) <==> !LockTwiceOver(s, c)
  {
    ActiveIsIndexed(t, s, c.payer, c.task);
    hide LogsCoupled, RefsCoupled, SchemaHolds;
  }

  lemma ReleaseErrors(t: Tables, s: Ledger.State, c: Ledger.Call, now: string)
    requires Coupled(t, s) && Healthy(t, c) && c.Release? && Ledger.Step(s, c).1.Err?
    ensures SameError(t, s, c, now) <==> !LateReleaseToNobody(s, c)
  {
    RowsAlike(t, s, c.escrow);
    hide LogsCoupled, RefsCoupled, Ledger.Inv, SchemaHolds;
  }

  lemma SplitErrors(t: Tables, s: Ledger.State, c: Ledger.Call, now: string)
    requires Coupled(t, s) && Healthy(t, c) && c.SplitEscrow? && !SplitsDifferently(s, c)
    requires Ledger.Step(s, c).1.Err?
    ensures SameError(t, s, c, now) <==> !SplitNamedDifferently(s, c)
  {
    RowsAlike(t, s, c.escrow);
    if c.escrow in t.escrows && 0 <= c.workerPct <= 100 {
      ShareIsFloor(t.escrows[c.escrow].amount, c.workerPct);
    }
    hide LogsCoupled, RefsCoupled, Ledger.Inv, SchemaHolds, Ledger.WorkerShare;
  }

  lemma BothRefuse(t: Tables, s: Ledger.State, c: Ledger.Call, now: string)
    requires Coupled(t, s) && Healthy(t, c) && !Diverges(t, s, c)
    ensures ClientOutcome(t, c, now).reply.Refused? <==> Ledger.Step(s, c).1.Err?
  {
    hide Coupled, Healthy, Diverges, ClientOutcome, Ledger.Step;
    AgreesIff(t, s, c, now);
  }

  /** From coupled states, with new identifiers, a call of no diverging kind that the ledger refuses is
      refused by the bank too, and the caller sees the same error exactly when the call is none of the
      three kinds above. */
  lemma RefusalsAlikeIff(t: Tables, s: Ledger.State, c: Ledger.Call, now: string)
    requires Coupled(t, s) && Healthy(t, c) && !Diverges(t, s, c) && Ledger.Step(s, c).1.Err?
    ensures ClientOutcome(t, c, now).reply.Refused?
    ensures ClientError(t, c, now) == Some(Ledger.Step(s, c).1.error) <==> !RefusesDifferently(s, c)
  {
    BothRefuse(t, s, c, now);
    hide Coupled, Healthy, OpensForStranger, ReusesInitialReference, ReplaysLockWithoutFunds, SplitsDifferently,
         ClientOutcome, Ledger.Step, ClientError;
    match c
    case CreateAccount(_, _, _) => CreateErrors(t, s, c, now);
    case Credit(_, _, _, _) => CreditErrors(t, s, c, now);
    case Lock(_, _, _, _, _) => LockErrors(t, s, c, now);
    case Release(_, _, _) => ReleaseErrors(t, s, c, now);
    case SplitEscrow(_, _, _, _, _, _) => SplitErrors(t, s, c, now);
  }
}
