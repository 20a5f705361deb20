/**
 All finalize calls of one lease, wherever their reads and locks fall in one run.
 */
module OutboxReceipts {
  import opened OutboxDelivery
  import opened OutboxSafety
  import opened OutboxGuarantees

  /** A `finalize` call in a run: after how many steps it reads, locks and, if need be, locks again,
      and what it was given. */
  datatype Call = Call(read: nat, locked: nat, again: nat, cfg: Config, claim: Claim, cause: Cause,
                       now0: Time, now1: Time, later1: Time, now2: Time, later2: Time, allowed: bool)

  ghost predicate Known(steps: seq<Step>, k: nat, id: nat) { k <= |steps| && id in Run(EMPTY, steps[..k]).rows }

  ghost predicate Placed(steps: seq<Step>, call: Call) {
    && call.read <= call.locked <= call.again
    && Known(steps, call.read, call.claim.eventId) && Known(steps, call.locked, call.claim.eventId)
    && Known(steps, call.again, call.claim.eventId)
  }

  ghost function Answer(steps: seq<Step>, call: Call): Finalization
    requires Placed(steps, call)
  {
    var id := call.claim.eventId;
    FinalizeCall(Run(EMPTY, steps[..call.read]).rows[id], Run(EMPTY, steps[..call.locked]).rows[id],
                 Run(EMPTY, steps[..call.again]).rows[id],
                 call.cfg, call.claim, call.cause, call.now0, call.now1, call.later1, call.now2, call.later2, call.allowed)
  }

  /** The call is part of the run: if it commits, its transaction is the step it locks for. */
  ghost predicate PartOf(steps: seq<Step>, call: Call) {
    && Placed(steps, call)
    && var r := Answer(steps, call);
       r.Committed? ==>
         && call.locked < |steps|
         && steps[call.locked] == Finalize(call.cfg, r.receipt, call.cause, call.now1, call.later1, call.allowed)
  }

  predicate Succeeded(r: Finalization) { r.Replayed? || r.Committed? }

  lemma FleetPart(fleet: set<Config>, limit: int, steps: seq<Step>, i: nat, j: nat)
    requires Deployment(fleet, limit, steps) && i <= j <= |steps|
    ensures Deployment(fleet, limit, steps[i..j])
  {
  }

  /** What a row carries after `k` steps it carries at the end. */
  lemma CarriedOn(fleet: set<Config>, limit: int, steps: seq<Step>, k: nat, id: nat, claim: Claim, receipt: Receipt)
    requires Deployment(fleet, limit, steps) && Known(steps, k, id) && Carries(Run(EMPTY, steps[..k]).rows[id], claim, receipt)
    ensures id in Run(EMPTY, steps).rows && Carries(Run(EMPTY, steps).rows[id], claim, receipt)
  {
    FleetPart(fleet, limit, steps, 0, k);
    FleetPart(fleet, limit, steps, k, |steps|);
    assert steps[0..k] == steps[..k] && steps[k..|steps|] == steps[k..];
    Continuation(fleet, limit, steps[..k], steps[k..], id);
    assert steps[..k] + steps[k..] == steps;
  }

  /** Only the first lock of a call commits. */
  lemma CommitsFirst(c0: Custody, c1: Custody, c2: Custody, call: Call)
    requires Consistent(c1) && Later(c1, c2)
    ensures var r := FinalizeCall(c0, c1, c2, call.cfg, call.claim, call.cause, call.now0, call.now1, call.later1,
                                  call.now2, call.later2, call.allowed);
            r.Committed? ==>
              && r == CommitFinalize(c1, call.cfg, r.receipt, call.cause, call.now1, call.later1, call.allowed)
              && r.receipt.claim == call.claim && Carries(r.custody, call.claim, r.receipt)
  {
    CallReports(c0, c1, c2, call.cfg, call.claim, call.cause, call.now0, call.now1, call.later1, call.now2, call.later2, call.allowed);
    if call.claim.Valid() && call.claim.generation in c0.attempts && c0.attempts[call.claim.generation].claim == call.claim {
      var attempt := c0.attempts[call.claim.generation];
      var now := if attempt.stage.CompletedStage? then attempt.stage.outcome.completedAt else call.now0;
      var value := OutcomeOf(call.claim, attempt.InvokedAt(), call.cause, now, call.cfg.OptionsFor(c0.event.kind),
                             c0.event.kind in call.cfg.replaySafe);
      if value.Some? {
        var receipt := Receipt(call.claim, value.value);
        CommitReports(c1, call.cfg, receipt, call.cause, call.now1, call.later1, call.allowed);
        var first := CommitFinalize(c1, call.cfg, receipt, call.cause, call.now1, call.later1, call.allowed);
        if first.CompletedMeanwhile? {
          RepeatReplays(c1, c2, call.cfg, first.receipt, call.cause, call.now2, call.later2, call.allowed);
        }
      }
    }
  }

  /** A committed call's outcome is in the row after its step. */
  lemma CommitStep(s: State, call: Call, r: Finalization)
    requires call.claim.eventId in s.rows && r.Committed? && r.receipt.claim == call.claim
    requires r == CommitFinalize(s.rows[call.claim.eventId], call.cfg, r.receipt, call.cause, call.now1, call.later1, call.allowed)
    ensures var t := Apply(s, Finalize(call.cfg, r.receipt, call.cause, call.now1, call.later1, call.allowed));
            call.claim.eventId in t.rows && t.rows[call.claim.eventId] == r.custody
  {
  }

  /** The answer of a successful call is what the lease carries at the end of the run. */
  lemma SuccessCarried(fleet: set<Config>, limit: int, steps: seq<Step>, call: Call)
    requires Deployment(fleet, limit, steps) && PartOf(steps, call) && Succeeded(Answer(steps, call))
    ensures call.claim.eventId in Run(EMPTY, steps).rows
    ensures Carries(Run(EMPTY, steps).rows[call.claim.eventId], call.claim, Answer(steps, call).receipt)
  {
    var id := call.claim.eventId;
    var s1, s2 := Run(EMPTY, steps[..call.locked]), Run(EMPTY, steps[..call.again]);
    var r := Answer(steps, call);
    LockedRow(fleet, limit, steps, call);
    CommitsFirst(Run(EMPTY, steps[..call.read]).rows[id], s1.rows[id], s2.rows[id], call);
    CallReports(Run(EMPTY, steps[..call.read]).rows[id], s1.rows[id], s2.rows[id], call.cfg, call.claim, call.cause,
                call.now0, call.now1, call.later1, call.now2, call.later2, call.allowed);
    if r.Replayed? {
      CarriedOn(fleet, limit, steps, call.again, id, call.claim, r.receipt);
    } else {
      CommitStep(s1, call, r);
      assert steps[..call.locked + 1][..call.locked] == steps[..call.locked];
      CarriedOn(fleet, limit, steps, call.locked + 1, id, call.claim, r.receipt);
    }
  }

  lemma LockedRow(fleet: set<Config>, limit: int, steps: seq<Step>, call: Call)
    requires Deployment(fleet, limit, steps) && Placed(steps, call)
    ensures var id := call.claim.eventId;
            && Consistent(Run(EMPTY, steps[..call.locked]).rows[id])
            && Later(Run(EMPTY, steps[..call.locked]).rows[id], Run(EMPTY, steps[..call.again]).rows[id])
  {
    FleetPart(fleet, limit, steps, 0, call.locked);
    FleetPart(fleet, limit, steps, call.locked, call.again);
    assert steps[0..call.locked] == steps[..call.locked];
    Reachable(fleet, limit, steps[..call.locked]);
    Continuation(fleet, limit, steps[..call.locked], steps[call.locked..call.again], call.claim.eventId);
    assert steps[..call.locked] + steps[call.locked..call.again] == steps[..call.again];
  }

  /** However their reads and locks interleave with each other and with other workers, all
      successful finalize calls of one lease report one receipt. */
  lemma ReceiptsAgree(fleet: set<Config>, limit: int, steps: seq<Step>, a: Call, b: Call)
    requires Deployment(fleet, limit, steps) && PartOf(steps, a) && PartOf(steps, b) && a.claim == b.claim
    requires Succeeded(Answer(steps, a)) && Succeeded(Answer(steps, b))
    ensures Answer(steps, a).receipt == Answer(steps, b).receipt
  {
    SuccessCarried(fleet, limit, steps, a);
    SuccessCarried(fleet, limit, steps, b);
  }
}
