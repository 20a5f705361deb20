/**
 The delivery guarantees, for every run of a fleet of workers: whatever stale or forged
 claims and receipts they present, whatever the clock and the authority service answer.
 */
module OutboxGuarantees {
  import opened Wrappers
  import opened OutboxDelivery
  import opened OutboxSafety

  ghost predicate Deployment(fleet: set<Config>, limit: int, steps: seq<Step>) {
    AttemptLimit(fleet, limit) && FromFleet(fleet, steps)
  }

  lemma Reachable(fleet: set<Config>, limit: int, steps: seq<Step>)
    requires Deployment(fleet, limit, steps)
    ensures Inv(fleet, limit, Run(EMPTY, steps))
  {
    RunKeepsInv(fleet, limit, EMPTY, steps);
  }

  lemma Continuation(fleet: set<Config>, limit: int, before: seq<Step>, more: seq<Step>, id: nat)
    requires Deployment(fleet, limit, before) && Deployment(fleet, limit, more)
    requires id in Run(EMPTY, before).rows
    ensures id in Run(EMPTY, before + more).rows
    ensures Later(Run(EMPTY, before).rows[id], Run(EMPTY, before + more).rows[id])
  {
    Reachable(fleet, limit, before);
    RunConcat(EMPTY, before, more);
    RunIsLater(fleet, limit, Run(EMPTY, before), more, id);
  }

  /** A lease is invoked at most once, and one event is handed to handlers at most as often as
      the largest attempt limit in the fleet. */
  lemma HandlerCallsBounded(fleet: set<Config>, limit: int, steps: seq<Step>, id: nat)
    requires Deployment(fleet, limit, steps) && id in Run(EMPTY, steps).rows
    ensures var c := Run(EMPTY, steps).rows[id];
            && (forall i, j :: 0 <= i < j < |c.calls| ==> c.calls[i] < c.calls[j])
            && (forall g :: g in c.calls ==>
                  && g in c.attempts && c.attempts[g].InvokedAt().Some?
                  && c.attempts[g].InvokedAt().value < c.attempts[g].claim.expiresAt)
            && |c.calls| <= limit
  {
    Reachable(fleet, limit, steps);
  }

  /** Unless some worker declares the handler replay-safe, a handler is called again only after
      it asked for a retry itself, inside its lease: an unknown effect is never repeated. */
  lemma NoUnsafeReplay(fleet: set<Config>, limit: int, steps: seq<Step>, id: nat, i: nat, j: nat)
    requires Deployment(fleet, limit, steps) && id in Run(EMPTY, steps).rows
    requires !ReplaySafeSomewhere(fleet, Run(EMPTY, steps).rows[id].event.kind)
    requires i < j < |Run(EMPTY, steps).rows[id].calls|
    ensures var c := Run(EMPTY, steps).rows[id];
            var g := c.calls[i];
            && g in c.attempts && c.attempts[g].stage.CompletedStage?
            && var o := c.attempts[g].stage.outcome;
            && o.state == Retryable && o.errorCode == Some(RetryRequested)
            && !o.invocationUnknown && o.completedAt < c.attempts[g].claim.expiresAt
  {
    Reachable(fleet, limit, steps);
    var c := Run(EMPTY, steps).rows[id];
    assert c.calls[i] in c.calls && c.calls[j] in c.calls;
    assert c.calls[i] < c.calls[j] <= c.event.generation;
  }

  /** However stale its snapshot, no worker starts an attempt before the backoff of the one before
      it has passed: the delay of some worker's options, between its base and its cap. */
  lemma BackoffRespected(fleet: set<Config>, limit: int, steps: seq<Step>, id: nat, g: int)
    requires Deployment(fleet, limit, steps) && id in Run(EMPTY, steps).rows
    requires g in Run(EMPTY, steps).rows[id].attempts && g + 1 in Run(EMPTY, steps).rows[id].attempts
    ensures g >= 1 && Run(EMPTY, steps).rows[id].attempts[g].stage.CompletedStage?
    ensures var c := Run(EMPTY, steps).rows[id];
            exists cfg :: cfg in fleet && cfg.OptionsFor(c.event.kind).retryBaseSeconds * SECOND <=
              BackoffSeconds(cfg.OptionsFor(c.event.kind), g) * SECOND <=
              c.attempts[g + 1].claim.claimedAt - c.attempts[g].stage.outcome.completedAt
  {
    Reachable(fleet, limit, steps);
    var c := Run(EMPTY, steps).rows[id];
    assert Follows(c.attempts[g], c.attempts[g + 1]);
    var o := c.attempts[g].stage.outcome;
    assert DueAfterBackoff(fleet, c.event.kind, g, o.completedAt, o.nextAttemptAt);
    var cfg :| cfg in fleet && o.nextAttemptAt == Some(o.completedAt + BackoffSeconds(cfg.OptionsFor(c.event.kind), g) * SECOND);
    assert cfg.OptionsFor(c.event.kind).Valid();
    BackoffBounded(cfg.OptionsFor(c.event.kind), g, g);
  }

  /** The code that permits such a repeat is only ever produced by a retry request. */
  lemma RetryRequestedOnlyByRetry(claim: Claim, invokedAt: Option<Time>, cause: Cause, now: Time,
                                  options: DeliveryOptions, retryUnknown: bool)
    requires claim.generation >= 1
    ensures var o := OutcomeOf(claim, invokedAt, cause, now, options, retryUnknown);
            (o.Some? && o.value.errorCode == Some(RetryRequested))
            <==> (cause == Retry && invokedAt.Some? && now < claim.expiresAt && claim.generation < options.maxAttempts)
  {
  }

  /** An acknowledged or dead-lettered event never changes again: no column, attempt or call. */
  lemma FinalizedForEver(fleet: set<Config>, limit: int, before: seq<Step>, more: seq<Step>, id: nat)
    requires Deployment(fleet, limit, before) && Deployment(fleet, limit, more)
    requires id in Run(EMPTY, before).rows
    requires Run(EMPTY, before).rows[id].event.state in {Acknowledged, DeadLetter}
    ensures id in Run(EMPTY, before + more).rows
    ensures Run(EMPTY, before + more).rows[id] == Run(EMPTY, before).rows[id]
  {
    Continuation(fleet, limit, before, more, id);
  }

  /** An acknowledgement is the outcome of the last handler call, finalized inside its lease. */
  lemma AcknowledgedMeansHandled(fleet: set<Config>, limit: int, steps: seq<Step>, id: nat)
    requires Deployment(fleet, limit, steps) && id in Run(EMPTY, steps).rows
    requires Run(EMPTY, steps).rows[id].event.state == Acknowledged
    ensures var c := Run(EMPTY, steps).rows[id];
            && |c.calls| > 0 && c.calls[|c.calls| - 1] == c.event.generation
            && c.event.generation in c.attempts && c.attempts[c.event.generation].stage.CompletedStage?
            && c.attempts[c.event.generation].stage.outcome.completedAt < c.attempts[c.event.generation].claim.expiresAt
  {
    Reachable(fleet, limit, steps);
    var c := Run(EMPTY, steps).rows[id];
    assert c.event.generation in c.calls;
    LargestIsLast(c.calls, c.event.generation);
  }

  lemma LargestIsLast(calls: seq<int>, g: int)
    requires g in calls && forall k :: k in calls ==> k <= g
    requires forall i, j :: 0 <= i < j < |calls| ==> calls[i] < calls[j]
    ensures calls != [] && calls[|calls| - 1] == g
  {
    var k :| 0 <= k < |calls| && calls[k] == g;
    assert calls[|calls| - 1] in calls;
    assert calls[k] <= calls[|calls| - 1];
  }

  /** Once an invocation is recorded as unknown and no worker declares its handler replay-safe,
      the event is dead-lettered and every continuation leaves it exactly as it is. */
  lemma UnknownEndsDelivery(fleet: set<Config>, limit: int, before: seq<Step>, more: seq<Step>, id: nat, g: int)
    requires Deployment(fleet, limit, before) && Deployment(fleet, limit, more)
    requires id in Run(EMPTY, before).rows
    requires var c := Run(EMPTY, before).rows[id];
             && !ReplaySafeSomewhere(fleet, c.event.kind)
             && g in c.attempts && c.attempts[g].stage.CompletedStage? && c.attempts[g].stage.outcome.invocationUnknown
    ensures Run(EMPTY, before).rows[id].event.state == DeadLetter
    ensures g == Run(EMPTY, before).rows[id].event.generation
    ensures id in Run(EMPTY, before + more).rows
    ensures Run(EMPTY, before + more).rows[id] == Run(EMPTY, before).rows[id]
  {
    Reachable(fleet, limit, before);
    Continuation(fleet, limit, before, more, id);
  }

  // ----- fencing -----

  /** The claim a worker holds is the lease the row records right now. */
  predicate CurrentLease(s: State, claim: Claim) {
    && Visible(s, claim.eventId, claim.project)
    && MatchesEvent(s.rows[claim.eventId].event, claim.eventId, claim)
  }

  /** An invocation takes effect exactly for the current, unexpired, not yet invoked lease of a
      registered event: the payload check never refuses one, and every other claim changes nothing. */
  lemma InvocationFenced(fleet: set<Config>, limit: int, steps: seq<Step>, cfg: Config, claim: Claim,
                         now: Time, later: Time, allowed: bool)
    requires Deployment(fleet, limit, steps)
    ensures var s := Run(EMPTY, steps);
            Apply(s, Invoke(cfg, claim, now, later, allowed)) != s <==>
            && CurrentLease(s, claim)
            && claim.generation in s.rows[claim.eventId].attempts
            && s.rows[claim.eventId].attempts[claim.generation].stage.ClaimedStage?
            && now < claim.expiresAt && later < claim.expiresAt
            && s.rows[claim.eventId].event.kind in cfg.registered && allowed
  {
    Reachable(fleet, limit, steps);
    var s := Run(EMPTY, steps);
    if CurrentLease(s, claim) {
      var c := s.rows[claim.eventId];
      var r := BeginInvocation(c, cfg, claim, now, later, allowed);
      if r.Some? {
        assert r.value.calls != c.calls;
        assert s.rows[claim.eventId := r.value][claim.eventId] != s.rows[claim.eventId];
      }
    }
  }

  /** A proposed lease is taken exactly when its generation is still the next one, the row is due
      and the lease unexpired by the locked clock, and the authority allows it: of the other checks
      made under the lock none ever refuses. */
  lemma ClaimFenced(fleet: set<Config>, limit: int, steps: seq<Step>, claim: Claim, now: Time, later: Time, allowed: bool)
    requires Deployment(fleet, limit, steps)
    ensures var s := Run(EMPTY, steps);
            var t := Apply(s, WriteClaim(claim, now, later, allowed));
            && (t != s <==>
                && claim in s.proposals && claim.eventId in s.rows
                && claim.generation == s.rows[claim.eventId].event.generation + 1
                && s.rows[claim.eventId].event.nextAttemptAt.Some?
                && s.rows[claim.eventId].event.nextAttemptAt.value <= now < claim.expiresAt
                && later < claim.expiresAt && allowed)
            && (t != s ==> CurrentLease(t, claim))
  {
    Reachable(fleet, limit, steps);
    var s := Run(EMPTY, steps);
    if claim in s.proposals {
      assert ProposalBound(s.rows, claim);
      var c := s.rows[claim.eventId];
      var r := CommitClaim(c, claim, now, later, allowed);
      if r.Some? {
        assert r.value.event.generation != c.event.generation;
        assert s.rows[claim.eventId := r.value][claim.eventId] != s.rows[claim.eventId];
      }
    }
  }

  /** The completed attempt of `claim` in `c` carries exactly the receipt's outcome. */
  ghost predicate Carries(c: Custody, claim: Claim, receipt: Receipt) {
    && receipt.claim == claim
    && claim.generation in c.attempts && c.attempts[claim.generation].claim == claim
    && c.attempts[claim.generation].stage == CompletedStage(receipt.outcome.invokedAt, receipt.outcome)
  }

  /** What a receipt must be to end a lease: the outcome of its cause at a time already past, and
      committed before the expiry it claims to precede. */
  predicate Due(c: Custody, cfg: Config, receipt: Receipt, cause: Cause, now: Time, later: Time)
    requires receipt.claim.generation >= 1 && receipt.claim.generation in c.attempts
  {
    var claim, completed := receipt.claim, receipt.outcome.completedAt;
    && completed <= now && (completed < claim.expiresAt ==> now < claim.expiresAt && later < claim.expiresAt)
    && OutcomeOf(claim, c.attempts[claim.generation].InvokedAt(), cause, completed, cfg.OptionsFor(c.event.kind),
                 c.event.kind in cfg.replaySafe) == Some(receipt.outcome)
  }

  /** A finalization changes the database exactly for the current lease and a due receipt, and then
      it completes that lease with the receipt's outcome. */
  lemma FinalizationFenced(fleet: set<Config>, limit: int, steps: seq<Step>, cfg: Config, receipt: Receipt,
                           cause: Cause, now: Time, later: Time, allowed: bool)
    requires Deployment(fleet, limit, steps)
    ensures var s := Run(EMPTY, steps);
            var t := Apply(s, Finalize(cfg, receipt, cause, now, later, allowed));
            var claim := receipt.claim;
            && (CurrentLease(s, claim) ==> claim.generation >= 1 && claim.generation in s.rows[claim.eventId].attempts)
            && (t != s <==> CurrentLease(s, claim) && allowed && Due(s.rows[claim.eventId], cfg, receipt, cause, now, later))
            && (t != s ==>
                  && claim.eventId in t.rows && Carries(t.rows[claim.eventId], claim, receipt)
                  && t.rows[claim.eventId].event.state == receipt.outcome.state && !CurrentLease(t, claim))
  {
    Reachable(fleet, limit, steps);
    var s := Run(EMPTY, steps);
    if Visible(s, receipt.claim.eventId, receipt.claim.project) {
      FinalizeTakes(fleet, s.rows[receipt.claim.eventId], cfg, receipt, cause, now, later, allowed);
    }
  }

  lemma FinalizeTakes(fleet: set<Config>, c: Custody, cfg: Config, receipt: Receipt, cause: Cause,
                      now: Time, later: Time, allowed: bool)
    requires CustodyInv(fleet, receipt.claim.eventId, c)
    ensures var r := CommitFinalize(c, cfg, receipt, cause, now, later, allowed);
            var claim := receipt.claim;
            && (MatchesEvent(c.event, claim.eventId, claim) ==> claim.generation >= 1 && claim.generation in c.attempts)
            && (r.Committed? <==> MatchesEvent(c.event, claim.eventId, claim) && allowed && Due(c, cfg, receipt, cause, now, later))
            && (r.Committed? ==>
                  && r.custody != c && Carries(r.custody, claim, receipt)
                  && r.custody.event.state == receipt.outcome.state && r.custody.event.lease.None?)
  {
    if receipt.claim.Valid() && receipt.claim.generation in c.attempts {
      OutcomeMeaning(receipt.claim, c.attempts[receipt.claim.generation].InvokedAt(), cause, receipt.outcome.completedAt,
                     cfg.OptionsFor(c.event.kind), c.event.kind in cfg.replaySafe);
    }
  }

  // ----- replayed finalizations -----

  /** The whole `finalize` call: an unlocked read of `c0`, a locked attempt on `c1`, and one
      repeat on `c2` when a competitor completed the lease in between. */
  function FinalizeCall(c0: Custody, c1: Custody, c2: Custody, cfg: Config, claim: Claim, cause: Cause,
                        now0: Time, now1: Time, later1: Time, now2: Time, later2: Time,
                        allowed: bool): Finalization
  {
    if || !claim.Valid() || claim.generation !in c0.attempts || c0.attempts[claim.generation].claim != claim
    then Unavailable else
    var attempt := c0.attempts[claim.generation];
    var options := cfg.OptionsFor(c0.event.kind);
    var retryUnknown := c0.event.kind in cfg.replaySafe;
    var now := if attempt.stage.CompletedStage? then attempt.stage.outcome.completedAt else now0;
    var value := OutcomeOf(claim, attempt.InvokedAt(), cause, now, options, retryUnknown);
    if value.None? then Unavailable else
    var first := CommitFinalize(c1, cfg, Receipt(claim, value.value), cause, now1, later1, allowed);
    if !first.CompletedMeanwhile? then first else
    var expected := OutcomeOf(claim, attempt.InvokedAt(), cause, first.receipt.outcome.completedAt, options, retryUnknown);
    RepeatOnce(expected, first.receipt, c2, cfg, cause, now2, later2, allowed)
  }

  /** The repeat, made only if the competitor's outcome is the one expected at its time. */
  function RepeatOnce(expected: Option<Outcome>, receipt: Receipt, c2: Custody, cfg: Config, cause: Cause,
                      now2: Time, later2: Time, allowed: bool): Finalization
  {
    if expected != Some(receipt.outcome) then Unavailable
    else CommitFinalize(c2, cfg, receipt, cause, now2, later2, allowed)
  }

  /** A completed attempt's outcome repeats when it was invoked. */
  ghost predicate Consistent(c: Custody) {
    forall g :: g in c.attempts && c.attempts[g].stage.CompletedStage? ==>
      c.attempts[g].stage.invokedAt == c.attempts[g].stage.outcome.invokedAt
  }

  lemma CommitReports(c: Custody, cfg: Config, receipt: Receipt, cause: Cause, now: Time, later: Time, allowed: bool)
    requires Consistent(c)
    ensures var r := CommitFinalize(c, cfg, receipt, cause, now, later, allowed);
            && (r.Replayed? || r.CompletedMeanwhile? ==> Carries(c, receipt.claim, r.receipt))
            && (r.Replayed? ==> r.receipt == receipt)
            && (r.Committed? ==> r.receipt == receipt && Carries(r.custody, receipt.claim, receipt))
  {
    var claim := receipt.claim;
    if claim.Valid() && claim.generation in c.attempts {
      OutcomeMeaning(claim, c.attempts[claim.generation].InvokedAt(), cause, receipt.outcome.completedAt,
                     cfg.OptionsFor(c.event.kind), c.event.kind in cfg.replaySafe);
    }
  }

  lemma RepeatReplays(c: Custody, d: Custody, cfg: Config, receipt: Receipt, cause: Cause,
                      now: Time, later: Time, allowed: bool)
    requires Carries(c, receipt.claim, receipt) && Later(c, d)
    ensures var r := CommitFinalize(d, cfg, receipt, cause, now, later, allowed);
            r == Unavailable || r == Replayed(receipt)
    ensures Carries(d, receipt.claim, receipt)
  {
  }

  lemma CallReports(c0: Custody, c1: Custody, c2: Custody, cfg: Config, claim: Claim, cause: Cause,
                    now0: Time, now1: Time, later1: Time, now2: Time, later2: Time, allowed: bool)
    requires Consistent(c1) && Later(c1, c2)
    ensures var r := FinalizeCall(c0, c1, c2, cfg, claim, cause, now0, now1, later1, now2, later2, allowed);
            && !r.CompletedMeanwhile?
            && (r.Replayed? ==> Carries(c2, claim, r.receipt))
            && (r.Committed? ==> Carries(r.custody, claim, r.receipt))
  {
    if claim.Valid() && claim.generation in c0.attempts && c0.attempts[claim.generation].claim == claim {
      var attempt := c0.attempts[claim.generation];
      var now := if attempt.stage.CompletedStage? then attempt.stage.outcome.completedAt else now0;
      var value := OutcomeOf(claim, attempt.InvokedAt(), cause, now, cfg.OptionsFor(c0.event.kind), c0.event.kind in cfg.replaySafe);
      if value.Some? {
        var receipt := Receipt(claim, value.value);
        CommitReports(c1, cfg, receipt, cause, now1, later1, allowed);
        var first := CommitFinalize(c1, cfg, receipt, cause, now1, later1, allowed);
        if first.CompletedMeanwhile? || first.Replayed? {
          RepeatReplays(c1, c2, cfg, first.receipt, cause, now2, later2, allowed);
        }
      }
    }
  }

  /** A successful finalization always reports the outcome the lease durably carries, whichever
      worker wrote it; so all successful finalizations of one lease report one receipt. */
  lemma OneReceiptPerLease(fleet: set<Config>, limit: int, before: seq<Step>, mid: seq<Step>, after: seq<Step>,
                           id: nat, cfg: Config, claim: Claim, cause: Cause,
                           now0: Time, now1: Time, later1: Time, now2: Time, later2: Time, allowed: bool)
    requires Deployment(fleet, limit, before) && Deployment(fleet, limit, mid) && Deployment(fleet, limit, after)
    requires id in Run(EMPTY, before).rows && claim.eventId == id
    ensures id in Run(EMPTY, before + mid).rows && id in Run(EMPTY, before + mid + after).rows
    ensures var c2 := Run(EMPTY, before + mid + after).rows[id];
            var r := FinalizeCall(Run(EMPTY, before).rows[id], Run(EMPTY, before + mid).rows[id], c2,
                                  cfg, claim, cause, now0, now1, later1, now2, later2, allowed);
            && !r.CompletedMeanwhile?
            && (r.Replayed? ==> Carries(c2, claim, r.receipt))
            && (r.Committed? ==> Carries(r.custody, claim, r.receipt))
  {
    Continuation(fleet, limit, before, mid, id);
    FromFleetConcat(fleet, before, mid);
    Continuation(fleet, limit, before + mid, after, id);
    Reachable(fleet, limit, before + mid);
    CallReports(Run(EMPTY, before).rows[id], Run(EMPTY, before + mid).rows[id],
                Run(EMPTY, before + mid + after).rows[id],
                cfg, claim, cause, now0, now1, later1, now2, later2, allowed);
  }

  lemma FromFleetConcat(fleet: set<Config>, a: seq<Step>, b: seq<Step>)
    requires FromFleet(fleet, a) && FromFleet(fleet, b)
    ensures FromFleet(fleet, a + b)
  {
  }

  /** A finalization repeated after the lease completed writes nothing, and answers with the
      stored receipt exactly when its cause yields that receipt at the stored completion time. */
  lemma FinalizeReplays(fleet: set<Config>, limit: int, before: seq<Step>, mid: seq<Step>, after: seq<Step>,
                        id: nat, cfg: Config, claim: Claim, cause: Cause,
                        now0: Time, now1: Time, later1: Time, now2: Time, later2: Time)
    requires Deployment(fleet, limit, before) && Deployment(fleet, limit, mid) && Deployment(fleet, limit, after)
    requires id in Run(EMPTY, before).rows
    requires claim.generation in Run(EMPTY, before).rows[id].attempts
    requires var a := Run(EMPTY, before).rows[id].attempts[claim.generation]; a.claim == claim && a.stage.CompletedStage?
    ensures id in Run(EMPTY, before + mid).rows && id in Run(EMPTY, before + mid + after).rows
    ensures claim.generation >= 1
    ensures var c0 := Run(EMPTY, before).rows[id];
            var stored := c0.attempts[claim.generation].stage.outcome;
            var r := FinalizeCall(c0, Run(EMPTY, before + mid).rows[id], Run(EMPTY, before + mid + after).rows[id],
                                  cfg, claim, cause, now0, now1, later1, now2, later2, true);
            && !r.Committed?
            && (r == Replayed(Receipt(claim, stored)) <==>
                OutcomeOf(claim, stored.invokedAt, cause, stored.completedAt,
                          cfg.OptionsFor(c0.event.kind), c0.event.kind in cfg.replaySafe) == Some(stored))
            && (r.Replayed? || r == Unavailable)
  {
    Reachable(fleet, limit, before);
    Continuation(fleet, limit, before, mid, id);
    FromFleetConcat(fleet, before, mid);
    Continuation(fleet, limit, before + mid, after, id);
    CompletedReplays(fleet, id, Run(EMPTY, before).rows[id], Run(EMPTY, before + mid).rows[id],
                     Run(EMPTY, before + mid + after).rows[id],
                     cfg, claim, cause, now0, now1, later1, now2, later2);
  }

  lemma CompletedReplays(fleet: set<Config>, id: nat, c0: Custody, c1: Custody, c2: Custody, cfg: Config, claim: Claim,
                         cause: Cause, now0: Time, now1: Time, later1: Time, now2: Time, later2: Time)
    requires CustodyInv(fleet, id, c0) && Later(c0, c1) && Later(c1, c2)
    requires claim.generation in c0.attempts
    requires c0.attempts[claim.generation].claim == claim && c0.attempts[claim.generation].stage.CompletedStage?
    ensures claim.Valid()
    ensures var stored := c0.attempts[claim.generation].stage.outcome;
            var r := FinalizeCall(c0, c1, c2, cfg, claim, cause, now0, now1, later1, now2, later2, true);
            && !r.Committed?
            && (r == Replayed(Receipt(claim, stored)) <==>
                OutcomeOf(claim, stored.invokedAt, cause, stored.completedAt,
                          cfg.OptionsFor(c0.event.kind), c0.event.kind in cfg.replaySafe) == Some(stored))
            && (r.Replayed? || r == Unavailable)
  {
    assert c2.attempts[claim.generation] == c1.attempts[claim.generation] == c0.attempts[claim.generation];
  }

  // ----- recovery and the bound on work -----

  /** The claim rebuilt from a claimed row's columns. */
  function ClaimOfRow(id: nat, event: Event): Claim
    requires event.lease.Some?
  {
    Claim(id, event.project, event.payloadDigest, event.generation,
          event.lease.value.owner, event.lease.value.claimedAt, event.lease.value.expiresAt)
  }

  /** Recovery of an expired lease, with arbitrary steps between its snapshot and its locks, ends the
      lease exactly when nobody wrote its attempt meanwhile; whoever did has completed it, or has
      invoked it by a clock that was behind. An unfinished invocation is recorded as unknown. */
  lemma ExpiredLeaseRecovers(fleet: set<Config>, limit: int, before: seq<Step>, mid: seq<Step>, after: seq<Step>, id: nat,
                             cfg: Config, now: Time, locked: Time, later: Time, locked2: Time, later2: Time)
    requires Deployment(fleet, limit, before) && Deployment(fleet, limit, mid) && Deployment(fleet, limit, after)
    requires id in Run(EMPTY, before).rows && Run(EMPTY, before).rows[id].event.state == Claimed
    ensures id in Run(EMPTY, before + mid).rows && id in Run(EMPTY, before + mid + after).rows
    ensures Run(EMPTY, before).rows[id].event.lease.Some?
    ensures Recovers(Run(EMPTY, before).rows[id], Run(EMPTY, before + mid).rows[id], Run(EMPTY, before + mid + after).rows[id],
                     id, cfg, now, locked, later, locked2, later2)
  {
    Reachable(fleet, limit, before);
    Continuation(fleet, limit, before, mid, id);
    FromFleetConcat(fleet, before, mid);
    Reachable(fleet, limit, before + mid);
    Continuation(fleet, limit, before + mid, after, id);
    RecoveryEnds(fleet, Run(EMPTY, before).rows[id], Run(EMPTY, before + mid).rows[id], Run(EMPTY, before + mid + after).rows[id],
                 id, cfg, now, locked, later, locked2, later2);
  }

  ghost predicate Recovers(c0: Custody, c1: Custody, c2: Custody, id: nat, cfg: Config,
                           now: Time, locked: Time, later: Time, locked2: Time, later2: Time)
    requires c0.event.lease.Some?
  {
    var claim, g := ClaimOfRow(id, c0.event), c0.event.generation;
    && g in c0.attempts && g in c1.attempts
    && (claim.expiresAt <= now <= locked ==>
          var r := FinalizeCall(c0, c1, c2, cfg, claim, Expired, now, locked, later, locked2, later2, true);
          && (r.Committed? <==> c1.attempts[g] == c0.attempts[g])
          && (r.Committed? ==>
                r.custody.event.state in {Retryable, DeadLetter} && r.receipt.outcome.invocationUnknown == (g in c0.calls)))
    && (c1.attempts[g] != c0.attempts[g] ==>
          c1.attempts[g].stage.CompletedStage? || (c0.attempts[g].stage.ClaimedStage? && c1.attempts[g].stage.InvokedStage?))
  }

  lemma RecoveryEnds(fleet: set<Config>, c0: Custody, c1: Custody, c2: Custody, id: nat, cfg: Config,
                     now: Time, locked: Time, later: Time, locked2: Time, later2: Time)
    requires CustodyInv(fleet, id, c0) && CustodyInv(fleet, id, c1) && Later(c0, c1) && Later(c1, c2)
    requires c0.event.state == Claimed
    ensures c0.event.lease.Some? && Recovers(c0, c1, c2, id, cfg, now, locked, later, locked2, later2)
  {
    var g := c0.event.generation;
    assert MatchesEvent(c0.event, id, c0.attempts[g].claim);
    var claim := ClaimOfRow(id, c0.event);
    assert c0.attempts[g].claim == claim && c1.attempts[g].claim == claim;
    if claim.expiresAt <= now <= locked {
      var o := OutcomeOf(claim, c0.attempts[g].InvokedAt(), Expired, now, cfg.OptionsFor(c0.event.kind), c0.event.kind in cfg.replaySafe);
      OutcomeMeaning(claim, c0.attempts[g].InvokedAt(), Expired, now, cfg.OptionsFor(c0.event.kind), c0.event.kind in cfg.replaySafe);
      RecoveryTakes(fleet, id, c1, cfg, Receipt(claim, o.value), locked, later);
    }
  }

  /** An expiry receipt for a lease is committed exactly if the attempt is unfinished and was invoked when the receipt says. */
  lemma RecoveryTakes(fleet: set<Config>, id: nat, c: Custody, cfg: Config, receipt: Receipt, now: Time, later: Time)
    requires CustodyInv(fleet, id, c) && receipt.claim.generation in c.attempts && c.attempts[receipt.claim.generation].claim == receipt.claim
    requires receipt.claim.expiresAt <= receipt.outcome.completedAt <= now
    requires OutcomeOf(receipt.claim, receipt.outcome.invokedAt, Expired, receipt.outcome.completedAt,
                       cfg.OptionsFor(c.event.kind), c.event.kind in cfg.replaySafe) == Some(receipt.outcome)
    ensures var attempt := c.attempts[receipt.claim.generation];
            CommitFinalize(c, cfg, receipt, Expired, now, later, true).Committed? <==>
            !attempt.stage.CompletedStage? && attempt.InvokedAt() == receipt.outcome.invokedAt
  {
    var attempt := c.attempts[receipt.claim.generation];
    OutcomeMeaning(receipt.claim, attempt.InvokedAt(), Expired, receipt.outcome.completedAt,
                   cfg.OptionsFor(c.event.kind), c.event.kind in cfg.replaySafe);
  }

  /** How far an event has come: three steps per generation. */
  function Rank(s: State, id: nat): int {
    if id !in s.rows then 0 else
    var c := s.rows[id];
    1 + 3 * c.event.generation - (if c.event.state != Claimed then 0
                                  else if c.event.generation in c.attempts && c.attempts[c.event.generation].stage.ClaimedStage? then 2
                                  else 1)
  }

  predicate Touches(s: State, step: Step, id: nat) {
    id in Apply(s, step).rows && (id !in s.rows || Apply(s, step).rows[id] != s.rows[id])
  }

  /** How many steps of the run changed the rows of the event. */
  function Work(s: State, steps: seq<Step>, id: nat): nat
    decreases |steps|
  {
    if steps == [] then 0 else
    var before := steps[..|steps| - 1];
    Work(s, before, id) + (if Touches(Run(s, before), steps[|steps| - 1], id) then 1 else 0)
  }

  lemma TouchRaisesRank(fleet: set<Config>, s: State, step: Step, id: nat)
    requires id in s.rows ==> CustodyInv(fleet, id, s.rows[id])
    ensures Rank(Apply(s, step), id) >= Rank(s, id) + (if Touches(s, step, id) then 1 else 0)
  {
    if id in s.rows {
      match step
      case Append(_, _, _, _, _) =>
      case ReadClaim(_, _, _, _, _) =>
      case WriteClaim(claim, now, later, allowed) =>
      case Invoke(cfg, claim, now, later, allowed) =>
      case Finalize(cfg, receipt, cause, now, later, allowed) =>
        if Touches(s, step, id) { FinalizeEnds(fleet, id, s.rows[id], cfg, receipt, cause, now, later, allowed); }
    }
  }

  /** A committed finalization leaves the generation and ends the claim. */
  lemma FinalizeEnds(fleet: set<Config>, id: nat, c: Custody, cfg: Config, receipt: Receipt, cause: Cause,
                     now: Time, later: Time, allowed: bool)
    requires CustodyInv(fleet, id, c)
    ensures var r := CommitFinalize(c, cfg, receipt, cause, now, later, allowed);
            r.Committed? ==> r.custody.event.generation == c.event.generation && r.custody.event.state != Claimed && c.event.state == Claimed
  {
    if receipt.claim.Valid() && receipt.claim.generation in c.attempts {
      OutcomeMeaning(receipt.claim, c.attempts[receipt.claim.generation].InvokedAt(), cause, receipt.outcome.completedAt,
                     cfg.OptionsFor(c.event.kind), c.event.kind in cfg.replaySafe);
    }
  }

  lemma {:induction false} WorkWithinRank(fleet: set<Config>, limit: int, steps: seq<Step>, id: nat)
    requires Deployment(fleet, limit, steps)
    ensures Work(EMPTY, steps, id) <= Rank(Run(EMPTY, steps), id)
    decreases |steps|
  {
    if steps != [] {
      var last := |steps| - 1;
      WorkWithinRank(fleet, limit, steps[..last], id);
      Reachable(fleet, limit, steps[..last]);
      TouchRaisesRank(fleet, Run(EMPTY, steps[..last]), steps[last], id);
    }
  }

  /** However long the run and however many workers retry, one event is written at most once
      at its creation and three times per allowed attempt. */
  lemma WorkBounded(fleet: set<Config>, limit: int, steps: seq<Step>, id: nat)
    requires Deployment(fleet, limit, steps)
    ensures Work(EMPTY, steps, id) <= 1 + 3 * limit
  {
    WorkWithinRank(fleet, limit, steps, id);
    Reachable(fleet, limit, steps);
  }
}
