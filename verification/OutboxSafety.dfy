/**
 Safety of every interleaving of outbox workers, and the bound on the work one event can cost.
 */
module OutboxSafety {
  import opened Wrappers
  import opened OutboxDelivery

  // ----- what an outcome can say -----

  /** What any outcome computed for a lease means. */
  ghost predicate Meaning(claim: Claim, invokedAt: Option<Time>, o: Outcome, retryUnknown: bool) {
    && o.invokedAt == invokedAt
    && o.state in {Retryable, Acknowledged, DeadLetter}
    && (o.state == Acknowledged <==> o.errorCode.None?)
    && (o.state == Acknowledged ==> invokedAt.Some? && o.completedAt < claim.expiresAt && !o.invocationUnknown)
    && (o.invocationUnknown ==> invokedAt.Some? && o.errorCode == Some(InvokeOutcomeUnknown))
    && (invokedAt.Some? && o.completedAt >= claim.expiresAt ==> o.invocationUnknown)
    && (invokedAt.None? ==> o.completedAt >= claim.expiresAt)
    && (o.state == Retryable <==> o.nextAttemptAt.Some?)
    && (o.state == Retryable <==> o.finalizedAt.None?)
    && (o.state == Retryable && o.invocationUnknown ==> retryUnknown)
    && (o.state == Retryable && invokedAt.Some? && !o.invocationUnknown ==> o.errorCode == Some(RetryRequested))
  }

  lemma OutcomeMeaning(claim: Claim, invokedAt: Option<Time>, cause: Cause, now: Time,
                       options: DeliveryOptions, retryUnknown: bool)
    requires claim.generation >= 1
    ensures var o := OutcomeOf(claim, invokedAt, cause, now, options, retryUnknown);
            o.Some? ==> Meaning(claim, invokedAt, o.value, retryUnknown) && o.value.completedAt == now
  {
  }

  /** Which outcome a cause gives, and when it gives none. */
  lemma OutcomeExactly(claim: Claim, invokedAt: Option<Time>, cause: Cause, now: Time,
                       options: DeliveryOptions, retryUnknown: bool)
    requires claim.generation >= 1
    ensures var o := OutcomeOf(claim, invokedAt, cause, now, options, retryUnknown);
            var expired := claim.expiresAt <= now;
            && (o.None? <==> (cause == Expired && !expired) || (invokedAt.None? && cause != Expired))
            && (o.Some? ==>
                  && (o.value.invocationUnknown <==> invokedAt.Some? && (expired || cause == Unknown))
                  && (o.value.state == Acknowledged <==> invokedAt.Some? && !expired && cause == Acknowledge)
                  && (o.value.state == Retryable <==>
                        && claim.generation < options.maxAttempts
                        && (if o.value.invocationUnknown then retryUnknown else cause in {Retry, Expired})))
  {
  }

  lemma {:induction false} Pow2Monotone(m: nat, n: nat)
    requires m <= n
    ensures Pow2(m) <= Pow2(n)
    decreases n
  {
    if m < n { Pow2Monotone(m, n - 1); }
  }

  lemma TimesMonotone(base: int, m: int, n: int)
    requires base >= 1 && 1 <= m <= n
    ensures base <= base * m <= base * n
  {
  }

  /** Retry delays lie between the base and the cap and never shrink from one generation
      to a later one. */
  lemma BackoffBounded(options: DeliveryOptions, g: int, h: int)
    requires options.Valid() && 1 <= g <= h
    ensures options.retryBaseSeconds <= BackoffSeconds(options, g) <= BackoffSeconds(options, h) <= options.retryCapSeconds
  {
    var m, n := Pow2(Min(g - 1, 30)), Pow2(Min(h - 1, 30));
    assert m <= n by { Pow2Monotone(Min(g - 1, 30), Min(h - 1, 30)); }
    TimesMonotone(options.retryBaseSeconds, m, n);
  }

  // ----- the invariant of every reachable state -----

  ghost predicate ReplaySafeSomewhere(fleet: set<Config>, kind: Kind) {
    exists cfg :: cfg in fleet && kind in cfg.replaySafe
  }

  ghost predicate RetriesLeftSomewhere(fleet: set<Config>, kind: Kind, generation: int) {
    exists cfg :: cfg in fleet && generation < cfg.OptionsFor(kind).maxAttempts
  }

  /** A retry is due one backoff delay, of some worker's options, after the completion. */
  ghost predicate DueAfterBackoff(fleet: set<Config>, kind: Kind, g: int, completedAt: Time, due: Option<Time>) {
    g >= 1 && exists cfg :: cfg in fleet && due == Some(completedAt + BackoffSeconds(cfg.OptionsFor(kind), g) * SECOND)
  }

  /** The attempt rows are exactly the generations so far, each bound to its event. */
  ghost predicate AttemptsBound(id: nat, c: Custody) {
    && (forall g :: g in c.attempts <==> 1 <= g <= c.event.generation)
    && (forall g :: g in c.attempts ==>
          var claim := c.attempts[g].claim;
          && claim.Valid()
          && claim.eventId == id && claim.generation == g
          && claim.project == c.event.project && claim.payloadDigest == c.event.payloadDigest)
    && c.event.payloadHash == c.event.payloadDigest
    && c.event.lastAttemptAt ==
       if c.event.generation == 0 then None else Some(c.attempts[c.event.generation].claim.claimedAt)
  }

  /** Every superseded attempt is completed and allowed a retry; the newest one agrees with the row. */
  ghost predicate StateBound(id: nat, c: Custody)
    requires AttemptsBound(id, c)
  {
    var g := c.event.generation;
    && (forall k :: k in c.attempts && k < g ==>
          c.attempts[k].stage.CompletedStage? && c.attempts[k].stage.outcome.state == Retryable)
    && match c.event.state
       case Pending => g == 0 && c.event.lease.None? && c.event.nextAttemptAt.Some?
       case Claimed =>
         && g >= 1 && !c.attempts[g].stage.CompletedStage?
         && MatchesEvent(c.event, id, c.attempts[g].claim)
       case _ =>
         && g >= 1 && c.attempts[g].stage.CompletedStage? && c.event.lease.None?
         && var o := c.attempts[g].stage.outcome;
         && o.state == c.event.state && o.errorCode == c.event.lastError
         && o.nextAttemptAt == c.event.nextAttemptAt && o.finalizedAt == c.event.finalizedAt
  }

  ghost predicate AttemptMeant(fleet: set<Config>, kind: Kind, g: int, attempt: Attempt) {
    match attempt.stage
    case ClaimedStage => true
    case InvokedStage(at) => at < attempt.claim.expiresAt
    case CompletedStage(invokedAt, o) =>
      && (invokedAt.Some? ==> invokedAt.value < attempt.claim.expiresAt)
      && (o.state == Retryable ==>
            && RetriesLeftSomewhere(fleet, kind, g)
            && DueAfterBackoff(fleet, kind, g, o.completedAt, o.nextAttemptAt))
      && Meaning(attempt.claim, invokedAt, o, ReplaySafeSomewhere(fleet, kind))
  }

  ghost predicate OutcomesMeant(fleet: set<Config>, c: Custody) {
    forall g :: g in c.attempts ==> AttemptMeant(fleet, c.event.kind, g, c.attempts[g])
  }

  /** The handler calls are the invoked generations, once each and in order. */
  ghost predicate CallsBound(c: Custody) {
    var g := c.event.generation;
    && (forall i, j :: 0 <= i < j < |c.calls| ==> c.calls[i] < c.calls[j])
    && (forall k :: k in c.calls <==> k in c.attempts && c.attempts[k].InvokedAt().Some?)
    && |c.calls| <= g
    && (g in c.attempts && c.attempts[g].stage.ClaimedStage? ==> |c.calls| < g)
  }

  /** No attempt was claimed before the retry it follows was due. */
  ghost predicate Spaced(c: Custody) {
    forall g, h :: g in c.attempts && h in c.attempts && h == g + 1 ==> Follows(c.attempts[g], c.attempts[h])
  }

  predicate Follows(earlier: Attempt, next: Attempt) {
    && earlier.stage.CompletedStage? && earlier.stage.outcome.nextAttemptAt.Some?
    && earlier.stage.outcome.nextAttemptAt.value <= next.claim.claimedAt
  }

  ghost predicate CustodyInv(fleet: set<Config>, id: nat, c: Custody) {
    && AttemptsBound(id, c)
    && StateBound(id, c)
    && OutcomesMeant(fleet, c)
    && CallsBound(c)
    && Spaced(c)
  }

  predicate Open(event: Event) { event.state == Pending || event.state == Retryable }

  /** A proposed lease is for a generation the row has reached or for its next one, and then the
      row still waits and was due when the lease was proposed. */
  ghost predicate ProposalBound(rows: map<nat, Custody>, claim: Claim) {
    && claim.eventId in rows
    && var e := rows[claim.eventId].event;
    && claim.project == e.project && claim.payloadDigest == e.payloadDigest
    && claim.generation <= e.generation + 1
    && (claim.generation == e.generation + 1 ==>
          Open(e) && e.nextAttemptAt.Some? && e.nextAttemptAt.value <= claim.claimedAt)
  }

  ghost predicate Inv(fleet: set<Config>, limit: int, s: State) {
    && (forall id :: id in s.rows ==> CustodyInv(fleet, id, s.rows[id]) && s.rows[id].event.generation <= limit)
    && (forall claim :: claim in s.proposals ==> claim.Valid() && claim.generation <= limit && ProposalBound(s.rows, claim))
  }

  /** No worker of the fleet allows more than `limit` attempts for any kind of event. */
  ghost predicate AttemptLimit(fleet: set<Config>, limit: int) {
    && 0 <= limit
    && forall cfg, kind :: cfg in fleet ==> cfg.OptionsFor(kind).maxAttempts <= limit
  }

  lemma ClaimKeepsInv(fleet: set<Config>, id: nat, c: Custody, claim: Claim, now: Time, later: Time, allowed: bool)
    requires CustodyInv(fleet, id, c) && claim.Valid() && claim.eventId == id && claim.project == c.event.project
    requires c.event.nextAttemptAt.Some? && c.event.nextAttemptAt.value <= claim.claimedAt
    ensures var r := CommitClaim(c, claim, now, later, allowed); r.Some? ==> CustodyInv(fleet, id, r.value)
  {
    var r := CommitClaim(c, claim, now, later, allowed);
    if r.Some? { NewAttemptKeepsInv(fleet, id, c, claim, r.value); }
  }

  /** Adding the next attempt to a waiting row that is due keeps the invariant. */
  lemma NewAttemptKeepsInv(fleet: set<Config>, id: nat, c: Custody, claim: Claim, d: Custody)
    requires CustodyInv(fleet, id, c) && Open(c.event) && claim.Valid()
    requires claim.eventId == id && claim.project == c.event.project && claim.payloadDigest == c.event.payloadDigest
    requires claim.generation == c.event.generation + 1
    requires c.event.nextAttemptAt.Some? && c.event.nextAttemptAt.value <= claim.claimedAt
    requires d == Custody(
                    c.event.(state := Claimed, generation := claim.generation,
                             lease := Some(Lease(claim.owner, claim.claimedAt, claim.expiresAt)),
                             lastAttemptAt := Some(claim.claimedAt), nextAttemptAt := None),
                    c.attempts[claim.generation := Attempt(claim, ClaimedStage)], c.calls)
    ensures CustodyInv(fleet, id, d)
  {
    assert AttemptsBound(id, d) && StateBound(id, d);
    assert Spaced(d) by {
      if c.event.generation >= 1 { assert Follows(d.attempts[c.event.generation], d.attempts[claim.generation]); }
    }
  }

  lemma InvocationKeepsInv(fleet: set<Config>, id: nat, c: Custody, cfg: Config, claim: Claim,
                           now: Time, later: Time, allowed: bool)
    requires CustodyInv(fleet, id, c) && claim.eventId == id
    ensures var r := BeginInvocation(c, cfg, claim, now, later, allowed); r.Some? ==> CustodyInv(fleet, id, r.value)
  {
    var r := BeginInvocation(c, cfg, claim, now, later, allowed);
    if r.Some? {
      var d := r.value;
      assert forall k :: k in c.calls ==> k < claim.generation;
      forall i, j | 0 <= i < j < |d.calls| ensures d.calls[i] < d.calls[j] {
        assert c.calls[i] in c.calls;
      }
      forall k ensures k in d.calls <==> k in d.attempts && d.attempts[k].InvokedAt().Some? {
        assert k in d.calls <==> k in c.calls || k == claim.generation;
      }
    }
  }

  lemma FinalizeKeepsInv(fleet: set<Config>, id: nat, c: Custody, cfg: Config, receipt: Receipt, cause: Cause,
                         now: Time, later: Time, allowed: bool)
    requires CustodyInv(fleet, id, c) && cfg in fleet && receipt.claim.eventId == id
    ensures var r := CommitFinalize(c, cfg, receipt, cause, now, later, allowed);
            r.Committed? ==> CustodyInv(fleet, id, r.custody)
  {
    var r := CommitFinalize(c, cfg, receipt, cause, now, later, allowed);
    if r.Committed? {
      var claim, kind := receipt.claim, c.event.kind;
      var attempt := c.attempts[claim.generation];
      var options, safe := cfg.OptionsFor(kind), kind in cfg.replaySafe;
      OutcomeMeaning(claim, attempt.InvokedAt(), cause, receipt.outcome.completedAt, options, safe);
      RetryableHasRetries(claim, attempt.InvokedAt(), cause, receipt.outcome.completedAt, options, safe);
      CompletionKeepsInv(fleet, id, c, r.custody, receipt.outcome);
    }
  }

  lemma RetryableHasRetries(claim: Claim, invokedAt: Option<Time>, cause: Cause, now: Time,
                            options: DeliveryOptions, retryUnknown: bool)
    requires claim.generation >= 1
    ensures var o := OutcomeOf(claim, invokedAt, cause, now, options, retryUnknown);
            o.Some? && o.value.state == Retryable ==>
              && claim.generation < options.maxAttempts
              && o.value.nextAttemptAt == Some(o.value.completedAt + BackoffSeconds(options, claim.generation) * SECOND)
  {
  }

  /** Completing the newest attempt with an outcome that means what it says keeps the invariant. */
  lemma CompletionKeepsInv(fleet: set<Config>, id: nat, c: Custody, d: Custody, value: Outcome)
    requires CustodyInv(fleet, id, c) && c.event.state == Claimed
    requires var g := c.event.generation;
             var attempt := c.attempts[g];
             && Meaning(attempt.claim, attempt.InvokedAt(), value, ReplaySafeSomewhere(fleet, c.event.kind))
             && (value.state == Retryable ==>
                   && RetriesLeftSomewhere(fleet, c.event.kind, g)
                   && DueAfterBackoff(fleet, c.event.kind, g, value.completedAt, value.nextAttemptAt))
             && d == Custody(
                  c.event.(state := value.state, lastError := value.errorCode, nextAttemptAt := value.nextAttemptAt,
                           finalizedAt := value.finalizedAt, lease := None),
                  c.attempts[g := Attempt(attempt.claim, CompletedStage(attempt.InvokedAt(), value))], c.calls)
    ensures CustodyInv(fleet, id, d)
  {
    assert forall k :: k in d.attempts ==> d.attempts[k].InvokedAt() == c.attempts[k].InvokedAt();
  }

  /** A row keeps its envelope, and moves to its next generation or changes while it is not waiting. */
  ghost predicate Advances(s: State, id: nat, c: Custody) {
    id in s.rows ==>
      && c.event.project == s.rows[id].event.project && c.event.payloadDigest == s.rows[id].event.payloadDigest
      && (|| c.event == s.rows[id].event
      || c.event.generation == s.rows[id].event.generation + 1
      || (c.event.generation == s.rows[id].event.generation && !Open(s.rows[id].event)))
  }

  lemma RowKeepsInv(fleet: set<Config>, limit: int, s: State, id: nat, c: Custody)
    requires Inv(fleet, limit, s) && CustodyInv(fleet, id, c) && c.event.generation <= limit && Advances(s, id, c)
    ensures Inv(fleet, limit, s.(rows := s.rows[id := c]))
  {
    forall claim | claim in s.proposals ensures ProposalBound(s.rows[id := c], claim) {
      assert ProposalBound(s.rows, claim);
    }
  }

  lemma ProposalKeepsInv(fleet: set<Config>, limit: int, s: State, cfg: Config, id: nat, project: nat, owner: string, now: Time)
    requires Inv(fleet, limit, s) && AttemptLimit(fleet, limit) && cfg in fleet && cfg.Valid()
    ensures Inv(fleet, limit, Apply(s, ReadClaim(cfg, id, project, owner, now)))
  {
    if Visible(s, id, project) {
      assert cfg.OptionsFor(s.rows[id].event.kind).Valid();
      var proposal := ProposeClaim(s, cfg, id, project, owner, now);
      if proposal.Some? { assert ProposalBound(s.rows, proposal.value); }
    }
  }

  lemma WriteKeepsInv(fleet: set<Config>, limit: int, s: State, claim: Claim, now: Time, later: Time, allowed: bool)
    requires Inv(fleet, limit, s) && claim in s.proposals && Visible(s, claim.eventId, claim.project)
    ensures Inv(fleet, limit, Apply(s, WriteClaim(claim, now, later, allowed)))
  {
    var id := claim.eventId;
    var r := CommitClaim(s.rows[id], claim, now, later, allowed);
    if r.Some? {
      assert ProposalBound(s.rows, claim);
      ClaimKeepsInv(fleet, id, s.rows[id], claim, now, later, allowed);
      RowKeepsInv(fleet, limit, s, id, r.value);
    }
  }

  lemma EndKeepsInv(fleet: set<Config>, limit: int, s: State, cfg: Config, receipt: Receipt, cause: Cause,
                    now: Time, later: Time, allowed: bool)
    requires Inv(fleet, limit, s) && cfg in fleet && Visible(s, receipt.claim.eventId, receipt.claim.project)
    ensures Inv(fleet, limit, Apply(s, Finalize(cfg, receipt, cause, now, later, allowed)))
  {
    var id := receipt.claim.eventId;
    var r := CommitFinalize(s.rows[id], cfg, receipt, cause, now, later, allowed);
    FinalizeKeepsInv(fleet, id, s.rows[id], cfg, receipt, cause, now, later, allowed);
    if r.Committed? { RowKeepsInv(fleet, limit, s, id, r.custody); }
  }

  lemma StepKeepsInv(fleet: set<Config>, limit: int, s: State, step: Step)
    requires Inv(fleet, limit, s) && AttemptLimit(fleet, limit)
    requires FromFleet(fleet, [step])
    ensures Inv(fleet, limit, Apply(s, step))
  {
    assert StepFromFleet(fleet, [step][0]);
    match step
    case Append(id, project, kind, digest, dueAt) =>
      RowKeepsInv(fleet, limit, s, id, if id in s.rows then s.rows[id] else NewCustody(project, kind, digest, dueAt));
    case ReadClaim(cfg, id, project, owner, now) => ProposalKeepsInv(fleet, limit, s, cfg, id, project, owner, now);
    case WriteClaim(claim, now, later, allowed) =>
      if Visible(s, claim.eventId, claim.project) && claim in s.proposals {
        WriteKeepsInv(fleet, limit, s, claim, now, later, allowed);
      }
    case Invoke(cfg, claim, now, later, allowed) =>
      if Visible(s, claim.eventId, claim.project) {
        var id := claim.eventId;
        var r := BeginInvocation(s.rows[id], cfg, claim, now, later, allowed);
        InvocationKeepsInv(fleet, id, s.rows[id], cfg, claim, now, later, allowed);
        if r.Some? { RowKeepsInv(fleet, limit, s, id, r.value); }
      }
    case Finalize(cfg, receipt, cause, now, later, allowed) =>
      var id := receipt.claim.eventId;
      if Visible(s, id, receipt.claim.project) { EndKeepsInv(fleet, limit, s, cfg, receipt, cause, now, later, allowed); }
  }

  lemma {:induction false} RunKeepsInv(fleet: set<Config>, limit: int, s: State, steps: seq<Step>)
    requires Inv(fleet, limit, s) && AttemptLimit(fleet, limit) && FromFleet(fleet, steps)
    ensures Inv(fleet, limit, Run(s, steps))
    decreases |steps|
  {
    if steps != [] {
      var last := |steps| - 1;
      RunKeepsInv(fleet, limit, s, steps[..last]);
      assert StepFromFleet(fleet, steps[last]);
      StepKeepsInv(fleet, limit, Run(s, steps[..last]), steps[last]);
    }
  }

  lemma {:induction false} RunConcat(s: State, before: seq<Step>, more: seq<Step>)
    ensures Run(s, before + more) == Run(Run(s, before), more)
    decreases |more|
  {
    if more == [] {
      assert before + more == before;
    } else {
      var last := |more| - 1;
      RunConcat(s, before, more[..last]);
      assert (before + more)[..|before + more| - 1] == before + more[..last];
    }
  }

  // ----- what no later step undoes -----

  /** From one custody to a later one of the same event: the envelope is unchanged, completed
      attempts are frozen, an invoked attempt stays invoked, and a finalized event is frozen whole. */
  ghost predicate Later(c: Custody, d: Custody) {
    && d.event.project == c.event.project && d.event.kind == c.event.kind
    && d.event.payloadDigest == c.event.payloadDigest
    && c.event.generation <= d.event.generation
    && (forall g :: g in c.attempts ==>
          && g in d.attempts && d.attempts[g].claim == c.attempts[g].claim
          && (c.attempts[g].stage.CompletedStage? ==> d.attempts[g] == c.attempts[g])
          && (c.attempts[g].InvokedAt().Some? ==> d.attempts[g].InvokedAt() == c.attempts[g].InvokedAt()))
    && c.calls <= d.calls
    && (c.event.state in {Acknowledged, DeadLetter} ==> d == c)
  }

  lemma ClaimIsLater(fleet: set<Config>, id: nat, c: Custody, claim: Claim, now: Time, later: Time, allowed: bool)
    requires CustodyInv(fleet, id, c)
    ensures var r := CommitClaim(c, claim, now, later, allowed); r.Some? ==> Later(c, r.value)
  {
  }

  lemma InvocationIsLater(fleet: set<Config>, id: nat, c: Custody, cfg: Config, claim: Claim,
                          now: Time, later: Time, allowed: bool)
    requires CustodyInv(fleet, id, c)
    ensures var r := BeginInvocation(c, cfg, claim, now, later, allowed); r.Some? ==> Later(c, r.value)
  {
  }

  lemma FinalizeIsLater(fleet: set<Config>, id: nat, c: Custody, cfg: Config, receipt: Receipt, cause: Cause,
                        now: Time, later: Time, allowed: bool)
    requires CustodyInv(fleet, id, c)
    ensures var r := CommitFinalize(c, cfg, receipt, cause, now, later, allowed);
            r.Committed? ==> Later(c, r.custody)
  {
  }

  lemma StepIsLater(fleet: set<Config>, limit: int, s: State, step: Step, id: nat)
    requires Inv(fleet, limit, s) && id in s.rows
    ensures id in Apply(s, step).rows && Later(s.rows[id], Apply(s, step).rows[id])
  {
    var c := s.rows[id];
    assert Later(c, c);
    match step
    case Append(_, _, _, _, _) =>
    case ReadClaim(_, _, _, _, _) =>
    case WriteClaim(claim, now, later, allowed) => ClaimIsLater(fleet, id, c, claim, now, later, allowed);
    case Invoke(cfg, claim, now, later, allowed) => InvocationIsLater(fleet, id, c, cfg, claim, now, later, allowed);
    case Finalize(cfg, receipt, cause, now, later, allowed) =>
      FinalizeIsLater(fleet, id, c, cfg, receipt, cause, now, later, allowed);
  }

  lemma {:induction false} RunIsLater(fleet: set<Config>, limit: int, s: State, steps: seq<Step>, id: nat)
    requires Inv(fleet, limit, s) && AttemptLimit(fleet, limit) && FromFleet(fleet, steps) && id in s.rows
    ensures id in Run(s, steps).rows && Later(s.rows[id], Run(s, steps).rows[id])
    decreases |steps|
  {
    if steps != [] {
      var last := |steps| - 1;
      RunIsLater(fleet, limit, s, steps[..last], id);
      RunKeepsInv(fleet, limit, s, steps[..last]);
      StepIsLater(fleet, limit, Run(s, steps[..last]), steps[last], id);
    }
  }
}
