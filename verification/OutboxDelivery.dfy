/**
 The shared outbox delivery engine: any number of workers claim, invoke and finalize
 events concurrently. Each transaction locks one event row and its attempts, so a run is a
 sequence of transactions, while the values a worker read before its transaction may be
 arbitrarily stale. Clock readings are inputs of every transaction and need not be monotone.
 */
module OutboxDelivery {
  import opened Wrappers

  /** Microseconds since an arbitrary epoch. */
  type Time = int

  const SECOND: int := 1_000_000

  datatype Kind = Kind(eventType: string, version: nat)

  datatype DeliveryOptions = DeliveryOptions(
    leaseSeconds: int, handlerTimeoutSeconds: int, maxAttempts: int,
    retryBaseSeconds: int, retryCapSeconds: int)
  {
    predicate Valid() {
      && 1 <= leaseSeconds <= 3600
      && 1 <= handlerTimeoutSeconds <= 3600
      && 1 <= maxAttempts <= 100
      && 1 <= retryBaseSeconds <= 3600
      && 1 <= retryCapSeconds <= 86400
      && handlerTimeoutSeconds < leaseSeconds
      && retryBaseSeconds <= retryCapSeconds
    }
  }

  /** One worker's composition: its registered handlers and delivery limits. */
  datatype Config = Config(registered: set<Kind>, replaySafe: set<Kind>,
                           shared: DeliveryOptions, overrides: map<Kind, DeliveryOptions>)
  {
    predicate Valid() {
      && replaySafe <= registered
      && overrides.Keys <= registered
      && shared.Valid()
      && forall kind :: kind in overrides ==> overrides[kind].Valid()
    }

    function OptionsFor(kind: Kind): DeliveryOptions {
      if kind in overrides then overrides[kind] else shared
    }
  }

  datatype Claim = Claim(eventId: nat, project: nat, payloadDigest: nat, generation: int,
                         owner: string, claimedAt: Time, expiresAt: Time)
  {
    predicate Valid() {
      && 1 <= generation <= 2147483647
      && 0 < expiresAt - claimedAt <= 3600 * SECOND
    }
  }

  datatype DeliveryState = Pending | Claimed | Retryable | Acknowledged | DeadLetter

  datatype ErrorCode =
    | HandlerRejected | InvokeOutcomeUnknown | AttemptsExhausted | RetryRequested | LeaseExpiredBeforeInvoke

  datatype Cause = Acknowledge | Retry | Reject | Expired | Unknown

  datatype Outcome = Outcome(
    state: DeliveryState, errorCode: Option<ErrorCode>, nextAttemptAt: Option<Time>,
    finalizedAt: Option<Time>, completedAt: Time, invocationUnknown: bool, invokedAt: Option<Time>)

  datatype Lease = Lease(owner: string, claimedAt: Time, expiresAt: Time)

  /** An event row: an immutable envelope and the mutable delivery columns. */
  datatype Event = Event(
    project: nat, kind: Kind, payloadDigest: nat, payloadHash: nat,
    state: DeliveryState, generation: nat, lease: Option<Lease>, nextAttemptAt: Option<Time>,
    lastAttemptAt: Option<Time>, lastError: Option<ErrorCode>, finalizedAt: Option<Time>)

  datatype Stage = ClaimedStage | InvokedStage(at: Time) | CompletedStage(invokedAt: Option<Time>, outcome: Outcome)

  datatype Attempt = Attempt(claim: Claim, stage: Stage)
  {
    function InvokedAt(): Option<Time> {
      match stage
      case ClaimedStage => None
      case InvokedStage(at) => Some(at)
      case CompletedStage(invokedAt, _) => invokedAt
    }
  }

  /** One event with the attempt rows keyed by its generations; `calls` is the history of the
      generations whose envelope was handed to a handler. */
  datatype Custody = Custody(event: Event, attempts: map<int, Attempt>, calls: seq<int>)

  /** `proposals` holds every claim value any worker ever computed from a snapshot. */
  datatype State = State(rows: map<nat, Custody>, proposals: set<Claim>)

  datatype Receipt = Receipt(claim: Claim, outcome: Outcome)

  // ----- the delivery operations -----

  function Pow2(n: nat): (p: nat)
    ensures p >= 1
  {
    if n == 0 then 1 else 2 * Pow2(n - 1)
  }

  function Min(a: int, b: int): int { if a <= b then a else b }

  function BackoffSeconds(options: DeliveryOptions, generation: int): int
    requires generation >= 1
  {
    Min(options.retryCapSeconds, options.retryBaseSeconds * Pow2(Min(generation - 1, 30)))
  }

  /** The database-timed outcome of a finalization; `None` where the engine raises. */
  function OutcomeOf(claim: Claim, invokedAt: Option<Time>, cause: Cause, now: Time,
                     options: DeliveryOptions, retryUnknown: bool): Option<Outcome>
    requires claim.generation >= 1
  {
    var expired := now >= claim.expiresAt;
    if (invokedAt.None? && (cause != Expired || !expired)) || (cause == Expired && !expired) then
      None
    else
      var unknown := invokedAt.Some? && (expired || cause == Unknown);
      var retryAt := now + BackoffSeconds(options, claim.generation) * SECOND;
      var retriesLeft := claim.generation < options.maxAttempts;
      if unknown then
        if retryUnknown && retriesLeft then
          Some(Outcome(Retryable, Some(InvokeOutcomeUnknown), Some(retryAt), None, now, true, invokedAt))
        else
          Some(Outcome(DeadLetter, Some(InvokeOutcomeUnknown), None, Some(now), now, true, invokedAt))
      else if cause == Acknowledge then
        Some(Outcome(Acknowledged, None, None, Some(now), now, false, invokedAt))
      else if cause == Retry || cause == Expired then
        if retriesLeft then
          var code := if invokedAt.Some? then RetryRequested else LeaseExpiredBeforeInvoke;
          Some(Outcome(Retryable, Some(code), Some(retryAt), None, now, false, invokedAt))
        else
          Some(Outcome(DeadLetter, Some(AttemptsExhausted), None, Some(now), now, false, invokedAt))
      else
        Some(Outcome(DeadLetter, Some(HandlerRejected), None, Some(now), now, false, invokedAt))
  }

  /** A lookup by event id conceals rows of another project. */
  predicate Visible(s: State, eventId: nat, project: nat) {
    eventId in s.rows && s.rows[eventId].event.project == project
  }

  predicate MatchesEvent(event: Event, eventId: nat, claim: Claim) {
    && event.state == Claimed
    && eventId == claim.eventId
    && event.project == claim.project
    && event.payloadDigest == claim.payloadDigest
    && event.generation == claim.generation
    && event.lease == Some(Lease(claim.owner, claim.claimedAt, claim.expiresAt))
  }

  /** The unlocked first half of a claim: a snapshot turned into a proposed lease. */
  function ProposeClaim(s: State, cfg: Config, eventId: nat, project: nat, owner: string, now: Time): Option<Claim> {
    if !Visible(s, eventId, project) then None else
    var event := s.rows[eventId].event;
    var options := cfg.OptionsFor(event.kind);
    if || event.kind !in cfg.registered
       || event.state !in {Pending, Retryable}
       || event.nextAttemptAt.None?
       || event.nextAttemptAt.value > now
       || event.generation >= options.maxAttempts
    then None
    else Some(Claim(eventId, project, event.payloadDigest, event.generation + 1, owner,
                    now, now + options.leaseSeconds * SECOND))
  }

  /** The locked second half of a claim; `later` is read after the authority decision. */
  function CommitClaim(c: Custody, claim: Claim, now: Time, later: Time, allowed: bool): Option<Custody> {
    if || c.event.state !in {Pending, Retryable}
       || c.event.generation + 1 != claim.generation
       || c.event.payloadDigest != claim.payloadDigest
       || c.event.nextAttemptAt.None?
       || c.event.nextAttemptAt.value > now
       || claim.expiresAt <= now
       || !allowed
       || later >= claim.expiresAt
    then None
    else Some(Custody(
      c.event.(state := Claimed, generation := claim.generation,
               lease := Some(Lease(claim.owner, claim.claimedAt, claim.expiresAt)),
               lastAttemptAt := Some(claim.claimedAt), nextAttemptAt := None),
      c.attempts[claim.generation := Attempt(claim, ClaimedStage)],
      c.calls))
  }

  /** Commits the one invocation marker of a lease, then hands the envelope to the handler. */
  function BeginInvocation(c: Custody, cfg: Config, claim: Claim, now: Time, later: Time, allowed: bool): Option<Custody> {
    if || !claim.Valid()
       || claim.generation !in c.attempts
       || !MatchesEvent(c.event, claim.eventId, claim)
       || c.attempts[claim.generation].claim != claim
       || !c.attempts[claim.generation].stage.ClaimedStage?
       || now >= claim.expiresAt
       || c.event.kind !in cfg.registered
       || c.event.payloadHash != claim.payloadDigest
       || !allowed
       || later >= claim.expiresAt
    then None
    else Some(c.(attempts := c.attempts[claim.generation := Attempt(claim, InvokedStage(later))],
                 calls := c.calls + [claim.generation]))
  }

  datatype Finalization =
    | Unavailable
    | Replayed(receipt: Receipt)
    | CompletedMeanwhile(receipt: Receipt)
    | Committed(custody: Custody, receipt: Receipt)

  /** The locked half of a finalization, whatever receipt it was handed. */
  function CommitFinalize(c: Custody, cfg: Config, receipt: Receipt, cause: Cause,
                          now: Time, later: Time, allowed: bool): Finalization
  {
    var claim := receipt.claim;
    if || !claim.Valid()
       || claim.generation !in c.attempts
       || c.attempts[claim.generation].claim != claim
    then Unavailable else
    var attempt := c.attempts[claim.generation];
    if attempt.stage.CompletedStage? then
      var stored := Receipt(claim, attempt.stage.outcome);
      if stored != receipt then CompletedMeanwhile(stored)
      else if allowed then Replayed(stored)
      else Unavailable
    else if !MatchesEvent(c.event, claim.eventId, claim) then Unavailable
    else
      var options := cfg.OptionsFor(c.event.kind);
      var completed := receipt.outcome.completedAt;
      var expected := OutcomeOf(claim, attempt.InvokedAt(), cause, completed, options, c.event.kind in cfg.replaySafe);
      if || completed > now
         || expected != Some(receipt.outcome)
         || completed < claim.expiresAt <= now
         || !allowed
         || completed < claim.expiresAt <= later
      then Unavailable
      else
        var value := receipt.outcome;
        Committed(
          Custody(
            c.event.(state := value.state, lastError := value.errorCode, nextAttemptAt := value.nextAttemptAt,
                     finalizedAt := value.finalizedAt, lease := None),
            c.attempts[claim.generation := Attempt(claim, CompletedStage(attempt.InvokedAt(), value))],
            c.calls),
          receipt)
  }

  // ----- runs -----

  /** One committed or refused transaction. Claims, receipts, causes, clock readings and
      authority decisions are whatever a caller, a stale worker or the clock may supply. */
  datatype Step =
    | Append(eventId: nat, project: nat, kind: Kind, payloadDigest: nat, dueAt: Time)
    | ReadClaim(cfg: Config, eventId: nat, project: nat, owner: string, now: Time)
    | WriteClaim(claim: Claim, now: Time, later: Time, allowed: bool)
    | Invoke(cfg: Config, claim: Claim, now: Time, later: Time, allowed: bool)
    | Finalize(cfg: Config, receipt: Receipt, cause: Cause, now: Time, later: Time, allowed: bool)

  function NewCustody(project: nat, kind: Kind, payloadDigest: nat, dueAt: Time): Custody {
    Custody(Event(project, kind, payloadDigest, payloadDigest, Pending, 0, None, Some(dueAt), None, None, None),
            map[], [])
  }

  function Apply(s: State, step: Step): State {
    match step
    case Append(eventId, project, kind, digest, dueAt) =>
      if eventId in s.rows then s
      else s.(rows := s.rows[eventId := NewCustody(project, kind, digest, dueAt)])
    case ReadClaim(cfg, eventId, project, owner, now) =>
      var proposal := ProposeClaim(s, cfg, eventId, project, owner, now);
      if proposal.None? then s else s.(proposals := s.proposals + {proposal.value})
    case WriteClaim(claim, now, later, allowed) =>
      if claim !in s.proposals || !Visible(s, claim.eventId, claim.project) then s else
      var r := CommitClaim(s.rows[claim.eventId], claim, now, later, allowed);
      if r.None? then s else s.(rows := s.rows[claim.eventId := r.value])
    case Invoke(cfg, claim, now, later, allowed) =>
      if !Visible(s, claim.eventId, claim.project) then s else
      var r := BeginInvocation(s.rows[claim.eventId], cfg, claim, now, later, allowed);
      if r.None? then s else s.(rows := s.rows[claim.eventId := r.value])
    case Finalize(cfg, receipt, cause, now, later, allowed) =>
      var claim := receipt.claim;
      if !Visible(s, claim.eventId, claim.project) then s else
      var r := CommitFinalize(s.rows[claim.eventId], cfg, receipt, cause, now, later, allowed);
      if r.Committed? then s.(rows := s.rows[claim.eventId := r.custody]) else s
  }

  function Run(s: State, steps: seq<Step>): State
    decreases |steps|
  {
    if steps == [] then s else Apply(Run(s, steps[..|steps| - 1]), steps[|steps| - 1])
  }

  const EMPTY := State(map[], {})

  /** The workers of a run: every configuration a step names comes from the fleet. */
  ghost predicate FromFleet(fleet: set<Config>, steps: seq<Step>) {
    && (forall cfg :: cfg in fleet ==> cfg.Valid())
    && (forall i :: 0 <= i < |steps| ==> StepFromFleet(fleet, steps[i]))
  }

  ghost predicate StepFromFleet(fleet: set<Config>, step: Step) {
    match step
    case ReadClaim(cfg, _, _, _, _) => cfg in fleet
    case Invoke(cfg, _, _, _, _) => cfg in fleet
    case Finalize(cfg, _, _, _, _, _) => cfg in fleet
    case _ => true
  }
}
