/**
 When an event can still be finished: exactly which states of a row some continuation brings to an
 acknowledgement or a dead letter, for any fleet of workers from any moment on.
 */
module OutboxProgress {
  import opened Wrappers
  import opened OutboxDelivery
  import opened OutboxSafety
  import opened OutboxGuarantees

  predicate Ended(s: State, id: nat) {
    id in s.rows && (s.rows[id].event.state == Acknowledged || s.rows[id].event.state == DeadLetter)
  }

  // ----- continuations from a moment on -----

  /** No clock reading of the step is before `t`. */
  predicate Since(t: Time, step: Step) {
    match step
    case Append(_, _, _, _, _) => true
    case ReadClaim(_, _, _, _, now) => t <= now
    case WriteClaim(_, now, later, _) => t <= now && t <= later
    case Invoke(_, _, now, later, _) => t <= now && t <= later
    case Finalize(_, _, _, now, later, _) => t <= now && t <= later
  }

  /** The last reading of a step that begins at `t`. */
  function After(t: Time, step: Step): Time {
    match step
    case Append(_, _, _, _, _) => t
    case ReadClaim(_, _, _, _, now) => now
    case WriteClaim(_, _, later, _) => later
    case Invoke(_, _, _, later, _) => later
    case Finalize(_, _, _, _, later, _) => later
  }

  /** The clock never runs backwards from `t` on. */
  predicate Forward(t: Time, steps: seq<Step>)
    decreases |steps|
  {
    steps == [] || (Since(t, steps[0]) && t <= After(t, steps[0]) && Forward(After(t, steps[0]), steps[1..]))
  }

  lemma {:induction false} ForwardSince(t: Time, steps: seq<Step>, i: nat)
    requires Forward(t, steps) && i < |steps|
    ensures Since(t, steps[i])
    decreases i
  {
    if i > 0 { ForwardSince(After(t, steps[0]), steps[1..], i - 1); }
  }

  /** The continuations of a fleet from the moment `t`. */
  ghost predicate From(fleet: set<Config>, t: Time, more: seq<Step>) {
    FromFleet(fleet, more) && Forward(t, more)
  }

  // ----- the exact condition -----

  /** Some worker can deliver a not yet invoked attempt of this generation or declare it the last. */
  ghost predicate CanEnd(fleet: set<Config>, kind: Kind, g: int) {
    exists cfg :: cfg in fleet && (kind in cfg.registered || cfg.OptionsFor(kind).maxAttempts <= g)
  }

  ghost predicate CanClaim(fleet: set<Config>, kind: Kind, g: int) {
    exists cfg :: cfg in fleet && kind in cfg.registered && g < cfg.OptionsFor(kind).maxAttempts
  }

  /** A lease proposed earlier that a worker may still take at `t`. */
  predicate Live(claim: Claim, id: nat, g: int, t: Time) {
    claim.eventId == id && claim.generation == g + 1 && t < claim.expiresAt
  }

  /** Whether the workers of `fleet` can finish the event from the moment `t` on. */
  ghost predicate Finishable(fleet: set<Config>, s: State, id: nat, t: Time)
    requires id in s.rows
  {
    var c := s.rows[id];
    var kind, g := c.event.kind, c.event.generation;
    match c.event.state
    case Acknowledged => true
    case DeadLetter => true
    case Claimed => if g in c.attempts && c.attempts[g].stage.InvokedStage? then fleet != {} else CanEnd(fleet, kind, g)
    case _ =>
      CanClaim(fleet, kind, g) || ((exists p :: p in s.proposals && Live(p, id, g, t)) && CanEnd(fleet, kind, g + 1))
  }

  // ----- an event that is not finishable stays so -----

  ghost predicate Stranded(fleet: set<Config>, s: State, id: nat, t: Time) {
    id in s.rows && !Finishable(fleet, s, id, t)
  }

  lemma StrandedStep(all: set<Config>, fleet: set<Config>, limit: int, s: State, step: Step, id: nat, t: Time)
    requires Inv(all, limit, s) && fleet <= all && Stranded(fleet, s, id, t)
    requires StepFromFleet(fleet, step) && Since(t, step)
    ensures Stranded(fleet, Apply(s, step), id, t)
  {
    match step
    case Append(_, _, _, _, _) =>
    case ReadClaim(cfg, event, project, owner, now) => ReadLeavesStranded(fleet, s, step, id, t);
    case WriteClaim(claim, now, later, allowed) => WriteLeavesStranded(fleet, s, step, id, t);
    case Invoke(cfg, claim, now, later, allowed) => InvokeLeavesStranded(all, fleet, limit, s, step, id, t);
    case Finalize(cfg, receipt, cause, now, later, allowed) => FinalizeLeavesStranded(all, fleet, limit, s, step, id, t);
  }

  lemma ReadLeavesStranded(fleet: set<Config>, s: State, step: Step, id: nat, t: Time)
    requires step.ReadClaim? && StepFromFleet(fleet, step) && Stranded(fleet, s, id, t)
    ensures Stranded(fleet, Apply(s, step), id, t)
  {
    var u := Apply(s, step);
    var g := s.rows[id].event.generation;
    if p :| p in u.proposals && p !in s.proposals && Live(p, id, g, t) {
      assert CanClaim(fleet, s.rows[id].event.kind, g);
    }
  }

  lemma WriteLeavesStranded(fleet: set<Config>, s: State, step: Step, id: nat, t: Time)
    requires step.WriteClaim? && Since(t, step) && Stranded(fleet, s, id, t)
    requires step.claim in s.proposals ==> ProposalBound(s.rows, step.claim)
    ensures Stranded(fleet, Apply(s, step), id, t)
  {
    if step.claim.eventId == id && Apply(s, step) != s {
      assert Live(step.claim, id, s.rows[id].event.generation, t);
    }
  }

  lemma InvokeLeavesStranded(all: set<Config>, fleet: set<Config>, limit: int, s: State, step: Step, id: nat, t: Time)
    requires Inv(all, limit, s) && step.Invoke? && StepFromFleet(fleet, step) && Stranded(fleet, s, id, t)
    ensures Stranded(fleet, Apply(s, step), id, t)
  {
    if step.claim.eventId == id && Apply(s, step) != s {
      assert CanEnd(fleet, s.rows[id].event.kind, s.rows[id].event.generation);
    }
  }

  lemma FinalizeLeavesStranded(all: set<Config>, fleet: set<Config>, limit: int, s: State, step: Step, id: nat, t: Time)
    requires Inv(all, limit, s) && step.Finalize? && StepFromFleet(fleet, step) && Stranded(fleet, s, id, t)
    ensures Stranded(fleet, Apply(s, step), id, t)
  {
    if step.receipt.claim.eventId == id && Apply(s, step) != s {
      var c := s.rows[id];
      var g, kind := c.event.generation, c.event.kind;
      assert step.cfg in fleet;
      UninvokedRetries(all, c, step.cfg, step.receipt, step.cause, step.now, step.later, step.allowed);
      ClaimersCanEnd(fleet, kind, g);
      NoneLive(all, limit, s, id, t);
    }
  }

  lemma ClaimersCanEnd(fleet: set<Config>, kind: Kind, g: int)
    ensures CanClaim(fleet, kind, g) ==> CanEnd(fleet, kind, g)
    ensures forall cfg :: cfg in fleet && cfg.OptionsFor(kind).maxAttempts <= g ==> CanEnd(fleet, kind, g)
  {
  }

  /** A row that is not waiting has no lease proposed for its next generation. */
  lemma NoneLive(all: set<Config>, limit: int, s: State, id: nat, t: Time)
    requires Inv(all, limit, s) && id in s.rows && !Open(s.rows[id].event)
    ensures forall p :: p in s.proposals ==> !Live(p, id, s.rows[id].event.generation, t)
  {
    assert forall p :: p in s.proposals ==> ProposalBound(s.rows, p);
  }

  /** Ending an attempt that was never invoked dead-letters the event exactly at the worker's limit. */
  lemma UninvokedRetries(all: set<Config>, c: Custody, cfg: Config, receipt: Receipt, cause: Cause, now: Time, later: Time, allowed: bool)
    requires CustodyInv(all, receipt.claim.eventId, c)
    ensures var r := CommitFinalize(c, cfg, receipt, cause, now, later, allowed);
            r.Committed? ==>
              && c.event.state == Claimed && r.custody.event.generation == c.event.generation && r.custody.event.kind == c.event.kind
              && c.event.generation in c.attempts
              && (c.attempts[c.event.generation].stage.ClaimedStage? ==>
                    r.custody.event.state ==
                    if c.event.generation < cfg.OptionsFor(c.event.kind).maxAttempts then Retryable else DeadLetter)
  {
  }

  lemma FleetGrows(fleet: set<Config>, all: set<Config>, more: seq<Step>)
    requires FromFleet(fleet, more) && fleet <= all && forall cfg :: cfg in all ==> cfg.Valid()
    ensures FromFleet(all, more)
  {
    forall i | 0 <= i < |more| ensures StepFromFleet(all, more[i]) {
      assert StepFromFleet(fleet, more[i]);
    }
  }

  ghost predicate AllSince(t: Time, more: seq<Step>) {
    forall i :: 0 <= i < |more| ==> Since(t, more[i])
  }

  lemma {:induction false} StrandedForEver(all: set<Config>, fleet: set<Config>, limit: int, s: State, more: seq<Step>, id: nat, t: Time)
    requires Inv(all, limit, s) && AttemptLimit(all, limit) && FromFleet(all, more) && fleet <= all
    requires Stranded(fleet, s, id, t) && FromFleet(fleet, more) && AllSince(t, more)
    ensures Stranded(fleet, Run(s, more), id, t)
    decreases |more|
  {
    if more != [] {
      var last := |more| - 1;
      StrandedForEver(all, fleet, limit, s, more[..last], id, t);
      RunKeepsInv(all, limit, s, more[..last]);
      StrandedStep(all, fleet, limit, Run(s, more[..last]), more[last], id, t);
    }
  }

  // ----- a finishable event is finished in at most six steps -----

  function Max(a: Time, b: Time): Time { if a <= b then b else a }

  function NextClaim(cfg: Config, id: nat, c: Custody, now: Time): Claim {
    Claim(id, c.event.project, c.event.payloadDigest, c.event.generation + 1, "worker",
          now, now + cfg.OptionsFor(c.event.kind).leaseSeconds * SECOND)
  }

  /** A waiting event is claimed, invoked and rejected at one moment. */
  function RejectSteps(cfg: Config, id: nat, c: Custody, now: Time): seq<Step> {
    var claim := NextClaim(cfg, id, c, now);
    var value := Outcome(DeadLetter, Some(HandlerRejected), None, Some(now), now, false, Some(now));
    [ReadClaim(cfg, id, c.event.project, "worker", now), WriteClaim(claim, now, now, true),
     Invoke(cfg, claim, now, now, true), Finalize(cfg, Receipt(claim, value), Reject, now, now, true)]
  }

  lemma SingleStep(s: State, step: Step)
    ensures Run(s, [step]) == Apply(s, step)
  {
    assert [step][..0] == [];
  }

  lemma TwoSteps(s: State, first: Step, second: Step)
    ensures Run(s, [first, second]) == Apply(Apply(s, first), second)
  {
    SingleStep(s, first);
    assert [first, second][..1] == [first];
  }

  lemma RunFour(s: State, a: Step, b: Step, c: Step, d: Step)
    ensures Run(s, [a, b, c, d]) == Apply(Apply(Apply(Apply(s, a), b), c), d)
  {
    TwoSteps(s, a, b);
    assert [a, b, c][..2] == [a, b];
    assert [a, b, c, d][..3] == [a, b, c];
  }

  lemma Claimable(cfg: Config, id: nat, c: Custody, now: Time)
    requires cfg.Valid() && Open(c.event) && c.event.nextAttemptAt.Some? && c.event.nextAttemptAt.value <= now
    requires c.event.generation < cfg.OptionsFor(c.event.kind).maxAttempts
    ensures var claim := NextClaim(cfg, id, c, now);
            claim.Valid() && CommitClaim(c, claim, now, now, true).Some?
  {
    assert cfg.OptionsFor(c.event.kind).Valid();
  }

  lemma Invocable(cfg: Config, id: nat, c: Custody, claim: Claim, now: Time)
    requires claim.Valid() && MatchesEvent(c.event, claim.eventId, claim) && c.event.kind in cfg.registered
    requires claim.generation in c.attempts && c.attempts[claim.generation] == Attempt(claim, ClaimedStage)
    requires c.event.payloadHash == claim.payloadDigest && now < claim.expiresAt
    ensures BeginInvocation(c, cfg, claim, now, now, true).Some?
  {
  }

  lemma Rejectable(cfg: Config, c: Custody, claim: Claim, value: Outcome, now: Time)
    requires claim.Valid() && MatchesEvent(c.event, claim.eventId, claim) && now < claim.expiresAt
    requires claim.generation in c.attempts && c.attempts[claim.generation] == Attempt(claim, InvokedStage(now))
    requires value == Outcome(DeadLetter, Some(HandlerRejected), None, Some(now), now, false, Some(now))
    ensures var r := CommitFinalize(c, cfg, Receipt(claim, value), Reject, now, now, true);
            r.Committed? && r.custody.event.state == DeadLetter
  {
  }

  lemma OpenEnds(cfg: Config, s: State, id: nat, now: Time)
    requires cfg.Valid() && id in s.rows && Open(s.rows[id].event) && s.rows[id].event.kind in cfg.registered
    requires s.rows[id].event.payloadHash == s.rows[id].event.payloadDigest
    requires s.rows[id].event.nextAttemptAt.Some? && s.rows[id].event.nextAttemptAt.value <= now
    requires s.rows[id].event.generation < cfg.OptionsFor(s.rows[id].event.kind).maxAttempts
    ensures Ended(Run(s, RejectSteps(cfg, id, s.rows[id], now)), id)
  {
    var c := s.rows[id];
    var steps, claim := RejectSteps(cfg, id, c, now), NextClaim(cfg, id, c, now);
    RunFour(s, steps[0], steps[1], steps[2], steps[3]);
    Claimable(cfg, id, c, now);
    var c1 := CommitClaim(c, claim, now, now, true).value;
    Claims(cfg, s, id, now);
    Invocable(cfg, id, c1, claim, now);
    var c2 := BeginInvocation(c1, cfg, claim, now, now, true).value;
    InvokedEnds(cfg, State(s.rows[id := c1], s.proposals + {claim}), id, claim, c2, now);
  }

  lemma Claims(cfg: Config, s: State, id: nat, now: Time)
    requires id in s.rows && Open(s.rows[id].event) && s.rows[id].event.kind in cfg.registered
    requires s.rows[id].event.nextAttemptAt.Some? && s.rows[id].event.nextAttemptAt.value <= now
    requires s.rows[id].event.generation < cfg.OptionsFor(s.rows[id].event.kind).maxAttempts
    requires CommitClaim(s.rows[id], NextClaim(cfg, id, s.rows[id], now), now, now, true).Some?
    ensures var claim := NextClaim(cfg, id, s.rows[id], now);
            Apply(Apply(s, ReadClaim(cfg, id, s.rows[id].event.project, "worker", now)), WriteClaim(claim, now, now, true)) ==
            State(s.rows[id := CommitClaim(s.rows[id], claim, now, now, true).value], s.proposals + {claim})
  {
    var claim := NextClaim(cfg, id, s.rows[id], now);
    assert ProposeClaim(s, cfg, id, s.rows[id].event.project, "worker", now) == Some(claim);
    assert Apply(s, ReadClaim(cfg, id, s.rows[id].event.project, "worker", now)) == State(s.rows, s.proposals + {claim});
  }

  lemma InvokedEnds(cfg: Config, s: State, id: nat, claim: Claim, c2: Custody, now: Time)
    requires id in s.rows && claim.eventId == id && s.rows[id].event.project == claim.project
    requires BeginInvocation(s.rows[id], cfg, claim, now, now, true) == Some(c2) && now < claim.expiresAt
    ensures var value := Outcome(DeadLetter, Some(HandlerRejected), None, Some(now), now, false, Some(now));
            Ended(Apply(Apply(s, Invoke(cfg, claim, now, now, true)), Finalize(cfg, Receipt(claim, value), Reject, now, now, true)), id)
  {
    var value := Outcome(DeadLetter, Some(HandlerRejected), None, Some(now), now, false, Some(now));
    Rejectable(cfg, c2, claim, value, now);
  }

  /** Recovery at an expired moment. */
  function RecoverStep(cfg: Config, id: nat, c: Custody, now: Time): Step
    requires c.event.lease.Some? && c.event.generation >= 1 && c.event.generation in c.attempts
    requires c.event.lease.value.expiresAt <= now
  {
    var claim := ClaimOfRow(id, c.event);
    var o := OutcomeOf(claim, c.attempts[c.event.generation].InvokedAt(), Expired, now,
                       cfg.OptionsFor(c.event.kind), c.event.kind in cfg.replaySafe);
    Finalize(cfg, Receipt(claim, o.value), Expired, now, now, true)
  }

  /** Recovery dead-letters the event, or leaves it to a retry this worker allows. */
  lemma RecoverEnds(all: set<Config>, cfg: Config, s: State, id: nat, now: Time)
    requires id in s.rows && CustodyInv(all, id, s.rows[id]) && cfg.Valid()
    requires s.rows[id].event.state == Claimed
    ensures s.rows[id].event.lease.Some? && s.rows[id].event.generation in s.rows[id].attempts
    ensures s.rows[id].event.lease.value.expiresAt <= now ==>
              var c := s.rows[id];
              var u := Apply(s, RecoverStep(cfg, id, c, now));
              && id in u.rows && u.rows[id].event.kind == c.event.kind && u.rows[id].event.generation == c.event.generation
              && (|| u.rows[id].event.state == DeadLetter
                  || (&& u.rows[id].event.state == Retryable && c.event.generation < cfg.OptionsFor(c.event.kind).maxAttempts
                      && (c.attempts[c.event.generation].stage.InvokedStage? ==> c.event.kind in cfg.registered)))
  {
    var c := s.rows[id];
    var g := c.event.generation;
    assert MatchesEvent(c.event, id, c.attempts[g].claim);
  }

  /** Continues a forward run from where it ended. */
  lemma Continued(fleet: set<Config>, t: Time, s: State, first: Step, rest: seq<Step>, id: nat)
    requires FromFleet(fleet, rest) && StepFromFleet(fleet, first)
    requires Since(t, first) && t <= After(t, first) && Forward(After(t, first), rest)
    requires Ended(Run(Apply(s, first), rest), id)
    ensures From(fleet, t, [first] + rest) && Ended(Run(s, [first] + rest), id)
  {
    RunConcat(s, [first], rest);
    SingleStep(s, first);
    assert ([first] + rest)[1..] == rest;
  }

  lemma FinishOpen(all: set<Config>, fleet: set<Config>, s: State, id: nat, t: Time) returns (more: seq<Step>)
    requires id in s.rows && CustodyInv(all, id, s.rows[id]) && Open(s.rows[id].event) && FromFleet(fleet, [])
    requires CanClaim(fleet, s.rows[id].event.kind, s.rows[id].event.generation)
    ensures From(fleet, t, more) && Ended(Run(s, more), id) && |more| == 4
  {
    var c := s.rows[id];
    var cfg :| cfg in fleet && c.event.kind in cfg.registered && c.event.generation < cfg.OptionsFor(c.event.kind).maxAttempts;
    assert c.event.nextAttemptAt.Some?;
    var now := Max(t, c.event.nextAttemptAt.value);
    more := RejectSteps(cfg, id, c, now);
    OpenEnds(cfg, s, id, now);
    RejectForward(cfg, id, c, t, now);
  }

  lemma RejectForward(cfg: Config, id: nat, c: Custody, t: Time, now: Time)
    requires t <= now
    ensures Forward(t, RejectSteps(cfg, id, c, now))
  {
    var steps := RejectSteps(cfg, id, c, now);
    assert Forward(now, []);
    ForwardOne(now, steps[3], []);
    ForwardOne(now, steps[2], [steps[3]]);
    ForwardOne(now, steps[1], [steps[2], steps[3]]);
    ForwardOne(t, steps[0], [steps[1], steps[2], steps[3]]);
    assert [steps[2]] + [steps[3]] == [steps[2], steps[3]] && [steps[1]] + [steps[2], steps[3]] == [steps[1], steps[2], steps[3]];
    assert [steps[0]] + [steps[1], steps[2], steps[3]] == steps && [steps[3]] + [] == [steps[3]];
  }

  lemma ForwardOne(t: Time, first: Step, rest: seq<Step>)
    requires Since(t, first) && t <= After(t, first) && Forward(After(t, first), rest)
    ensures Forward(t, [first] + rest)
  {
    assert ([first] + rest)[1..] == rest;
  }

  lemma FinishClaimed(all: set<Config>, fleet: set<Config>, limit: int, s: State, id: nat, t: Time) returns (more: seq<Step>)
    requires Inv(all, limit, s) && AttemptLimit(all, limit) && FromFleet(all, []) && fleet <= all && FromFleet(fleet, [])
    requires id in s.rows && s.rows[id].event.state == Claimed && Finishable(fleet, s, id, t)
    ensures From(fleet, t, more) && Ended(Run(s, more), id) && |more| <= 5
  {
    var c := s.rows[id];
    var kind, g := c.event.kind, c.event.generation;
    var cfg := Ender(fleet, kind, g, c.attempts[g].stage.InvokedStage?);
    RecoverEnds(all, cfg, s, id, t);
    var now := Max(t, c.event.lease.value.expiresAt);
    RecoverEnds(all, cfg, s, id, now);
    var first := RecoverStep(cfg, id, c, now);
    var u := Apply(s, first);
    if u.rows[id].event.state == DeadLetter {
      Continued(fleet, t, s, first, [], id);
      more := [first] + [];
    } else {
      assert StepFromFleet(all, [first][0]);
      StepKeepsInv(all, limit, s, first);
      assert CanClaim(fleet, kind, g);
      var rest := FinishOpen(all, fleet, u, id, now);
      Continued(fleet, t, s, first, rest, id);
      more := [first] + rest;
    }
  }

  /** A worker whose recovery ends the event or leaves it to someone who claims it. */
  lemma Ender(fleet: set<Config>, kind: Kind, g: int, invoked: bool) returns (cfg: Config)
    requires if invoked then fleet != {} else CanEnd(fleet, kind, g)
    ensures cfg in fleet
    ensures !invoked && g < cfg.OptionsFor(kind).maxAttempts ==> kind in cfg.registered
  {
    if invoked {
      cfg :| cfg in fleet;
    } else {
      cfg :| cfg in fleet && (kind in cfg.registered || cfg.OptionsFor(kind).maxAttempts <= g);
    }
  }

  lemma FinishLive(all: set<Config>, fleet: set<Config>, limit: int, s: State, id: nat, t: Time, p: Claim) returns (more: seq<Step>)
    requires Inv(all, limit, s) && AttemptLimit(all, limit) && FromFleet(all, []) && fleet <= all && FromFleet(fleet, [])
    requires id in s.rows && Open(s.rows[id].event) && p in s.proposals && Live(p, id, s.rows[id].event.generation, t)
    requires CanEnd(fleet, s.rows[id].event.kind, s.rows[id].event.generation + 1)
    ensures From(fleet, t, more) && Ended(Run(s, more), id) && |more| <= 6
  {
    assert ProposalBound(s.rows, p);
    var now := Max(t, p.claimedAt);
    var first := WriteClaim(p, now, now, true);
    assert CommitClaim(s.rows[id], p, now, now, true).Some?;
    var u := Apply(s, first);
    assert StepFromFleet(all, [first][0]);
    StepKeepsInv(all, limit, s, first);
    assert u.rows[id].event.state == Claimed && u.rows[id].event.generation == p.generation;
    var rest := FinishClaimed(all, fleet, limit, u, id, now);
    Continued(fleet, t, s, first, rest, id);
    more := [first] + rest;
  }

  lemma Finish(all: set<Config>, fleet: set<Config>, limit: int, s: State, id: nat, t: Time) returns (more: seq<Step>)
    requires Inv(all, limit, s) && AttemptLimit(all, limit) && FromFleet(all, []) && fleet <= all && FromFleet(fleet, [])
    requires id in s.rows && Finishable(fleet, s, id, t)
    ensures From(fleet, t, more) && Ended(Run(s, more), id) && |more| <= 6
  {
    var c := s.rows[id];
    if Ended(s, id) {
      more := [];
    } else if c.event.state == Claimed {
      more := FinishClaimed(all, fleet, limit, s, id, t);
    } else if CanClaim(fleet, c.event.kind, c.event.generation) {
      more := FinishOpen(all, fleet, s, id, t);
    } else {
      var p :| p in s.proposals && Live(p, id, c.event.generation, t);
      more := FinishLive(all, fleet, limit, s, id, t, p);
    }
  }

  // ----- the results -----

  lemma CommonLimit(fleet: set<Config>, next: set<Config>, limit: int)
    requires AttemptLimit(fleet, limit) && forall cfg :: cfg in next ==> cfg.Valid()
    ensures AttemptLimit(fleet + next, if limit < 100 then 100 else limit)
  {
    forall cfg, kind | cfg in next ensures cfg.OptionsFor(kind).maxAttempts <= 100 {
      assert cfg.OptionsFor(kind).Valid();
    }
  }

  /** After any run of one fleet, the workers of another, or the same, can finish an event from the
      moment `t` on if and only if it is finished; or claimed, and some worker can end the claim; or
      waiting, and some worker that registers its kind still allows an attempt, or a lease proposed
      earlier can still be taken and ended. */
  lemma FinishableExactly(fleet: set<Config>, limit: int, before: seq<Step>, next: set<Config>, id: nat, t: Time)
    requires Deployment(fleet, limit, before) && id in Run(EMPTY, before).rows && FromFleet(next, [])
    ensures (exists more :: From(next, t, more) && Ended(Run(Run(EMPTY, before), more), id))
            <==> Finishable(next, Run(EMPTY, before), id, t)
  {
    var all, high := fleet + next, if limit < 100 then 100 else limit;
    CommonLimit(fleet, next, limit);
    FleetGrows(fleet, all, before);
    Reachable(all, high, before);
    var s := Run(EMPTY, before);
    if Finishable(next, s, id, t) {
      var more := Finish(all, next, high, s, id, t);
    } else {
      forall more | From(next, t, more) ensures !Ended(Run(s, more), id) {
        forall i | 0 <= i < |more| ensures Since(t, more[i]) { ForwardSince(t, more, i); }
        FleetGrows(next, all, more);
        StrandedForEver(all, next, high, s, more, id, t);
      }
    }
  }

  /** A worker that registers the kind and allows as many attempts as any other. */
  predicate Leads(cfg: Config, fleet: set<Config>, kind: Kind) {
    && cfg in fleet && kind in cfg.registered
    && forall other :: other in fleet ==> other.OptionsFor(kind).maxAttempts <= cfg.OptionsFor(kind).maxAttempts
  }

  /** In a fleet where some worker that registers the kind allows as many attempts as any worker,
      every event of that kind can be finished from every reachable state and every moment on, in at
      most six steps. */
  lemma NeverStuck(fleet: set<Config>, limit: int, before: seq<Step>, id: nat, t: Time, cfg: Config) returns (more: seq<Step>)
    requires Deployment(fleet, limit, before) && id in Run(EMPTY, before).rows
    requires Leads(cfg, fleet, Run(EMPTY, before).rows[id].event.kind)
    ensures From(fleet, t, more) && Ended(Run(EMPTY, before + more), id) && |more| <= 6
  {
    Reachable(fleet, limit, before);
    var s := Run(EMPTY, before);
    LeaderFinishes(fleet, limit, s, id, t, cfg);
    more := Finish(fleet, fleet, limit, s, id, t);
    RunConcat(EMPTY, before, more);
  }

  lemma LeaderFinishes(fleet: set<Config>, limit: int, s: State, id: nat, t: Time, cfg: Config)
    requires Inv(fleet, limit, s) && id in s.rows && Leads(cfg, fleet, s.rows[id].event.kind) && cfg.Valid()
    ensures Finishable(fleet, s, id, t)
  {
    var c := s.rows[id];
    var kind, g := c.event.kind, c.event.generation;
    assert cfg.OptionsFor(kind).Valid();
    if c.event.state == Retryable {
      assert AttemptMeant(fleet, kind, g, c.attempts[g]);
      assert RetriesLeftSomewhere(fleet, kind, g);
      var other :| other in fleet && g < other.OptionsFor(kind).maxAttempts;
    }
    if Open(c.event) {
      assert CanClaim(fleet, kind, g);
    } else {
      assert CanEnd(fleet, kind, g);
    }
  }

  /** A run that strands an event: one worker, at its limit, claims it; another, which does not know
      its kind and allows more attempts, recovers the expired claim. */
  function StrandingRun(a: Config, b: Config, kind: Kind): seq<Step> {
    var claim := Claim(0, 0, 0, 1, "worker", 0, a.OptionsFor(kind).leaseSeconds * SECOND);
    var end := claim.expiresAt;
    var due := end + BackoffSeconds(b.OptionsFor(kind), 1) * SECOND;
    var value := Outcome(Retryable, Some(LeaseExpiredBeforeInvoke), Some(due), None, end, false, None);
    [Append(0, 0, kind, 0, 0), ReadClaim(a, 0, 0, "worker", 0), WriteClaim(claim, 0, 0, true),
     Finalize(b, Receipt(claim, value), Expired, end, end, true)]
  }

  lemma MixedFleetStrands(a: Config, b: Config, kind: Kind, t: Time)
    requires a.Valid() && b.Valid() && kind in a.registered && kind !in b.registered
    requires a.OptionsFor(kind).maxAttempts == 1 < b.OptionsFor(kind).maxAttempts
    ensures var s := Run(EMPTY, StrandingRun(a, b, kind));
            && FromFleet({a, b}, StrandingRun(a, b, kind)) && 0 in s.rows && s.rows[0].event.state == Retryable
            && !exists more :: From({a, b}, t, more) && Ended(Run(s, more), 0)
  {
    StrandingRunEnds(a, b, kind);
    assert AttemptLimit({a, b}, 100) by { CommonLimit({}, {a, b}, 0); assert {} + {a, b} == {a, b}; }
    FinishableExactly({a, b}, 100, StrandingRun(a, b, kind), {a, b}, 0, t);
  }

  lemma StrandingRunEnds(a: Config, b: Config, kind: Kind)
    requires a.Valid() && b.Valid() && kind in a.registered
    requires a.OptionsFor(kind).maxAttempts == 1 < b.OptionsFor(kind).maxAttempts
    ensures var s := Run(EMPTY, StrandingRun(a, b, kind));
            && s.rows.Keys == {0} && s.rows[0].event.state == Retryable && s.rows[0].event.generation == 1
            && s.rows[0].event.kind == kind && forall p :: p in s.proposals ==> p.generation == 1
  {
    var steps := StrandingRun(a, b, kind);
    var claim := steps[2].claim;
    assert a.OptionsFor(kind).Valid();
    RunFour(EMPTY, steps[0], steps[1], steps[2], steps[3]);
    var c0 := NewCustody(0, kind, 0, 0);
    var s1 := State(map[0 := c0], {});
    assert Apply(EMPTY, steps[0]) == s1;
    assert claim == NextClaim(a, 0, c0, 0);
    Claimable(a, 0, c0, 0);
    Claims(a, s1, 0, 0);
    var c1 := CommitClaim(c0, claim, 0, 0, true).value;
    StrandingRecovery(b, c1, claim, steps[3]);
    assert s1.rows[0 := c1].Keys == {0};
  }

  lemma StrandingRecovery(b: Config, c: Custody, claim: Claim, step: Step)
    requires claim.Valid() && claim.generation == 1 && MatchesEvent(c.event, claim.eventId, claim)
    requires 1 in c.attempts && c.attempts[1] == Attempt(claim, ClaimedStage) && 1 < b.OptionsFor(c.event.kind).maxAttempts
    requires var due := claim.expiresAt + BackoffSeconds(b.OptionsFor(c.event.kind), 1) * SECOND;
             var value := Outcome(Retryable, Some(LeaseExpiredBeforeInvoke), Some(due), None, claim.expiresAt, false, None);
             step == Finalize(b, Receipt(claim, value), Expired, claim.expiresAt, claim.expiresAt, true)
    ensures var r := CommitFinalize(c, b, step.receipt, Expired, claim.expiresAt, claim.expiresAt, true);
            && r.Committed? && r.custody.event.state == Retryable && r.custody.event.generation == c.event.generation
            && r.custody.event.kind == c.event.kind
  {
  }
}
