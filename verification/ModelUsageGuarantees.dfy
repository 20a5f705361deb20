/**
 What the model-usage ledger promises operators, for every run of checker and setup calls.
 */
module ModelUsageGuarantees {
  import opened Wrappers
  import opened ModelUsage
  import opened ModelUsageLedger

  lemma Reachable(steps: seq<Step>)
    ensures Inv(Run(EMPTY, steps))
  {
    RunKeepsInv(EMPTY, steps);
  }

  /** A project's counters are exactly its outstanding reservations and its settled costs, each
      settled cost is the exact price of the recorded usage, and external spend plus both
      counters never exceeds what was authorized. */
  lemma BudgetConserved(steps: seq<Step>, project: nat)
    requires project in Run(EMPTY, steps).accounts
    ensures var s := Run(EMPTY, steps);
            var a := s.accounts[project];
            && a.reserved == Total(s.effects, Reserved(project))
            && a.settled == Total(s.effects, Settled(project))
            && a.reserved + a.settled <= a.budget.limit
            && a.budget.priorSpend + a.reserved + a.settled <= a.budget.authorizedTotal
            && (forall i :: 0 <= i < |s.effects| && s.effects[i].settled.Some? ==>
                  s.effects[i].usage.Some?
                  && Cost(s.effects[i].slot.envelope.profile, s.effects[i].usage.value) == Ok(s.effects[i].settled.value))
  {
    Reachable(steps);
    var s := Run(EMPTY, steps);
    assert AccountBalanced(s, project);
    forall i | 0 <= i < |s.effects| && s.effects[i].settled.Some?
      ensures s.effects[i].usage.Some?
              && Cost(s.effects[i].slot.envelope.profile, s.effects[i].usage.value) == Ok(s.effects[i].settled.value)
    {
      assert RowShape(s.effects[i]);
    }
  }

  lemma WithinCapsUsed(e: seq<Effect>, run: EnvelopeKey, owner: Owner)
    requires WithinRunCaps(e, run, owner)
    ensures Total(e, RunResponseBytes(run, owner)) <= run.profile.maxTotalResponseBytes
    ensures Total(e, RunInput(run, owner)) <= run.profile.maxTotalInputTokens
    ensures Total(e, RunOutput(run, owner)) <= run.profile.maxTotalOutputTokens
  {
    var pending := Total(e, RunPending(run, owner));
    TimesMonotone(0, pending, 0, run.profile.maxResponseBytes);
    TimesMonotone(0, pending, 0, run.profile.maxInputTokens);
    TimesMonotone(0, pending, 0, run.profile.maxOutputTokens);
  }

  /** One whole run never makes more calls, spends more, or uses more bytes or tokens than its
      profile allows, although each check sees only the dispatches so far. */
  lemma RunWithinProfile(steps: seq<Step>, run: EnvelopeKey, owner: Owner)
    ensures var e := Run(EMPTY, steps).effects;
            var p := run.profile;
            && Total(e, RunDispatches(run, owner)) <= p.maxCalls
            && Total(e, RunReserved(run, owner)) + Total(e, RunSettled(run, owner)) <= p.RunReservation()
            && Total(e, RunRequestBytes(run, owner)) <= p.maxTotalRequestBytes
            && Total(e, RunResponseBytes(run, owner)) <= p.maxTotalResponseBytes
            && Total(e, RunInput(run, owner)) <= p.maxTotalInputTokens
            && Total(e, RunOutput(run, owner)) <= p.maxTotalOutputTokens
  {
    Reachable(steps);
    WithinCapsUsed(Run(EMPTY, steps).effects, run, owner);
  }

  /** A pending call can always be settled: completion is refused exactly for another model, an
      oversized response, inconsistent or oversized usage, or another provider response. The
      conservation and reservation guards never refuse it. */
  lemma PendingCallSettles(steps: seq<Step>, id: nat, response: Response, usable: bool)
    requires id < |Run(EMPTY, steps).effects| && Pending(Run(EMPTY, steps).effects[id])
    ensures var e := Run(EMPTY, steps).effects[id];
            var p, u := e.slot.envelope.profile, response.usage;
            Complete(Run(EMPTY, steps), id, response, usable).Ok? <==>
            && response.snapshot == p.snapshot && response.bytes <= p.maxResponseBytes
            && u.Valid() && u.input <= p.maxInputTokens && u.output <= p.maxOutputTokens
            && (e.providerResponse.None? || e.providerResponse.value == response.id)
  {
    Reachable(steps);
    var s := Run(EMPTY, steps);
    var e := s.effects[id];
    assert RowShape(e);
    CostWithinReservation(e.slot.envelope.profile, response.usage);
    var project := e.slot.envelope.project;
    assert AccountBalanced(s, project);
    ReservationInRange(e.slot.envelope.profile);
    WeightWithinTotal(s.effects, id, Reserved(project));
  }

  /** A pending call with no provider response can always be released. */
  lemma PendingCallReleases(steps: seq<Step>, id: nat)
    requires id < |Run(EMPTY, steps).effects| && Pending(Run(EMPTY, steps).effects[id])
    ensures MarkKnownNoEffect(Run(EMPTY, steps), id).Ok? <==> Run(EMPTY, steps).effects[id].providerResponse.None?
  {
    Reachable(steps);
    var s := Run(EMPTY, steps);
    var e := s.effects[id];
    assert RowShape(e);
    var project := e.slot.envelope.project;
    assert AccountBalanced(s, project);
    ReservationInRange(e.slot.envelope.profile);
    WeightWithinTotal(s.effects, id, Reserved(project));
  }

  /** At most one attempt of a paid slot is unfinished or completed; every other attempt is known
      to have failed or to have had no effect, and precedes it. */
  lemma OneLiveAttemptPerSlot(steps: seq<Step>, i: nat, j: nat)
    requires i < j < |Run(EMPTY, steps).effects|
    requires Run(EMPTY, steps).effects[i].slot == Run(EMPTY, steps).effects[j].slot
    ensures var e := Run(EMPTY, steps).effects;
            e[i].state in {KnownFailed, KnownNoEffect} && e[i].attemptNumber < e[j].attemptNumber
  {
    Reachable(steps);
  }

  // ----- what no later operation undoes -----

  predicate Terminal(e: Effect) { e.state in {Completed, KnownFailed, KnownNoEffect} }

  ghost predicate Later(s: Ledger, t: Ledger) {
    && |s.effects| <= |t.effects|
    && (forall i :: 0 <= i < |s.effects| ==>
          && t.effects[i].slot == s.effects[i].slot
          && (Terminal(s.effects[i]) ==> t.effects[i] == s.effects[i])
          && (s.effects[i].state != Prepared ==>
                t.effects[i].state != Prepared && t.effects[i].reserved == s.effects[i].reserved))
    && (forall p :: p in s.accounts ==>
          && p in t.accounts
          && s.accounts[p].settled <= t.accounts[p].settled
          && s.accounts[p].budget.version <= t.accounts[p].budget.version
          && s.accounts[p].budget.authorizedTotal <= t.accounts[p].budget.authorizedTotal
          && s.accounts[p].budget.priorSpend <= t.accounts[p].budget.priorSpend)
    && (forall o :: o in s.configurations ==> o in t.configurations && t.configurations[o] == s.configurations[o])
  }

  lemma StepIsLater(s: Ledger, step: Step)
    ensures Later(s, Apply(s, step))
  {
    match step
    case StepBudget(_, _) =>
    case StepPrepare(_, _) =>
    case StepChild(_, _, _) =>
    case StepReserve(id, bytes) => ReserveIsLater(s, id, bytes);
    case StepUncertain(_, _) =>
    case StepComplete(id, response, usable) => CompleteIsLater(s, id, response, usable);
    case StepNoEffect(id) => NoEffectIsLater(s, id);
  }

  lemma ReserveIsLater(s: Ledger, id: nat, bytes: nat)
    ensures var r := ReserveDispatch(s, id, bytes); r.Ok? ==> Later(s, r.value)
  {
  }

  lemma CompleteIsLater(s: Ledger, id: nat, response: Response, usable: bool)
    ensures var r := Complete(s, id, response, usable); r.Ok? ==> Later(s, r.value)
  {
  }

  lemma NoEffectIsLater(s: Ledger, id: nat)
    ensures var r := MarkKnownNoEffect(s, id); r.Ok? ==> Later(s, r.value)
  {
  }

  lemma {:induction false} RunIsLater(s: Ledger, steps: seq<Step>)
    ensures Later(s, Run(s, steps))
    decreases |steps|
  {
    if steps != [] {
      RunIsLater(s, steps[..|steps| - 1]);
      StepIsLater(Run(s, steps[..|steps| - 1]), steps[|steps| - 1]);
    }
  }

  lemma {:induction false} RunConcat(s: Ledger, before: seq<Step>, more: seq<Step>)
    ensures Run(s, before + more) == Run(Run(s, before), more)
    decreases |more|
  {
    if more == [] {
      assert before + more == before;
    } else {
      RunConcat(s, before, more[..|more| - 1]);
      assert (before + more)[..|before + more| - 1] == before + more[..|more| - 1];
    }
  }

  /** A call settles once: a terminal effect is frozen in every continuation, lifetime spend never
      falls, and a budget version change never resets it. */
  lemma SettledOnce(before: seq<Step>, more: seq<Step>)
    ensures Later(Run(EMPTY, before), Run(EMPTY, before + more))
  {
    RunConcat(EMPTY, before, more);
    RunIsLater(Run(EMPTY, before), more);
  }

  /** Every operation can be repeated after a lost answer: it succeeds again and changes nothing
      more. */
  lemma OperationsReplay(steps: seq<Step>, step: Step)
    requires Perform(Run(EMPTY, steps), step).Ok?
    ensures var t := Apply(Run(EMPTY, steps), step); Perform(t, step) == Ok(t)
  {
    Reachable(steps);
    var s := Run(EMPTY, steps);
    match step
    case StepBudget(_, _) =>
    case StepPrepare(slot, sha) => PrepareReplays(s, slot, sha);
    case StepChild(slot, parent, sha) =>
      assert forall i :: 0 <= i < |s.effects| ==> RowShape(s.effects[i]);
      ChildReplays(s, slot, parent, sha);
    case StepReserve(id, bytes) => ReserveReplays(s, id, bytes);
    case StepUncertain(_, _) =>
    case StepComplete(id, response, usable) => CompleteReplays(s, id, response, usable);
    case StepNoEffect(_) =>
  }

  lemma ReserveReplays(s: Ledger, id: nat, bytes: nat)
    requires ReserveDispatch(s, id, bytes).Ok?
    ensures var t := ReserveDispatch(s, id, bytes).value; ReserveDispatch(t, id, bytes) == Ok(t)
  {
  }

  lemma CompleteReplays(s: Ledger, id: nat, response: Response, usable: bool)
    requires Complete(s, id, response, usable).Ok?
    ensures var t := Complete(s, id, response, usable).value; Complete(t, id, response, usable) == Ok(t)
  {
  }

  lemma LatestAppended(effects: seq<Effect>, e: Effect)
    requires forall i :: 0 <= i < |effects| && effects[i].slot == e.slot ==> effects[i].attemptNumber <= e.attemptNumber
    ensures Latest(effects + [e], e.slot) == Some(|effects|)
  {
    assert (effects + [e])[..|effects|] == effects;
  }

  lemma PrepareReplays(s: Ledger, slot: SlotKey, sha: nat)
    requires PrepareAttempt(s, slot, sha).Ok?
    ensures var t := PrepareAttempt(s, slot, sha).value; PrepareAttempt(t, slot, sha) == Ok(t)
  {
    if Latest(s.effects, slot).None? { LatestAppended(s.effects, NewEffect(slot, 1, None, sha)); }
  }

  lemma ChildReplays(s: Ledger, slot: SlotKey, parent: nat, sha: nat)
    requires SlotChains(s.effects) && (forall i :: 0 <= i < |s.effects| ==> s.effects[i].attemptNumber >= 1)
    requires PrepareRecoveryChild(s, slot, parent, sha).Ok?
    ensures var t := PrepareRecoveryChild(s, slot, parent, sha).value; PrepareRecoveryChild(t, slot, parent, sha) == Ok(t)
  {
    if Latest(s.effects, slot) == Some(parent) {
      var child := NewEffect(slot, s.effects[parent].attemptNumber + 1, Some(parent), sha);
      SuccessorNumbered(s.effects, slot, parent);
      LatestAppended(s.effects, child);
      var t := s.(effects := s.effects + [child]);
      assert PrepareRecoveryChild(s, slot, parent, sha) == Ok(t);
      assert t.effects[parent] == s.effects[parent] && t.effects[|s.effects|] == child;
    }
  }

  /** A finished call accepts only the facts it was finished with. */
  lemma FinishedFactsFixed(s: Ledger, id: nat, response: Response, usable: bool, other: Response, otherUsable: bool)
    requires Complete(s, id, response, usable).Ok?
    requires Complete(Complete(s, id, response, usable).value, id, other, otherUsable).Ok?
    ensures other == response && otherUsable == usable
  {
  }

  /** After a completed call its slot is closed: no continuation ever adds another attempt to it. */
  lemma CompletedSlotClosed(before: seq<Step>, more: seq<Step>, id: nat, j: nat)
    requires id < |Run(EMPTY, before).effects| && Run(EMPTY, before).effects[id].state == Completed
    requires j < |Run(EMPTY, before + more).effects|
    requires Run(EMPTY, before + more).effects[j].slot == Run(EMPTY, before).effects[id].slot
    ensures j <= id
  {
    SettledOnce(before, more);
    Reachable(before + more);
  }

  /** An effect whose outcome is not known stays reserved for in full: its worst-case price is part
      of what its project has reserved. */
  lemma PendingStaysReserved(steps: seq<Step>, id: nat)
    requires id < |Run(EMPTY, steps).effects| && Pending(Run(EMPTY, steps).effects[id])
    ensures var s := Run(EMPTY, steps);
            var key := s.effects[id].slot.envelope;
            key.project in s.accounts && key.profile.DispatchReservation() <= s.accounts[key.project].reserved
  {
    Reachable(steps);
    var s := Run(EMPTY, steps);
    assert RowShape(s.effects[id]);
    var project := s.effects[id].slot.envelope.project;
    assert AccountBalanced(s, project);
    ReservationInRange(s.effects[id].slot.envelope.profile);
    WeightWithinTotal(s.effects, id, Reserved(project));
  }

  /** And it blocks its slot: no operation adds an attempt beside it. */
  lemma UncertainBlocksRetry(steps: seq<Step>, id: nat, step: Step, j: nat)
    requires id < |Run(EMPTY, steps).effects| && Pending(Run(EMPTY, steps).effects[id])
    requires j < |Apply(Run(EMPTY, steps), step).effects|
    requires Apply(Run(EMPTY, steps), step).effects[j].slot == Run(EMPTY, steps).effects[id].slot
    ensures j <= id
  {
    Reachable(steps);
    SlotBlocked(Run(EMPTY, steps), step, id, j);
  }

  lemma SlotBlocked(s: Ledger, step: Step, id: nat, j: nat)
    requires SlotChains(s.effects) && id < |s.effects| && Pending(s.effects[id])
    requires j < |Apply(s, step).effects| && Apply(s, step).effects[j].slot == s.effects[id].slot
    ensures j <= id
  {
    StepIsLater(s, step);
    if step.StepPrepare? {
      PrepareBlocked(s, step.slot, step.requestSha, id);
    } else if step.StepChild? {
      ChildBlocked(s, step.slot, step.parent, step.requestSha, id);
    } else {
      NothingAdded(s, step);
    }
    assert j < |s.effects|;
  }

  lemma PrepareBlocked(s: Ledger, slot: SlotKey, sha: nat, id: nat)
    requires id < |s.effects|
    ensures var r := PrepareAttempt(s, slot, sha);
            r.Ok? && r.value.effects != s.effects ==>
              |r.value.effects| == |s.effects| + 1 && r.value.effects[|s.effects|].slot != s.effects[id].slot
  {
  }

  lemma ChildBlocked(s: Ledger, slot: SlotKey, parent: nat, sha: nat, id: nat)
    requires SlotChains(s.effects) && id < |s.effects| && Pending(s.effects[id])
    ensures var r := PrepareRecoveryChild(s, slot, parent, sha);
            r.Ok? && r.value.effects != s.effects ==>
              |r.value.effects| == |s.effects| + 1 && r.value.effects[|s.effects|].slot != s.effects[id].slot
  {
    LatestIsLast(s.effects, slot);
  }

  lemma NothingAdded(s: Ledger, step: Step)
    requires !step.StepPrepare? && !step.StepChild?
    ensures |Apply(s, step).effects| == |s.effects|
  {
  }
}
