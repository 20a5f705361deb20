/**
 Conservation and caps of the model-usage ledger over every run of its operations.
 */
module ModelUsageLedger {
  import opened Wrappers
  import opened ModelUsage

  // ----- sums over effect rows -----

  lemma {:induction false} TotalUpdate(effects: seq<Effect>, i: nat, e: Effect, m: Measure)
    requires i < |effects|
    ensures Total(effects[i := e], m) == Total(effects, m) - Weight(m, effects[i]) + Weight(m, e)
    decreases |effects|
  {
    var last := |effects| - 1;
    if i == last {
      assert effects[i := e][..last] == effects[..last];
    } else {
      TotalUpdate(effects[..last], i, e, m);
      assert effects[i := e][..last] == effects[..last][i := e];
    }
  }

  lemma TotalAppend(effects: seq<Effect>, e: Effect, m: Measure)
    ensures Total(effects + [e], m) == Total(effects, m) + Weight(m, e)
  {
    assert (effects + [e])[..|effects|] == effects;
  }

  lemma {:induction false} WeightWithinTotal(effects: seq<Effect>, i: nat, m: Measure)
    requires i < |effects|
    ensures Weight(m, effects[i]) <= Total(effects, m)
    decreases |effects|
  {
    if i < |effects| - 1 { WeightWithinTotal(effects[..|effects| - 1], i, m); }
  }

  // ----- prices -----

  lemma TimesMonotone(a: nat, b: nat, x: nat, y: nat)
    requires a <= b && x <= y
    ensures a * x <= b * y
  {
    assert a * x <= b * x <= b * y;
  }

  /** One dispatch fits a run, and its reservation is never zero: the range checks on it cannot fire. */
  lemma ReservationInRange(p: Profile)
    requires p.Valid()
    ensures 0 < p.DispatchReservation() <= p.RunReservation()
  {
    TimesMonotone(p.maxInputTokens, p.maxTotalInputTokens, p.pricing.InputRate(), p.pricing.InputRate());
    TimesMonotone(p.maxOutputTokens, p.maxTotalOutputTokens, p.pricing.output, p.pricing.output);
    TimesMonotone(1, p.maxInputTokens, p.pricing.InputRate(), p.pricing.InputRate());
    TimesMonotone(1, p.maxOutputTokens, p.pricing.output, p.pricing.output);
  }

  /** Consistent usage within a profile's token limits always has a cost, and never one above
      the dispatch reservation: the whole-run cost check cannot fire. */
  lemma CostWithinReservation(p: Profile, u: Usage)
    requires p.Valid()
    ensures Cost(p, u).Ok? <==> u.Valid() && u.input <= p.maxInputTokens && u.output <= p.maxOutputTokens
    ensures Cost(p, u).Ok? ==> Cost(p, u).value <= p.DispatchReservation()
  {
    if u.Valid() && u.input <= p.maxInputTokens && u.output <= p.maxOutputTokens {
      var rate := p.pricing.InputRate();
      var uncached := u.input - u.cachedInput;
      TimesMonotone(uncached, uncached, p.pricing.uncachedInput, rate);
      TimesMonotone(u.cachedInput, u.cachedInput, p.pricing.cachedInput, rate);
      assert uncached * rate + u.cachedInput * rate == u.input * rate;
      TimesMonotone(u.input, p.maxInputTokens, rate, rate);
      TimesMonotone(u.output, p.maxOutputTokens, p.pricing.output, p.pricing.output);
      ReservationInRange(p);
    }
  }

  // ----- the invariant -----

  /** The columns an effect may have filled in each state. */
  ghost predicate RowShape(e: Effect) {
    var p := e.slot.envelope.profile;
    && p.Valid() && p.project == e.slot.envelope.project && e.attemptNumber >= 1
    && (e.state == Prepared <==> e.reserved.None?)
    && (e.state == Prepared ==> e.requestBytes.None?)
    && (e.state != Prepared ==> e.reserved == Some(p.DispatchReservation()) && e.requestBytes.Some?)
    && (if e.state in {Completed, KnownFailed}
        then && e.settled.Some? && e.settled.value <= p.DispatchReservation()
             && e.responseBytes.Some? && e.responseBytes.value <= p.maxResponseBytes
             && e.usage.Some? && e.usage.value.input <= p.maxInputTokens && e.usage.value.output <= p.maxOutputTokens
             && Cost(p, e.usage.value) == Ok(e.settled.value)
        else e.settled.None? && e.responseBytes.None? && e.usage.None?)
  }

  ghost predicate AccountBalanced(s: Ledger, p: nat) {
    if p in s.accounts then
      var a := s.accounts[p];
      && a.budget.Valid()
      && a.reserved == Total(s.effects, Reserved(p))
      && a.settled == Total(s.effects, Settled(p))
      && a.reserved + a.settled <= a.budget.limit
    else
      Total(s.effects, Reserved(p)) == 0 && Total(s.effects, Settled(p)) == 0
  }

  ghost predicate WithinRunCaps(effects: seq<Effect>, run: EnvelopeKey, owner: Owner) {
    var p := run.profile;
    var pending := Total(effects, RunPending(run, owner));
    && Total(effects, RunDispatches(run, owner)) <= p.maxCalls
    && Total(effects, RunReserved(run, owner)) + Total(effects, RunSettled(run, owner)) <= p.RunReservation()
    && Total(effects, RunRequestBytes(run, owner)) <= p.maxTotalRequestBytes
    && Total(effects, RunResponseBytes(run, owner)) + pending * p.maxResponseBytes <= p.maxTotalResponseBytes
    && Total(effects, RunInput(run, owner)) + pending * p.maxInputTokens <= p.maxTotalInputTokens
    && Total(effects, RunOutput(run, owner)) + pending * p.maxOutputTokens <= p.maxTotalOutputTokens
  }

  /** Attempts of one slot are numbered in order, and only a known terminal one has a successor. */
  ghost predicate SlotChains(effects: seq<Effect>) {
    forall i, j :: 0 <= i < j < |effects| && effects[i].slot == effects[j].slot ==>
      effects[i].attemptNumber < effects[j].attemptNumber && RetryableParent(effects[i])
  }

  ghost predicate Rows(effects: seq<Effect>) {
    forall i :: 0 <= i < |effects| ==> RowShape(effects[i])
  }

  ghost predicate Inv(s: Ledger) {
    && Rows(s.effects)
    && SlotChains(s.effects)
    && (forall p :: AccountBalanced(s, p))
    && (forall run, owner :: WithinRunCaps(s.effects, run, owner))
  }

  lemma {:induction false} LatestIsLast(effects: seq<Effect>, slot: SlotKey)
    requires SlotChains(effects)
    ensures var r := Latest(effects, slot);
            r.Some? ==> forall j :: r.value < j < |effects| ==> effects[j].slot != slot
    decreases |effects|
  {
    if effects != [] {
      var last := |effects| - 1;
      LatestIsLast(effects[..last], slot);
    }
  }

  // ----- every operation keeps it -----

  lemma TotalsUpdate(effects: seq<Effect>, i: nat, e: Effect)
    requires i < |effects|
    ensures forall m :: Total(effects[i := e], m) == Total(effects, m) - Weight(m, effects[i]) + Weight(m, e)
  {
    forall m ensures Total(effects[i := e], m) == Total(effects, m) - Weight(m, effects[i]) + Weight(m, e) {
      TotalUpdate(effects, i, e, m);
    }
  }

  /** A row outside the run leaves the run's caps alone. */
  lemma OtherRunKeepsCaps(effects: seq<Effect>, i: nat, e: Effect, run: EnvelopeKey, owner: Owner)
    requires i < |effects| && e.slot == effects[i].slot && !InRun(e, run, owner)
    requires WithinRunCaps(effects, run, owner)
    ensures WithinRunCaps(effects[i := e], run, owner)
  {
    TotalsUpdate(effects, i, e);
  }

  lemma RowsUpdate(effects: seq<Effect>, i: nat, e: Effect)
    requires Rows(effects) && SlotChains(effects) && i < |effects| && RowShape(e)
    requires e.slot == effects[i].slot && e.attemptNumber == effects[i].attemptNumber
    requires RetryableParent(effects[i]) ==> RetryableParent(e)
    ensures Rows(effects[i := e]) && SlotChains(effects[i := e])
  {
  }

  lemma AppendKeepsInv(s: Ledger, e: Effect)
    requires Inv(s) && RowShape(e) && e.state == Prepared
    requires forall i :: 0 <= i < |s.effects| && s.effects[i].slot == e.slot ==>
               s.effects[i].attemptNumber < e.attemptNumber && RetryableParent(s.effects[i])
    ensures Inv(s.(effects := s.effects + [e]))
  {
    var t := s.(effects := s.effects + [e]);
    forall m ensures Total(t.effects, m) == Total(s.effects, m) {
      TotalAppend(s.effects, e, m);
    }
    forall p ensures AccountBalanced(t, p) {
      assert AccountBalanced(s, p);
    }
    forall run, owner ensures WithinRunCaps(t.effects, run, owner) {
      assert WithinRunCaps(s.effects, run, owner);
    }
  }

  lemma BudgetKeepsInv(s: Ledger, operation: nat, c: Configuration)
    requires Inv(s)
    ensures ProvisionBudget(s, operation, c).Ok? ==> Inv(ProvisionBudget(s, operation, c).value)
  {
    var r := ProvisionBudget(s, operation, c);
    if r.Ok? {
      forall p ensures AccountBalanced(r.value, p) {
        assert AccountBalanced(s, p);
      }
    }
  }

  lemma PrepareKeepsInv(s: Ledger, slot: SlotKey, sha: nat)
    requires Inv(s)
    ensures PrepareAttempt(s, slot, sha).Ok? ==> Inv(PrepareAttempt(s, slot, sha).value)
  {
    var r := PrepareAttempt(s, slot, sha);
    if r.Ok? && Latest(s.effects, slot).None? {
      AppendKeepsInv(s, NewEffect(slot, 1, None, sha));
    }
  }

  lemma SuccessorNumbered(effects: seq<Effect>, slot: SlotKey, parent: nat)
    requires SlotChains(effects) && Latest(effects, slot) == Some(parent) && RetryableParent(effects[parent])
    ensures forall i :: 0 <= i < |effects| && effects[i].slot == slot ==>
              effects[i].attemptNumber < effects[parent].attemptNumber + 1 && RetryableParent(effects[i])
  {
    LatestIsLast(effects, slot);
  }

  lemma ChildKeepsInv(s: Ledger, slot: SlotKey, parent: nat, sha: nat)
    requires Inv(s)
    ensures PrepareRecoveryChild(s, slot, parent, sha).Ok? ==> Inv(PrepareRecoveryChild(s, slot, parent, sha).value)
  {
    var r := PrepareRecoveryChild(s, slot, parent, sha);
    if r.Ok? && r.value != s {
      SuccessorNumbered(s.effects, slot, parent);
      assert RowShape(s.effects[parent]);
      AppendKeepsInv(s, NewEffect(slot, s.effects[parent].attemptNumber + 1, Some(parent), sha));
    }
  }

  lemma ReserveKeepsCaps(effects: seq<Effect>, id: nat, e: Effect, run: EnvelopeKey, owner: Owner)
    requires id < |effects| && effects[id].state == Prepared && e.slot == effects[id].slot && e.state == Dispatching
    requires effects[id].settled.None? && effects[id].requestBytes.None? && effects[id].responseBytes.None? && effects[id].usage.None?
    requires e.reserved == Some(e.slot.envelope.profile.DispatchReservation())
    requires e.settled.None? && e.responseBytes.None? && e.usage.None?
    requires RunHasRoom(effects, e.slot.envelope, e.slot.owner, OrZero(e.requestBytes))
    requires WithinRunCaps(effects, run, owner)
    ensures WithinRunCaps(effects[id := e], run, owner)
  {
    if InRun(e, run, owner) {
      TotalsUpdate(effects, id, e);
      assert Total(effects[id := e], RunPending(run, owner)) == Total(effects, RunPending(run, owner)) + 1;
    } else {
      OtherRunKeepsCaps(effects, id, e, run, owner);
    }
  }

  lemma ReserveKeepsInv(s: Ledger, id: nat, bytes: nat)
    requires Inv(s)
    ensures ReserveDispatch(s, id, bytes).Ok? ==> Inv(ReserveDispatch(s, id, bytes).value)
  {
    var r := ReserveDispatch(s, id, bytes);
    if r.Ok? && s.effects[id].state == Prepared {
      var t, e := r.value, r.value.effects[id];
      assert RowShape(s.effects[id]);
      RowsUpdate(s.effects, id, e);
      TotalsUpdate(s.effects, id, e);
      forall p ensures AccountBalanced(t, p) {
        assert AccountBalanced(s, p);
      }
      forall run, owner ensures WithinRunCaps(t.effects, run, owner) {
        ReserveKeepsCaps(s.effects, id, e, run, owner);
      }
    }
  }

  lemma UncertainKeepsInv(s: Ledger, id: nat, response: Option<string>)
    requires Inv(s)
    ensures MarkUncertain(s, id, response).Ok? ==> Inv(MarkUncertain(s, id, response).value)
  {
    var r := MarkUncertain(s, id, response);
    if r.Ok? && s.effects[id].state == Dispatching {
      var t, e := r.value, r.value.effects[id];
      assert RowShape(s.effects[id]);
      RowsUpdate(s.effects, id, e);
      TotalsUpdate(s.effects, id, e);
      assert forall m :: Weight(m, e) == Weight(m, s.effects[id]);
      assert forall m :: Total(t.effects, m) == Total(s.effects, m);
      forall p ensures AccountBalanced(t, p) {
        assert AccountBalanced(s, p);
      }
      forall run, owner ensures WithinRunCaps(t.effects, run, owner) {
        assert WithinRunCaps(s.effects, run, owner);
      }
    }
  }

  /** A pending row that ends keeps its account balanced: what it settles fits what it reserved. */
  lemma EndKeepsAccounts(s: Ledger, id: nat, e: Effect)
    requires Inv(s) && id < |s.effects| && Pending(s.effects[id])
    requires e.slot == s.effects[id].slot && RowShape(e) && e.state in {Completed, KnownFailed, KnownNoEffect}
    ensures Settle(s, s.effects[id], OrZero(e.settled)).Ok?
    ensures var t := s.(accounts := Settle(s, s.effects[id], OrZero(e.settled)).value, effects := s.effects[id := e]);
            forall p :: AccountBalanced(t, p)
  {
    var was := s.effects[id];
    var project := was.slot.envelope.project;
    assert RowShape(was);
    assert AccountBalanced(s, project);
    ReservationInRange(was.slot.envelope.profile);
    WeightWithinTotal(s.effects, id, Reserved(project));
    var t := s.(accounts := Settle(s, was, OrZero(e.settled)).value, effects := s.effects[id := e]);
    TotalsUpdate(s.effects, id, e);
    forall p ensures AccountBalanced(t, p) {
      assert AccountBalanced(s, p);
    }
  }

  /** Room held for `pending` worst cases, when one of them ends having used no more than its share. */
  lemma ShareUsed(total: nat, pending: nat, share: nat, used: nat, cap: nat)
    requires 1 <= pending && used <= share && total + pending * share <= cap
    ensures (total + used) + (pending - 1) * share <= cap
  {
    assert (pending - 1) * share == pending * share - share;
  }

  /** And it keeps every run's caps: what it used fits the worst case it held. */
  lemma EndKeepsCaps(effects: seq<Effect>, id: nat, e: Effect, run: EnvelopeKey, owner: Owner)
    requires id < |effects| && Pending(effects[id]) && RowShape(effects[id]) && WithinRunCaps(effects, run, owner)
    requires e.slot == effects[id].slot && e.requestBytes == effects[id].requestBytes
    requires RowShape(e) && e.state in {Completed, KnownFailed, KnownNoEffect}
    ensures WithinRunCaps(effects[id := e], run, owner)
  {
    if InRun(e, run, owner) {
      TotalsUpdate(effects, id, e);
      WeightWithinTotal(effects, id, RunPending(run, owner));
      var pending := Total(effects, RunPending(run, owner));
      ShareUsed(Total(effects, RunResponseBytes(run, owner)), pending, run.profile.maxResponseBytes,
                OrZero(e.responseBytes), run.profile.maxTotalResponseBytes);
      ShareUsed(Total(effects, RunInput(run, owner)), pending, run.profile.maxInputTokens,
                Weight(RunInput(run, owner), e), run.profile.maxTotalInputTokens);
      ShareUsed(Total(effects, RunOutput(run, owner)), pending, run.profile.maxOutputTokens,
                Weight(RunOutput(run, owner), e), run.profile.maxTotalOutputTokens);
    } else {
      OtherRunKeepsCaps(effects, id, e, run, owner);
    }
  }

  lemma EndKeepsInv(s: Ledger, id: nat, e: Effect)
    requires Inv(s) && id < |s.effects| && Pending(s.effects[id])
    requires e.slot == s.effects[id].slot && e.requestBytes == s.effects[id].requestBytes
    requires e.attemptNumber == s.effects[id].attemptNumber
    requires RowShape(e) && e.state in {Completed, KnownFailed, KnownNoEffect}
    ensures Settle(s, s.effects[id], OrZero(e.settled)).Ok?
    ensures Inv(s.(accounts := Settle(s, s.effects[id], OrZero(e.settled)).value, effects := s.effects[id := e]))
  {
    EndKeepsAccounts(s, id, e);
    RowsUpdate(s.effects, id, e);
    var after := s.effects[id := e];
    forall run, owner ensures WithinRunCaps(after, run, owner) {
      EndKeepsCaps(s.effects, id, e, run, owner);
    }
  }

  lemma CompleteKeepsInv(s: Ledger, id: nat, response: Response, usable: bool)
    requires Inv(s)
    ensures Complete(s, id, response, usable).Ok? ==> Inv(Complete(s, id, response, usable).value)
  {
    var r := Complete(s, id, response, usable);
    if r.Ok? && Pending(s.effects[id]) {
      CostWithinReservation(s.effects[id].slot.envelope.profile, response.usage);
      EndKeepsInv(s, id, r.value.effects[id]);
    }
  }

  lemma NoEffectKeepsInv(s: Ledger, id: nat)
    requires Inv(s)
    ensures MarkKnownNoEffect(s, id).Ok? ==> Inv(MarkKnownNoEffect(s, id).value)
  {
    var r := MarkKnownNoEffect(s, id);
    if r.Ok? && Pending(s.effects[id]) {
      EndKeepsInv(s, id, r.value.effects[id]);
    }
  }

  lemma StepKeepsInv(s: Ledger, step: Step)
    requires Inv(s)
    ensures Inv(Apply(s, step))
  {
    match step
    case StepBudget(operation, c) => BudgetKeepsInv(s, operation, c);
    case StepPrepare(slot, sha) => PrepareKeepsInv(s, slot, sha);
    case StepChild(slot, parent, sha) => ChildKeepsInv(s, slot, parent, sha);
    case StepReserve(id, bytes) => ReserveKeepsInv(s, id, bytes);
    case StepUncertain(id, response) => UncertainKeepsInv(s, id, response);
    case StepComplete(id, response, usable) => CompleteKeepsInv(s, id, response, usable);
    case StepNoEffect(id) => NoEffectKeepsInv(s, id);
  }

  lemma {:induction false} RunKeepsInv(s: Ledger, steps: seq<Step>)
    requires Inv(s)
    ensures Inv(Run(s, steps))
    decreases |steps|
  {
    if steps != [] {
      RunKeepsInv(s, steps[..|steps| - 1]);
      StepKeepsInv(Run(s, steps[..|steps| - 1]), steps[|steps| - 1]);
    }
  }
}
