/**
 Repeating an operation of the model-usage ledger after its answer was lost, however much happened
 in between: which operations always succeed again, and exactly when the others do.
 */
module ModelUsageReplay {
  import opened Wrappers
  import opened ModelUsage
  import opened ModelUsageLedger
  import opened ModelUsageGuarantees

  // ----- what later operations leave of a row -----

  predicate RowKept(a: Effect, b: Effect) {
    && b.slot == a.slot && b.requestSha == a.requestSha && b.attemptNumber == a.attemptNumber && b.parent == a.parent
    && (a.state != Prepared ==> b.state != Prepared && b.requestBytes == a.requestBytes)
    && (a.state == Uncertain ==> b == a || Terminal(b))
    && (Terminal(a) ==> b == a)
  }

  ghost predicate RowsKept(s: Ledger, t: Ledger) {
    |s.effects| <= |t.effects| && forall i :: 0 <= i < |s.effects| ==> RowKept(s.effects[i], t.effects[i])
  }

  lemma RowKeptAgain(a: Effect, b: Effect, c: Effect)
    requires RowKept(a, b) && RowKept(b, c)
    ensures RowKept(a, c)
  {
  }

  lemma StepKeepsRows(s: Ledger, step: Step)
    ensures RowsKept(s, Apply(s, step))
  {
    match step
    case StepBudget(_, _) =>
    case StepPrepare(_, _) =>
    case StepChild(_, _, _) =>
    case StepReserve(id, bytes) => ReserveKeepsRows(s, id, bytes);
    case StepUncertain(_, _) =>
    case StepComplete(id, response, usable) => CompleteKeepsRows(s, id, response, usable);
    case StepNoEffect(id) => NoEffectKeepsRows(s, id);
  }

  lemma ReserveKeepsRows(s: Ledger, id: nat, bytes: nat)
    ensures var r := ReserveDispatch(s, id, bytes); r.Ok? ==> RowsKept(s, r.value)
  {
  }

  lemma CompleteKeepsRows(s: Ledger, id: nat, response: Response, usable: bool)
    ensures var r := Complete(s, id, response, usable); r.Ok? ==> RowsKept(s, r.value)
  {
  }

  lemma NoEffectKeepsRows(s: Ledger, id: nat)
    ensures var r := MarkKnownNoEffect(s, id); r.Ok? ==> RowsKept(s, r.value)
  {
  }

  lemma {:induction false} RunKeepsRows(s: Ledger, steps: seq<Step>)
    ensures RowsKept(s, Run(s, steps))
    decreases |steps|
  {
    if steps != [] {
      var mid := Run(s, steps[..|steps| - 1]);
      RunKeepsRows(s, steps[..|steps| - 1]);
      StepKeepsRows(mid, steps[|steps| - 1]);
      forall i | 0 <= i < |s.effects| ensures RowKept(s.effects[i], Run(s, steps).effects[i]) {
        RowKeptAgain(s.effects[i], mid.effects[i], Run(s, steps).effects[i]);
      }
    }
  }

  // ----- the attempts of one slot -----

  /** A later attempt of a slot asks for the same request, and its parent is an attempt of the slot
      that stands before it and not before any other earlier one. */
  predicate Descends(effects: seq<Effect>, i: nat, j: nat)
    requires i < |effects| && j < |effects|
  {
    && effects[j].requestSha == effects[i].requestSha
    && effects[j].parent.Some? && i <= effects[j].parent.value < j
    && effects[effects[j].parent.value].slot == effects[j].slot
  }

  ghost predicate Lineage(effects: seq<Effect>) {
    forall i, j :: 0 <= i < j < |effects| && effects[i].slot == effects[j].slot ==> Descends(effects, i, j)
  }

  lemma SameRowsLineage(s: Ledger, t: Ledger)
    requires Lineage(s.effects) && RowsKept(s, t) && |t.effects| == |s.effects|
    ensures Lineage(t.effects)
  {
    forall i, j | 0 <= i < j < |t.effects| && t.effects[i].slot == t.effects[j].slot ensures Descends(t.effects, i, j) {
      assert RowKept(s.effects[i], t.effects[i]) && RowKept(s.effects[j], t.effects[j]);
      assert Descends(s.effects, i, j);
      var p := s.effects[j].parent.value;
      assert RowKept(s.effects[p], t.effects[p]);
    }
  }

  lemma AppendLineage(effects: seq<Effect>, e: Effect)
    requires Lineage(effects)
    requires forall i :: 0 <= i < |effects| && effects[i].slot == e.slot ==>
               && e.requestSha == effects[i].requestSha
               && e.parent.Some? && i <= e.parent.value < |effects| && effects[e.parent.value].slot == e.slot
    ensures Lineage(effects + [e])
  {
    var all := effects + [e];
    forall i, j | 0 <= i < j < |all| && all[i].slot == all[j].slot ensures Descends(all, i, j) {
      if j < |effects| { assert Descends(effects, i, j); }
    }
  }

  lemma ChildLineage(s: Ledger, slot: SlotKey, parent: nat, sha: nat)
    requires SlotChains(s.effects) && Lineage(s.effects) && PrepareRecoveryChild(s, slot, parent, sha).Ok?
    ensures Lineage(PrepareRecoveryChild(s, slot, parent, sha).value.effects)
  {
    if Latest(s.effects, slot) == Some(parent) {
      LatestIsLast(s.effects, slot);
      forall i | 0 <= i < |s.effects| && s.effects[i].slot == slot ensures i <= parent && s.effects[i].requestSha == sha {
        if i < parent { assert Descends(s.effects, i, parent); }
      }
      AppendLineage(s.effects, NewEffect(slot, s.effects[parent].attemptNumber + 1, Some(parent), sha));
    }
  }

  lemma PrepareLineage(s: Ledger, slot: SlotKey, sha: nat)
    requires Lineage(s.effects) && PrepareAttempt(s, slot, sha).Ok?
    ensures Lineage(PrepareAttempt(s, slot, sha).value.effects)
  {
    if Latest(s.effects, slot).None? { AppendLineage(s.effects, NewEffect(slot, 1, None, sha)); }
  }

  lemma StepKeepsLineage(s: Ledger, step: Step)
    requires SlotChains(s.effects) && Lineage(s.effects)
    ensures Lineage(Apply(s, step).effects)
  {
    if step.StepPrepare? {
      if PrepareAttempt(s, step.slot, step.requestSha).Ok? { PrepareLineage(s, step.slot, step.requestSha); }
    } else if step.StepChild? {
      if PrepareRecoveryChild(s, step.slot, step.parent, step.requestSha).Ok? { ChildLineage(s, step.slot, step.parent, step.requestSha); }
    } else {
      NothingAdded(s, step);
      StepKeepsRows(s, step);
      SameRowsLineage(s, Apply(s, step));
    }
  }

  lemma {:induction false} RunKeepsLineage(steps: seq<Step>)
    ensures Lineage(Run(EMPTY, steps).effects)
    decreases |steps|
  {
    if steps != [] {
      RunKeepsLineage(steps[..|steps| - 1]);
      Reachable(steps[..|steps| - 1]);
      StepKeepsLineage(Run(EMPTY, steps[..|steps| - 1]), steps[|steps| - 1]);
    }
  }

  // ----- which operations still replay -----

  /** `s` is the ledger after the operation, `t` any later one. Budgets, first attempts and ends of
      calls are repeated for ever; a reservation as long as the call may still be dispatched again;
      an uncertainty until the call ends; a recovery attempt until it is dispatched. */
  predicate StillReplays(s: Ledger, t: Ledger, step: Step) {
    match step
    case StepBudget(_, _) => true
    case StepPrepare(_, _) => true
    case StepComplete(_, _, _) => true
    case StepNoEffect(_) => true
    case StepReserve(id, _) => id < |t.effects| && Dispatchable(t.effects[id])
    case StepUncertain(id, _) => id < |t.effects| && t.effects[id].state == Uncertain
    case StepChild(slot, _, _) =>
      var child := Latest(s.effects, slot);
      child.Some? && child.value < |t.effects| && t.effects[child.value].state == Prepared
  }

  predicate Dispatchable(e: Effect) {
    e.state == Dispatching || (e.slot.owner == Checker && e.state in {Uncertain, Completed})
  }

  lemma ReserveReplaysAfter(s: Ledger, t: Ledger, id: nat, bytes: nat)
    requires ReserveDispatch(s, id, bytes) == Ok(s) && id < |s.effects| && s.effects[id].state != Prepared && RowsKept(s, t)
    ensures ReserveDispatch(t, id, bytes) == if Dispatchable(t.effects[id]) then Ok(t) else Refused("model_call_not_dispatchable")
  {
    assert RowKept(s.effects[id], t.effects[id]);
  }

  lemma EndReplaysAfter(s: Ledger, t: Ledger, id: nat, response: Response, usable: bool)
    requires id < |s.effects| && Terminal(s.effects[id]) && RowsKept(s, t)
    ensures Complete(s, id, response, usable) == Ok(s) ==> Complete(t, id, response, usable) == Ok(t)
    ensures MarkKnownNoEffect(s, id) == Ok(s) ==> MarkKnownNoEffect(t, id) == Ok(t)
  {
    assert RowKept(s.effects[id], t.effects[id]);
  }

  lemma PrepareReplaysAfter(s: Ledger, t: Ledger, slot: SlotKey, sha: nat)
    requires PrepareAttempt(s, slot, sha) == Ok(s) && Latest(s.effects, slot).Some? && RowsKept(s, t) && Lineage(t.effects)
    ensures PrepareAttempt(t, slot, sha) == Ok(t)
  {
    var i, j := Latest(s.effects, slot).value, Latest(t.effects, slot);
    assert RowKept(s.effects[i], t.effects[i]);
    assert j.Some?;
    if i < j.value { assert Descends(t.effects, i, j.value); }
    if j.value < i { assert Descends(t.effects, j.value, i); }
  }

  /** After a recovery attempt was made or found it is the newest of its slot. */
  lemma ChildReplaysAfter(s: Ledger, t: Ledger, slot: SlotKey, parent: nat, sha: nat)
    requires PrepareRecoveryChild(s, slot, parent, sha) == Ok(s) && Latest(s.effects, slot) != Some(parent)
    requires SlotChains(s.effects) && RowsKept(s, t) && SlotChains(t.effects) && Lineage(t.effects)
    ensures Latest(s.effects, slot).Some?
    ensures var c := Latest(s.effects, slot).value;
            if t.effects[c].state == Prepared then PrepareRecoveryChild(t, slot, parent, sha) == Ok(t)
            else PrepareRecoveryChild(t, slot, parent, sha) == Refused("model_call_parent_superseded")
  {
    var c := Latest(s.effects, slot).value;
    assert RowKept(s.effects[c], t.effects[c]) && RowKept(s.effects[parent], t.effects[parent]);
    LatestIsLast(s.effects, slot);
    LatestIsLast(t.effects, slot);
    var newest := Latest(t.effects, slot).value;
    assert parent < c <= newest;
    assert Descends(t.effects, parent, newest);
    if c < newest { assert Descends(t.effects, c, newest); }
  }

  lemma BudgetReplaysAfter(s: Ledger, t: Ledger, operation: nat, c: Configuration)
    requires ProvisionBudget(s, operation, c) == Ok(s) && operation in s.configurations && Later(s, t)
    ensures ProvisionBudget(t, operation, c) == Ok(t)
  {
  }

  /** What an operation that succeeded has left behind. */
  predicate Left(s: Ledger, step: Step) {
    match step
    case StepBudget(operation, _) => operation in s.configurations
    case StepPrepare(slot, _) => Latest(s.effects, slot).Some?
    case StepChild(slot, parent, _) => Latest(s.effects, slot) != Some(parent)
    case StepReserve(id, _) => id < |s.effects| && s.effects[id].state != Prepared
    case StepUncertain(id, response) =>
      id < |s.effects| && s.effects[id].state == Uncertain && s.effects[id].providerResponse == response
    case StepComplete(id, _, _) => id < |s.effects| && Terminal(s.effects[id])
    case StepNoEffect(id) => id < |s.effects| && Terminal(s.effects[id])
  }

  lemma SuccessLeft(s: Ledger, step: Step)
    requires SlotChains(s.effects) && Perform(s, step).Ok?
    ensures Left(Apply(s, step), step)
  {
    match step
    case StepPrepare(slot, sha) =>
      if Latest(s.effects, slot).None? { LatestAppended(s.effects, NewEffect(slot, 1, None, sha)); }
    case StepChild(slot, parent, sha) => ChildLeft(s, slot, parent, sha);
    case StepComplete(id, response, usable) => CompleteLeft(s, id, response, usable);
    case _ =>
  }

  lemma ChildLeft(s: Ledger, slot: SlotKey, parent: nat, sha: nat)
    requires SlotChains(s.effects) && PrepareRecoveryChild(s, slot, parent, sha).Ok?
    ensures Latest(PrepareRecoveryChild(s, slot, parent, sha).value.effects, slot) != Some(parent)
  {
    if Latest(s.effects, slot) == Some(parent) {
      SuccessorNumbered(s.effects, slot, parent);
      LatestAppended(s.effects, NewEffect(slot, s.effects[parent].attemptNumber + 1, Some(parent), sha));
    }
  }

  lemma CompleteLeft(s: Ledger, id: nat, response: Response, usable: bool)
    requires Complete(s, id, response, usable).Ok?
    ensures id < |s.effects| && Terminal(Complete(s, id, response, usable).value.effects[id])
  {
  }

  /** An operation that succeeded can be repeated after any continuation exactly when it still
      replays, and then changes nothing more. */
  lemma ReplaysAfter(before: seq<Step>, step: Step, more: seq<Step>)
    requires Perform(Run(EMPTY, before), step).Ok?
    ensures var s := Apply(Run(EMPTY, before), step);
            var t := Run(s, more);
            && (Perform(t, step).Ok? <==> StillReplays(s, t, step))
            && (Perform(t, step).Ok? ==> Perform(t, step) == Ok(t))
  {
    var s := Apply(Run(EMPTY, before), step);
    var t := Run(s, more);
    OperationsReplay(before, step);
    Reachable(before);
    SuccessLeft(Run(EMPTY, before), step);
    RunKeepsRows(s, more);
    After(before, step, more);
    match step
    case StepBudget(operation, c) => RunIsLater(s, more); BudgetReplaysAfter(s, t, operation, c);
    case StepPrepare(slot, sha) => PrepareReplaysAfter(s, t, slot, sha);
    case StepChild(slot, parent, sha) => ChildReplaysAfter(s, t, slot, parent, sha);
    case StepReserve(id, bytes) => ReserveReplaysAfter(s, t, id, bytes);
    case StepUncertain(id, _) => assert RowKept(s.effects[id], t.effects[id]);
    case StepComplete(id, response, usable) => EndReplaysAfter(s, t, id, response, usable);
    case StepNoEffect(id) => EndReplaysAfter(s, t, id, Response("", 0, 0, Usage(0, 0, 0, 0)), true);
  }

  lemma After(before: seq<Step>, step: Step, more: seq<Step>)
    ensures var s := Apply(Run(EMPTY, before), step);
            var t := Run(s, more);
            SlotChains(s.effects) && SlotChains(t.effects) && Lineage(t.effects)
  {
    assert (before + [step])[..|before|] == before;
    Reachable(before + [step]);
    RunConcat(EMPTY, before + [step], more);
    Reachable(before + [step] + more);
    RunKeepsLineage(before + [step] + more);
  }
}
