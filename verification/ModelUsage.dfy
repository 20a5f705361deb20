/**
 The ledger of paid model calls: project budgets, whole-run envelopes, paid slots and the
 provider effects under them. Checker and setup owners share one ledger; every operation runs
 under the locks of its envelope, slot and project account, so a run is a sequence of operations.
 */
module ModelUsage {
  import opened Wrappers

  /** Integer nano-USD. */
  type Nanodollars = nat

  const MAX_RESERVATION: nat := 9_000_000_000_000_000_000

  datatype Pricing = Pricing(uncachedInput: Nanodollars, cachedInput: Nanodollars, output: Nanodollars)
  {
    function InputRate(): nat { if uncachedInput >= cachedInput then uncachedInput else cachedInput }
  }

  /** The cost-bearing part of an immutable operator profile. */
  datatype Profile = Profile(
    project: nat, snapshot: nat,
    maxRequestBytes: nat, maxResponseBytes: nat, maxInputTokens: nat, maxOutputTokens: nat, maxCalls: nat,
    maxTotalRequestBytes: nat, maxTotalResponseBytes: nat, maxTotalInputTokens: nat, maxTotalOutputTokens: nat,
    pricing: Pricing)
  {
    /** What whole-run spending may reach. */
    function RunReservation(): nat {
      maxTotalInputTokens * pricing.InputRate() + maxTotalOutputTokens * pricing.output
    }

    /** What one dispatch reserves. */
    function DispatchReservation(): nat {
      maxInputTokens * pricing.InputRate() + maxOutputTokens * pricing.output
    }

    /** What publication of a profile checks, its run reservation included. */
    predicate Valid() {
      && 1 <= maxRequestBytes <= maxTotalRequestBytes <= maxRequestBytes * maxCalls
      && 1 <= maxResponseBytes <= maxTotalResponseBytes <= maxResponseBytes * maxCalls
      && 1 <= maxInputTokens <= maxTotalInputTokens <= maxInputTokens * maxCalls
      && 1 <= maxOutputTokens <= maxTotalOutputTokens <= maxOutputTokens * maxCalls
      && 1 <= maxCalls <= 100
      && (pricing.InputRate() > 0 || pricing.output > 0)
      && 0 < RunReservation() <= MAX_RESERVATION
    }
  }

  datatype Usage = Usage(input: nat, cachedInput: nat, output: nat, reasoning: nat)
  {
    predicate Valid() { cachedInput <= input && reasoning <= output }

    function Uncached(): nat
      requires Valid()
    {
      input - cachedInput
    }
  }

  /** The whole-run owner of a call; `run` stands for the rest of the identity. */
  datatype EnvelopeKey = EnvelopeKey(project: nat, profile: Profile, run: nat)

  datatype Owner = Checker | Setup

  datatype SlotKey = SlotKey(owner: Owner, envelope: EnvelopeKey, index: nat)

  datatype EffectState = Prepared | Dispatching | Uncertain | Completed | KnownFailed | KnownNoEffect

  /** One provider effect row: nullable columns are filled as its state advances. */
  datatype Effect = Effect(
    slot: SlotKey, attemptNumber: nat, parent: Option<nat>, requestSha: nat, state: EffectState,
    reserved: Option<nat>, settled: Option<nat>, requestBytes: Option<nat>, responseBytes: Option<nat>,
    usage: Option<Usage>, providerResponse: Option<string>)

  datatype Budget = Budget(version: nat, authorizedTotal: Nanodollars, priorSpend: Nanodollars, limit: Nanodollars)
  {
    predicate Valid() {
      version >= 1 && limit > 0 && authorizedTotal > 0 && priorSpend + limit <= authorizedTotal
    }
  }

  /** A project's lifetime counters with its current budget version. */
  datatype Account = Account(budget: Budget, reserved: int, settled: int)

  /** One published budget version, filed under the operation that published it. */
  datatype Configuration = Configuration(actor: nat, project: nat, budget: Budget)

  datatype Ledger = Ledger(
    accounts: map<nat, Account>, effects: seq<Effect>, configurations: map<nat, Configuration>)

  // ----- totals -----

  /** A quantity the ledger sums over its effect rows. */
  datatype Measure =
    | Reserved(project: nat) | Settled(project: nat)
    | RunDispatches(run: EnvelopeKey, owner: Owner) | RunPending(run: EnvelopeKey, owner: Owner)
    | RunReserved(run: EnvelopeKey, owner: Owner) | RunSettled(run: EnvelopeKey, owner: Owner)
    | RunRequestBytes(run: EnvelopeKey, owner: Owner) | RunResponseBytes(run: EnvelopeKey, owner: Owner)
    | RunInput(run: EnvelopeKey, owner: Owner) | RunOutput(run: EnvelopeKey, owner: Owner)

  predicate Pending(e: Effect) { e.state == Dispatching || e.state == Uncertain }

  function OrZero(n: Option<nat>): nat { if n.Some? then n.value else 0 }

  predicate InRun(e: Effect, run: EnvelopeKey, owner: Owner) { e.slot.envelope == run && e.slot.owner == owner }

  function Weight(m: Measure, e: Effect): nat {
    match m
    case Reserved(p) => if e.slot.envelope.project == p && Pending(e) then OrZero(e.reserved) else 0
    case Settled(p) => if e.slot.envelope.project == p then OrZero(e.settled) else 0
    case RunDispatches(r, o) => if InRun(e, r, o) && e.state != Prepared then 1 else 0
    case RunPending(r, o) => if InRun(e, r, o) && Pending(e) then 1 else 0
    case RunReserved(r, o) => if InRun(e, r, o) && Pending(e) then OrZero(e.reserved) else 0
    case RunSettled(r, o) => if InRun(e, r, o) then OrZero(e.settled) else 0
    case RunRequestBytes(r, o) => if InRun(e, r, o) then OrZero(e.requestBytes) else 0
    case RunResponseBytes(r, o) => if InRun(e, r, o) then OrZero(e.responseBytes) else 0
    case RunInput(r, o) => if InRun(e, r, o) && e.usage.Some? then e.usage.value.input else 0
    case RunOutput(r, o) => if InRun(e, r, o) && e.usage.Some? then e.usage.value.output else 0
  }

  function Total(effects: seq<Effect>, m: Measure): nat
    decreases |effects|
  {
    if effects == [] then 0 else Total(effects[..|effects| - 1], m) + Weight(m, effects[|effects| - 1])
  }

  // ----- operations -----

  function Price(tokens: nat, rate: nat): nat { tokens * rate }

  /** Prices disjoint token classes; refuses usage beyond the profile. */
  function Cost(profile: Profile, usage: Usage): Result<nat> {
    if !usage.Valid() then Refused("model usage token classes are inconsistent")
    else if usage.input > profile.maxInputTokens || usage.output > profile.maxOutputTokens then
      Refused("model usage exceeds the approved profile")
    else
      var value := Price(usage.Uncached(), profile.pricing.uncachedInput)
                   + Price(usage.cachedInput, profile.pricing.cachedInput)
                   + Price(usage.output, profile.pricing.output);
      if value > profile.RunReservation() then Refused("model usage cost exceeds the approved reservation")
      else Ok(value)
  }

  predicate Publishes(s: Ledger, o: nat, project: nat, version: nat) {
    o in s.configurations && s.configurations[o].project == project && s.configurations[o].budget.version == version
  }

  predicate VersionTaken(s: Ledger, project: nat, version: nat) {
    exists o :: o in s.configurations && Publishes(s, o, project, version)
  }

  /** Publishes the next budget version of a project, or finds the one this operation published. */
  function ProvisionBudget(s: Ledger, operation: nat, c: Configuration): Result<Ledger> {
    var known := c.project in s.accounts;
    if !c.budget.Valid() then Refused("model budget specification invalid")
    else if operation in s.configurations then
      if !known then Refused("model_budget_account_unavailable")
      else if s.configurations[operation] != c then Refused("model_budget_operation_conflict")
      else Ok(s)
    else
      var expected := if known then s.accounts[c.project].budget.version + 1 else 1;
      if c.budget.version != expected then Refused("model_budget_version_conflict")
      else if known && (c.budget.authorizedTotal < s.accounts[c.project].budget.authorizedTotal
                        || c.budget.priorSpend < s.accounts[c.project].budget.priorSpend) then
        Refused("model_budget_reconciliation_conflict")
      else if VersionTaken(s, c.project, c.budget.version) then Refused("model_budget_version_conflict")
      else
        var reserved := if known then s.accounts[c.project].reserved else 0;
        var settled := if known then s.accounts[c.project].settled else 0;
        if c.budget.limit < reserved + settled then Refused("model_budget_below_lifetime_usage")
        else Ok(s.(accounts := s.accounts[c.project := Account(c.budget, reserved, settled)],
                   configurations := s.configurations[operation := c]))
  }

  /** The newest attempt of a slot. */
  function Latest(effects: seq<Effect>, slot: SlotKey): (r: Option<nat>)
    ensures r.Some? ==> r.value < |effects| && effects[r.value].slot == slot
    ensures r.None? ==> forall i :: 0 <= i < |effects| ==> effects[i].slot != slot
    decreases |effects|
  {
    if effects == [] then None else
    var last := |effects| - 1;
    var earlier := Latest(effects[..last], slot);
    if effects[last].slot == slot
       && (earlier.None? || effects[earlier.value].attemptNumber <= effects[last].attemptNumber)
    then Some(last) else earlier
  }

  function NewEffect(slot: SlotKey, attemptNumber: nat, parent: Option<nat>, requestSha: nat): Effect {
    Effect(slot, attemptNumber, parent, requestSha, Prepared, None, None, None, None, None, None)
  }

  /** Allocates the first attempt of a slot, or finds the attempt already there. */
  function PrepareAttempt(s: Ledger, slot: SlotKey, requestSha: nat): Result<Ledger> {
    if !slot.envelope.profile.Valid() || slot.envelope.profile.project != slot.envelope.project then
      Refused("model_profile_unavailable")
    else if slot.owner == Setup && slot.index >= slot.envelope.profile.maxCalls then
      Refused("setup_model_call_index_conflict")
    else
      var latest := Latest(s.effects, slot);
      if latest.Some? then
        if s.effects[latest.value].requestSha != requestSha then Refused("model_call_request_conflict") else Ok(s)
      else Ok(s.(effects := s.effects + [NewEffect(slot, 1, None, requestSha)]))
  }

  predicate RetryableParent(e: Effect) { e.state == KnownNoEffect || e.state == KnownFailed }

  /** Allocates attempt N+1 of a checker slot after a fully known terminal parent. */
  function PrepareRecoveryChild(s: Ledger, slot: SlotKey, parent: nat, requestSha: nat): Result<Ledger> {
    var latest := Latest(s.effects, slot);
    if slot.owner != Checker || latest.None? then Refused("model_call_parent_unavailable")
    else if s.effects[latest.value].requestSha != requestSha then Refused("model_call_request_conflict")
    else if parent >= |s.effects| || s.effects[parent].slot != slot || !RetryableParent(s.effects[parent]) then
      Refused("model_call_parent_not_retryable")
    else if latest.value != parent then
      var newest := s.effects[latest.value];
      if newest.attemptNumber > 1 && newest.state == Prepared && newest.parent == Some(parent) then Ok(s)
      else Refused("model_call_parent_superseded")
    else
      Ok(s.(effects := s.effects + [NewEffect(slot, s.effects[parent].attemptNumber + 1, Some(parent), requestSha)]))
  }

  /** The caps of a whole run, checked against the worst case of every unfinished dispatch. */
  predicate RunHasRoom(effects: seq<Effect>, run: EnvelopeKey, owner: Owner, requestBytes: nat) {
    var p := run.profile;
    var pending := Total(effects, RunPending(run, owner));
    && Total(effects, RunDispatches(run, owner)) < p.maxCalls
    && Total(effects, RunReserved(run, owner)) + Total(effects, RunSettled(run, owner)) + p.DispatchReservation()
       <= p.RunReservation()
    && Total(effects, RunRequestBytes(run, owner)) + requestBytes <= p.maxTotalRequestBytes
    && Total(effects, RunResponseBytes(run, owner)) + (pending + 1) * p.maxResponseBytes <= p.maxTotalResponseBytes
    && Total(effects, RunInput(run, owner)) + (pending + 1) * p.maxInputTokens <= p.maxTotalInputTokens
    && Total(effects, RunOutput(run, owner)) + (pending + 1) * p.maxOutputTokens <= p.maxTotalOutputTokens
  }

  /** Persists the intent to dispatch and reserves its worst-case price. */
  function ReserveDispatch(s: Ledger, id: nat, requestBytes: nat): Result<Ledger> {
    if id >= |s.effects| then Refused("model_call_attempt_unavailable") else
    var e := s.effects[id];
    var run, owner := e.slot.envelope, e.slot.owner;
    var price := run.profile.DispatchReservation();
    if requestBytes > run.profile.maxRequestBytes then Refused("model_call_request_evidence_conflict")
    else if e.state != Prepared then
      if e.requestBytes != Some(requestBytes) then Refused("model_call_dispatch_conflict")
      else if e.state == Dispatching || (owner == Checker && e.state in {Uncertain, Completed}) then Ok(s)
      else Refused("model_call_not_dispatchable")
    else if !RunHasRoom(s.effects, run, owner, requestBytes) then Refused("model_run_envelope_unavailable")
    else if run.project !in s.accounts then Refused("model_budget_unavailable")
    else
      var account := s.accounts[run.project];
      if account.reserved + account.settled + price > account.budget.limit then Refused("model_budget_exhausted")
      else Ok(s.(
        accounts := s.accounts[run.project := account.(reserved := account.reserved + price)],
        effects := s.effects[id := e.(state := Dispatching, reserved := Some(price), requestBytes := Some(requestBytes))]))
  }

  /** Keeps the whole reservation of an ambiguous effect. */
  function MarkUncertain(s: Ledger, id: nat, providerResponse: Option<string>): Result<Ledger> {
    if id >= |s.effects| then Refused("model_call_attempt_unavailable") else
    var e := s.effects[id];
    if e.state == Uncertain then
      if e.providerResponse == providerResponse then Ok(s) else Refused("model_call_uncertainty_conflict")
    else if e.state != Dispatching then Refused("model_call_uncertainty_conflict")
    else Ok(s.(effects := s.effects[id := e.(state := Uncertain, providerResponse := providerResponse)]))
  }

  /** Moves one reservation out of a project's account and adds what it settled for. */
  function Settle(s: Ledger, e: Effect, cost: nat): Result<map<nat, Account>> {
    var project := e.slot.envelope.project;
    if project !in s.accounts || e.reserved.None? then Refused("model_budget_unavailable") else
    var account := s.accounts[project];
    if account.reserved < e.reserved.value then Refused("model_budget_conservation_failed")
    else Ok(s.accounts[project := account.(reserved := account.reserved - e.reserved.value,
                                           settled := account.settled + cost)])
  }

  /** What a provider answered: its id, the model it names, its size and the usage it reports. */
  datatype Response = Response(id: string, snapshot: nat, bytes: nat, usage: Usage)

  /** Stores a verified response, usable or failed, and settles its cost. */
  function Complete(s: Ledger, id: nat, r: Response, usable: bool): Result<Ledger> {
    if id >= |s.effects| then Refused("model_call_attempt_unavailable") else
    var e := s.effects[id];
    var profile := e.slot.envelope.profile;
    var target := if usable then Completed else KnownFailed;
    if r.snapshot != profile.snapshot || r.bytes > profile.maxResponseBytes then Refused("model_call_response_conflict") else
    var cost := Cost(profile, r.usage);
    if cost.Refused? then Refused(cost.error)
    else if e.state == target then
      if && e.providerResponse == Some(r.id) && e.responseBytes == Some(r.bytes)
         && e.usage == Some(r.usage) && e.settled == Some(cost.value)
      then Ok(s) else Refused("model_call_terminal_conflict")
    else if !Pending(e) then Refused("model_call_terminal_conflict")
    else if e.providerResponse.Some? && e.providerResponse.value != r.id then
      Refused("model_call_provider_response_conflict")
    else
      var accounts := Settle(s, e, cost.value);
      if accounts.Refused? then Refused(accounts.error)
      else Ok(s.(accounts := accounts.value,
        effects := s.effects[id := e.(state := target, settled := Some(cost.value), responseBytes := Some(r.bytes),
                                      usage := Some(r.usage), providerResponse := Some(r.id))]))
  }

  /** Returns the reservation of an effect proven not to have happened. */
  function MarkKnownNoEffect(s: Ledger, id: nat): Result<Ledger> {
    if id >= |s.effects| then Refused("model_call_attempt_unavailable") else
    var e := s.effects[id];
    if e.state == KnownNoEffect then Ok(s)
    else if !Pending(e) then Refused("model_call_terminal_conflict")
    else if e.providerResponse.Some? then Refused("model_call_no_effect_conflict")
    else
      var accounts := Settle(s, e, 0);
      if accounts.Refused? then Refused(accounts.error)
      else Ok(s.(accounts := accounts.value, effects := s.effects[id := e.(state := KnownNoEffect)]))
  }

  // ----- runs -----

  datatype Step =
    | StepBudget(operation: nat, configuration: Configuration)
    | StepPrepare(slot: SlotKey, requestSha: nat)
    | StepChild(slot: SlotKey, parent: nat, requestSha: nat)
    | StepReserve(id: nat, requestBytes: nat)
    | StepUncertain(id: nat, observedResponse: Option<string>)
    | StepComplete(id: nat, response: Response, usable: bool)
    | StepNoEffect(id: nat)

  function Perform(s: Ledger, step: Step): Result<Ledger> {
    match step
    case StepBudget(operation, c) => ProvisionBudget(s, operation, c)
    case StepPrepare(slot, sha) => PrepareAttempt(s, slot, sha)
    case StepChild(slot, parent, sha) => PrepareRecoveryChild(s, slot, parent, sha)
    case StepReserve(id, bytes) => ReserveDispatch(s, id, bytes)
    case StepUncertain(id, response) => MarkUncertain(s, id, response)
    case StepComplete(id, response, usable) => Complete(s, id, response, usable)
    case StepNoEffect(id) => MarkKnownNoEffect(s, id)
  }

  /** A refused operation rolls back. */
  function Apply(s: Ledger, step: Step): Ledger {
    var r := Perform(s, step);
    if r.Ok? then r.value else s
  }

  function Run(s: Ledger, steps: seq<Step>): Ledger
    decreases |steps|
  {
    if steps == [] then s else Apply(Run(s, steps[..|steps| - 1]), steps[|steps| - 1])
  }

  const EMPTY := Ledger(map[], [], map[])
}
