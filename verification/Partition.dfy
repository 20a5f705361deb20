/**
 The path partition: which group answers for each module. A partition may change only by an
 approved transition from the trusted one.
 */
module Partition {
  import opened Ordering
  import opened Sequences

  datatype Group = Auth | Artifacts | Lifecycle | Shared

  datatype Assignment = Assignment(group: Group, target: string)

  datatype Partition = Partition(schema: string, protectedBase: string, assignments: seq<Assignment>)

  const OLD_LINEAGE: string := "backend/app/modules/projects/policy_lineage.py"
  const NEW_LINEAGE: string := "backend/app/modules/projects/api/policy_lineage.py"
  const ROUTER_POLICY: string := "backend/app/adapters/project_agents/openrouter_policy.py"
  const MODEL_PROVIDER: string := "backend/app/adapters/checkers/openrouter_model_provider.py"
  const USAGE_PROVIDER: string := "backend/app/adapters/model_usage/openrouter.py"
  const ACCEPTANCE: string := "backend/app/modules/reviews/api/acceptance.py"

  /** The literal sets of one version of the script, and its grouping rule. */
  datatype Rules = Rules(additions: set<string>, removals: set<string>, reviewRemovals: set<string>,
                         modelTarget: string, groupOf: string -> Group)

  function Targets(xs: seq<Assignment>): seq<string> {
    seq(|xs|, i requires 0 <= i < |xs| => xs[i].target)
  }

  function TargetSet(p: Partition): set<string> {
    set x | x in p.assignments :: x.target
  }

  /** The assignments by target; a later one for the same target wins. */
  function ByTarget(xs: seq<Assignment>): map<string, Assignment>
    decreases |xs|
  {
    if xs == [] then map[] else
    ByTarget(xs[..|xs| - 1])[xs[|xs| - 1].target := xs[|xs| - 1]]
  }

  predicate Increasing(xs: seq<string>) {
    forall i, j :: 0 <= i < j < |xs| ==> LexLe(xs[i], xs[j]) && xs[i] != xs[j]
  }

  // ----- the permitted transitions -----

  /** The lineage module stays absent, stays put, or moves once from the old place to the new. */
  predicate LineageAllowed(trusted: set<string>, current: set<string>) {
    var before := (OLD_LINEAGE in trusted, NEW_LINEAGE in trusted);
    var after := (OLD_LINEAGE in current, NEW_LINEAGE in current);
    || (before == after && after == (false, false))
    || (before, after) in {((true, false), (true, false)), ((true, false), (false, true)), ((false, true), (false, true))}
  }

  /** Only approved modules leave, and the replaced ones leave their replacements behind. */
  predicate RemovalsAllowed(rules: Rules, was: set<string>, now: map<string, Assignment>) {
    && (ROUTER_POLICY in was && ROUTER_POLICY !in now ==> MODEL_PROVIDER in now && USAGE_PROVIDER in now)
    && ((exists t :: t in was && t !in now && t in rules.reviewRemovals) ==> ACCEPTANCE in now)
    && (forall t :: t in was && t !in now ==> t in rules.removals)
  }

  predicate RetainedUnchanged(was: seq<Assignment>, now: map<string, Assignment>) {
    forall x :: x in was && x.target in now ==> now[x.target] == x
  }

  /** Only approved modules join, each in the group the rule gives it. */
  predicate AdditionsAllowed(rules: Rules, was: set<string>, now: map<string, Assignment>) {
    && (forall t :: t in now && t !in was ==> t in rules.additions || t == rules.modelTarget)
    && (forall t :: t in now && t !in was ==> now[t].group == rules.groupOf(t))
  }

  predicate Allowed(rules: Rules, trusted: Partition, current: Partition) {
    var was, now := TargetSet(trusted), ByTarget(current.assignments);
    && trusted.schema == current.schema && trusted.protectedBase == current.protectedBase
    && Increasing(Targets(trusted.assignments))
    && LineageAllowed(was, now.Keys)
    && RemovalsAllowed(rules, was, now)
    && RetainedUnchanged(trusted.assignments, now)
    && AdditionsAllowed(rules, was, now)
  }

  // ----- the validator -----

  method CollectTargets(xs: seq<Assignment>) returns (targets: seq<string>)
    ensures targets == Targets(xs)
  {
    targets := [];
    for i := 0 to |xs|
      invariant |targets| == i && forall j :: 0 <= j < i ==> targets[j] == xs[j].target
    {
      targets := targets + [xs[i].target];
    }
  }

  method IndexByTarget(xs: seq<Assignment>) returns (m: map<string, Assignment>)
    ensures m == ByTarget(xs)
  {
    m := map[];
    for i := 0 to |xs|
      invariant m == ByTarget(xs[..i])
    {
      assert xs[..i + 1][..i] == xs[..i];
      m := m[xs[i].target := xs[i]];
    }
    assert xs[..|xs|] == xs;
  }

  /** No target twice, and in order. */
  method CheckOrder(targets: seq<string>) returns (ok: bool)
    ensures ok <==> Increasing(targets)
  {
    DistinctIffNoRepeat(targets);
    SortedIffFixed(targets);
    ok := Distinct(targets) && targets == Sort(targets, LexLe);
  }

  method CheckRemovals(rules: Rules, was: set<string>, now: map<string, Assignment>) returns (ok: bool)
    ensures ok <==> RemovalsAllowed(rules, was, now)
  {
    var removed := was - now.Keys;
    var reviewed := removed * rules.reviewRemovals;
    var unapproved := removed - rules.removals;
    assert (exists t :: t in was && t !in now && t in rules.reviewRemovals) <==> reviewed != {} by {
      if t :| t in was && t !in now && t in rules.reviewRemovals { assert t in reviewed; }
      if t :| t in reviewed { assert t in was && t !in now && t in rules.reviewRemovals; }
    }
    assert (forall t :: t in was && t !in now ==> t in rules.removals) <==> unapproved == {} by {
      if unapproved == {} {
        forall t | t in was && t !in now ensures t in rules.removals { assert t !in unapproved; }
      } else {
        var t :| t in unapproved;
        assert t in was && t !in now && t !in rules.removals;
      }
    }
    if ROUTER_POLICY in removed && !(MODEL_PROVIDER in now && USAGE_PROVIDER in now) { return false; }
    if reviewed != {} && ACCEPTANCE !in now { return false; }
    ok := unapproved == {};
  }

  method CheckRetained(was: seq<Assignment>, now: map<string, Assignment>) returns (ok: bool)
    ensures ok <==> RetainedUnchanged(was, now)
  {
    for i := 0 to |was|
      invariant forall j :: 0 <= j < i && was[j].target in now ==> now[was[j].target] == was[j]
    {
      if was[i].target in now && now[was[i].target] != was[i] {
        assert was[i] in was;
        return false;
      }
    }
    ok := true;
  }

  method CheckAdditions(rules: Rules, was: set<string>, now: map<string, Assignment>) returns (ok: bool)
    ensures ok <==> AdditionsAllowed(rules, was, now)
  {
    var additions := now.Keys - was;
    var expected := rules.additions * additions - was;
    if rules.modelTarget in additions {
      expected := expected + {rules.modelTarget};
    }
    assert forall t :: t in expected <==> t in additions && (t in rules.additions || t == rules.modelTarget);
    if additions != expected {
      assert exists t :: t in additions && t !in expected;
      return false;
    }
    ok := forall t :: t in additions ==> now[t].group == rules.groupOf(t);
  }

  /** Accepts exactly the permitted transitions. */
  method ValidateTransition(rules: Rules, trusted: Partition, current: Partition) returns (accepted: bool)
    ensures accepted <==> Allowed(rules, trusted, current)
  {
    if trusted.schema != current.schema || trusted.protectedBase != current.protectedBase {
      return false;
    }
    var trustedTargets := CollectTargets(trusted.assignments);
    var was := set t | t in trustedTargets;
    TargetsAsSet(trusted);
    var now := IndexByTarget(current.assignments);
    var lineage := LineageAllowed(was, now.Keys);
    var ordered := CheckOrder(trustedTargets);
    var removals := CheckRemovals(rules, was, now);
    var retained := CheckRetained(trusted.assignments, now);
    var additions := CheckAdditions(rules, was, now);
    accepted := ordered && lineage && removals && retained && additions;
  }

  lemma TargetsAsSet(p: Partition)
    ensures TargetSet(p) == set t | t in Targets(p.assignments)
  {
    forall x | x in p.assignments ensures x.target in Targets(p.assignments) {
      var k :| 0 <= k < |p.assignments| && p.assignments[k] == x;
      assert Targets(p.assignments)[k] == x.target;
    }
  }

  /** A list equals its sorted form exactly when it is in order. */
  lemma SortedIffFixed(xs: seq<string>)
    ensures Sort(xs, LexLe) == xs <==> Sorted(xs, LexLe)
  {
    LexOrder();
    SortCorrect(xs, LexLe);
    if Sorted(xs, LexLe) { SortedUnique(xs, Sort(xs, LexLe), LexLe); }
  }
}
