/**
 What survives every run of accepted partition transitions. Each step is judged by the version
 of the script that accepted it, so its literal sets may differ from step to step.
 */
module PartitionRuns {
  import opened Partition

  /** What validation demands of a partition on its own. */
  ghost predicate WellFormed(rules: Rules, p: Partition) {
    && Increasing(Targets(p.assignments))
    && forall x :: x in p.assignments ==> x.group == rules.groupOf(x.target)
  }

  ghost predicate StepAccepted(rules: Rules, trusted: Partition, current: Partition) {
    WellFormed(rules, current) && (trusted == current || Allowed(rules, trusted, current))
  }

  ghost predicate AcceptedRun(parts: seq<Partition>, rules: seq<Rules>) {
    && |parts| == |rules| + 1
    && forall i {:trigger rules[i]} :: 0 <= i < |rules| ==> StepAccepted(rules[i], parts[i], parts[i + 1])
  }

  lemma {:induction false} IndexExact(xs: seq<Assignment>)
    ensures ByTarget(xs).Keys == set x | x in xs :: x.target
    ensures forall t :: t in ByTarget(xs) ==> ByTarget(xs)[t] in xs && ByTarget(xs)[t].target == t
    decreases |xs|
  {
    if xs != [] {
      var last := |xs| - 1;
      IndexExact(xs[..last]);
      assert xs == xs[..last] + [xs[last]];
    }
  }

  lemma IndexKeys(p: Partition)
    ensures ByTarget(p.assignments).Keys == TargetSet(p)
  {
    IndexExact(p.assignments);
  }

  // ----- the lineage module -----

  datatype Lineage = Absent | AtOld | AtNew | AtBoth

  function LineageOf(p: Partition): Lineage {
    match (OLD_LINEAGE in TargetSet(p), NEW_LINEAGE in TargetSet(p))
    case (false, false) => Absent
    case (true, false) => AtOld
    case (false, true) => AtNew
    case (true, true) => AtBoth
  }

  lemma LineageStep(rules: Rules, trusted: Partition, current: Partition)
    requires StepAccepted(rules, trusted, current)
    ensures trusted == current || LineageOf(trusted) == Absent == LineageOf(current)
            || (LineageOf(trusted) == AtOld && LineageOf(current) in {AtOld, AtNew})
            || LineageOf(trusted) == AtNew == LineageOf(current)
  {
    IndexKeys(current);
  }

  /** The lineage module never appears from nothing, never sits in two places unless it started
      there, and moves at most once, forward; a partition that starts with both can never change. */
  lemma {:induction false} LineageMovesOnce(parts: seq<Partition>, rules: seq<Rules>, i: nat, j: nat)
    requires AcceptedRun(parts, rules) && i <= j < |parts|
    ensures match LineageOf(parts[i])
            case Absent => LineageOf(parts[j]) == Absent
            case AtOld => LineageOf(parts[j]) in {AtOld, AtNew}
            case AtNew => LineageOf(parts[j]) == AtNew
            case AtBoth => parts[j] == parts[i]
    decreases j
  {
    if i < j {
      LineageMovesOnce(parts, rules, i, j - 1);
      assert StepAccepted(rules[j - 1], parts[j - 1], parts[j - 1 + 1]);
      LineageStep(rules[j - 1], parts[j - 1], parts[j]);
    }
  }

  // ----- targets that stay -----

  lemma StayStep(rules: Rules, trusted: Partition, current: Partition, x: Assignment)
    requires StepAccepted(rules, trusted, current) && x in trusted.assignments && x.target !in rules.removals
    ensures x in current.assignments
  {
    IndexExact(current.assignments);
    assert x.target in TargetSet(trusted);
  }

  /** A target that no step may remove keeps its group for ever, however the grouping rule changes. */
  lemma {:induction false} ProtectedForEver(parts: seq<Partition>, rules: seq<Rules>, i: nat, j: nat, x: Assignment)
    requires AcceptedRun(parts, rules) && i <= j < |parts| && x in parts[i].assignments
    requires forall k :: i <= k < j ==> x.target !in rules[k].removals
    ensures x in parts[j].assignments
    decreases j
  {
    if i < j {
      ProtectedForEver(parts, rules, i, j - 1, x);
      assert StepAccepted(rules[j - 1], parts[j - 1], parts[j - 1 + 1]);
      StayStep(rules[j - 1], parts[j - 1], parts[j], x);
    }
  }

  predicate Has(p: Partition, target: string) { target in TargetSet(p) }

  lemma HasAssignment(p: Partition, target: string) returns (x: Assignment)
    requires Has(p, target)
    ensures x in p.assignments && x.target == target
  {
    x :| x in p.assignments && x.target == target;
  }

  lemma TargetStays(rules: Rules, trusted: Partition, current: Partition, target: string)
    requires StepAccepted(rules, trusted, current) && Has(trusted, target) && target !in rules.removals
    ensures Has(current, target)
  {
    var x := HasAssignment(trusted, target);
    StayStep(rules, trusted, current, x);
  }

  lemma PolicyStep(rules: Rules, trusted: Partition, current: Partition)
    requires StepAccepted(rules, trusted, current)
    requires MODEL_PROVIDER !in rules.removals && USAGE_PROVIDER !in rules.removals
    requires Has(trusted, ROUTER_POLICY) || (Has(trusted, MODEL_PROVIDER) && Has(trusted, USAGE_PROVIDER))
    ensures Has(current, ROUTER_POLICY) || (Has(current, MODEL_PROVIDER) && Has(current, USAGE_PROVIDER))
  {
    IndexKeys(current);
    if !Has(trusted, ROUTER_POLICY) {
      TargetStays(rules, trusted, current, MODEL_PROVIDER);
      TargetStays(rules, trusted, current, USAGE_PROVIDER);
    }
  }

  /** A run that starts with the router policy always has it or both providers that replace it. */
  lemma {:induction false} PolicyOrProviders(parts: seq<Partition>, rules: seq<Rules>, n: nat)
    requires AcceptedRun(parts, rules) && n < |parts| && Has(parts[0], ROUTER_POLICY)
    requires forall k :: 0 <= k < n ==> MODEL_PROVIDER !in rules[k].removals && USAGE_PROVIDER !in rules[k].removals
    ensures Has(parts[n], ROUTER_POLICY) || (Has(parts[n], MODEL_PROVIDER) && Has(parts[n], USAGE_PROVIDER))
  {
    if n > 0 {
      PolicyOrProviders(parts, rules, n - 1);
      assert StepAccepted(rules[n - 1], parts[n - 1], parts[n - 1 + 1]);
      PolicyStep(rules[n - 1], parts[n - 1], parts[n]);
    }
  }

  lemma ReviewStep(rules: Rules, trusted: Partition, current: Partition, schemas: string)
    requires StepAccepted(rules, trusted, current) && ACCEPTANCE !in rules.removals
    requires schemas in rules.reviewRemovals
    requires Has(trusted, schemas) || Has(trusted, ACCEPTANCE)
    ensures Has(current, schemas) || Has(current, ACCEPTANCE)
  {
    IndexKeys(current);
    if Has(trusted, ACCEPTANCE) { TargetStays(rules, trusted, current, ACCEPTANCE); }
  }

  /** A retired review module is replaced by the acceptance API, which then stays. */
  lemma {:induction false} ReviewModuleReplaced(parts: seq<Partition>, rules: seq<Rules>, n: nat, schemas: string)
    requires AcceptedRun(parts, rules) && n < |parts| && Has(parts[0], schemas)
    requires forall k :: 0 <= k < n ==> schemas in rules[k].reviewRemovals && ACCEPTANCE !in rules[k].removals
    ensures Has(parts[n], schemas) || Has(parts[n], ACCEPTANCE)
  {
    if n > 0 {
      ReviewModuleReplaced(parts, rules, n - 1, schemas);
      assert StepAccepted(rules[n - 1], parts[n - 1], parts[n - 1 + 1]);
      ReviewStep(rules[n - 1], parts[n - 1], parts[n], schemas);
    }
  }

  lemma AbsentStep(rules: Rules, trusted: Partition, current: Partition, target: string)
    requires StepAccepted(rules, trusted, current) && !Has(trusted, target)
    requires target !in rules.additions && target != rules.modelTarget
    ensures !Has(current, target)
  {
    IndexKeys(current);
  }

  /** A target that is gone, and that no later version approves as an addition, never returns. */
  lemma {:induction false} NoUnapprovedReturn(parts: seq<Partition>, rules: seq<Rules>, i: nat, j: nat, target: string)
    requires AcceptedRun(parts, rules) && i <= j < |parts| && !Has(parts[i], target)
    requires forall k :: i <= k < j ==> target !in rules[k].additions && target != rules[k].modelTarget
    ensures !Has(parts[j], target)
    decreases j
  {
    if i < j {
      NoUnapprovedReturn(parts, rules, i, j - 1, target);
      assert StepAccepted(rules[j - 1], parts[j - 1], parts[j - 1 + 1]);
      AbsentStep(rules[j - 1], parts[j - 1], parts[j], target);
    }
  }
}
