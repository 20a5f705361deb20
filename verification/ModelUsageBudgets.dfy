/**
 The published budget versions of a project, over every run: numbered without a gap, each
 published by one operation, never lowering what was authorized or already spent elsewhere.
 */
module ModelUsageBudgets {
  import opened Wrappers
  import opened ModelUsage

  /** A recorded version belongs to a known project and does not exceed the one in force. */
  ghost predicate Recorded(s: Ledger, o: nat)
    requires o in s.configurations
  {
    var c := s.configurations[o];
    && c.project in s.accounts && 1 <= c.budget.version
    && var current := s.accounts[c.project].budget;
    && c.budget.version <= current.version
    && c.budget.authorizedTotal <= current.authorizedTotal && c.budget.priorSpend <= current.priorSpend
    && (c.budget.version == current.version ==> c.budget == current)
  }

  /** Of two versions of a project the later one lowers nothing, and no version is there twice. */
  ghost predicate Ordered(s: Ledger, a: nat, b: nat)
    requires a in s.configurations && b in s.configurations
  {
    var x, y := s.configurations[a], s.configurations[b];
    x.project == y.project && x.budget.version <= y.budget.version ==>
      && x.budget.authorizedTotal <= y.budget.authorizedTotal && x.budget.priorSpend <= y.budget.priorSpend
      && (x.budget.version == y.budget.version ==> a == b)
  }

  /** Every version up to the one in force was published. */
  ghost predicate Gapless(s: Ledger, project: nat)
    requires project in s.accounts
  {
    forall v: nat :: 1 <= v <= s.accounts[project].budget.version ==> VersionTaken(s, project, v)
  }

  ghost predicate History(s: Ledger) {
    && (forall o :: o in s.configurations ==> Recorded(s, o))
    && (forall a, b :: a in s.configurations && b in s.configurations ==> Ordered(s, a, b))
    && (forall p :: p in s.accounts ==> Gapless(s, p))
  }

  // ----- every operation keeps it -----

  ghost predicate SameBudgets(s: Ledger, t: Ledger) {
    && t.configurations == s.configurations && t.accounts.Keys == s.accounts.Keys
    && forall p :: p in s.accounts ==> t.accounts[p].budget == s.accounts[p].budget
  }

  lemma OthersKeepBudgets(s: Ledger, step: Step)
    requires !step.StepBudget?
    ensures SameBudgets(s, Apply(s, step))
  {
  }

  lemma SameBudgetsKeepHistory(s: Ledger, t: Ledger)
    requires History(s) && SameBudgets(s, t)
    ensures History(t)
  {
    forall o | o in t.configurations ensures Recorded(t, o) {
      assert Recorded(s, o);
    }
    forall a, b | a in t.configurations && b in t.configurations ensures Ordered(t, a, b) {
      assert Ordered(s, a, b);
    }
    forall p | p in t.accounts ensures Gapless(t, p) {
      assert Gapless(s, p);
      forall v: nat | 1 <= v <= t.accounts[p].budget.version ensures VersionTaken(t, p, v) {
        assert VersionTaken(s, p, v);
        var o :| o in s.configurations && Publishes(s, o, p, v);
        assert Publishes(t, o, p, v);
      }
    }
  }

  /** The version after the one in force is not published yet. */
  lemma NextVersionFree(s: Ledger, project: nat)
    requires History(s)
    ensures !VersionTaken(s, project, if project in s.accounts then s.accounts[project].budget.version + 1 else 1)
  {
    forall o | o in s.configurations ensures Recorded(s, o) {
    }
  }

  lemma GaplessAfter(s: Ledger, t: Ledger, operation: nat, c: Configuration, p: nat)
    requires History(s) && operation !in s.configurations && ProvisionBudget(s, operation, c) == Ok(t) && p in t.accounts
    ensures Gapless(t, p)
  {
    forall v: nat | 1 <= v <= t.accounts[p].budget.version ensures VersionTaken(t, p, v) {
      if p == c.project && v == c.budget.version {
        assert Publishes(t, operation, p, v);
      } else {
        assert Gapless(s, p);
        assert VersionTaken(s, p, v);
        var o :| o in s.configurations && Publishes(s, o, p, v);
        assert Publishes(t, o, p, v);
      }
    }
  }

  lemma PublishKeepsHistory(s: Ledger, t: Ledger, operation: nat, c: Configuration)
    requires History(s) && operation !in s.configurations && ProvisionBudget(s, operation, c) == Ok(t)
    ensures History(t)
  {
    forall o | o in t.configurations ensures Recorded(t, o) {
      if o != operation { assert Recorded(s, o); }
    }
    forall a, b | a in t.configurations && b in t.configurations ensures Ordered(t, a, b) {
      if a != operation { assert Recorded(s, a); }
      if b != operation { assert Recorded(s, b); }
      if a != operation && b != operation { assert Ordered(s, a, b); }
    }
    forall p | p in t.accounts ensures Gapless(t, p) {
      GaplessAfter(s, t, operation, c, p);
    }
  }

  lemma StepKeepsHistory(s: Ledger, step: Step)
    requires History(s)
    ensures History(Apply(s, step))
  {
    if step.StepBudget? {
      var r := ProvisionBudget(s, step.operation, step.configuration);
      if r.Ok? && step.operation !in s.configurations {
        PublishKeepsHistory(s, r.value, step.operation, step.configuration);
      }
    } else {
      OthersKeepBudgets(s, step);
      SameBudgetsKeepHistory(s, Apply(s, step));
    }
  }

  lemma {:induction false} RunKeepsHistory(steps: seq<Step>)
    ensures History(Run(EMPTY, steps))
    decreases |steps|
  {
    if steps != [] {
      RunKeepsHistory(steps[..|steps| - 1]);
      StepKeepsHistory(Run(EMPTY, steps[..|steps| - 1]), steps[|steps| - 1]);
    }
  }

  // ----- what it promises -----

  /** The versions of a project's budget are exactly 1 up to the one in force, each published by
      one operation, and the last is the one in force. */
  lemma VersionsAccountedFor(steps: seq<Step>, project: nat, version: nat)
    ensures var s := Run(EMPTY, steps);
            VersionTaken(s, project, version) <==>
            project in s.accounts && 1 <= version <= s.accounts[project].budget.version
    ensures forall o, q :: Publishes(Run(EMPTY, steps), o, project, version) && Publishes(Run(EMPTY, steps), q, project, version) ==> o == q
    ensures forall o :: Publishes(Run(EMPTY, steps), o, project, version)
                        && version == Run(EMPTY, steps).accounts[project].budget.version ==>
                        Run(EMPTY, steps).configurations[o].budget == Run(EMPTY, steps).accounts[project].budget
  {
    RunKeepsHistory(steps);
    var s := Run(EMPTY, steps);
    forall o | Publishes(s, o, project, version) ensures Recorded(s, o) {
    }
    if project in s.accounts && 1 <= version <= s.accounts[project].budget.version { assert Gapless(s, project); }
    forall o, q | Publishes(s, o, project, version) && Publishes(s, q, project, version) ensures o == q {
      assert Ordered(s, o, q);
    }
  }

  /** Provisioning succeeds exactly for the very operation that published before, or for the next
      version when it lowers neither total and covers what is reserved and spent. No version is
      ever found taken. */
  lemma ProvisionedExactly(steps: seq<Step>, operation: nat, c: Configuration)
    ensures var s := Run(EMPTY, steps);
            ProvisionBudget(s, operation, c).Ok? <==>
            if operation in s.configurations then s.configurations[operation] == c
            else
              && c.budget.Valid()
              && if c.project in s.accounts then
                   var a := s.accounts[c.project];
                   && c.budget.version == a.budget.version + 1
                   && a.budget.authorizedTotal <= c.budget.authorizedTotal && a.budget.priorSpend <= c.budget.priorSpend
                   && a.reserved + a.settled <= c.budget.limit
                 else c.budget.version == 1
  {
    RunKeepsHistory(steps);
    var s := Run(EMPTY, steps);
    NextVersionFree(s, c.project);
    if operation in s.configurations {
      assert Recorded(s, operation);
      RecordedValid(steps, operation);
    }
  }

  /** What was published was valid. */
  lemma {:induction false} RecordedValid(steps: seq<Step>, operation: nat)
    requires operation in Run(EMPTY, steps).configurations
    ensures Run(EMPTY, steps).configurations[operation].budget.Valid()
    decreases |steps|
  {
    if steps != [] {
      var before := Run(EMPTY, steps[..|steps| - 1]);
      var step := steps[|steps| - 1];
      if !step.StepBudget? { OthersKeepBudgets(before, step); }
      if operation in before.configurations { RecordedValid(steps[..|steps| - 1], operation); }
    }
  }
}
