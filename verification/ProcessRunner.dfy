/**
 The bounded host-process runner: it drains two pipes of a child under a byte limit, a deadline
 and a budget shared by many runs. The child, the clock and the scheduler are adversaries.
 */
module ProcessRunner {
  import opened Wrappers

  type Byte = bv8

  /** The most one `read` returns. */
  const CHUNK: nat := 65536

  datatype Pipe = Stdout | Stderr

  /** A pipe reported readable, and what reading it yields; an empty chunk is end of file. */
  datatype Ready = Ready(pipe: Pipe, chunk: seq<Byte>)

  /** One turn of the selector: the clock before it, and the readable pipes in the order reported. */
  datatype Round = Round(now: int, ready: seq<Ready>)

  datatype Exit = Exited(code: int) | StillRunning

  /** What killing the child's process group came to. */
  datatype Kill = Delivered | NoSuchGroup | Denied

  /** How the cleaning up goes: each call of it may raise. */
  datatype Cleanup = Cleanup(kill: Kill, waits: bool, stdoutCloses: bool, stderrCloses: bool)

  /** Everything outside the runner, in integer clock ticks. */
  datatype World = World(startClock: int, checkClock: int, spawns: bool, rounds: nat -> Round, exit: Exit, cleanup: Cleanup)
  {
    ghost predicate Valid() { forall k: nat :: Steady(rounds, k) }
  }

  /** Chunks respect the read size, time does not run backwards, and a selector that reports none of
      the pipes still registered has waited. */
  ghost predicate Steady(rounds: nat -> Round, k: nat) {
    && (forall i :: 0 <= i < |rounds(k).ready| ==> |rounds(k).ready[i].chunk| <= CHUNK)
    && rounds(k).now <= rounds(k + 1).now
    && (After(rounds, k).open != {} && Idle(rounds(k), After(rounds, k).open) ==> rounds(k).now < rounds(k + 1).now)
  }

  predicate Idle(round: Round, open: set<Pipe>) {
    forall e :: e in round.ready ==> e.pipe !in open
  }

  datatype Failure = DeadlineExceeded | CouldNotStart | AggregateLimit | OutputLimit | ExitedWith(code: int) | CleanupFailed

  datatype Outcome = Finished(output: seq<Byte>) | Failed(failure: Failure)

  // ----- what was read -----

  function Bytes(taken: seq<Ready>): nat {
    if taken == [] then 0 else Bytes(taken[..|taken| - 1]) + |taken[|taken| - 1].chunk|
  }

  /** The stdout chunks, in the order they were read. */
  function StdoutOf(taken: seq<Ready>): seq<Byte> {
    if taken == [] then [] else
    var last := taken[|taken| - 1];
    StdoutOf(taken[..|taken| - 1]) + (if last.pipe == Stdout then last.chunk else [])
  }

  /** The reads made and the pipes still open after some entries of a round. */
  datatype Progress = Progress(taken: seq<Ready>, open: set<Pipe>)

  function Entry(p: Progress, e: Ready): Progress {
    if e.pipe !in p.open then p
    else if e.chunk == [] then p.(open := p.open - {e.pipe})
    else p.(taken := p.taken + [e])
  }

  function Entries(p: Progress, ready: seq<Ready>): Progress
    decreases |ready|
  {
    if ready == [] then p else Entry(Entries(p, ready[..|ready| - 1]), ready[|ready| - 1])
  }

  /** Everything readable in the first `n` rounds while its pipe was open. */
  function After(rounds: nat -> Round, n: nat): Progress {
    if n == 0 then Progress([], {Stdout, Stderr}) else Entries(After(rounds, n - 1), rounds(n - 1).ready)
  }

  // ----- the shared budget -----

  class ExecutionBudget {
    const deadline: int
    ghost const allowance: int
    var remaining: int
    ghost var spent: nat      // bytes charged by every run so far
    ghost var delivered: nat  // bytes of the runs that finished

    ghost predicate Valid()
      reads this
    {
      && remaining == allowance - spent
      && delivered <= spent
      && (delivered > 0 ==> delivered <= allowance)
    }

    constructor (deadline: int, allowance: int)
      ensures Valid() && this.deadline == deadline && this.allowance == allowance
      ensures remaining == allowance && spent == 0 && delivered == 0
    {
      this.deadline, this.allowance := deadline, allowance;
      remaining, spent, delivered := allowance, 0, 0;
    }

    method Charge(count: nat) returns (ok: bool)
      requires Valid()
      modifies this`remaining, this`spent
      ensures Valid() && remaining == old(remaining) - count && spent == old(spent) + count
      ensures ok <==> remaining >= 0
    {
      remaining := remaining - count;
      spent := spent + count;
      ok := remaining >= 0;
    }
  }

  /** A child and what the runner owes the host for it. */
  class Child {
    var started: bool
    var collected: bool  // its exit code was read before cleaning up
    var groupKilled: bool
    var reaped: bool
    var stdoutClosed: bool
    var stderrClosed: bool

    constructor ()
      ensures Fresh()
    {
      started, collected, groupKilled, reaped, stdoutClosed, stderrClosed := false, false, false, false, false, false;
    }

    predicate Fresh()
      reads this
    {
      !started && !collected && !groupKilled && !reaped && !stdoutClosed && !stderrClosed
    }

    predicate Released()
      reads this
    {
      groupKilled && reaped && stdoutClosed && stderrClosed
    }

    /** Kills the group unless it is gone, waits for the leader and closes the pipes; the first call
        that raises ends it. */
    method CleanUp(cleanup: Cleanup) returns (ok: bool)
      requires started && !groupKilled && reaped == collected && !stdoutClosed && !stderrClosed
      modifies this
      ensures started && collected == old(collected)
      ensures groupKilled <==> cleanup.kill != Denied
      ensures reaped <==> collected || (groupKilled && cleanup.waits)
      ensures stdoutClosed <==> groupKilled && reaped && cleanup.stdoutCloses
      ensures stderrClosed <==> stdoutClosed && cleanup.stderrCloses
      ensures ok <==> Released()
    {
      if cleanup.kill == Denied {
        return false;
      }
      groupKilled := true;
      if !collected && !cleanup.waits {
        return false;
      }
      reaped := true;
      if !cleanup.stdoutCloses {
        return false;
      }
      stdoutClosed := true;
      if !cleanup.stderrCloses {
        return false;
      }
      stderrClosed := true;
      ok := true;
    }
  }

  lemma EntriesExtend(p: Progress, ready: seq<Ready>, i: nat)
    requires i < |ready|
    ensures Entries(p, ready[..i + 1]) == Entry(Entries(p, ready[..i]), ready[i])
  {
    assert ready[..i + 1][..i] == ready[..i];
  }

  lemma {:induction false} EntriesMonotone(p: Progress, ready: seq<Ready>, i: nat)
    requires i <= |ready|
    ensures Entries(p, ready[..i]).taken <= Entries(p, ready).taken
    decreases |ready|
  {
    if i == |ready| {
      assert ready[..i] == ready;
    } else {
      var last := |ready| - 1;
      EntriesMonotone(p, ready[..last], i);
      assert ready[..last][..i] == ready[..i];
    }
  }

  /** Stopping inside a round leaves the reads between those before it and those of the whole. */
  lemma EntriesBetween(p: Progress, ready: seq<Ready>, m: nat)
    requires m <= |ready|
    ensures p.taken <= Entries(p, ready[..m]).taken <= Entries(p, ready).taken
    ensures m == |ready| ==> ready[..m] == ready
  {
    EntriesMonotone(p, ready, m);
    EntriesMonotone(p, ready[..m], 0);
    assert ready[..m][..0] == [];
  }

  lemma ReadExtend(taken: seq<Ready>, e: Ready)
    ensures Bytes(taken + [e]) == Bytes(taken) + |e.chunk|
    ensures StdoutOf(taken + [e]) == StdoutOf(taken) + (if e.pipe == Stdout then e.chunk else [])
  {
    assert (taken + [e])[..|taken|] == taken;
  }

  function Footprint(budget: ExecutionBudget?): set<object> {
    if budget == null then {} else {budget}
  }

  /** The budget has been charged exactly these bytes since it had spent `spent0`. */
  ghost predicate Charged(budget: ExecutionBudget?, spent0: nat, delivered0: nat, taken: seq<Ready>)
    reads Footprint(budget)
  {
    budget != null ==>
      && budget.Valid() && budget.delivered == delivered0
      && budget.spent == spent0 + Bytes(taken)
  }

  /** Within the limits: every byte read is counted, charged and, if from stdout, kept. */
  ghost predicate Within(limit: nat, budget: ExecutionBudget?, output: seq<Byte>, consumed: nat,
                         taken: seq<Ready>, spent0: nat, delivered0: nat)
    reads Footprint(budget)
  {
    && Charged(budget, spent0, delivered0, taken)
    && consumed == Bytes(taken) <= limit && output == StdoutOf(taken)
    && (budget != null && taken != [] ==> budget.remaining >= 0)
  }

  /** A limit is broken, by the last read only, and even that read is charged. */
  ghost predicate Broken(failure: Failure, limit: nat, budget: ExecutionBudget?, taken: seq<Ready>, spent0: nat, delivered0: nat)
    reads Footprint(budget)
  {
    && Charged(budget, spent0, delivered0, taken)
    && Bytes(taken) <= limit + CHUNK
    && failure in {AggregateLimit, OutputLimit}
    && (failure == OutputLimit ==> Bytes(taken) > limit)
    && (failure == AggregateLimit ==> budget != null && budget.remaining < 0)
  }

  /** One non-empty read. Its bytes are counted and charged before the limits are tested, so the
      read that breaks a limit is already paid for. */
  method TakeChunk(e: Ready, limit: nat, budget: ExecutionBudget?, output0: seq<Byte>, consumed0: nat,
                   ghost taken0: seq<Ready>, ghost spent0: nat, ghost delivered0: nat)
    returns (failure: Option<Failure>, output: seq<Byte>, consumed: nat)
    requires 0 < |e.chunk| <= CHUNK && Within(limit, budget, output0, consumed0, taken0, spent0, delivered0)
    modifies Footprint(budget)
    ensures failure.None? ==> Within(limit, budget, output, consumed, taken0 + [e], spent0, delivered0) && consumed0 < consumed
    ensures failure.Some? ==> Broken(failure.value, limit, budget, taken0 + [e], spent0, delivered0)
  {
    ReadExtend(taken0, e);
    failure, output, consumed := None, output0, consumed0 + |e.chunk|;
    if budget != null {
      var ok := budget.Charge(|e.chunk|);
      if !ok {
        failure := Some(AggregateLimit);
        return;
      }
    }
    if consumed > limit {
      failure := Some(OutputLimit);
      return;
    }
    if e.pipe == Stdout {
      output := output + e.chunk;
    }
  }

  /** One readable pipe: nothing if it is closed already, closed at end of file, else one read. */
  method TakeEntry(e: Ready, limit: nat, budget: ExecutionBudget?, open0: set<Pipe>, output0: seq<Byte>, consumed0: nat,
                   ghost taken0: seq<Ready>, ghost spent0: nat, ghost delivered0: nat)
    returns (failure: Option<Failure>, open: set<Pipe>, output: seq<Byte>, consumed: nat, ghost taken: seq<Ready>)
    requires |e.chunk| <= CHUNK && Within(limit, budget, output0, consumed0, taken0, spent0, delivered0)
    modifies Footprint(budget)
    ensures Progress(taken, open) == Entry(Progress(taken0, open0), e)
    ensures failure.None? ==>
              && Within(limit, budget, output, consumed, taken, spent0, delivered0)
              && open <= open0 && consumed0 <= consumed
              && (open == open0 && consumed == consumed0 ==> e.pipe !in open0)
    ensures failure.Some? ==> Broken(failure.value, limit, budget, taken, spent0, delivered0)
  {
    failure, open, output, consumed, taken := None, open0, output0, consumed0, taken0;
    if e.pipe in open {
      if e.chunk == [] {
        open := open - {e.pipe};
      } else {
        failure, output, consumed := TakeChunk(e, limit, budget, output, consumed, taken, spent0, delivered0);
        taken := taken + [e];
      }
    }
  }

  /** Reads the pipes one round reports; `m` counts the entries looked at. */
  method DrainRound(round: Round, limit: nat, budget: ExecutionBudget?, open0: set<Pipe>, output0: seq<Byte>, consumed0: nat,
                    ghost taken0: seq<Ready>, ghost spent0: nat, ghost delivered0: nat)
    returns (failure: Option<Failure>, open: set<Pipe>, output: seq<Byte>, consumed: nat, ghost taken: seq<Ready>, ghost m: nat)
    requires forall i :: 0 <= i < |round.ready| ==> |round.ready[i].chunk| <= CHUNK
    requires Within(limit, budget, output0, consumed0, taken0, spent0, delivered0)
    modifies Footprint(budget)
    ensures m <= |round.ready| && Entries(Progress(taken0, open0), round.ready[..m]) == Progress(taken, open)
    ensures failure.None? ==>
              && m == |round.ready|
              && Within(limit, budget, output, consumed, taken, spent0, delivered0)
              && open <= open0 && consumed0 <= consumed
              && (open == open0 && consumed == consumed0 ==> Idle(round, open0))
    ensures failure.Some? ==> Broken(failure.value, limit, budget, taken, spent0, delivered0)
  {
    failure, open, output, consumed, taken, m := None, open0, output0, consumed0, taken0, 0;
    ghost var start := Progress(taken0, open0);
    for i := 0 to |round.ready|
      invariant m == i && failure.None? && Entries(start, round.ready[..i]) == Progress(taken, open)
      invariant open <= open0 && consumed0 <= consumed
      invariant open == open0 && consumed == consumed0 ==> forall j :: 0 <= j < i ==> round.ready[j].pipe !in open0
      invariant Within(limit, budget, output, consumed, taken, spent0, delivered0)
    {
      EntriesExtend(start, round.ready, i);
      failure, open, output, consumed, taken :=
        TakeEntry(round.ready[i], limit, budget, open, output, consumed, taken, spent0, delivered0);
      m := i + 1;
      if failure.Some? {
        return;
      }
    }
  }

  /** How the read loop stopped after `n` full rounds: both pipes at their end, the deadline passed
      with a pipe open, or a limit broken inside the next round. */
  ghost predicate Stopped(failure: Option<Failure>, rounds: nat -> Round, n: nat, deadline: int, limit: nat,
                          budget: ExecutionBudget?, output: seq<Byte>, taken: seq<Ready>, spent0: nat, delivered0: nat)
    reads Footprint(budget)
  {
    if failure.None? then
      After(rounds, n) == Progress(taken, {}) && Within(limit, budget, output, Bytes(taken), taken, spent0, delivered0)
    else if failure.value == DeadlineExceeded then
      && After(rounds, n).taken == taken && After(rounds, n).open != {} && rounds(n).now >= deadline
      && Within(limit, budget, output, Bytes(taken), taken, spent0, delivered0)
    else
      Broken(failure.value, limit, budget, taken, spent0, delivered0) && After(rounds, n).taken <= taken <= After(rounds, n + 1).taken
  }

  /** A round with an open pipe reads something, closes a pipe, or lets time pass. */
  lemma RoundPasses(world: World, k: nat)
    requires world.Valid()
    ensures forall i :: 0 <= i < |world.rounds(k).ready| ==> |world.rounds(k).ready[i].chunk| <= CHUNK
    ensures world.rounds(k).now <= world.rounds(k + 1).now
    ensures After(world.rounds, k).open != {} && Idle(world.rounds(k), After(world.rounds, k).open) ==>
              world.rounds(k).now < world.rounds(k + 1).now
  {
    assert Steady(world.rounds, k);
  }

  /** The read loop. It ends for every world: each round closes a pipe, reads bytes or lets time
      pass. */
  method ReadLoop(world: World, deadline: int, limit: nat, budget: ExecutionBudget?, ghost spent0: nat, ghost delivered0: nat)
    returns (failure: Option<Failure>, output: seq<Byte>, ghost taken: seq<Ready>, ghost n: nat)
    requires world.Valid() && Charged(budget, spent0, delivered0, [])
    modifies Footprint(budget)
    ensures Stopped(failure, world.rounds, n, deadline, limit, budget, output, taken, spent0, delivered0)
  {
    output := [];
    var consumed: nat := 0;
    var open := {Stdout, Stderr};
    var k := 0;
    failure, taken, n := None, [], 0;
    while open != {}
      invariant n == k && After(world.rounds, k) == Progress(taken, open) && failure.None?
      invariant Within(limit, budget, output, consumed, taken, spent0, delivered0)
      decreases open, limit - consumed, deadline - world.rounds(k).now
    {
      RoundPasses(world, k);
      if deadline - world.rounds(k).now <= 0 {
        failure := Some(DeadlineExceeded);
        return;
      }
      ghost var m;
      failure, open, output, consumed, taken, m :=
        DrainRound(world.rounds(k), limit, budget, open, output, consumed, taken, spent0, delivered0);
      if failure.Some? {
        EntriesBetween(After(world.rounds, k), world.rounds(k).ready, m);
        return;
      }
      assert world.rounds(k).ready[..m] == world.rounds(k).ready;
      k, n := k + 1, n + 1;
    }
  }

  /** The read loop's answer. `taken` is exactly what the world offered, up to where the loop stopped
      after `n` full rounds, and the budget has paid for all of it. */
  method Drain(world: World, deadline: int, limit: nat, budget: ExecutionBudget?)
    returns (outcome: Outcome, ghost taken: seq<Ready>, ghost n: nat)
    requires world.Valid()
    requires budget != null ==> budget.Valid()
    modifies Footprint(budget)
    ensures budget != null ==> Charged(budget, old(budget.spent), old(budget.delivered), taken)
    ensures Bytes(taken) <= limit + CHUNK
    ensures outcome.Finished? ==>
              && taken == After(world.rounds, n).taken && After(world.rounds, n).open == {}
              && outcome.output == StdoutOf(taken) && Bytes(taken) <= limit
              && (taken != [] && budget != null ==> budget.remaining >= 0)
    ensures outcome.Failed? ==>
              && After(world.rounds, n).taken <= taken <= After(world.rounds, n + 1).taken
              && outcome.failure in {DeadlineExceeded, AggregateLimit, OutputLimit}
    ensures outcome == Failed(DeadlineExceeded) ==>
              world.rounds(n).now >= deadline && After(world.rounds, n).open != {} && taken == After(world.rounds, n).taken
    ensures outcome == Failed(OutputLimit) ==> Bytes(taken) > limit
    ensures outcome == Failed(AggregateLimit) ==> budget != null && budget.remaining < 0
  {
    ghost var spent0 := if budget == null then 0 else budget.spent;
    ghost var delivered0 := if budget == null then 0 else budget.delivered;
    var failure, output;
    failure, output, taken, n := ReadLoop(world, deadline, limit, budget, spent0, delivered0);
    EntriesBetween(After(world.rounds, n), world.rounds(n).ready, 0);
    outcome := if failure.Some? then Failed(failure.value) else Finished(output);
  }

  /** One bounded command. On every path after the child started, its group is killed, its leader
      reaped and its pipes closed exactly as far as the calls that do so succeed; if one raises, the
      run fails with it. Every byte read is charged, on success and on failure; a finished run has
      released the child and returns exactly its stdout, within the limit and the allowance. */
  method Run(child: Child, world: World, timeout: int, limit: nat, budget: ExecutionBudget?)
    returns (outcome: Outcome, ghost taken: seq<Ready>)
    requires world.Valid() && child.Fresh()
    requires budget != null ==> budget.Valid()
    modifies child, Footprint(budget)
    ensures budget != null ==>
              && budget.Valid() && budget.spent == old(budget.spent) + Bytes(taken)
              && budget.remaining == old(budget.remaining) - Bytes(taken)
              && budget.delivered == old(budget.delivered) + (if outcome.Finished? then Bytes(taken) else 0)
    ensures Bytes(taken) <= limit + CHUNK
    ensures child.started ==>
              && (child.groupKilled <==> world.cleanup.kill != Denied)
              && (child.reaped <==> child.collected || (child.groupKilled && world.cleanup.waits))
              && (child.stdoutClosed <==> child.groupKilled && child.reaped && world.cleanup.stdoutCloses)
              && (child.stderrClosed <==> child.stdoutClosed && world.cleanup.stderrCloses)
              && (child.Released() <==> outcome != Failed(CleanupFailed))
    ensures child.collected ==> child.started && world.exit.Exited?
    ensures outcome.Finished? || (outcome.Failed? && outcome.failure.ExitedWith?) ==> child.collected
    ensures !child.started ==> child.Fresh() && taken == [] && outcome.Failed? && outcome.failure in {DeadlineExceeded, CouldNotStart}
    ensures outcome.Finished? ==>
              && child.started && world.exit == Exited(0)
              && (exists n: nat :: taken == After(world.rounds, n).taken && After(world.rounds, n).open == {})
              && outcome.output == StdoutOf(taken) && Bytes(taken) <= limit
    ensures budget != null ==> Spending(old(budget.remaining), budget.remaining, Bytes(taken), outcome.Finished?).Kept()
    ensures outcome == Failed(OutputLimit) ==> Bytes(taken) > limit
    ensures outcome == Failed(AggregateLimit) ==> budget != null && budget.remaining < 0
    ensures outcome.Failed? && outcome.failure.ExitedWith? ==> world.exit == Exited(outcome.failure.code) && outcome.failure.code != 0
    ensures outcome == Failed(CouldNotStart) ==> !world.spawns
    ensures outcome == Failed(DeadlineExceeded) ==>
              var deadline := if budget != null && budget.deadline < world.startClock + timeout
                              then budget.deadline else world.startClock + timeout;
              || deadline <= world.checkClock
              || world.exit == StillRunning
              || exists n: nat :: world.rounds(n).now >= deadline && After(world.rounds, n).open != {}
  {
    taken := [];
    var deadline := world.startClock + timeout;
    if budget != null && budget.deadline < deadline {
      deadline := budget.deadline;
    }
    if deadline <= world.checkClock {
      return Failed(DeadlineExceeded), taken;
    }
    if !world.spawns {
      return Failed(CouldNotStart), taken;
    }
    child.started := true;
    ghost var n: nat;
    outcome, taken, n := Drain(world, deadline, limit, budget);
    if outcome.Finished? {
      match world.exit
      case StillRunning => outcome := Failed(DeadlineExceeded);
      case Exited(code) =>
        child.collected, child.reaped := true, true;
        if code != 0 { outcome := Failed(ExitedWith(code)); }
    }
    var ok := child.CleanUp(world.cleanup);
    if !ok {
      outcome := Failed(CleanupFailed);
    }
    if outcome.Finished? && budget != null {
      budget.delivered := budget.delivered + Bytes(taken);
    }
  }

  // ----- many runs, one budget -----

  /** What one run leaves behind of a shared budget, as `Run` promises it. */
  datatype Spending = Spending(before: int, after: int, bytes: nat, finished: bool)
  {
    predicate Kept() { after == before - bytes && (finished && bytes > 0 ==> after >= 0) }
  }

  function AllBytes(spendings: seq<Spending>): nat {
    if spendings == [] then 0 else AllBytes(spendings[..|spendings| - 1]) + spendings[|spendings| - 1].bytes
  }

  function FinishedBytes(spendings: seq<Spending>): nat {
    if spendings == [] then 0 else
    var last := spendings[|spendings| - 1];
    FinishedBytes(spendings[..|spendings| - 1]) + (if last.finished then last.bytes else 0)
  }

  /** What a budget holds after these runs. */
  function Left(spendings: seq<Spending>, allowance: int): int {
    if spendings == [] then allowance else spendings[|spendings| - 1].after
  }

  /** Each run starts from what the one before it left. */
  predicate Chained(spendings: seq<Spending>, allowance: int) {
    spendings == [] ||
    var earlier, last := spendings[..|spendings| - 1], spendings[|spendings| - 1];
    Chained(earlier, allowance) && last.Kept() && last.before == Left(earlier, allowance)
  }

  /** Over any sequence of runs on one budget, what has left the allowance is every byte read, by
      finished and failed runs alike; a run that read anything finishes only while the bytes of all
      runs up to it, failed ones included, fit the allowance. */
  lemma {:induction false} BudgetBalances(spendings: seq<Spending>, allowance: int)
    requires Chained(spendings, allowance)
    ensures allowance - Left(spendings, allowance) == AllBytes(spendings)
    ensures forall j :: 0 <= j < |spendings| && spendings[j].finished && spendings[j].bytes > 0 ==>
              AllBytes(spendings[..j + 1]) <= allowance
    ensures FinishedBytes(spendings) <= AllBytes(spendings) && (FinishedBytes(spendings) > 0 ==> FinishedBytes(spendings) <= allowance)
    decreases |spendings|
  {
    if spendings != [] {
      var last := |spendings| - 1;
      BudgetBalances(spendings[..last], allowance);
      forall j | 0 <= j < |spendings| && spendings[j].finished && spendings[j].bytes > 0
        ensures AllBytes(spendings[..j + 1]) <= allowance
      {
        if j < last {
          assert spendings[..last][..j + 1] == spendings[..j + 1];
        } else {
          assert spendings[..j + 1] == spendings;
        }
      }
    }
  }
}
