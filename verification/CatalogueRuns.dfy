/**
 Ownership over runs in which each accepted head becomes the next protected base.
 */
module CatalogueRuns {
  import opened Wrappers
  import opened Sequences
  import opened Catalogue

  // ----- identity checks -----

  function Ids(records: seq<Record>): seq<string> {
    seq(|records|, i requires 0 <= i < |records| => records[i].behaviorId)
  }

  lemma DistinctIdsIdentify(records: seq<Record>, r: Record)
    requires Distinct(Ids(records)) && r in records
    ensures Owners(records, r.behaviorId) == [r]
    ensures Current(records, r.behaviorId) == Some(r)
    ensures forall x :: x in records && x.behaviorId == r.behaviorId ==> x == r
  {
    DistinctIffNoRepeat(Ids(records));
    var k :| 0 <= k < |records| && records[k] == r;
    forall x | x in records && x.behaviorId == r.behaviorId ensures x == r {
      var m :| 0 <= m < |records| && records[m] == x;
      assert Ids(records)[k] == Ids(records)[m];
    }
    CurrentExact(records, r.behaviorId);
    forall m | 0 <= m < |records| && m != k ensures records[m].behaviorId != records[k].behaviorId {
      assert Ids(records)[k] != Ids(records)[m];
    }
    OwnersOfDistinct(records, k);
  }

  lemma {:induction false} OwnersOfDistinct(records: seq<Record>, k: nat)
    requires k < |records|
    requires forall m :: 0 <= m < |records| && m != k ==> records[m].behaviorId != records[k].behaviorId
    ensures Owners(records, records[k].behaviorId) == [records[k]]
    decreases |records|
  {
    var last := |records| - 1;
    if k == last {
      NoOwners(records[..last], records[k].behaviorId);
    } else {
      OwnersOfDistinct(records[..last], k);
    }
  }

  // ----- one accepted step -----

  /** Who owns a base behaviour in an accepted head. */
  function OwnerAfter(head: seq<Record>, prior: Record): Record {
    if prior in head then prior
    else if Replacements(head, prior.behaviorId) != [] then Replacements(head, prior.behaviorId)[0]
    else prior
  }

  /** `next` owns what `prior` owned: unchanged, or as a reviewed behaviour moved to a new place
      whose evidence is not narrower. */
  predicate TakesOver(prior: Record, next: Record, tree: set<string>) {
    next == prior
    || (&& next.supersedes == Some(prior.behaviorId) && prior.status == Reviewed
        && prior.target !in tree && next.target in tree && KeepsEvidence(prior, next))
  }

  /** Every base behaviour has exactly one effective owner in an accepted head; one that was not
      reviewed survives unchanged. */
  lemma OneEffectiveOwner(base: seq<Record>, head: seq<Record>, tree: set<string>, prior: Record)
    requires Accepted(base, head, tree) && Distinct(Ids(head)) && prior in base
    ensures OwnerAfter(head, prior) in head && TakesOver(prior, OwnerAfter(head, prior), tree)
    ensures forall x :: x in head && (x == prior || x.supersedes == Some(prior.behaviorId)) ==> x == OwnerAfter(head, prior)
    ensures prior.status != Reviewed ==> OwnerAfter(head, prior) == prior
  {
    var id := prior.behaviorId;
    SoleOwner(base, head, tree, prior);
    ReplacementsExact(head, id);
    CurrentExact(head, id);
    assert EffectiveCount(base, head, id) == 1;
    if prior in head {
      DistinctIdsIdentify(head, prior);
      assert |Replacements(head, id)| == 0;
    } else {
      assert Current(head, id) != Some(prior);
      SoleReplacement(base, head, tree, prior);
    }
  }

  lemma SoleOwner(base: seq<Record>, head: seq<Record>, tree: set<string>, prior: Record)
    requires Accepted(base, head, tree) && prior in base
    ensures Owners(base, prior.behaviorId) == [prior]
  {
    OwnersExact(base, prior.behaviorId);
    assert BaseKept(base, head, prior.behaviorId);
    assert prior in Owners(base, prior.behaviorId);
  }

  /** A base record that left the head has one replacement, and it takes over. */
  lemma SoleReplacement(base: seq<Record>, head: seq<Record>, tree: set<string>, prior: Record)
    requires Accepted(base, head, tree) && prior in base && |Replacements(head, prior.behaviorId)| == 1
    ensures var next := Replacements(head, prior.behaviorId)[0];
            && next in head && TakesOver(prior, next, tree) && prior.status == Reviewed
            && Replacements(head, prior.behaviorId) == [next]
  {
    SoleOwner(base, head, tree, prior);
    ReplacementsExact(head, prior.behaviorId);
    var next := Replacements(head, prior.behaviorId)[0];
    assert next in Replacements(head, prior.behaviorId);
    assert RemapValid(base, next, tree);
  }

  /** No record supersedes a behaviour filed beside it. */
  predicate Clean(records: seq<Record>) {
    forall r, s :: r in records && s in records ==> r.supersedes != Some(s.behaviorId)
  }

  lemma HeadIsClean(base: seq<Record>, head: seq<Record>, tree: set<string>)
    requires Accepted(base, head, tree)
    ensures Clean(head)
  {
    forall r, s | r in head && s in head ensures r.supersedes != Some(s.behaviorId) {
      if r.supersedes == Some(s.behaviorId) {
        var id := s.behaviorId;
        assert RemapValid(base, r, tree);
        OwnersExact(base, id);
        var prior := Owners(base, id)[0];
        assert prior in Owners(base, id);
        assert BaseKept(base, head, prior.behaviorId);
        assert EffectiveCount(base, head, prior.behaviorId) == 1;
        ReplacementsExact(head, id);
        assert r in Replacements(head, id);
        CurrentExact(head, id);
        assert false;
      }
    }
  }

  /** A base record that survives and supersedes the other takes its behaviour over. */
  predicate Absorbs(head: seq<Record>, a: Record, b: Record) { a in head && a.supersedes == Some(b.behaviorId) }

  /** Two protected behaviours end up with the same owner exactly when one of them already
      supersedes the other in the base and survives. */
  lemma OwnersMergeExactly(base: seq<Record>, head: seq<Record>, tree: set<string>, a: Record, b: Record)
    requires Accepted(base, head, tree) && Distinct(Ids(head))
    requires a in base && b in base && a.behaviorId != b.behaviorId
    ensures OwnerAfter(head, a) == OwnerAfter(head, b) <==> Absorbs(head, a, b) || Absorbs(head, b, a)
  {
    OneEffectiveOwner(base, head, tree, a);
    OneEffectiveOwner(base, head, tree, b);
  }

  lemma OwnersOfTwo(a: Record, b: Record, id: string)
    ensures Owners([a, b], id) == (if a.behaviorId == id then [a] else []) + (if b.behaviorId == id then [b] else [])
  {
    assert [a][..0] == [];
    assert Owners([a], id) == if a.behaviorId == id then [a] else [];
    assert [a, b][..1] == [a];
  }

  lemma HeadOfOne(a: Record, id: string)
    ensures Current([a], id) == if a.behaviorId == id then Some(a) else None
    ensures Replacements([a], id) == if a.supersedes == Some(id) then [a] else []
  {
    assert [a][..0] == [];
  }

  /** A base in which one record supersedes its neighbour may lose that neighbour: the head is
      accepted, one record owns both behaviours and the catalogue is smaller. */
  lemma NeighbourAbsorbed(a: Record, b: Record, tree: set<string>)
    requires a.supersedes == Some(b.behaviorId) && a.behaviorId != b.behaviorId && b.status == Reviewed
    requires KeepsEvidence(b, a) && a.target in tree && b.target !in tree
    ensures Accepted([a, b], [a], tree) && Distinct(Ids([a])) && OwnerAfter([a], a) == OwnerAfter([a], b)
  {
    forall r | r in [a, b]
      ensures BaseKept([a, b], [a], r.behaviorId) && EffectiveCount([a, b], [a], r.behaviorId) == 1
    {
      OwnersOfTwo(a, b, r.behaviorId);
      HeadOfOne(a, r.behaviorId);
    }
    OwnersOfTwo(a, b, b.behaviorId);
    DistinctIffNoRepeat(Ids([a]));
    OwnersMergeExactly([a, b], [a], tree, a, b);
  }

  /** What the record schema asks of a reviewed record before any remap is looked at. */
  predicate Shaped(r: Record) {
    && |r.behaviorId| >= 2 && "backend/app/" <= r.target
    && |r.target| > 15 && r.target[|r.target| - 3..] == ".py"
    && r.callables != [] && r.tests != [] && r.outcomes != []
  }

  /** Records of that shape exist. */
  lemma AbsorbingExample() returns (a: Record, b: Record)
    ensures Shaped(a) && Shaped(b) && a.behaviorId != b.behaviorId
    ensures Accepted([a, b], [a], {a.target}) && OwnerAfter([a], a) == OwnerAfter([a], b)
  {
    var tests := ["backend/tests/test_reader.py::test_read"];
    a := Record("read.v2", Reviewed, "backend/app/reader.py", ["app.reader.read"], tests, ["return"], [], Some("read.v1"), "");
    b := Record("read.v1", Reviewed, "backend/app/loader.py", ["app.loader.read"], tests, ["return"], [], None, "");
    assert a.behaviorId[6] != b.behaviorId[6] && a.target[12] != b.target[12];
    NeighbourAbsorbed(a, b, {a.target});
  }

  // ----- acceptance of a catalogue against itself -----

  lemma {:induction false} NoReplacements(records: seq<Record>, id: string)
    requires forall r :: r in records ==> r.supersedes != Some(id)
    ensures Replacements(records, id) == []
    decreases |records|
  {
    if records != [] { NoReplacements(records[..|records| - 1], id); }
  }

  /** A catalogue with distinct identities is accepted against itself exactly when no record
      carries a supersession. */
  lemma SelfAcceptance(c: seq<Record>, tree: set<string>)
    requires Distinct(Ids(c))
    ensures Accepted(c, c, tree) <==> forall r :: r in c ==> r.supersedes.None?
  {
    if Accepted(c, c, tree) {
      forall r | r in c ensures r.supersedes.None? {
        if r.supersedes.Some? {
          var id := r.supersedes.value;
          assert RemapValid(c, r, tree);
          OwnersExact(c, id);
          var prior := Owners(c, id)[0];
          assert prior in Owners(c, id);
          HeadIsClean(c, c, tree);
          assert false;
        }
      }
    }
    if forall r :: r in c ==> r.supersedes.None? {
      forall r | r in c ensures BaseKept(c, c, r.behaviorId) && EffectiveCount(c, c, r.behaviorId) == 1 {
        DistinctIdsIdentify(c, r);
        NoReplacements(c, r.behaviorId);
      }
    }
  }

  /** A superseding record never survives the next step unchanged: it must itself be superseded,
      from a location that no longer exists. */
  lemma SupersessionIsOneStep(base: seq<Record>, head: seq<Record>, next: seq<Record>,
                              tree: set<string>, nextTree: set<string>, r: Record)
    requires Accepted(base, head, tree) && Accepted(head, next, nextTree) && Distinct(Ids(next))
    requires r in head && r.supersedes.Some?
    ensures r !in next
    ensures exists s :: s in next && s.supersedes == Some(r.behaviorId)
    ensures r.target !in nextTree
  {
    HeadIsClean(base, head, tree);
    NoOwners(head, r.supersedes.value);
    assert !RemapValid(head, r, nextTree);
    OneEffectiveOwner(head, next, nextTree, r);
  }

  // ----- runs -----

  /** `cats[i + 1]` was accepted against `cats[i]` when the tree held `trees[i]`. */
  ghost predicate AcceptedRun(cats: seq<seq<Record>>, trees: seq<set<string>>) {
    && |cats| == |trees| + 1
    && (forall i :: 0 <= i < |trees| ==> StepAccepted(cats, trees, i))
  }

  ghost predicate StepAccepted(cats: seq<seq<Record>>, trees: seq<set<string>>, i: nat)
    requires |cats| == |trees| + 1 && i < |trees|
  {
    Accepted(cats[i], cats[i + 1], trees[i]) && Distinct(Ids(cats[i + 1]))
  }

  lemma StepKeepsOwner(base: seq<Record>, head: seq<Record>, tree: set<string>, prior: Record)
    requires Accepted(base, head, tree) && Distinct(Ids(head)) && prior in base
    ensures OwnerAfter(head, prior) in head && KeepsEvidence(prior, OwnerAfter(head, prior))
    ensures prior.status != Reviewed ==> OwnerAfter(head, prior) == prior
  {
    OneEffectiveOwner(base, head, tree, prior);
  }

  lemma EvidenceTransitive(a: Record, b: Record, c: Record)
    requires KeepsEvidence(a, b) && KeepsEvidence(b, c)
    ensures KeepsEvidence(a, c)
  {
  }

  /** The owner of a behaviour after the first `n` steps. */
  function OwnerAt(cats: seq<seq<Record>>, first: Record, n: nat): Record
    requires n < |cats|
  {
    if n == 0 then first else OwnerAfter(cats[n], OwnerAt(cats, first, n - 1))
  }

  lemma {:induction false} OwnerPresent(cats: seq<seq<Record>>, trees: seq<set<string>>, first: Record, n: nat)
    requires AcceptedRun(cats, trees) && first in cats[0] && n < |cats|
    ensures OwnerAt(cats, first, n) in cats[n]
  {
    if n > 0 {
      OwnerPresent(cats, trees, first, n - 1);
      assert StepAccepted(cats, trees, n - 1);
      StepKeepsOwner(cats[n - 1], cats[n], trees[n - 1], OwnerAt(cats, first, n - 1));
    }
  }

  /** Along any run of accepted steps each behaviour keeps an owner, and the owner's tests,
      outcomes and boundaries never shrink; a behaviour not under review keeps its record for ever. */
  lemma {:induction false} EvidenceNeverShrinks(cats: seq<seq<Record>>, trees: seq<set<string>>, first: Record, m: nat, n: nat)
    requires AcceptedRun(cats, trees) && first in cats[0] && m <= n < |cats|
    ensures OwnerAt(cats, first, n) in cats[n]
    ensures KeepsEvidence(OwnerAt(cats, first, m), OwnerAt(cats, first, n))
    ensures OwnerAt(cats, first, m).status != Reviewed ==> OwnerAt(cats, first, n) == OwnerAt(cats, first, m)
    decreases n
  {
    OwnerPresent(cats, trees, first, n);
    if m < n {
      OwnerPresent(cats, trees, first, n - 1);
      EvidenceNeverShrinks(cats, trees, first, m, n - 1);
      assert StepAccepted(cats, trees, n - 1);
      StepKeepsOwner(cats[n - 1], cats[n], trees[n - 1], OwnerAt(cats, first, n - 1));
      EvidenceTransitive(OwnerAt(cats, first, m), OwnerAt(cats, first, n - 1), OwnerAt(cats, first, n));
    }
  }

  /** Over a whole run two behaviours get the same owner exactly when one of them supersedes the
      other in the first base and survives the first step; no later step merges any. */
  lemma {:induction false} OwnersMergeOnlyAtFirst(cats: seq<seq<Record>>, trees: seq<set<string>>, a: Record, b: Record, n: nat)
    requires AcceptedRun(cats, trees) && 1 <= n < |cats|
    requires a in cats[0] && b in cats[0] && a.behaviorId != b.behaviorId
    ensures OwnerAt(cats, a, n).behaviorId == OwnerAt(cats, b, n).behaviorId
            <==> Absorbs(cats[1], a, b) || Absorbs(cats[1], b, a)
  {
    if n == 1 {
      FirstStep(cats, trees, a, b);
    } else {
      OwnersMergeOnlyAtFirst(cats, trees, a, b, n - 1);
      LaterStep(cats, trees, a, b, n);
    }
  }

  /** After the first step owners neither merge nor part. */
  lemma LaterStep(cats: seq<seq<Record>>, trees: seq<set<string>>, a: Record, b: Record, n: nat)
    requires AcceptedRun(cats, trees) && 2 <= n < |cats| && a in cats[0] && b in cats[0]
    ensures OwnerAt(cats, a, n).behaviorId == OwnerAt(cats, b, n).behaviorId
            <==> OwnerAt(cats, a, n - 1).behaviorId == OwnerAt(cats, b, n - 1).behaviorId
  {
    OwnerPresent(cats, trees, a, n - 1);
    OwnerPresent(cats, trees, b, n - 1);
    CleanAfter(cats, trees, n - 1);
    assert StepAccepted(cats, trees, n - 1);
    NextStep(cats, trees, n, OwnerAt(cats, a, n - 1), OwnerAt(cats, b, n - 1));
  }

  lemma FirstStep(cats: seq<seq<Record>>, trees: seq<set<string>>, a: Record, b: Record)
    requires AcceptedRun(cats, trees) && 1 < |cats|
    requires a in cats[0] && b in cats[0] && a.behaviorId != b.behaviorId
    ensures OwnerAfter(cats[1], a).behaviorId == OwnerAfter(cats[1], b).behaviorId
            <==> Absorbs(cats[1], a, b) || Absorbs(cats[1], b, a)
  {
    assert StepAccepted(cats, trees, 0);
    StepMerges(cats[0], cats[1], trees[0], a, b);
  }

  lemma CleanAfter(cats: seq<seq<Record>>, trees: seq<set<string>>, n: nat)
    requires AcceptedRun(cats, trees) && 1 <= n < |cats|
    ensures Clean(cats[n])
  {
    assert StepAccepted(cats, trees, n - 1);
    HeadIsClean(cats[n - 1], cats[n], trees[n - 1]);
  }

  lemma NextStep(cats: seq<seq<Record>>, trees: seq<set<string>>, n: nat, x: Record, y: Record)
    requires |cats| == |trees| + 1 && 1 <= n < |cats| && StepAccepted(cats, trees, n - 1) && Clean(cats[n - 1])
    requires x in cats[n - 1] && y in cats[n - 1]
    ensures OwnerAfter(cats[n], x).behaviorId == OwnerAfter(cats[n], y).behaviorId <==> x.behaviorId == y.behaviorId
  {
    CleanStep(cats[n - 1], cats[n], trees[n - 1], x, y);
  }

  lemma StepMerges(base: seq<Record>, head: seq<Record>, tree: set<string>, a: Record, b: Record)
    requires Accepted(base, head, tree) && Distinct(Ids(head))
    requires a in base && b in base && a.behaviorId != b.behaviorId
    ensures OwnerAfter(head, a).behaviorId == OwnerAfter(head, b).behaviorId
            <==> Absorbs(head, a, b) || Absorbs(head, b, a)
  {
    OwnersMergeExactly(base, head, tree, a, b);
    OneEffectiveOwner(base, head, tree, a);
    OneEffectiveOwner(base, head, tree, b);
    DistinctIdsIdentify(head, OwnerAfter(head, a));
  }

  /** From a clean base a step keeps distinct behaviours apart, and equal ones together. */
  lemma CleanStep(base: seq<Record>, head: seq<Record>, tree: set<string>, a: Record, b: Record)
    requires Accepted(base, head, tree) && Distinct(Ids(head)) && Clean(base) && a in base && b in base
    ensures OwnerAfter(head, a).behaviorId == OwnerAfter(head, b).behaviorId <==> a.behaviorId == b.behaviorId
  {
    if a.behaviorId == b.behaviorId {
      SoleOwner(base, head, tree, a);
      SoleOwner(base, head, tree, b);
    } else {
      StepMerges(base, head, tree, a, b);
    }
  }

  // ----- how many records there are -----

  /** The base records that a surviving base record supersedes. */
  function Absorbed(base: seq<Record>, head: seq<Record>): set<Record> {
    set b | b in base && exists a :: a in base && Absorbs(head, a, b)
  }

  /** The head records that own no base behaviour. */
  function Newcomers(base: seq<Record>, head: seq<Record>): set<Record> {
    set r | r in head && r !in base && r.supersedes.None?
  }

  /** The owners, in one head, of a set of records. */
  function OwnersOf(head: seq<Record>, part: set<Record>): set<Record> {
    set r | r in part :: OwnerAfter(head, r)
  }

  lemma {:induction false} OwnedTwice(records: seq<Record>, i: nat, j: nat)
    requires i < j < |records| && records[i].behaviorId == records[j].behaviorId
    ensures |Owners(records, records[i].behaviorId)| >= 2
    decreases |records|
  {
    var last := |records| - 1;
    if j < last {
      OwnedTwice(records[..last], i, j);
    } else {
      OwnersExact(records[..last], records[i].behaviorId);
      assert records[..last][i] in Owners(records[..last], records[i].behaviorId);
    }
  }

  /** Acceptance alone makes the base's identities distinct. */
  lemma BaseDistinct(base: seq<Record>, head: seq<Record>, tree: set<string>)
    requires Accepted(base, head, tree)
    ensures Distinct(Ids(base)) && |Elements(base)| == |base|
  {
    forall i, j | 0 <= i < j < |base| ensures base[i].behaviorId != base[j].behaviorId {
      assert BaseKept(base, head, base[i].behaviorId);
      if base[i].behaviorId == base[j].behaviorId { OwnedTwice(base, i, j); }
    }
    DistinctIffNoRepeat(Ids(base));
    DistinctIffNoRepeat(base);
  }

  /** A map that keeps elements of a set apart keeps their number. */
  lemma {:induction false} OwnersCounted(head: seq<Record>, part: set<Record>)
    requires forall a, b :: a in part && b in part && a != b ==> OwnerAfter(head, a) != OwnerAfter(head, b)
    ensures |OwnersOf(head, part)| == |part|
    decreases part
  {
    if part != {} {
      var x :| x in part;
      OwnersCounted(head, part - {x});
      assert OwnersOf(head, part) == OwnersOf(head, part - {x}) + {OwnerAfter(head, x)};
    }
  }

  /** Records that are not absorbed have owners of their own. */
  lemma UnabsorbedApart(base: seq<Record>, head: seq<Record>, tree: set<string>, a: Record, b: Record)
    requires Accepted(base, head, tree) && Distinct(Ids(head))
    requires a in base && b in base && a != b && a !in Absorbed(base, head) && b !in Absorbed(base, head)
    ensures OwnerAfter(head, a) != OwnerAfter(head, b)
  {
    SoleOwner(base, head, tree, a);
    SoleOwner(base, head, tree, b);
    OwnersMergeExactly(base, head, tree, a, b);
  }

  /** A head record owns a base behaviour that is not absorbed, or is a newcomer. */
  lemma HeadRecordPlaced(base: seq<Record>, head: seq<Record>, tree: set<string>, r: Record)
    requires Accepted(base, head, tree) && Distinct(Ids(head)) && r in head
    ensures r in OwnersOf(head, Elements(base) - Absorbed(base, head)) || r in Newcomers(base, head)
  {
    HeadIsClean(base, head, tree);
    if r in base {
      assert OwnerAfter(head, r) == r && r in Elements(base) - Absorbed(base, head);
    } else if r.supersedes.Some? {
      assert RemapValid(base, r, tree);
      OwnersExact(base, r.supersedes.value);
      var prior := Owners(base, r.supersedes.value)[0];
      assert prior in Owners(base, r.supersedes.value);
      OneEffectiveOwner(base, head, tree, prior);
      assert OwnerAfter(head, prior) == r;
      forall a | a in base ensures !Absorbs(head, a, prior) {
      }
      assert prior in Elements(base) - Absorbed(base, head);
    }
  }

  lemma OwnerPlaced(base: seq<Record>, head: seq<Record>, tree: set<string>, prior: Record)
    requires Accepted(base, head, tree) && Distinct(Ids(head)) && prior in base
    ensures OwnerAfter(head, prior) in head && OwnerAfter(head, prior) !in Newcomers(base, head)
  {
    OneEffectiveOwner(base, head, tree, prior);
  }

  lemma HeadSplit(base: seq<Record>, head: seq<Record>, tree: set<string>)
    requires Accepted(base, head, tree) && Distinct(Ids(head))
    ensures var owners := OwnersOf(head, Elements(base) - Absorbed(base, head));
            Elements(head) == owners + Newcomers(base, head) && owners !! Newcomers(base, head)
  {
    forall r | r in head
      ensures r in OwnersOf(head, Elements(base) - Absorbed(base, head)) || r in Newcomers(base, head)
    {
      HeadRecordPlaced(base, head, tree, r);
    }
    forall prior | prior in base
      ensures OwnerAfter(head, prior) in head && OwnerAfter(head, prior) !in Newcomers(base, head)
    {
      OwnerPlaced(base, head, tree, prior);
    }
  }

  /** Records are conserved: an accepted head has the base's records, less the absorbed, plus the
      newcomers. It is smaller than the base exactly when more are absorbed than come. */
  lemma RecordsConserved(base: seq<Record>, head: seq<Record>, tree: set<string>)
    requires Accepted(base, head, tree) && Distinct(Ids(head))
    ensures |head| + |Absorbed(base, head)| == |base| + |Newcomers(base, head)|
    ensures Clean(base) ==> Absorbed(base, head) == {} && |base| <= |head|
  {
    var kept := Elements(base) - Absorbed(base, head);
    forall a, b | a in kept && b in kept && a != b ensures OwnerAfter(head, a) != OwnerAfter(head, b) {
      UnabsorbedApart(base, head, tree, a, b);
    }
    OwnersCounted(head, kept);
    HeadSplit(base, head, tree);
    BaseDistinct(base, head, tree);
    HeadDistinct(head);
    assert Absorbed(base, head) <= Elements(base);
  }

  lemma HeadDistinct(head: seq<Record>)
    requires Distinct(Ids(head))
    ensures |Elements(head)| == |head|
  {
    DistinctIffNoRepeat(Ids(head));
    DistinctIffNoRepeat(head);
    forall i, j | 0 <= i < j < |head| ensures head[i] != head[j] {
      assert Ids(head)[i] != Ids(head)[j];
    }
  }
}
