/**
 The catalogue of protected behaviours. A head catalogue is accepted against a protected base
 when every base behaviour keeps exactly one effective owner.
 */
module Catalogue {
  import opened Wrappers

  datatype Status = Reviewed | Candidate | StructuralOnly

  /** One catalogue record; `rest` stands for the fields the remap rules only compare. */
  datatype Record = Record(behaviorId: string, status: Status, target: string, callables: seq<string>,
                           tests: seq<string>, outcomes: seq<string>, boundaries: seq<string>,
                           supersedes: Option<string>, rest: string)

  datatype Fault =
    | MultipleProtectedOwners | ProtectedOwnerReplacement | InvalidRemapAncestry | ProtectedLocationStillExists
    | MissingRemapLocation | NarrowedRemapEvidence | MissingEffectiveOwner | MultipleEffectiveOwners

  datatype Verdict = Accepting | Rejected(fault: Fault)

  // ----- what acceptance means -----

  /** The base records filed under one behaviour. */
  function Owners(records: seq<Record>, id: string): seq<Record>
    decreases |records|
  {
    if records == [] then [] else
    var last := records[|records| - 1];
    Owners(records[..|records| - 1], id) + (if last.behaviorId == id then [last] else [])
  }

  /** The head record of a behaviour: the last one, as a dictionary keeps it. */
  function Current(records: seq<Record>, id: string): Option<Record>
    decreases |records|
  {
    if records == [] then None else
    var last := records[|records| - 1];
    if last.behaviorId == id then Some(last) else Current(records[..|records| - 1], id)
  }

  function Replacements(records: seq<Record>, id: string): seq<Record>
    decreases |records|
  {
    if records == [] then [] else
    var last := records[|records| - 1];
    Replacements(records[..|records| - 1], id) + (if last.supersedes == Some(id) then [last] else [])
  }

  predicate Covers(prior: seq<string>, next: seq<string>) {
    forall x :: x in prior ==> x in next
  }

  /** The new record keeps every test, outcome and boundary of the old one. */
  predicate KeepsEvidence(prior: Record, next: Record) {
    Covers(prior.tests, next.tests) && Covers(prior.outcomes, next.outcomes) && Covers(prior.boundaries, next.boundaries)
  }

  predicate BaseKept(base: seq<Record>, head: seq<Record>, id: string) {
    && |Owners(base, id)| == 1
    && (Current(head, id).None? || Current(head, id).value == Owners(base, id)[0])
  }

  predicate RemapValid(base: seq<Record>, record: Record, tree: set<string>) {
    record.supersedes.Some? ==>
      var owners := Owners(base, record.supersedes.value);
      && |owners| == 1
      && owners[0].status == Reviewed
      && owners[0].target !in tree
      && record.target in tree
      && KeepsEvidence(owners[0], record)
  }

  function EffectiveCount(base: seq<Record>, head: seq<Record>, id: string): nat
  {
    (if |Owners(base, id)| > 0 && Current(head, id) == Some(Owners(base, id)[0]) then 1 else 0) + |Replacements(head, id)|
  }

  /** `tree` is the set of files that exist at the head revision. */
  predicate Accepted(base: seq<Record>, head: seq<Record>, tree: set<string>) {
    && (forall r :: r in base ==> BaseKept(base, head, r.behaviorId))
    && (forall r :: r in head ==> RemapValid(base, r, tree))
    && (forall r :: r in base ==> EffectiveCount(base, head, r.behaviorId) == 1)
  }

  lemma {:induction false} OwnersExact(records: seq<Record>, id: string)
    ensures forall x :: x in Owners(records, id) <==> x in records && x.behaviorId == id
    decreases |records|
  {
    if records != [] {
      var last := |records| - 1;
      OwnersExact(records[..last], id);
      assert records == records[..last] + [records[last]];
    }
  }

  lemma {:induction false} CurrentExact(records: seq<Record>, id: string)
    ensures Current(records, id).Some? ==> Current(records, id).value in records && Current(records, id).value.behaviorId == id
    ensures Current(records, id).None? <==> forall x :: x in records ==> x.behaviorId != id
    decreases |records|
  {
    if records != [] {
      var last := |records| - 1;
      CurrentExact(records[..last], id);
      assert records == records[..last] + [records[last]];
    }
  }

  lemma {:induction false} ReplacementsExact(records: seq<Record>, id: string)
    ensures forall x :: x in Replacements(records, id) <==> x in records && x.supersedes == Some(id)
    decreases |records|
  {
    if records != [] {
      var last := |records| - 1;
      ReplacementsExact(records[..last], id);
      assert records == records[..last] + [records[last]];
    }
  }

  // ----- the validator -----

  /** Files the base by behaviour, keeping the order in which behaviours first appear. */
  method GroupById(records: seq<Record>) returns (byId: map<string, seq<Record>>, order: seq<string>)
    ensures forall id :: id in byId <==> exists r :: r in records && r.behaviorId == id
    ensures forall id :: id in byId ==> byId[id] == Owners(records, id)
    ensures forall id :: id in order <==> id in byId
  {
    byId, order := map[], [];
    for i := 0 to |records|
      invariant forall id :: id in byId <==> exists r :: r in records[..i] && r.behaviorId == id
      invariant forall id :: id in byId ==> byId[id] == Owners(records[..i], id)
      invariant forall id :: id in order <==> id in byId
    {
      var item := records[i];
      assert records[..i + 1] == records[..i] + [item];
      assert records[..i + 1][..i] == records[..i];
      forall id ensures Owners(records[..i + 1], id) ==
                        Owners(records[..i], id) + (if item.behaviorId == id then [item] else []) {
      }
      if item.behaviorId in byId {
        byId := byId[item.behaviorId := byId[item.behaviorId] + [item]];
      } else {
        NoOwners(records[..i], item.behaviorId);
        byId := byId[item.behaviorId := [item]];
        order := order + [item.behaviorId];
      }
    }
    assert records[..|records|] == records;
  }

  method CurrentById(records: seq<Record>) returns (byId: map<string, Record>)
    ensures forall id :: (id in byId <==> Current(records, id).Some?)
    ensures forall id :: id in byId ==> Some(byId[id]) == Current(records, id)
  {
    byId := map[];
    for i := 0 to |records|
      invariant forall id :: (id in byId <==> Current(records[..i], id).Some?)
      invariant forall id :: id in byId ==> Some(byId[id]) == Current(records[..i], id)
    {
      assert records[..i + 1][..i] == records[..i];
      byId := byId[records[i].behaviorId := records[i]];
    }
    assert records[..|records|] == records;
  }

  lemma NoOwners(records: seq<Record>, id: string)
    requires forall r :: r in records ==> r.behaviorId != id
    ensures Owners(records, id) == []
  {
    OwnersExact(records, id);
    var owners := Owners(records, id);
    assert forall i :: 0 <= i < |owners| ==> owners[i] in owners;
  }

  /** The dictionaries the three passes of the validator read. */
  ghost predicate Filed(base: seq<Record>, records: seq<Record>, protectedById: map<string, seq<Record>>,
                        order: seq<string>, currentById: map<string, Record>) {
    && (forall id :: id in protectedById <==> exists r :: r in base && r.behaviorId == id)
    && (forall id :: id in protectedById ==> protectedById[id] == Owners(base, id))
    && (forall id :: id in order <==> id in protectedById)
    && (forall id :: (id in currentById <==> Current(records, id).Some?))
    && (forall id :: id in currentById ==> Some(currentById[id]) == Current(records, id))
  }

  lemma OrderCoversBase(base: seq<Record>, records: seq<Record>, protectedById: map<string, seq<Record>>,
                        order: seq<string>, currentById: map<string, Record>)
    requires Filed(base, records, protectedById, order, currentById)
    ensures forall r :: r in base ==> exists j :: 0 <= j < |order| && order[j] == r.behaviorId
    ensures forall j :: 0 <= j < |order| ==>
              |Owners(base, order[j])| >= 1 && Owners(base, order[j])[0] in base && Owners(base, order[j])[0].behaviorId == order[j]
  {
    forall j | 0 <= j < |order|
      ensures |Owners(base, order[j])| >= 1 && Owners(base, order[j])[0] in base && Owners(base, order[j])[0].behaviorId == order[j]
    {
      assert order[j] in order;
      var r :| r in base && r.behaviorId == order[j];
      OwnersExact(base, order[j]);
      assert r in Owners(base, order[j]);
      assert Owners(base, order[j])[0] in Owners(base, order[j]);
    }
    forall r | r in base ensures exists j :: 0 <= j < |order| && order[j] == r.behaviorId {
      assert r.behaviorId in order;
    }
  }

  method CheckBaseKept(base: seq<Record>, records: seq<Record>, protectedById: map<string, seq<Record>>,
                       order: seq<string>, currentById: map<string, Record>) returns (verdict: Verdict)
    requires Filed(base, records, protectedById, order, currentById)
    ensures verdict.Accepting? <==> forall r :: r in base ==> BaseKept(base, records, r.behaviorId)
    ensures verdict.Rejected? ==> verdict.fault in {MultipleProtectedOwners, ProtectedOwnerReplacement}
    ensures verdict == Rejected(MultipleProtectedOwners) ==>
              exists r :: r in base && |Owners(base, r.behaviorId)| > 1
    ensures verdict == Rejected(ProtectedOwnerReplacement) ==>
              exists r :: r in base && |Owners(base, r.behaviorId)| == 1
                          && Current(records, r.behaviorId).Some? && Current(records, r.behaviorId).value != r
  {
    OrderCoversBase(base, records, protectedById, order, currentById);
    for i := 0 to |order|
      invariant forall j :: 0 <= j < i ==> BaseKept(base, records, order[j])
    {
      var id := order[i];
      assert id in order;
      var owners := protectedById[id];
      if |owners| != 1 {
        return Rejected(MultipleProtectedOwners);
      }
      if id in currentById && currentById[id] != owners[0] {
        return Rejected(ProtectedOwnerReplacement);
      }
    }
    return Accepting;
  }

  method CheckRemaps(base: seq<Record>, records: seq<Record>, tree: set<string>, protectedById: map<string, seq<Record>>,
                     ghost order: seq<string>, ghost currentById: map<string, Record>) returns (verdict: Verdict)
    requires Filed(base, records, protectedById, order, currentById)
    ensures verdict.Accepting? <==> forall r :: r in records ==> RemapValid(base, r, tree)
    ensures verdict.Rejected? ==> verdict.fault in {InvalidRemapAncestry, ProtectedLocationStillExists,
                                                   MissingRemapLocation, NarrowedRemapEvidence}
  {
    for i := 0 to |records|
      invariant forall j :: 0 <= j < i ==> RemapValid(base, records[j], tree)
    {
      var record := records[i];
      assert record in records;
      if record.supersedes.Some? {
        var superseded := record.supersedes.value;
        var owners := if superseded in protectedById then protectedById[superseded] else [];
        if superseded !in protectedById { NoOwners(base, superseded); }
        if |owners| != 1 || owners[0].status != Reviewed {
          return Rejected(InvalidRemapAncestry);
        }
        if owners[0].target in tree {
          return Rejected(ProtectedLocationStillExists);
        }
        if record.target !in tree {
          return Rejected(MissingRemapLocation);
        }
        if !KeepsEvidence(owners[0], record) {
          return Rejected(NarrowedRemapEvidence);
        }
      }
    }
    return Accepting;
  }

  method CheckEffectiveOwners(base: seq<Record>, records: seq<Record>, protectedById: map<string, seq<Record>>,
                              order: seq<string>, currentById: map<string, Record>) returns (verdict: Verdict)
    requires Filed(base, records, protectedById, order, currentById)
    ensures verdict.Accepting? <==> forall r :: r in base ==> EffectiveCount(base, records, r.behaviorId) == 1
    ensures verdict.Rejected? ==> verdict.fault in {MissingEffectiveOwner, MultipleEffectiveOwners}
    ensures verdict == Rejected(MissingEffectiveOwner) ==>
              exists r :: r in base && EffectiveCount(base, records, r.behaviorId) == 0
    ensures verdict == Rejected(MultipleEffectiveOwners) ==>
              exists r :: r in base && EffectiveCount(base, records, r.behaviorId) > 1
  {
    OrderCoversBase(base, records, protectedById, order, currentById);
    for i := 0 to |order|
      invariant forall j :: 0 <= j < i ==> EffectiveCount(base, records, order[j]) == 1
    {
      var id := order[i];
      assert id in order;
      var owners := protectedById[id];
      var replacements := Replacements(records, id);
      var kept := if id in currentById && currentById[id] == owners[0] then 1 else 0;
      var effective := kept + |replacements|;
      assert effective == EffectiveCount(base, records, id);
      ghost var filed := Owners(base, id)[0];
      assert filed in base && EffectiveCount(base, records, filed.behaviorId) == effective;
      if effective == 0 {
        return Rejected(MissingEffectiveOwner);
      }
      if effective > 1 {
        return Rejected(MultipleEffectiveOwners);
      }
    }
    return Accepting;
  }

  lemma UnownedIsGone(base: seq<Record>, records: seq<Record>, r: Record)
    requires r in base && BaseKept(base, records, r.behaviorId) && EffectiveCount(base, records, r.behaviorId) == 0
    ensures r !in records && Replacements(records, r.behaviorId) == []
  {
    OwnersExact(base, r.behaviorId);
    CurrentExact(records, r.behaviorId);
    assert r in Owners(base, r.behaviorId);
  }

  /** Accepts exactly the heads in which every base behaviour keeps one effective owner; a
      refusal names a rule that some record really breaks. */
  method ValidateRemaps(base: seq<Record>, records: seq<Record>, tree: set<string>) returns (verdict: Verdict)
    ensures verdict.Accepting? <==> Accepted(base, records, tree)
    ensures verdict == Rejected(MultipleProtectedOwners) ==>
              exists r :: r in base && |Owners(base, r.behaviorId)| > 1
    ensures verdict == Rejected(ProtectedOwnerReplacement) ==>
              exists r :: r in base && |Owners(base, r.behaviorId)| == 1
                          && Current(records, r.behaviorId).Some? && Current(records, r.behaviorId).value != r
    ensures verdict.Rejected? && verdict.fault in {InvalidRemapAncestry, ProtectedLocationStillExists,
                                                  MissingRemapLocation, NarrowedRemapEvidence} ==>
              exists r :: r in records && !RemapValid(base, r, tree)
    ensures verdict == Rejected(MissingEffectiveOwner) ==>
              exists r :: r in base && r !in records && Replacements(records, r.behaviorId) == []
    ensures verdict == Rejected(MultipleEffectiveOwners) ==>
              exists r :: r in base && |Owners(base, r.behaviorId)| == 1 && EffectiveCount(base, records, r.behaviorId) > 1
  {
    var protectedById, order := GroupById(base);
    var currentById := CurrentById(records);
    verdict := CheckBaseKept(base, records, protectedById, order, currentById);
    if verdict.Rejected? { return; }
    verdict := CheckRemaps(base, records, tree, protectedById, order, currentById);
    if verdict.Rejected? { return; }
    verdict := CheckEffectiveOwners(base, records, protectedById, order, currentById);
    if verdict == Rejected(MissingEffectiveOwner) {
      ghost var r :| r in base && EffectiveCount(base, records, r.behaviorId) == 0;
      UnownedIsGone(base, records, r);
    }
  }
}
