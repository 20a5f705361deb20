/**
 What the visitor's acceptance means position by position: a node is judged by the aliases bound
 before it in source order, so a name used above the import that binds it goes unnoticed.
 */
module ImportAliases {
  import opened Wrappers
  import opened DynamicImports

  // ----- what the visitor knows at a position -----

  /** The aliases after `k` nodes. */
  function Known(nodes: seq<Node>, k: nat): Aliases
    requires k <= |nodes|
  {
    if k == 0 then INITIAL else Learn(nodes[k - 1], Known(nodes, k - 1))
  }

  predicate RefusedAt(nodes: seq<Node>, k: nat)
    requires k < |nodes|
  {
    Refuses(nodes[k], Known(nodes, k))
  }

  ghost predicate NoneRefused(nodes: seq<Node>, m: nat)
    requires m <= |nodes|
  {
    forall k :: 0 <= k < m ==> !RefusedAt(nodes, k)
  }

  lemma {:induction false} KnownGrows(nodes: seq<Node>, j: nat, k: nat)
    requires j <= k <= |nodes|
    ensures Known(nodes, j).Within(Known(nodes, k))
    decreases k
  {
    if j < k { KnownGrows(nodes, j, k - 1); }
  }

  lemma OneMoreRefused(nodes: seq<Node>, m: nat)
    requires 0 < m <= |nodes|
    ensures NoneRefused(nodes, m) <==> NoneRefused(nodes, m - 1) && !RefusedAt(nodes, m - 1)
  {
  }

  /** The scan accepts exactly when no node is refused by what was learned before it. */
  lemma {:induction false} ScanByPosition(nodes: seq<Node>, m: nat)
    requires m <= |nodes|
    ensures ScanFrom(INITIAL, nodes[..m]) == if NoneRefused(nodes, m) then Accepted(Known(nodes, m)) else Scan.Refused
  {
    if m == 0 {
      assert nodes[..0] == [];
    } else {
      ScanByPosition(nodes, m - 1);
      OneMoreRefused(nodes, m);
      assert nodes[..m] == nodes[..m - 1] + [nodes[m - 1]];
      ScanConcat(INITIAL, nodes[..m - 1], [nodes[m - 1]]);
      ScanOne(Known(nodes, m - 1), nodes[m - 1]);
    }
  }

  // ----- the same in closed form -----

  predicate BindsSys(node: Node, s: string) {
    node.Import? && exists i :: 0 <= i < |node.names| && node.names[i].name == "sys" && node.names[i].Bound() == s
  }

  /** `importlib.import_module` or `builtins.__import__`, spelled out. */
  predicate Spelled(node: Node) { node.Attribute? && ImportCallable(node, INITIAL) }

  predicate BindsCall(node: Node, s: string) {
    node.Assign? && Spelled(node.rhs) && exists i :: 0 <= i < |node.targets| && node.targets[i].Name? && node.targets[i].id == s
  }

  predicate Copies(node: Node, a: Aliases) { node.Assign? && node.rhs.Name? && node.rhs.id in a.calls }

  /** The aliases the first `k` nodes bind by an import or a spelled-out callable. */
  function Bound(nodes: seq<Node>, k: nat): Aliases
    requires k <= |nodes|
  {
    if k == 0 then INITIAL else
    var a := Bound(nodes, k - 1);
    if Copies(nodes[k - 1], a) then a else Learn(nodes[k - 1], a)
  }

  lemma BindingLearned(node: Node, a: Aliases, s: string)
    requires !Copies(node, a)
    ensures s in Learn(node, a).sys <==> s in a.sys || BindsSys(node, s)
    ensures s in Learn(node, a).calls <==> s in a.calls || BindsCall(node, s)
  {
  }

  /** They are exactly the names those nodes bind, and the initial ones. */
  lemma {:induction false} BoundExactly(nodes: seq<Node>, k: nat, s: string)
    requires k <= |nodes|
    ensures s in Bound(nodes, k).sys <==> s == "sys" || exists j :: 0 <= j < k && BindsSys(nodes[j], s)
    ensures s in Bound(nodes, k).calls <==> s in BASE_CALLS || exists j :: 0 <= j < k && BindsCall(nodes[j], s)
  {
    if k > 0 {
      var a := Bound(nodes, k - 1);
      BoundExactly(nodes, k - 1, s);
      if !Copies(nodes[k - 1], a) { BindingLearned(nodes[k - 1], a, s); }
    }
  }

  lemma {:induction false} BoundGrows(nodes: seq<Node>, j: nat, k: nat)
    requires j <= k <= |nodes|
    ensures Bound(nodes, j).Within(Bound(nodes, k))
    decreases k
  {
    if j < k { BoundGrows(nodes, j, k - 1); }
  }

  ghost predicate NoneBarred(nodes: seq<Node>) {
    forall k :: 0 <= k < |nodes| ==> !Refuses(nodes[k], Bound(nodes, k))
  }

  lemma {:induction false} KnownIsBound(nodes: seq<Node>, k: nat)
    requires k <= |nodes| && forall j :: 0 <= j < k ==> !Copies(nodes[j], Known(nodes, j))
    ensures Known(nodes, k) == Bound(nodes, k)
  {
    if k > 0 { KnownIsBound(nodes, k - 1); }
  }

  lemma {:induction false} BoundIsKnown(nodes: seq<Node>, k: nat)
    requires k <= |nodes| && forall j :: 0 <= j < k ==> !Copies(nodes[j], Bound(nodes, j))
    ensures Known(nodes, k) == Bound(nodes, k)
  {
    if k > 0 { BoundIsKnown(nodes, k - 1); }
  }

  // ----- copies of a callable name -----

  /** Python loads the name on the right of an assignment. */
  predicate LoadsAssigned(nodes: seq<Node>) {
    forall k :: 0 <= k < |nodes| && nodes[k].Assign? && nodes[k].rhs.Name? ==> nodes[k].rhs.load
  }

  lemma AssignFlat(node: Node)
    requires node.Assign? && node.rhs.Name?
    ensures Flatten(node) == [node] + (FlattenAll(node.targets) + [node.rhs])
  {
  }

  lemma LastOfPart(nodes: seq<Node>, k: nat, part: seq<Node>)
    requires StandsAt(nodes, k, part) && part != []
    ensures nodes[k + |part| - 1] == part[|part| - 1]
  {
    assert nodes[k..k + |part|][|part| - 1] == nodes[k + |part| - 1];
  }

  /** The name on the right of an assignment is itself visited, after the assignment. */
  lemma RightSideFollows(tree: Node, k: nat) returns (r: nat)
    requires k < |Flatten(tree)| && Flatten(tree)[k].Assign? && Flatten(tree)[k].rhs.Name?
    ensures k < r < |Flatten(tree)| && Flatten(tree)[r] == Flatten(tree)[k].rhs
  {
    var node := Flatten(tree)[k];
    var part := Flatten(node);
    AssignFlat(node);
    SubtreeIsSegment(tree, k);
    LastOfPart(Flatten(tree), k, part);
    r := k + |part| - 1;
  }

  /** So a copy of a callable name is refused there. */
  lemma CopyRefused(tree: Node, k: nat)
    requires LoadsAssigned(Flatten(tree)) && k < |Flatten(tree)|
    ensures Copies(Flatten(tree)[k], Known(Flatten(tree), k)) ==> !NoneRefused(Flatten(tree), |Flatten(tree)|)
    ensures Copies(Flatten(tree)[k], Bound(Flatten(tree), k)) ==> !NoneBarred(Flatten(tree))
  {
    if Flatten(tree)[k].Assign? && Flatten(tree)[k].rhs.Name? {
      var r := RightSideFollows(tree, k);
      KnownGrows(Flatten(tree), k, r);
      BoundGrows(Flatten(tree), k, r);
      assert Copies(Flatten(tree)[k], Known(Flatten(tree), k)) ==> RefusedAt(Flatten(tree), r);
    }
  }

  // ----- acceptance -----

  /** A tree is accepted exactly when no node is refused by the names bound before it. */
  lemma AcceptedExactly(tree: Node)
    requires LoadsAssigned(Flatten(tree))
    ensures ScanFrom(INITIAL, Flatten(tree)).Accepted? <==> NoneBarred(Flatten(tree))
  {
    var nodes := Flatten(tree);
    ScanByPosition(nodes, |nodes|);
    assert nodes[..|nodes|] == nodes;
    if NoneRefused(nodes, |nodes|) { RefusedToBarred(tree); }
    if NoneBarred(nodes) { BarredToRefused(tree); }
  }

  lemma RefusedToBarred(tree: Node)
    requires LoadsAssigned(Flatten(tree)) && NoneRefused(Flatten(tree), |Flatten(tree)|)
    ensures NoneBarred(Flatten(tree))
  {
    var nodes := Flatten(tree);
    forall j | 0 <= j < |nodes| ensures !Copies(nodes[j], Known(nodes, j)) {
      CopyRefused(tree, j);
    }
    forall k | 0 <= k < |nodes| ensures !Refuses(nodes[k], Bound(nodes, k)) {
      KnownIsBound(nodes, k);
      assert !RefusedAt(nodes, k);
    }
  }

  lemma BarredToRefused(tree: Node)
    requires LoadsAssigned(Flatten(tree)) && NoneBarred(Flatten(tree))
    ensures NoneRefused(Flatten(tree), |Flatten(tree)|)
  {
    var nodes := Flatten(tree);
    forall j | 0 <= j < |nodes| ensures !Copies(nodes[j], Bound(nodes, j)) {
      CopyRefused(tree, j);
    }
    forall k | 0 <= k < |nodes| ensures !RefusedAt(nodes, k) {
      BoundIsKnown(nodes, k);
    }
  }

  // ----- the module registry -----

  /** The name through which a node reaches for the registry of loaded modules, if it does. */
  function Reaches(node: Node): Option<string> {
    if node.Attribute? && node.attrLoad && node.value.Name? && node.attr == "modules" then Some(node.value.id)
    else if node.Subscript? && node.subject.Attribute? && node.subject.value.Name? && node.subject.attr == "modules" then
      Some(node.subject.value.id)
    else if node.Call? && node.func.Name? && node.func.id == "getattr" && |node.args| > 0 && node.args[0].Name? then
      Some(node.args[0].id)
    else None
  }

  ghost predicate BoundAbove(nodes: seq<Node>, k: nat, s: string)
    requires k <= |nodes|
  {
    exists j :: 0 <= j < k && BindsSys(nodes[j], s)
  }

  /** An assignment that gives `s` what the name `t` holds. */
  predicate CopiesName(node: Node, s: string, t: string) {
    && node.Assign? && node.rhs.Name? && node.rhs.id == t
    && exists i :: 0 <= i < |node.targets| && node.targets[i].Name? && node.targets[i].id == s
  }

  /** The name holds `sys` by an import anywhere in the tree, or by at most `n` copies of such a name. */
  ghost predicate StandsBy(nodes: seq<Node>, s: string, n: nat)
    decreases n
  {
    || s == "sys" || BoundAbove(nodes, |nodes|, s)
    || (n > 0 && exists t :: StandsBy(nodes, t, n - 1) && CopiedFrom(nodes, s, t))
  }

  ghost predicate CopiedFrom(nodes: seq<Node>, s: string, t: string) {
    exists j :: 0 <= j < |nodes| && CopiesName(nodes[j], s, t)
  }

  ghost predicate Stands(nodes: seq<Node>, s: string) { exists n: nat :: StandsBy(nodes, s, n) }

  /** The name is imported as `sys`, but only below the node. */
  ghost predicate ImportedBelow(nodes: seq<Node>, k: nat, s: string)
    requires k <= |nodes|
  {
    s != "sys" && BoundAbove(nodes, |nodes|, s) && !BoundAbove(nodes, k, s)
  }

  /** The name is imported nowhere and copied from one that stands for `sys`. */
  ghost predicate OnlyCopied(nodes: seq<Node>, s: string) {
    s != "sys" && !BoundAbove(nodes, |nodes|, s) && exists t :: Stands(nodes, t) && CopiedFrom(nodes, s, t)
  }

  /** The node spells a use of the registry with a name that stands for `sys`. */
  ghost predicate Touches(nodes: seq<Node>, k: nat)
    requires k < |nodes|
  {
    Reaches(nodes[k]).Some? && Stands(nodes, Reaches(nodes[k]).value)
  }

  /** A name stands for `sys` exactly when it is `sys`, imported, or a copy of one that does. */
  lemma StandsExactly(nodes: seq<Node>, s: string)
    ensures Stands(nodes, s) <==>
            s == "sys" || BoundAbove(nodes, |nodes|, s) || exists t :: Stands(nodes, t) && CopiedFrom(nodes, s, t)
  {
    if Stands(nodes, s) {
      var n: nat :| StandsBy(nodes, s, n);
      if s != "sys" && !BoundAbove(nodes, |nodes|, s) {
        var t :| StandsBy(nodes, t, n - 1) && CopiedFrom(nodes, s, t);
        assert Stands(nodes, t);
      }
    }
    if s == "sys" || BoundAbove(nodes, |nodes|, s) {
      assert StandsBy(nodes, s, 0);
    } else if exists t :: Stands(nodes, t) && CopiedFrom(nodes, s, t) {
      var t :| Stands(nodes, t) && CopiedFrom(nodes, s, t);
      var n: nat :| StandsBy(nodes, t, n);
      assert StandsBy(nodes, s, n + 1);
    }
  }

  lemma ReachRefused(node: Node, a: Aliases)
    requires Reaches(node).Some? && Reaches(node).value in a.sys
    ensures Refuses(node, a)
  {
  }

  lemma {:induction false} SysKnown(nodes: seq<Node>, k: nat, s: string)
    requires k <= |nodes|
    ensures s in Known(nodes, k).sys <==> s == "sys" || BoundAbove(nodes, k, s)
  {
    if k > 0 { SysKnown(nodes, k - 1, s); }
  }

  /** In an accepted tree a node reaches for the registry only through a name that is not `sys` and
      that no import above it binds to `sys`. */
  lemma RegistryReachedEarly(tree: Node, k: nat)
    requires ScanFrom(INITIAL, Flatten(tree)).Accepted? && k < |Flatten(tree)| && Reaches(Flatten(tree)[k]).Some?
    ensures Reaches(Flatten(tree)[k]).value != "sys" && !BoundAbove(Flatten(tree), k, Reaches(Flatten(tree)[k]).value)
  {
    var nodes := Flatten(tree);
    ScanByPosition(nodes, |nodes|);
    assert nodes[..|nodes|] == nodes;
    assert !RefusedAt(nodes, k);
    SysKnown(nodes, k, Reaches(nodes[k]).value);
    if Reaches(nodes[k]).value in Known(nodes, k).sys { ReachRefused(nodes[k], Known(nodes, k)); }
  }

  /** So in an accepted tree a node touches the registry exactly when the name it uses is imported
      as `sys` only below it, or is not imported at all but copied from a name that stands for `sys`. */
  lemma TouchesExactly(tree: Node, k: nat)
    requires ScanFrom(INITIAL, Flatten(tree)).Accepted? && k < |Flatten(tree)|
    ensures Touches(Flatten(tree), k) <==>
            && Reaches(Flatten(tree)[k]).Some?
            && var s := Reaches(Flatten(tree)[k]).value;
            ImportedBelow(Flatten(tree), k, s) || OnlyCopied(Flatten(tree), s)
  {
    if Reaches(Flatten(tree)[k]).Some? {
      RegistryReachedEarly(tree, k);
      StandsExactly(Flatten(tree), Reaches(Flatten(tree)[k]).value);
    }
  }

  /** A use of the registry through `s`. */
  function Use(s: string): Node { Subscript(Attribute(Name(s, true), "modules", true), Other([])) }

  /** The use stands above the import that binds the name, say in a function body. */
  function UseAboveImport(s: string): Node { Other([Use(s), Import([Alias("sys", s)])]) }

  lemma FlatUse(s: string)
    ensures Flatten(Use(s)) == [Use(s), Use(s).subject, Name(s, true), Other([])]
  {
    assert Flatten(Name(s, true)) == [Name(s, true)];
    assert Flatten(Use(s).subject) == [Use(s).subject] + Flatten(Name(s, true));
    assert FlattenAll([]) == [];
    assert Flatten(Other([])) == [Other([])];
  }

  lemma FlatUseAboveImport(s: string)
    ensures Flatten(UseAboveImport(s)) ==
            [UseAboveImport(s), Use(s), Use(s).subject, Name(s, true), Other([]), Import([Alias("sys", s)])]
  {
    var bind := Import([Alias("sys", s)]);
    FlatUse(s);
    FlattenSingle(bind);
    assert Flatten(bind) == [bind];
    FlattenSingle(Use(s));
    FlattenConcat([Use(s)], [bind]);
    assert [Use(s), bind] == [Use(s)] + [bind];
  }

  lemma SysIsNoLoader()
    ensures RootOf("sys") !in LOADING_MODULES
  {
    assert "sys"[1..] == "ys" && "ys"[1..] == "s" && "s"[1..] == "";
    assert RootOf("s") == "s" && RootOf("ys") == "ys" && RootOf("sys") == "sys";
  }

  lemma {:induction false} NothingLearned(nodes: seq<Node>, k: nat)
    requires k <= |nodes| && forall j :: 0 <= j < k ==> Learn(nodes[j], INITIAL) == INITIAL
    ensures Known(nodes, k) == INITIAL
  {
    if k > 0 { NothingLearned(nodes, k - 1); }
  }

  /** Such a tree is accepted although it touches the registry. */
  lemma EarlyUseAccepted(s: string)
    requires s != "" && s != "sys" && s != "__builtins__" && s !in BASE_CALLS
    ensures |Flatten(UseAboveImport(s))| == 6
    ensures ScanFrom(INITIAL, Flatten(UseAboveImport(s))).Accepted? && Touches(Flatten(UseAboveImport(s)), 1)
  {
    FlatUseAboveImport(s);
    SysIsNoLoader();
    var nodes := Flatten(UseAboveImport(s));
    forall k | 0 <= k < 6 ensures !RefusedAt(nodes, k) {
      NothingLearned(nodes, k);
    }
    ScanByPosition(nodes, 6);
    assert nodes[..6] == nodes;
    assert BindsSys(nodes[5], s) by { assert nodes[5].names[0].Bound() == s; }
    StandsExactly(nodes, s);
  }

  /** `sys` is imported and copied to `s`, and the registry is used through the copy. */
  function UseOfCopy(s: string): Node {
    Other([Import([Alias("sys", "")]), Assign([Name(s, false)], Name("sys", true)), Use(s)])
  }

  lemma FlatUseOfCopy(s: string)
    ensures Flatten(UseOfCopy(s)) ==
            [UseOfCopy(s), Import([Alias("sys", "")]), Assign([Name(s, false)], Name("sys", true)), Name(s, false),
             Name("sys", true), Use(s), Use(s).subject, Name(s, true), Other([])]
  {
    var bind, copy := Import([Alias("sys", "")]), Assign([Name(s, false)], Name("sys", true));
    FlatUse(s);
    FlattenSingle(bind);
    FlattenSingle(copy);
    FlattenSingle(Use(s));
    FlattenSingle(Name(s, false));
    AssignFlat(copy);
    assert Flatten(bind) == [bind] && Flatten(Name(s, false)) == [Name(s, false)];
    FlattenConcat([bind], [copy]);
    FlattenConcat([bind] + [copy], [Use(s)]);
    assert [bind, copy, Use(s)] == [bind] + [copy] + [Use(s)];
  }

  lemma CopyTouches(nodes: seq<Node>, j: nat, k: nat, s: string)
    requires j < |nodes| && k < |nodes| && CopiesName(nodes[j], s, "sys") && Reaches(nodes[k]) == Some(s)
    ensures Touches(nodes, k)
  {
    assert CopiedFrom(nodes, s, "sys");
    StandsExactly(nodes, "sys");
    StandsExactly(nodes, s);
  }

  lemma CopyTeachesNothing(s: string, j: nat)
    requires j < |Flatten(UseOfCopy(s))|
    ensures Learn(Flatten(UseOfCopy(s))[j], INITIAL) == INITIAL
  {
    FlatUseOfCopy(s);
    assert Alias("sys", "").Bound() == "sys";
  }

  lemma CopyNotRefused(s: string, k: nat)
    requires s != "sys" && s != "__builtins__" && s !in BASE_CALLS && k < |Flatten(UseOfCopy(s))|
    ensures !Refuses(Flatten(UseOfCopy(s))[k], INITIAL)
  {
    FlatUseOfCopy(s);
    SysIsNoLoader();
  }

  /** Such a tree is accepted too. */
  lemma CopyAccepted(s: string)
    requires s != "" && s != "sys" && s != "__builtins__" && s !in BASE_CALLS
    ensures |Flatten(UseOfCopy(s))| == 9
    ensures ScanFrom(INITIAL, Flatten(UseOfCopy(s))).Accepted? && Touches(Flatten(UseOfCopy(s)), 5)
  {
    var nodes := Flatten(UseOfCopy(s));
    forall k | 0 <= k < |nodes| ensures !RefusedAt(nodes, k) {
      forall j | 0 <= j < k ensures Learn(nodes[j], INITIAL) == INITIAL { CopyTeachesNothing(s, j); }
      NothingLearned(nodes, k);
      CopyNotRefused(s, k);
    }
    ScanByPosition(nodes, |nodes|);
    assert nodes[..|nodes|] == nodes;
    FlatUseOfCopy(s);
    assert nodes[2].targets[0].id == s;
    CopyTouches(nodes, 2, 5, s);
  }
}
