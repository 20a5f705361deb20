/** Absolute and relative spellings of the same imports give the same edges and the same refusals. */
module ImportSpelling {
  import opened Wrappers
  import opened TextOps
  import opened ImportResolution
  import opened ImportEdges
  import D = DynamicImports

  /** The scan takes its files from the application package. */
  predicate InApp(moduleName: string) { moduleName == "app" || StartsWith(moduleName, "app.") }

  /** The tree with every relative import that resolves in its absolute spelling. */
  function Absolute(file: SourceFile, node: D.Node): D.Node
    decreases node, 1
  {
    match node
    case ImportFrom(level, moduleName, names) =>
      var base := ResolveFrom(level, moduleName, file.moduleName, file.isPackage);
      if level == 0 || base.Missing? then node else D.ImportFrom(0, base.value, names)
    case Attribute(value, attr, load) => D.Attribute(Absolute(file, value), attr, load)
    case Assign(targets, rhs) => D.Assign(AbsoluteAll(file, targets), Absolute(file, rhs))
    case Call(func, args, keywords) => D.Call(Absolute(file, func), AbsoluteAll(file, args), AbsoluteAll(file, keywords))
    case Subscript(subject, slice) => D.Subscript(Absolute(file, subject), Absolute(file, slice))
    case Other(children) => D.Other(AbsoluteAll(file, children))
    case _ => node
  }

  function AbsoluteAll(file: SourceFile, nodes: seq<D.Node>): (r: seq<D.Node>)
    ensures |r| == |nodes|
    decreases nodes, 0
  {
    if nodes == [] then [] else [Absolute(file, nodes[0])] + AbsoluteAll(file, nodes[1..])
  }

  lemma {:induction false} AbsoluteAt(file: SourceFile, nodes: seq<D.Node>, i: nat)
    requires i < |nodes|
    ensures AbsoluteAll(file, nodes)[i] == Absolute(file, nodes[i])
    decreases |nodes|
  {
    if i > 0 { AbsoluteAt(file, nodes[1..], i - 1); }
  }

  lemma {:induction false} AbsoluteConcat(file: SourceFile, a: seq<D.Node>, b: seq<D.Node>)
    ensures AbsoluteAll(file, a + b) == AbsoluteAll(file, a) + AbsoluteAll(file, b)
    decreases |a|
  {
    if a == [] {
      assert a + b == b;
    } else {
      AbsoluteConcat(file, a[1..], b);
      assert (a + b)[0] == a[0] && (a + b)[1..] == a[1..] + b;
    }
  }

  lemma AbsoluteSingle(file: SourceFile, node: D.Node)
    ensures AbsoluteAll(file, [node]) == [Absolute(file, node)]
  {
    assert [node][1..] == [];
  }

  lemma AbsoluteChildren(file: SourceFile, node: D.Node)
    ensures D.Children(Absolute(file, node)) == AbsoluteAll(file, D.Children(node))
  {
    match node
    case Attribute(value, _, _) => AbsoluteSingle(file, value);
    case Assign(targets, rhs) => AbsoluteConcat(file, targets, [rhs]); AbsoluteSingle(file, rhs);
    case Call(func, args, keywords) =>
      AbsoluteConcat(file, [func] + args, keywords);
      AbsoluteConcat(file, [func], args);
      AbsoluteSingle(file, func);
    case Subscript(subject, slice) =>
      assert [subject, slice] == [subject] + [slice];
      AbsoluteConcat(file, [subject], [slice]);
      AbsoluteSingle(file, subject);
      AbsoluteSingle(file, slice);
    case _ =>
  }

  lemma {:induction false} AbsoluteFlatten(file: SourceFile, node: D.Node)
    ensures D.Flatten(Absolute(file, node)) == AbsoluteAll(file, D.Flatten(node))
    decreases |D.Flatten(node)|, 0
  {
    D.FlattenByChildren(node);
    D.FlattenByChildren(Absolute(file, node));
    AbsoluteChildren(file, node);
    AbsoluteFlattenAll(file, D.Children(node));
    AbsoluteConcat(file, [node], D.FlattenAll(D.Children(node)));
    AbsoluteSingle(file, node);
  }

  lemma {:induction false} AbsoluteFlattenAll(file: SourceFile, nodes: seq<D.Node>)
    ensures D.FlattenAll(AbsoluteAll(file, nodes)) == AbsoluteAll(file, D.FlattenAll(nodes))
    decreases |D.FlattenAll(nodes)|, 1, |nodes|
  {
    if nodes != [] {
      var all := AbsoluteAll(file, nodes);
      assert all[0] == Absolute(file, nodes[0]) && all[1..] == AbsoluteAll(file, nodes[1..]);
      AbsoluteFlatten(file, nodes[0]);
      AbsoluteFlattenAll(file, nodes[1..]);
      AbsoluteConcat(file, D.Flatten(nodes[0]), D.FlattenAll(nodes[1..]));
    }
  }

  // ----- resolved names stay in the application -----

  lemma {:induction false} ClimbKeepsFirst(package: string, steps: nat)
    requires package != "" && package[0] == 'a' && Climb(package, steps).Some?
    ensures Climb(package, steps).value != "" && Climb(package, steps).value[0] == 'a'
    decreases steps
  {
    if steps > 0 {
      ParentKeepsFirst(package);
      ClimbKeepsFirst(Parent(package).value, steps - 1);
    }
  }

  lemma ParentKeepsFirst(package: string)
    requires package != "" && package[0] == 'a' && LastDot(package).Some?
    ensures BeforeLastDot(package) != "" && BeforeLastDot(package)[0] == 'a'
  {
    LastDotIsDot(package);
  }

  lemma {:induction false} LastDotIsDot(s: string)
    requires LastDot(s).Some?
    ensures s[LastDot(s).value] == '.'
    decreases |s|
  {
    if s[|s| - 1] != '.' { LastDotIsDot(s[..|s| - 1]); }
  }

  lemma ResolvedInApp(file: SourceFile, level: nat, moduleName: string)
    requires InApp(file.moduleName) && level >= 1 && ResolveFrom(level, moduleName, file.moduleName, file.isPackage).Found?
    ensures var base := ResolveFrom(level, moduleName, file.moduleName, file.isPackage).value; base != "" && base[0] == 'a'
  {
    FirstLetter(file.moduleName);
    PackageKeepsFirst(file.moduleName, file.isPackage);
    ResolutionIsClimbing(level, moduleName, file.moduleName, file.isPackage);
    ClimbKeepsFirst(PackageOf(file.moduleName, file.isPackage), level - 1);
  }

  lemma FirstLetter(moduleName: string)
    requires InApp(moduleName)
    ensures moduleName != "" && moduleName[0] == 'a'
  {
    assert "app."[0] == 'a';
  }

  lemma PackageKeepsFirst(moduleName: string, isPackage: bool)
    requires moduleName != "" && moduleName[0] == 'a'
    ensures PackageOf(moduleName, isPackage) != "" ==> PackageOf(moduleName, isPackage)[0] == 'a'
  {
    if !isPackage && LastDot(moduleName).Some? { ParentKeepsFirst(moduleName); }
  }

  lemma {:induction false} RootKeepsFirst(name: string)
    requires name != "" && name[0] == 'a'
    ensures D.RootOf(name) !in D.LOADING_MODULES
  {
    assert D.RootOf(name)[0] == 'a';
  }

  // ----- the visitor, the targets and the walk see no difference -----

  lemma SameCallable(file: SourceFile, node: D.Node, a: D.Aliases, names: set<string>)
    ensures D.ImportCallable(Absolute(file, node), a) == D.ImportCallable(node, a)
    ensures D.GetattrOn(Absolute(file, node), names) == D.GetattrOn(node, names)
    ensures D.IsRegistry(Absolute(file, node), a) == D.IsRegistry(node, a)
  {
    if node.Call? && node.args != [] { AbsoluteAt(file, node.args, 0); }
  }

  lemma SameTargets(file: SourceFile, node: D.Node, a: D.Aliases)
    requires node.Assign?
    ensures D.Learn(Absolute(file, node), a) == D.Learn(node, a)
  {
    SameCallable(file, node.rhs, a, {});
    forall i | 0 <= i < |node.targets|
      ensures AbsoluteAll(file, node.targets)[i].Name? == node.targets[i].Name?
      ensures node.targets[i].Name? ==> AbsoluteAll(file, node.targets)[i] == node.targets[i]
    {
      AbsoluteAt(file, node.targets, i);
    }
  }

  lemma SameNode(file: SourceFile, node: D.Node, a: D.Aliases)
    requires InApp(file.moduleName)
    ensures D.Refuses(Absolute(file, node), a) == D.Refuses(node, a)
    ensures D.Learn(Absolute(file, node), a) == D.Learn(node, a)
    ensures NodeTargets(file, Absolute(file, node)) == NodeTargets(file, node)
  {
    match node
    case ImportFrom(level, moduleName, names) =>
      var base := ResolveFrom(level, moduleName, file.moduleName, file.isPackage);
      if level >= 1 && base.Found? {
        ResolvedInApp(file, level, moduleName);
        RootKeepsFirst(base.value);
        NotLoading(base.value, names, a);
      }
    case Assign(_, _) => SameTargets(file, node, a);
    case Call(func, _, _) => SameCallable(file, func, a, {"importlib"}); SameCallable(file, node, a, a.sys);
    case Subscript(subject, _) => SameCallable(file, subject, a, {});
    case Attribute(_, _, _) => SameCallable(file, node, a, {});
    case _ =>
  }

  lemma NotLoading(base: string, names: seq<D.Alias>, a: D.Aliases)
    requires base != "" && base[0] == 'a' && D.RootOf(base) !in D.LOADING_MODULES
    ensures !D.Refuses(D.ImportFrom(0, base, names), a)
  {
    assert "importlib"[0] == 'i' && "builtins"[0] == 'b' && "sys"[0] == 's';
  }

  lemma {:induction false} SameScan(file: SourceFile, nodes: seq<D.Node>, a: D.Aliases)
    requires InApp(file.moduleName)
    ensures D.ScanFrom(a, AbsoluteAll(file, nodes)) == D.ScanFrom(a, nodes)
    decreases |nodes|
  {
    if nodes != [] {
      SameNode(file, nodes[0], a);
      assert AbsoluteAll(file, nodes)[1..] == AbsoluteAll(file, nodes[1..]);
      if !D.Refuses(nodes[0], a) { SameScan(file, nodes[1..], D.Learn(nodes[0], a)); }
    }
  }

  lemma {:induction false} SameWalk(file: SourceFile, queue: seq<D.Node>)
    ensures Walk(AbsoluteAll(file, queue)) == AbsoluteAll(file, Walk(queue))
    decreases |D.FlattenAll(queue)|
  {
    if queue != [] {
      var all, next := AbsoluteAll(file, queue), queue[1..] + D.Children(queue[0]);
      assert all[0] == Absolute(file, queue[0]) && all[1..] == AbsoluteAll(file, queue[1..]);
      QueueShrinks(queue);
      AbsoluteChildren(file, queue[0]);
      AbsoluteConcat(file, queue[1..], D.Children(queue[0]));
      SameWalk(file, next);
      assert all[1..] + D.Children(all[0]) == AbsoluteAll(file, next);
      AbsoluteConcat(file, [queue[0]], Walk(next));
      AbsoluteSingle(file, queue[0]);
    }
  }

  // ----- files and trees -----

  function Respelled(file: SourceFile): SourceFile {
    if file.tree.None? then file else file.(tree := Some(Absolute(file, file.tree.value)))
  }

  lemma SameNodeTargets(file: SourceFile, nodes: seq<D.Node>, i: nat)
    requires InApp(file.moduleName) && i < |nodes|
    ensures NodeTargets(Respelled(file), AbsoluteAll(file, nodes)[i]) == NodeTargets(file, nodes[i])
  {
    AbsoluteAt(file, nodes, i);
    SameNode(file, nodes[i], D.INITIAL);
  }

  lemma SameFaults(file: SourceFile, nodes: seq<D.Node>, fault: Fault)
    requires InApp(file.moduleName)
    ensures AllFound(Respelled(file), AbsoluteAll(file, nodes)) <==> AllFound(file, nodes)
    ensures FirstFault(Respelled(file), AbsoluteAll(file, nodes), fault) <==> FirstFault(file, nodes, fault)
  {
    var other, all := Respelled(file), AbsoluteAll(file, nodes);
    forall i | 0 <= i < |nodes| ensures NodeTargets(other, all[i]) == NodeTargets(file, nodes[i]) {
      SameNodeTargets(file, nodes, i);
    }
    if k :| 0 <= k < |nodes| && NodeTargets(file, nodes[k]) == Missing(fault) && AllFound(file, nodes[..k]) {
      assert forall i :: 0 <= i < k ==> nodes[..k][i] == nodes[i] && all[..k][i] == all[i];
      assert NodeTargets(other, all[k]) == Missing(fault) && AllFound(other, all[..k]);
    }
    if k :| 0 <= k < |all| && NodeTargets(other, all[k]) == Missing(fault) && AllFound(other, all[..k]) {
      assert forall i :: 0 <= i < k ==> nodes[..k][i] == nodes[i] && all[..k][i] == all[i];
      assert NodeTargets(file, nodes[k]) == Missing(fault) && AllFound(file, nodes[..k]);
    }
  }

  /** The absolute spelling of a file is read, imports and is refused exactly as the file itself. */
  lemma SpellingIrrelevant(file: SourceFile, target: string, fault: Fault)
    requires InApp(file.moduleName)
    ensures Readable(Respelled(file)) <==> Readable(file)
    ensures Imports(Respelled(file), target) <==> Imports(file, target)
    ensures RefusedFor(Respelled(file), fault) <==> RefusedFor(file, fault)
  {
    if file.tree.Some? {
      var tree := file.tree.value;
      AbsoluteFlatten(file, tree);
      SameScan(file, D.Flatten(tree), D.INITIAL);
      SameImports(file, D.Flatten(tree), target);
      SameWalk(file, [tree]);
      AbsoluteSingle(file, tree);
      SameFaults(file, Walk([tree]), fault);
    }
  }

  lemma SameImports(file: SourceFile, nodes: seq<D.Node>, target: string)
    requires InApp(file.moduleName)
    ensures (forall n :: n in AbsoluteAll(file, nodes) ==> NodeTargets(Respelled(file), n).Found?)
            <==> (forall n :: n in nodes ==> NodeTargets(file, n).Found?)
    ensures (exists n :: n in AbsoluteAll(file, nodes) && NodeTargets(Respelled(file), n).Found? && target in NodeTargets(Respelled(file), n).value)
            <==> (exists n :: n in nodes && NodeTargets(file, n).Found? && target in NodeTargets(file, n).value)
  {
    var other, all := Respelled(file), AbsoluteAll(file, nodes);
    forall i | 0 <= i < |nodes| ensures NodeTargets(other, all[i]) == NodeTargets(file, nodes[i]) && all[i] in all && nodes[i] in nodes {
      SameNodeTargets(file, nodes, i);
    }
  }

  /** A whole tree respelled has the same edges. */
  lemma SpellingKeepsEdges(files: seq<SourceFile>, others: seq<SourceFile>, edges: Edges)
    requires |others| == |files| && forall i :: 0 <= i < |files| ==> InApp(files[i].moduleName) && others[i] == Respelled(files[i])
    ensures EdgesOfFiles(others, edges) <==> EdgesOfFiles(files, edges)
  {
    forall i, e: Edge | 0 <= i < |files|
      ensures Inbound(others[i], e) <==> Inbound(files[i], e)
      ensures Outbound(others[i], e) <==> Outbound(files[i], e)
    {
      SpellingIrrelevant(files[i], e.target, InvalidSource);
    }
  }
}
