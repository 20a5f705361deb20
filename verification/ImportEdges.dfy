/**
 Scanning a source tree for private dependency edges: each file is parsed, walked by the dynamic
 import visitor, and its import statements are collected breadth first.
 */
module ImportEdges {
  import opened Wrappers
  import opened TextOps
  import opened ImportResolution
  import D = DynamicImports
  import L = BoundaryLedger

  type Edge = L.Edge

  const APP_MODULES: string := "app.modules"
  const AUTH_PACKAGE: string := "app.modules.authorization"
  const PUBLIC_PACKAGE: string := "app.modules.authorization.api"
  const AUTH_ADAPTER_ROOT: string := "backend/app/adapters/auth/__init__.py"

  /** A source file; `tree` is absent when the text cannot be read or parsed. */
  datatype SourceFile = SourceFile(path: string, moduleName: string, isPackage: bool, tree: Option<D.Node>)

  // ----- the targets of one import statement -----

  function FromTargets(base: string, names: seq<D.Alias>): Found<set<string>> {
    if exists i :: 0 <= i < |names| && names[i].name == "*" then Missing(WildcardImport)
    else if base == APP_MODULES || base == AUTH_PACKAGE then Found(set i | 0 <= i < |names| :: base + DOT + names[i].name)
    else Found(if names == [] then {} else {base})
  }

  /** What a node imports; a node that is no import statement imports nothing. */
  function NodeTargets(file: SourceFile, node: D.Node): Found<set<string>> {
    match node
    case Import(names) => Found(set i | 0 <= i < |names| :: names[i].name)
    case ImportFrom(level, moduleName, names) =>
      var base := ResolveFrom(level, moduleName, file.moduleName, file.isPackage);
      if base.Missing? then Missing(base.fault) else FromTargets(base.value, names)
    case _ => Found({})
  }

  // ----- the breadth-first walk -----

  /** The nodes reached from a queue, in the order the walk takes them. */
  function Walk(queue: seq<D.Node>): seq<D.Node>
    decreases |D.FlattenAll(queue)|
  {
    if queue == [] then [] else
    QueueShrinks(queue);
    [queue[0]] + Walk(queue[1..] + D.Children(queue[0]))
  }

  lemma QueueShrinks(queue: seq<D.Node>)
    requires queue != []
    ensures |D.FlattenAll(queue[1..] + D.Children(queue[0]))| < |D.FlattenAll(queue)|
    ensures multiset(D.FlattenAll(queue)) == multiset{queue[0]} + multiset(D.FlattenAll(queue[1..] + D.Children(queue[0])))
  {
    D.FlattenByChildren(queue[0]);
    D.FlattenConcat(queue[1..], D.Children(queue[0]));
  }

  /** Breadth first or depth first, the same nodes are seen. */
  lemma {:induction false} WalkSeesTree(queue: seq<D.Node>)
    ensures multiset(Walk(queue)) == multiset(D.FlattenAll(queue))
    decreases |D.FlattenAll(queue)|
  {
    if queue != [] {
      QueueShrinks(queue);
      WalkSeesTree(queue[1..] + D.Children(queue[0]));
    }
  }

  lemma WalkMembers(tree: D.Node)
    ensures forall n :: n in Walk([tree]) <==> n in D.Flatten(tree)
  {
    WalkSeesTree([tree]);
    D.FlattenSingle(tree);
    var walked, flat := Walk([tree]), D.Flatten(tree);
    assert forall n :: n in walked <==> n in multiset(walked);
    assert forall n :: n in flat <==> n in multiset(flat);
  }

  // ----- one file -----

  /** The file parses, the visitor accepts it, and each of its imports resolves. */
  ghost predicate Readable(file: SourceFile) {
    && file.tree.Some?
    && D.ScanFrom(D.INITIAL, D.Flatten(file.tree.value)).Accepted?
    && forall n :: n in D.Flatten(file.tree.value) ==> NodeTargets(file, n).Found?
  }

  /** Some import statement of the file, at whatever depth, names the target. */
  ghost predicate Imports(file: SourceFile, target: string) {
    file.tree.Some? &&
    exists n :: n in D.Flatten(file.tree.value) && NodeTargets(file, n).Found? && target in NodeTargets(file, n).value
  }

  /** The reason a file is refused: its text, else the visitor, else the first import in walking
      order that does not resolve. */
  ghost predicate RefusedFor(file: SourceFile, fault: Fault) {
    if file.tree.None? then fault == InvalidSource
    else if D.ScanFrom(D.INITIAL, D.Flatten(file.tree.value)).Refused? then fault == DynamicImport
    else FirstFault(file, Walk([file.tree.value]), fault)
  }

  ghost predicate FirstFault(file: SourceFile, nodes: seq<D.Node>, fault: Fault) {
    exists k :: 0 <= k < |nodes| && NodeTargets(file, nodes[k]) == Missing(fault) && AllFound(file, nodes[..k])
  }

  predicate AllFound(file: SourceFile, nodes: seq<D.Node>) {
    forall i :: 0 <= i < |nodes| ==> NodeTargets(file, nodes[i]).Found?
  }

  /** The targets are exactly those of the nodes. */
  ghost predicate TargetsOf(file: SourceFile, nodes: seq<D.Node>, targets: set<string>) {
    forall t :: t in targets <==> exists i :: 0 <= i < |nodes| && NodeTargets(file, nodes[i]).Found? && t in NodeTargets(file, nodes[i]).value
  }

  lemma TargetsGrow(file: SourceFile, nodes: seq<D.Node>, node: D.Node, targets: set<string>)
    requires TargetsOf(file, nodes, targets) && NodeTargets(file, node).Found?
    ensures TargetsOf(file, nodes + [node], targets + NodeTargets(file, node).value)
  {
    var all := nodes + [node];
    var more := targets + NodeTargets(file, node).value;
    forall t ensures t in more <==> exists i :: 0 <= i < |all| && NodeTargets(file, all[i]).Found? && t in NodeTargets(file, all[i]).value {
      if t in targets {
        var i :| 0 <= i < |nodes| && NodeTargets(file, nodes[i]).Found? && t in NodeTargets(file, nodes[i]).value;
        assert all[i] == nodes[i];
      } else if t in NodeTargets(file, node).value {
        assert all[|nodes|] == node;
      }
    }
  }

  /** The queue loop over a tree the visitor accepted. */
  method CollectTargets(file: SourceFile, tree: D.Node) returns (r: Found<set<string>>)
    ensures r.Found? ==> AllFound(file, Walk([tree])) && TargetsOf(file, Walk([tree]), r.value)
    ensures r.Missing? ==> FirstFault(file, Walk([tree]), r.fault)
  {
    var targets: set<string> := {};
    var queue := [tree];
    ghost var done: seq<D.Node> := [];
    assert done + Walk(queue) == Walk([tree]);
    while queue != []
      invariant Walk([tree]) == done + Walk(queue)
      invariant AllFound(file, done) && TargetsOf(file, done, targets)
      decreases |D.FlattenAll(queue)|
    {
      var node := queue[0];
      QueueShrinks(queue);
      Taken(done, queue, Walk([tree]));
      queue := queue[1..] + D.Children(node);
      var more := NodeTargets(file, node);
      if more.Missing? {
        FaultFound(file, Walk([tree]), done, node, Walk(queue));
        return more;
      }
      TargetsGrow(file, done, node, targets);
      targets := targets + more.value;
      done := done + [node];
    }
    assert done + [] == done;
    r := Found(targets);
  }

  lemma FaultFound(file: SourceFile, all: seq<D.Node>, done: seq<D.Node>, node: D.Node, rest: seq<D.Node>)
    requires all == (done + [node]) + rest && AllFound(file, done) && NodeTargets(file, node).Missing?
    ensures FirstFault(file, all, NodeTargets(file, node).fault)
  {
    assert all[|done|] == node && all[..|done|] == done;
  }

  lemma Taken(done: seq<D.Node>, queue: seq<D.Node>, all: seq<D.Node>)
    requires queue != [] && all == done + Walk(queue)
    ensures all == (done + [queue[0]]) + Walk(queue[1..] + D.Children(queue[0]))
  {
  }

  /** The imports of one source file: exactly the targets of its import statements, or the reason
      it is refused. */
  method SourceImports(file: SourceFile) returns (r: Found<set<string>>)
    ensures r.Found? <==> Readable(file)
    ensures r.Found? ==> forall t :: t in r.value <==> Imports(file, t)
    ensures r.Missing? ==> RefusedFor(file, r.fault)
  {
    if file.tree.None? {
      return Missing(InvalidSource);
    }
    var visitor := new D.Visitor();
    var ok := visitor.Visit(file.tree.value);
    if !ok {
      return Missing(DynamicImport);
    }
    r := CollectTargets(file, file.tree.value);
    WalkedExactly(file, file.tree.value);
  }

  lemma WalkedExactly(file: SourceFile, tree: D.Node)
    requires file.tree == Some(tree)
    ensures AllFound(file, Walk([tree])) <==> forall n :: n in D.Flatten(tree) ==> NodeTargets(file, n).Found?
    ensures forall targets, t :: TargetsOf(file, Walk([tree]), targets) ==> (t in targets <==> Imports(file, t))
    ensures forall fault :: FirstFault(file, Walk([tree]), fault) ==> !AllFound(file, Walk([tree]))
  {
    WalkMembers(tree);
    var nodes := Walk([tree]);
    forall targets, t | TargetsOf(file, nodes, targets) ensures t in targets <==> Imports(file, t) {
      if t in targets {
        var i :| 0 <= i < |nodes| && NodeTargets(file, nodes[i]).Found? && t in NodeTargets(file, nodes[i]).value;
        assert nodes[i] in D.Flatten(tree);
      }
      if Imports(file, t) {
        var n :| n in D.Flatten(tree) && NodeTargets(file, n).Found? && t in NodeTargets(file, n).value;
        assert n in nodes;
      }
    }
  }

  // ----- the tree -----

  predicate PrivateAuth(target: string) {
    || target == AUTH_PACKAGE
    || (&& StartsWith(target, AUTH_PACKAGE + DOT) && target != PUBLIC_PACKAGE
        && !StartsWith(target, PUBLIC_PACKAGE + DOT))
  }

  predicate PrivateProduct(target: string) {
    && StartsWith(target, APP_MODULES + DOT) && !StartsWith(target, AUTH_PACKAGE + DOT)
    && var parts := Split(target, DOT);
    (|parts| < 4 || parts[3] != "api")
  }

  predicate InsideAuth(path: string, moduleName: string) {
    moduleName == AUTH_PACKAGE || StartsWith(moduleName, AUTH_PACKAGE + DOT) || path == AUTH_ADAPTER_ROOT
  }

  datatype Edges = Edges(inbound: set<Edge>, outbound: set<Edge>)

  /** A file outside AUTH imports a private AUTH target. */
  ghost predicate Inbound(file: SourceFile, e: Edge) {
    e.source == file.path && !InsideAuth(file.path, file.moduleName) && PrivateAuth(e.target) && Imports(file, e.target)
  }

  /** A file of AUTH imports another product module outside its API. */
  ghost predicate Outbound(file: SourceFile, e: Edge) {
    e.source == file.path && InsideAuth(file.path, file.moduleName) && PrivateProduct(e.target) && Imports(file, e.target)
  }

  ghost predicate EdgesOfFiles(files: seq<SourceFile>, edges: Edges) {
    && (forall e :: e in edges.inbound <==> exists i :: 0 <= i < |files| && Inbound(files[i], e))
    && (forall e :: e in edges.outbound <==> exists i :: 0 <= i < |files| && Outbound(files[i], e))
  }

  function AddFile(edges: Edges, path: string, moduleName: string, targets: set<string>): Edges {
    if InsideAuth(path, moduleName)
    then edges.(outbound := edges.outbound + set t | t in targets && PrivateProduct(t) :: L.Edge(path, t))
    else edges.(inbound := edges.inbound + set t | t in targets && PrivateAuth(t) :: L.Edge(path, t))
  }

  lemma EdgesGrow(files: seq<SourceFile>, file: SourceFile, edges: Edges, targets: set<string>)
    requires EdgesOfFiles(files, edges) && forall t :: t in targets <==> Imports(file, t)
    ensures EdgesOfFiles(files + [file], AddFile(edges, file.path, file.moduleName, targets))
  {
    var all, more := files + [file], AddFile(edges, file.path, file.moduleName, targets);
    AddedEdges(edges, file, targets);
    forall e ensures e in more.inbound <==> exists i :: 0 <= i < |all| && Inbound(all[i], e) {
      if i :| 0 <= i < |files| && Inbound(files[i], e) { assert all[i] == files[i]; }
      if Inbound(file, e) { assert all[|files|] == file; }
    }
    forall e ensures e in more.outbound <==> exists i :: 0 <= i < |all| && Outbound(all[i], e) {
      if i :| 0 <= i < |files| && Outbound(files[i], e) { assert all[i] == files[i]; }
      if Outbound(file, e) { assert all[|files|] == file; }
    }
  }

  lemma AddedEdges(edges: Edges, file: SourceFile, targets: set<string>)
    requires forall t :: t in targets <==> Imports(file, t)
    ensures var more := AddFile(edges, file.path, file.moduleName, targets);
            && (forall e :: e in more.inbound <==> e in edges.inbound || Inbound(file, e))
            && (forall e :: e in more.outbound <==> e in edges.outbound || Outbound(file, e))
  {
  }

  /** Collects the private edges of a tree: exactly those of its files in both directions, or the
      reason the first refused file is refused. */
  method ScanEdges(files: seq<SourceFile>) returns (r: Found<Edges>)
    ensures r.Found? <==> forall i :: 0 <= i < |files| ==> Readable(files[i])
    ensures r.Found? ==> EdgesOfFiles(files, r.value)
    ensures r.Missing? ==>
              exists k :: 0 <= k < |files| && RefusedFor(files[k], r.fault) && !Readable(files[k])
                          && forall j :: 0 <= j < k ==> Readable(files[j])
  {
    var edges := Edges({}, {});
    for i := 0 to |files|
      invariant forall j :: 0 <= j < i ==> Readable(files[j])
      invariant EdgesOfFiles(files[..i], edges)
    {
      var targets := SourceImports(files[i]);
      if targets.Missing? {
        return Missing(targets.fault);
      }
      EdgesGrow(files[..i], files[i], edges, targets.value);
      assert files[..i + 1] == files[..i] + [files[i]];
      edges := AddFile(edges, files[i].path, files[i].moduleName, targets.value);
    }
    assert files[..|files|] == files;
    r := Found(edges);
  }
}
