/**
 The static visitor that refuses dynamic imports: a recursive walk of a syntax tree whose alias
 sets grow as it goes. Its specification is a left-to-right scan of the flattened tree.
 */
module DynamicImports {

  datatype Alias = Alias(name: string, asname: string)
  {
    /** The name the alias binds; an empty `asname` means none was given. */
    function Bound(): string { if asname != "" then asname else name }
  }

  /** The node kinds the visitor looks at; every other kind is its children in field order. */
  datatype Node =
    | Import(names: seq<Alias>)
    | ImportFrom(level: nat, moduleName: string, fromNames: seq<Alias>)
    | Name(id: string, load: bool)
    | Attribute(value: Node, attr: string, attrLoad: bool)
    | Assign(targets: seq<Node>, rhs: Node)
    | Call(func: Node, args: seq<Node>, keywords: seq<Node>)
    | Subscript(subject: Node, slice: Node)
    | Other(children: seq<Node>)

  const LOADING_MODULES: set<string> := {"builtins", "imp", "importlib", "pkgutil", "pydoc", "runpy", "zipimport"}
  const BASE_CALLS: set<string> := {"__import__", "compile", "eval", "exec", "globals", "locals", "vars"}

  /** The names known to stand for `sys` and for a dynamic-execution callable. */
  datatype Aliases = Aliases(sys: set<string>, calls: set<string>)
  {
    predicate Within(other: Aliases) { sys <= other.sys && calls <= other.calls }
  }

  const INITIAL := Aliases({"sys"}, BASE_CALLS)

  /** The text before the first dot. */
  function RootOf(name: string): string {
    if name == "" || name[0] == '.' then "" else [name[0]] + RootOf(name[1..])
  }

  predicate HasPrefix(s: string, prefix: string) { |prefix| <= |s| && s[..|prefix|] == prefix }

  // ----- what one node does, apart from its children -----

  predicate ImportCallable(node: Node, a: Aliases) {
    match node
    case Name(id, _) => id in a.calls
    case Attribute(Name(id, _), attr, _) =>
      (id == "importlib" && attr == "import_module") || (id == "builtins" && attr == "__import__")
    case _ => false
  }

  /** `getattr(x, ...)` with `x` among the given names. */
  predicate GetattrOn(node: Node, names: set<string>) {
    && node.Call? && node.func.Name? && node.func.id == "getattr"
    && |node.args| > 0 && node.args[0].Name? && node.args[0].id in names
  }

  predicate IsRegistry(node: Node, a: Aliases) {
    node.Attribute? && node.value.Name? && node.value.id in a.sys && node.attr == "modules"
  }

  predicate Refuses(node: Node, a: Aliases) {
    match node
    case Import(names) => exists i :: 0 <= i < |names| && RootOf(names[i].name) in LOADING_MODULES
    case ImportFrom(level, m, names) =>
      level == 0 &&
      (|| (m != "" && HasPrefix(m, "importlib"))
       || (m != "" && RootOf(m) in LOADING_MODULES)
       || (m == "builtins" && exists i :: 0 <= i < |names| && (names[i].name == "__builtins__" || names[i].name in a.calls))
       || (m == "sys" && exists i :: 0 <= i < |names| && names[i].name == "modules"))
    case Name(id, load) => load && (id == "__builtins__" || id in a.calls)
    case Attribute(_, _, load) => load && IsRegistry(node, a)
    case Assign(_, _) => false
    case Call(func, _, _) => ImportCallable(func, a) || GetattrOn(func, {"importlib"}) || GetattrOn(node, a.sys)
    case Subscript(subject, _) => IsRegistry(subject, a)
    case Other(_) => false
  }

  function Learn(node: Node, a: Aliases): Aliases {
    match node
    case Import(names) => a.(sys := a.sys + set i | 0 <= i < |names| && names[i].name == "sys" :: names[i].Bound())
    case Assign(targets, rhs) =>
      if ImportCallable(rhs, a)
      then a.(calls := a.calls + set i | 0 <= i < |targets| && targets[i].Name? :: targets[i].id)
      else a
    case _ => a
  }

  // ----- the flattened tree and its scan -----

  /** A node, then everything below it, in the order the fields are visited. */
  function Flatten(node: Node): seq<Node>
    decreases node, 1
  {
    [node] + match node
             case Attribute(value, _, _) => Flatten(value)
             case Assign(targets, rhs) => FlattenAll(targets) + Flatten(rhs)
             case Call(func, args, keywords) => Flatten(func) + FlattenAll(args) + FlattenAll(keywords)
             case Subscript(subject, slice) => Flatten(subject) + Flatten(slice)
             case Other(children) => FlattenAll(children)
             case _ => []
  }

  function FlattenAll(nodes: seq<Node>): seq<Node>
    decreases nodes, 0
  {
    if nodes == [] then [] else Flatten(nodes[0]) + FlattenAll(nodes[1..])
  }

  datatype Scan = Refused | Accepted(aliases: Aliases)

  /** Looks at the nodes one by one, from the left. */
  function ScanFrom(a: Aliases, nodes: seq<Node>): Scan
    decreases |nodes|
  {
    if nodes == [] then Accepted(a)
    else if Refuses(nodes[0], a) then Refused
    else ScanFrom(Learn(nodes[0], a), nodes[1..])
  }

  lemma {:induction false} ScanConcat(a: Aliases, left: seq<Node>, right: seq<Node>)
    ensures ScanFrom(a, left + right) ==
            if ScanFrom(a, left).Refused? then Refused else ScanFrom(ScanFrom(a, left).aliases, right)
    decreases |left|
  {
    if left == [] {
      assert left + right == right;
    } else {
      assert (left + right)[0] == left[0] && (left + right)[1..] == left[1..] + right;
      if !Refuses(left[0], a) { ScanConcat(Learn(left[0], a), left[1..], right); }
    }
  }

  lemma ScanOne(a: Aliases, node: Node)
    ensures ScanFrom(a, [node]) == if Refuses(node, a) then Refused else Accepted(Learn(node, a))
  {
    assert [node][1..] == [];
  }

  // ----- the visitor -----

  class Visitor {
    var sysNames: set<string>
    var importCallNames: set<string>

    constructor ()
      ensures State() == INITIAL
    {
      sysNames, importCallNames := {"sys"}, BASE_CALLS;
    }

    function State(): Aliases
      reads this
    {
      Aliases(sysNames, importCallNames)
    }

    /** The visitor's state and verdict after it should have scanned `nodes`. */
    twostate predicate Scanned(nodes: seq<Node>, ok: bool)
      reads this
    {
      match ScanFrom(old(State()), nodes)
      case Refused => !ok
      case Accepted(a) => ok && State() == a
    }

    method VisitImport(names: seq<Alias>) returns (ok: bool)
      modifies this
      ensures Scanned([Import(names)], ok)
    {
      ScanOne(State(), Import(names));
      for i := 0 to |names|
        invariant forall j :: 0 <= j < i ==> RootOf(names[j].name) !in LOADING_MODULES
        invariant importCallNames == old(importCallNames)
        invariant sysNames == old(sysNames) + set j | 0 <= j < i && names[j].name == "sys" :: names[j].Bound()
      {
        if RootOf(names[i].name) in LOADING_MODULES {
          return false;
        }
        if names[i].name == "sys" {
          sysNames := sysNames + {names[i].Bound()};
        }
      }
      ok := true;
    }

    method TrackAssign(targets: seq<Node>, rhs: Node)
      modifies this
      ensures State() == Learn(Assign(targets, rhs), old(State()))
    {
      if ImportCallable(rhs, State()) {
        for i := 0 to |targets|
          invariant sysNames == old(sysNames)
          invariant importCallNames == old(importCallNames) + set j | 0 <= j < i && targets[j].Name? :: targets[j].id
        {
          if targets[i].Name? {
            importCallNames := importCallNames + {targets[i].id};
          }
        }
      }
    }

    /** The recursive visit agrees with the left-to-right scan of the flattened tree: same verdict,
        and on acceptance the same alias sets. */
    method Visit(node: Node) returns (ok: bool)
      modifies this
      ensures Scanned(Flatten(node), ok)
      decreases node, 1
    {
      ScanConcat(State(), [node], Flatten(node)[1..]);
      assert Flatten(node) == [node] + Flatten(node)[1..];
      if node.Import? {
        ok := VisitImport(node.names);
        return;
      }
      if Refuses(node, State()) {
        return false;
      }
      match node
      case Attribute(value, _, _) =>
        ok := Visit(value);
      case Assign(targets, rhs) =>
        TrackAssign(targets, rhs);
        ScanConcat(State(), FlattenAll(targets), Flatten(rhs));
        ok := VisitAll(targets);
        if ok { ok := Visit(rhs); }
      case Call(func, args, keywords) =>
        ScanConcat(State(), Flatten(func) + FlattenAll(args), FlattenAll(keywords));
        ScanConcat(State(), Flatten(func), FlattenAll(args));
        ok := Visit(func);
        if ok { ok := VisitAll(args); }
        if ok { ok := VisitAll(keywords); }
      case Subscript(subject, slice) =>
        ScanConcat(State(), Flatten(subject), Flatten(slice));
        ok := Visit(subject);
        if ok { ok := Visit(slice); }
      case Other(children) =>
        ok := VisitAll(children);
      case _ =>
        ok := true;
    }

    method VisitAll(nodes: seq<Node>) returns (ok: bool)
      modifies this
      ensures Scanned(FlattenAll(nodes), ok)
      decreases nodes, 0
    {
      if nodes == [] { return true; }
      ScanConcat(State(), Flatten(nodes[0]), FlattenAll(nodes[1..]));
      ok := Visit(nodes[0]);
      if ok { ok := VisitAll(nodes[1..]); }
    }
  }

  // ----- what acceptance means -----

  lemma LearnMonotone(node: Node, a: Aliases, b: Aliases)
    requires a.Within(b)
    ensures Refuses(node, a) ==> Refuses(node, b)
    ensures Learn(node, a).Within(Learn(node, b)) && b.Within(Learn(node, b))
  {
  }

  /** Knowing more aliases never turns a refusal into an acceptance. */
  lemma {:induction false} RefusalMonotone(nodes: seq<Node>, a: Aliases, b: Aliases)
    requires a.Within(b) && ScanFrom(b, nodes).Accepted?
    ensures ScanFrom(a, nodes).Accepted?
    ensures ScanFrom(a, nodes).aliases.Within(ScanFrom(b, nodes).aliases)
    ensures b.Within(ScanFrom(b, nodes).aliases)
    decreases |nodes|
  {
    if nodes != [] {
      LearnMonotone(nodes[0], a, b);
      RefusalMonotone(nodes[1..], Learn(nodes[0], a), Learn(nodes[0], b));
    }
  }

  /** `part` stands at position `k` of `all`. */
  predicate StandsAt(all: seq<Node>, k: nat, part: seq<Node>) {
    k + |part| <= |all| && all[k..k + |part|] == part
  }

  function Children(node: Node): seq<Node> {
    match node
    case Attribute(value, _, _) => [value]
    case Assign(targets, rhs) => targets + [rhs]
    case Call(func, args, keywords) => [func] + args + keywords
    case Subscript(subject, slice) => [subject, slice]
    case Other(children) => children
    case _ => []
  }

  lemma {:induction false} FlattenConcat(left: seq<Node>, right: seq<Node>)
    ensures FlattenAll(left + right) == FlattenAll(left) + FlattenAll(right)
    decreases |left|
  {
    if left == [] {
      assert left + right == right;
    } else {
      FlattenConcat(left[1..], right);
      assert (left + right)[0] == left[0] && (left + right)[1..] == left[1..] + right;
    }
  }

  lemma FlattenSingle(node: Node)
    ensures FlattenAll([node]) == Flatten(node)
  {
    assert [node][1..] == [];
  }

  lemma FlattenByChildren(node: Node)
    ensures Flatten(node) == [node] + FlattenAll(Children(node))
  {
    match node
    case Attribute(value, _, _) => FlattenSingle(value);
    case Assign(targets, rhs) => FlattenConcat(targets, [rhs]); FlattenSingle(rhs);
    case Call(func, args, keywords) =>
      FlattenConcat([func] + args, keywords);
      FlattenConcat([func], args);
      FlattenSingle(func);
    case Subscript(subject, slice) =>
      assert [subject, slice] == [subject] + [slice];
      FlattenConcat([subject], [slice]);
      FlattenSingle(subject);
      FlattenSingle(slice);
    case _ =>
  }

  /** The subtree rooted at a node is the stretch of the flattened tree that starts there. */
  lemma {:induction false} SubtreeIsSegment(node: Node, k: nat)
    requires k < |Flatten(node)|
    ensures StandsAt(Flatten(node), k, Flatten(Flatten(node)[k]))
    decreases |Flatten(node)|, 0
  {
    if k > 0 {
      FlattenByChildren(node);
      var below := FlattenAll(Children(node));
      SubtreeInList(Children(node), k - 1);
      StandsAfter([node], below, k - 1, Flatten(below[k - 1]));
    }
  }

  lemma {:induction false} SubtreeInList(nodes: seq<Node>, k: nat)
    requires k < |FlattenAll(nodes)|
    ensures StandsAt(FlattenAll(nodes), k, Flatten(FlattenAll(nodes)[k]))
    decreases |FlattenAll(nodes)|, 1
  {
    var f, g := Flatten(nodes[0]), FlattenAll(nodes[1..]);
    assert FlattenAll(nodes) == f + g;
    if k < |f| {
      SubtreeIsSegment(nodes[0], k);
      StandsBefore(f, g, k, Flatten(f[k]));
    } else {
      SubtreeInList(nodes[1..], k - |f|);
      StandsAfter(f, g, k - |f|, Flatten(g[k - |f|]));
    }
  }

  lemma StandsBefore(f: seq<Node>, g: seq<Node>, k: nat, part: seq<Node>)
    requires StandsAt(f, k, part)
    ensures StandsAt(f + g, k, part)
  {
    assert (f + g)[k..k + |part|] == f[k..k + |part|];
  }

  lemma StandsAfter(f: seq<Node>, g: seq<Node>, k: nat, part: seq<Node>)
    requires StandsAt(g, k, part)
    ensures StandsAt(f + g, |f| + k, part)
  {
    assert (f + g)[|f| + k..|f| + k + |part|] == g[k..k + |part|];
  }

  lemma ScanSegment(a: Aliases, all: seq<Node>, k: nat, part: seq<Node>)
    requires StandsAt(all, k, part) && ScanFrom(a, all).Accepted?
    ensures ScanFrom(a, all[..k]).Accepted? && a.Within(ScanFrom(a, all[..k]).aliases)
    ensures ScanFrom(ScanFrom(a, all[..k]).aliases, part).Accepted?
  {
    var left, right := all[..k], all[k + |part|..];
    assert all == left + (part + right);
    ScanConcat(a, left, part + right);
    ScanConcat(ScanFrom(a, left).aliases, part, right);
    RefusalMonotone(left, a, a);
  }

  /** Every subtree of an accepted tree is accepted on its own. */
  lemma SubtreesAccepted(tree: Node, k: nat)
    requires ScanFrom(INITIAL, Flatten(tree)).Accepted? && k < |Flatten(tree)|
    ensures ScanFrom(INITIAL, Flatten(Flatten(tree)[k])).Accepted?
  {
    var sub := Flatten(Flatten(tree)[k]);
    SubtreeIsSegment(tree, k);
    ScanSegment(INITIAL, Flatten(tree), k, sub);
    RefusalMonotone(sub, INITIAL, ScanFrom(INITIAL, Flatten(tree)[..k]).aliases);
  }

  /** At no depth does an accepted tree load a dynamic-execution name, import a loading module or
      reach for the registry through the name `sys`. Other names for `sys` are judged by position. */
  lemma AcceptedIsStatic(tree: Node, k: nat)
    requires ScanFrom(INITIAL, Flatten(tree)).Accepted? && k < |Flatten(tree)|
    ensures !Refuses(Flatten(tree)[k], INITIAL)
    ensures var n := Flatten(tree)[k]; n.Name? && n.load ==> n.id !in BASE_CALLS && n.id != "__builtins__"
  {
    SubtreesAccepted(tree, k);
    assert Flatten(Flatten(tree)[k])[0] == Flatten(tree)[k];
  }

  /** The callable aliases of an accepted tree come only from attribute spellings: an assignment
      from a known callable name is itself refused. */
  lemma NoAliasOfName(tree: Node, k: nat)
    requires ScanFrom(INITIAL, Flatten(tree)).Accepted? && k < |Flatten(tree)|
    requires Flatten(tree)[k].Assign? && Flatten(tree)[k].rhs.Name? && Flatten(tree)[k].rhs.load
    ensures ScanFrom(INITIAL, Flatten(tree)[..k]).Accepted?
    ensures !ImportCallable(Flatten(tree)[k].rhs, ScanFrom(INITIAL, Flatten(tree)[..k]).aliases)
  {
    var node := Flatten(tree)[k];
    SubtreeIsSegment(tree, k);
    ScanSegment(INITIAL, Flatten(tree), k, Flatten(node));
    var a := ScanFrom(INITIAL, Flatten(tree)[..k]).aliases;
    if ImportCallable(node.rhs, a) { NameAssignRefused(node, a); }
  }

  lemma NameAssignRefused(node: Node, a: Aliases)
    requires node.Assign? && node.rhs.Name? && node.rhs.load && ImportCallable(node.rhs, a)
    ensures ScanFrom(a, Flatten(node)).Refused?
  {
    var f := FlattenAll(node.targets);
    var b := Learn(node, a);
    LearnMonotone(node, a, a);
    assert Flatten(node) == [node] + (f + [node.rhs]);
    ScanConcat(a, [node], f + [node.rhs]);
    ScanOne(a, node);
    ScanConcat(b, f, [node.rhs]);
    if ScanFrom(b, f).Accepted? {
      RefusalMonotone(f, b, b);
      ScanOne(ScanFrom(b, f).aliases, node.rhs);
    }
  }
}
