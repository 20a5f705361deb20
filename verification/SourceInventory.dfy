/**
 The limited walk over the release sources: every regular file under the listed roots by path and
 hash, with links, special files and anything over the file or byte limit refused.
 */
module SourceInventory {
  import opened Wrappers
  import opened Ordering
  import opened Sequences

  const MAX_FILES: nat := 4096
  const MAX_BYTES: nat := 67_108_864

  type Path = seq<string>

  /** What `lstat` shows at a path. */
  datatype Node =
    | Missing
    | Link
    | Special
    | File(size: nat, hash: string)
    | Dir(children: seq<Child>)

  datatype Child = Child(name: string, node: Node)

  datatype Record = Record(path: Path, size: nat, hash: string)

  predicate ByName(a: Child, b: Child) { LexLe(a.name, b.name) }

  // ----- what the walk is meant to accept and return -----

  /** Only directories and regular files. */
  predicate Clean(node: Node) {
    match node
    case Missing => false
    case Link => false
    case Special => false
    case File(_, _) => true
    case Dir(children) => forall c :: c in children ==> Clean(c.node)
  }

  /** Names are unique within a directory, as in any file system. */
  predicate Named(node: Node) {
    node.Dir? ==> DistinctNames(node.children) && forall c :: c in node.children ==> Named(c.node)
  }

  predicate DistinctNames(children: seq<Child>) {
    forall i, j :: 0 <= i < j < |children| ==> children[i].name != children[j].name
  }

  /** The regular files at or below a path. */
  function Files(path: Path, node: Node): seq<Record>
    decreases node
  {
    match node
    case File(size, hash) => [Record(path, size, hash)]
    case Dir(children) => FilesIn(path, children)
    case _ => []
  }

  function FilesIn(path: Path, children: seq<Child>): seq<Record>
    decreases children
  {
    if children == [] then [] else
    Files(path + [children[0].name], children[0].node) + FilesIn(path, children[1..])
  }

  function Bytes(files: seq<Record>): nat {
    if files == [] then 0 else files[0].size + Bytes(files[1..])
  }

  /** The inventory now lists what it listed before and these files, and nothing else. */
  ghost predicate Adds(before: map<Path, string>, files: seq<Record>, after: map<Path, string>) {
    && |after| == |before| + |files|
    && (forall p :: p in after ==> p in before || exists r :: r in files && r.path == p)
    && (forall p :: p in before ==> p in after && after[p] == before[p])
    && (forall r :: r in files ==> r.path in after && after[r.path] == r.hash)
  }

  function Size(node: Node): nat
    decreases node
  {
    match node
    case Dir(children) => 1 + SizeOf(children)
    case _ => 0
  }

  function SizeOf(children: seq<Child>): nat
    decreases children
  {
    if children == [] then 0 else 1 + Size(children[0].node) + SizeOf(children[1..])
  }

  // ----- small facts -----

  lemma {:induction false} BytesAppend(a: seq<Record>, b: seq<Record>)
    ensures Bytes(a + b) == Bytes(a) + Bytes(b)
    decreases |a|
  {
    if a == [] {
      assert a + b == b;
    } else {
      BytesAppend(a[1..], b);
      assert (a + b)[1..] == a[1..] + b;
    }
  }

  /** Every file lies at or below the path it was found under. */
  lemma {:induction false} Below(path: Path, node: Node)
    ensures forall r :: r in Files(path, node) ==> path <= r.path
    decreases node
  {
    if node.Dir? { BelowAll(path, node.children); }
  }

  lemma {:induction false} BelowAll(path: Path, children: seq<Child>)
    ensures forall r :: r in FilesIn(path, children) ==>
              exists c :: c in children && path + [c.name] <= r.path
    decreases children
  {
    if children != [] {
      Below(path + [children[0].name], children[0].node);
      BelowAll(path, children[1..]);
      assert children == [children[0]] + children[1..];
    }
  }

  lemma {:induction false} AddsThen(m0: map<Path, string>, a: seq<Record>, m1: map<Path, string>, b: seq<Record>, m2: map<Path, string>)
    requires Adds(m0, a, m1) && Adds(m1, b, m2)
    ensures Adds(m0, a + b, m2)
  {
  }

  // ----- the order of children does not matter -----

  lemma NameOrder()
    ensures TotalPreorder(ByName)
  {
    forall x: Child, y: Child ensures ByName(x, y) || ByName(y, x) { LexTotal(x.name, y.name); }
    forall x: Child, y: Child, z: Child | ByName(x, y) && ByName(y, z) ensures ByName(x, z) {
      LexTransitive(x.name, y.name, z.name);
    }
  }

  lemma {:induction false} FilesInAppend(path: Path, a: seq<Child>, b: seq<Child>)
    ensures FilesIn(path, a + b) == FilesIn(path, a) + FilesIn(path, b)
    decreases |a|
  {
    if a == [] {
      assert a + b == b;
    } else {
      FilesInAppend(path, a[1..], b);
      assert (a + b)[1..] == a[1..] + b;
    }
  }

  lemma {:induction false} SizeAppend(a: seq<Child>, b: seq<Child>)
    ensures SizeOf(a + b) == SizeOf(a) + SizeOf(b)
    decreases |a|
  {
    if a == [] {
      assert a + b == b;
    } else {
      SizeAppend(a[1..], b);
      assert (a + b)[1..] == a[1..] + b;
    }
  }

  /** Taking one child out of the list takes its files out of the walk. */
  lemma OneOut(path: Path, before: seq<Child>, c: Child, after: seq<Child>)
    ensures multiset(FilesIn(path, before + ([c] + after))) ==
            multiset(Files(path + [c.name], c.node)) + multiset(FilesIn(path, before + after))
    ensures SizeOf(before + ([c] + after)) == 1 + Size(c.node) + SizeOf(before + after)
  {
    FilesInAppend(path, before, [c] + after);
    FilesInAppend(path, before, after);
    SizeAppend(before, [c] + after);
    SizeAppend(before, after);
    assert ([c] + after)[1..] == after;
  }

  lemma {:induction false} ChildOrderIrrelevant(path: Path, xs: seq<Child>, ys: seq<Child>)
    requires multiset(xs) == multiset(ys)
    ensures multiset(FilesIn(path, xs)) == multiset(FilesIn(path, ys))
    ensures SizeOf(xs) == SizeOf(ys)
    decreases |xs|
  {
    assert |xs| == |multiset(xs)| == |ys|;
    if xs != [] {
      assert xs[0] in multiset(ys);
      var k :| 0 <= k < |ys| && ys[k] == xs[0];
      HeadRemoved(xs, ys, k);
      ChildOrderIrrelevant(path, xs[1..], ys[..k] + ys[k + 1..]);
      OneOut(path, ys[..k], ys[k], ys[k + 1..]);
    }
  }

  lemma {:induction false} BytesPermute(xs: seq<Record>, ys: seq<Record>)
    requires multiset(xs) == multiset(ys)
    ensures Bytes(xs) == Bytes(ys)
    decreases |xs|
  {
    assert |xs| == |multiset(xs)| == |ys|;
    if xs != [] {
      assert xs[0] in multiset(ys);
      var k :| 0 <= k < |ys| && ys[k] == xs[0];
      HeadRemoved(xs, ys, k);
      BytesPermute(xs[1..], ys[..k] + ys[k + 1..]);
      BytesAppend(ys[..k], [ys[k]] + ys[k + 1..]);
      BytesAppend(ys[..k], ys[k + 1..]);
      assert ([ys[k]] + ys[k + 1..])[1..] == ys[k + 1..];
    }
  }

  lemma {:induction false} SortedDistinct(xs: seq<Child>, ys: seq<Child>)
    requires multiset(xs) == multiset(ys) && DistinctNames(xs)
    ensures DistinctNames(ys)
  {
    forall i, j | 0 <= i < j < |ys| ensures ys[i].name != ys[j].name {
      if ys[i].name == ys[j].name {
        assert ys[i] in multiset(xs) && ys[j] in multiset(xs);
        assert ys[i] == ys[j];
        TwiceCounted(ys, i, j);
        OnceCounted(xs, ys[i]);
        assert false;
      }
    }
  }

  lemma TwiceCounted<T>(ys: seq<T>, i: nat, j: nat)
    requires i < j < |ys| && ys[i] == ys[j]
    ensures multiset(ys)[ys[i]] >= 2
  {
    assert ys == ys[..j] + ([ys[j]] + ys[j + 1..]);
    assert ys[i] in ys[..j];
  }

  lemma OnceCounted(xs: seq<Child>, c: Child)
    requires DistinctNames(xs) && c in xs
    ensures multiset(xs)[c] == 1
  {
    var k :| 0 <= k < |xs| && xs[k] == c;
    assert xs == xs[..k] + ([c] + xs[k + 1..]);
    assert c !in xs[..k] && c !in xs[k + 1..];
  }

  // ----- the walk -----

  class Walk {
    var found: map<Path, string>
    var total: nat

    constructor ()
      ensures found == map[] && total == 0
    {
      found := map[];
      total := 0;
    }

    method Visit(path: Path, node: Node) returns (ok: bool)
      requires Named(node) && |found| <= MAX_FILES && total <= MAX_BYTES
      requires forall p :: p in found ==> !(path <= p)
      modifies this
      ensures ok <==>
              && Clean(node)
              && old(|found|) + |Files(path, node)| <= MAX_FILES
              && old(total) + Bytes(Files(path, node)) <= MAX_BYTES
      ensures ok ==> total == old(total) + Bytes(Files(path, node)) && Adds(old(found), Files(path, node), found)
      decreases Size(node), 1
    {
      match node
      case Missing => ok := false;
      case Link => ok := false;
      case Special => ok := false;
      case File(size, hash) =>
        total := total + size;
        if |found| < MAX_FILES && total <= MAX_BYTES {
          found := found[path := hash];
          ok := true;
        } else {
          ok := false;
        }
      case Dir(children) =>
        var sorted := Sort(children, ByName);
        SortedWalk(path, children);
        ok := VisitAll(path, sorted);
    }

    method VisitAll(path: Path, children: seq<Child>) returns (ok: bool)
      requires DistinctNames(children) && (forall c :: c in children ==> Named(c.node))
      requires |found| <= MAX_FILES && total <= MAX_BYTES
      requires forall p, c :: p in found && c in children ==> !(path + [c.name] <= p)
      modifies this
      ensures ok <==>
              && (forall c :: c in children ==> Clean(c.node))
              && old(|found|) + |FilesIn(path, children)| <= MAX_FILES
              && old(total) + Bytes(FilesIn(path, children)) <= MAX_BYTES
      ensures ok ==> total == old(total) + Bytes(FilesIn(path, children)) && Adds(old(found), FilesIn(path, children), found)
      decreases SizeOf(children), 2
    {
      if children == [] {
        return true;
      }
      ghost var found0 := found;
      var first := children[0];
      ghost var a, b := Files(path + [first.name], first.node), FilesIn(path, children[1..]);
      assert children == [first] + children[1..];
      BytesAppend(a, b);
      ok := Visit(path + [first.name], first.node);
      if ok {
        ghost var found1 := found;
        Below(path + [first.name], first.node);
        SiblingsApart(path, children, found0, a, found1);
        ok := VisitAll(path, children[1..]);
        if ok { AddsThen(found0, a, found1, b, found); }
      }
    }
  }

  lemma SiblingsApart(path: Path, children: seq<Child>, before: map<Path, string>, files: seq<Record>, after: map<Path, string>)
    requires children != [] && DistinctNames(children) && Adds(before, files, after)
    requires forall p, c :: p in before && c in children ==> !(path + [c.name] <= p)
    requires forall r :: r in files ==> path + [children[0].name] <= r.path
    ensures forall p, c :: p in after && c in children[1..] ==> !(path + [c.name] <= p)
  {
    forall p, c | p in after && c in children[1..] ensures !(path + [c.name] <= p) {
      var k :| 0 < k < |children| && children[k] == c;
      if p !in before {
        var r :| r in files && r.path == p;
        assert p[|path|] == children[0].name;
      } else {
        assert c in children;
      }
    }
  }

  lemma SortedWalk(path: Path, children: seq<Child>)
    requires DistinctNames(children)
    ensures var sorted := Sort(children, ByName);
            && DistinctNames(sorted) && (forall c :: c in sorted <==> c in children)
            && SizeOf(sorted) == SizeOf(children)
            && multiset(FilesIn(path, sorted)) == multiset(FilesIn(path, children))
            && |FilesIn(path, sorted)| == |FilesIn(path, children)|
            && Bytes(FilesIn(path, sorted)) == Bytes(FilesIn(path, children))
            && (forall r :: r in FilesIn(path, sorted) <==> r in FilesIn(path, children))
  {
    NameOrder();
    SortCorrect(children, ByName);
    var sorted := Sort(children, ByName);
    SortedDistinct(children, sorted);
    assert forall c :: c in sorted <==> c in multiset(sorted);
    assert forall c :: c in children <==> c in multiset(children);
    ChildOrderIrrelevant(path, sorted, children);
    var fs, fc := FilesIn(path, sorted), FilesIn(path, children);
    BytesPermute(fs, fc);
    assert |fs| == |multiset(fs)| == |fc|;
    assert forall r :: r in fs <==> r in multiset(fs);
    assert forall r :: r in fc <==> r in multiset(fc);
  }

  // ----- the whole inventory -----

  datatype Root = Root(path: Path, node: Node)

  predicate Prefixed(a: Path, b: Path) { a <= b }

  /** No listed root lies at or below another. */
  predicate Apart(roots: seq<Root>) {
    forall i, j :: 0 <= i < |roots| && 0 <= j < |roots| && i != j ==> !Prefixed(roots[i].path, roots[j].path)
  }

  /** The roots the release proof lists. */
  function SourcePaths(): seq<Path> {
    [["app"], ["alembic"], ["scripts", "schema_baseline_sql.py"], ["uv.lock"], ["pyproject.toml"], ["alembic.ini"]]
  }

  function AllFiles(roots: seq<Root>): seq<Record> {
    if roots == [] then [] else
    var last := |roots| - 1;
    AllFiles(roots[..last]) + Files(roots[last].path, roots[last].node)
  }

  ghost predicate WithinLimits(roots: seq<Root>) {
    && (forall r :: r in roots ==> Clean(r.node))
    && |AllFiles(roots)| <= MAX_FILES && Bytes(AllFiles(roots)) <= MAX_BYTES
  }

  lemma {:induction false} RootsBelow(roots: seq<Root>)
    ensures forall r :: r in AllFiles(roots) ==> exists i :: 0 <= i < |roots| && Prefixed(roots[i].path, r.path)
    decreases |roots|
  {
    if roots != [] {
      var last := |roots| - 1;
      RootsBelow(roots[..last]);
      Below(roots[last].path, roots[last].node);
      forall r | r in AllFiles(roots) ensures exists i :: 0 <= i < |roots| && Prefixed(roots[i].path, r.path) {
        if r in AllFiles(roots[..last]) {
          var i :| 0 <= i < last && Prefixed(roots[..last][i].path, r.path);
          assert Prefixed(roots[i].path, r.path);
        } else {
          assert Prefixed(roots[last].path, r.path);
        }
      }
    }
  }

  lemma TwoPrefixes(a: Path, b: Path, p: Path)
    requires a <= p && b <= p
    ensures Prefixed(a, b) || Prefixed(b, a)
  {
    if |a| <= |b| {
      assert a == p[..|a|] == b[..|a|];
    } else {
      assert b == p[..|b|] == a[..|b|];
    }
  }

  /** A root not yet walked has nothing found below it. */
  lemma NextRootFree(roots: seq<Root>, i: nat, found: map<Path, string>)
    requires i < |roots| && Apart(roots) && Adds(map[], AllFiles(roots[..i]), found)
    ensures forall p :: p in found ==> !(roots[i].path <= p)
  {
    RootsBelow(roots[..i]);
    forall p | p in found ensures !(roots[i].path <= p) {
      if roots[i].path <= p {
        var r :| r in AllFiles(roots[..i]) && r.path == p;
        var k :| 0 <= k < i && Prefixed(roots[..i][k].path, r.path);
        TwoPrefixes(roots[k].path, roots[i].path, p);
        assert false;
      }
    }
  }

  lemma {:induction false} MoreRoots(roots: seq<Root>, i: nat)
    requires i <= |roots|
    ensures |AllFiles(roots[..i])| <= |AllFiles(roots)| && Bytes(AllFiles(roots[..i])) <= Bytes(AllFiles(roots))
    decreases |roots| - i
  {
    if i == |roots| {
      assert roots[..i] == roots;
    } else {
      MoreRoots(roots, i + 1);
      OneRoot(roots, i);
    }
  }

  lemma OneRoot(roots: seq<Root>, i: nat)
    requires i < |roots|
    ensures AllFiles(roots[..i + 1]) == AllFiles(roots[..i]) + Files(roots[i].path, roots[i].node)
    ensures Bytes(AllFiles(roots[..i + 1])) == Bytes(AllFiles(roots[..i])) + Bytes(Files(roots[i].path, roots[i].node))
  {
    assert roots[..i + 1][..i] == roots[..i];
    BytesAppend(AllFiles(roots[..i]), Files(roots[i].path, roots[i].node));
  }

  /** The same tree with the entries of each directory listed in another order. */
  ghost predicate Reordered(a: Node, b: Node)
    decreases a
  {
    if a.Dir? && b.Dir? then
      exists zs :: multiset(zs) == multiset(b.children) && ReorderedBelow(a.children, zs)
    else a == b
  }

  ghost predicate ReorderedBelow(xs: seq<Child>, zs: seq<Child>)
    decreases xs
  {
    if xs == [] || zs == [] then xs == [] && zs == [] else
    xs[0].name == zs[0].name && Reordered(xs[0].node, zs[0].node) && ReorderedBelow(xs[1..], zs[1..])
  }

  /** What the walk accepts and finds does not depend on the order directories are listed in. */
  lemma {:induction false} ListingOrderIrrelevant(path: Path, a: Node, b: Node)
    requires Reordered(a, b)
    ensures Clean(a) <==> Clean(b)
    ensures multiset(Files(path, a)) == multiset(Files(path, b))
    decreases a
  {
    if a.Dir? && b.Dir? {
      var zs :| multiset(zs) == multiset(b.children) && ReorderedBelow(a.children, zs);
      ListingOrderBelow(path, a.children, zs);
      ChildOrderIrrelevant(path, zs, b.children);
      CleanPermutes(zs, b.children);
    }
  }

  lemma CleanPermutes(xs: seq<Child>, ys: seq<Child>)
    requires multiset(xs) == multiset(ys)
    ensures (forall c :: c in xs ==> Clean(c.node)) <==> (forall c :: c in ys ==> Clean(c.node))
  {
    assert forall c :: c in xs <==> c in multiset(xs);
    assert forall c :: c in ys <==> c in multiset(ys);
  }

  lemma {:induction false} ListingOrderBelow(path: Path, xs: seq<Child>, zs: seq<Child>)
    requires ReorderedBelow(xs, zs)
    ensures (forall c :: c in xs ==> Clean(c.node)) <==> (forall c :: c in zs ==> Clean(c.node))
    ensures multiset(FilesIn(path, xs)) == multiset(FilesIn(path, zs))
    decreases xs
  {
    if xs != [] {
      ListingOrderIrrelevant(path + [xs[0].name], xs[0].node, zs[0].node);
      ListingOrderBelow(path, xs[1..], zs[1..]);
      CleanHead(xs);
      CleanHead(zs);
    }
  }

  lemma CleanHead(xs: seq<Child>)
    requires xs != []
    ensures (forall c :: c in xs ==> Clean(c.node)) <==> Clean(xs[0].node) && forall c :: c in xs[1..] ==> Clean(c.node)
  {
    assert xs == [xs[0]] + xs[1..];
  }

  /** The inventory is exactly the regular files under the roots, and exists exactly when there is
      no link or special file and both limits hold for the whole. */
  method Inventory(roots: seq<Root>) returns (r: Result<map<Path, string>>)
    requires Apart(roots) && forall x :: x in roots ==> Named(x.node)
    ensures r.Ok? <==> WithinLimits(roots)
    ensures r.Ok? ==> Adds(map[], AllFiles(roots), r.value)
  {
    var walk := new Walk();
    for i := 0 to |roots|
      invariant |walk.found| <= MAX_FILES && walk.total <= MAX_BYTES && fresh(walk)
      invariant walk.total == Bytes(AllFiles(roots[..i])) && Adds(map[], AllFiles(roots[..i]), walk.found)
      invariant forall j :: 0 <= j < i ==> Clean(roots[j].node)
    {
      ghost var before := walk.found;
      NextRootFree(roots, i, walk.found);
      OneRoot(roots, i);
      MoreRoots(roots, i + 1);
      var ok := walk.Visit(roots[i].path, roots[i].node);
      if !ok {
        assert roots[i] in roots;
        return Refused("source inventory refused");
      }
      AddsThen(map[], AllFiles(roots[..i]), before, Files(roots[i].path, roots[i].node), walk.found);
    }
    assert roots[..|roots|] == roots;
    r := Ok(walk.found);
  }

  /** The listed roots lie apart. */
  lemma SourceRootsApart(roots: seq<Root>)
    requires |roots| == |SourcePaths()| && forall i :: 0 <= i < |roots| ==> roots[i].path == SourcePaths()[i]
    ensures Apart(roots)
  {
    var heads := ["app", "alembic", "scripts", "uv.lock", "pyproject.toml", "alembic.ini"];
    assert forall i, j :: 0 <= i < j < 6 ==> heads[i] != heads[j] by {
      HeadsDiffer();
    }
    forall i, j | 0 <= i < |roots| && 0 <= j < |roots| && i != j ensures !Prefixed(roots[i].path, roots[j].path) {
      assert SourcePaths()[i][0] == heads[i] && SourcePaths()[j][0] == heads[j];
    }
  }

  lemma HeadsDiffer()
    ensures var heads := ["app", "alembic", "scripts", "uv.lock", "pyproject.toml", "alembic.ini"];
            forall i, j :: 0 <= i < j < 6 ==> heads[i] != heads[j]
  {
    assert |"app"| == 3 && |"alembic"| == 7 && |"scripts"| == 7 && |"uv.lock"| == 7 && |"pyproject.toml"| == 14 && |"alembic.ini"| == 11;
    assert "alembic"[0] == 'a' && "scripts"[0] == 's' && "uv.lock"[0] == 'u';
  }
}
