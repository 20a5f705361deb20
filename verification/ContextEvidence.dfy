/**
 The context-evidence artifact: which lines of each callable a test module's nodes executed.
 */
module ContextEvidence {
  import opened Ordering

  /** A callable of the target with its first and last line. */
  datatype Span = Span(start: int, end: int, name: string)

  datatype Context = Context(node: string, lines: seq<int>)

  datatype CallableRow = CallableRow(name: string, start: int, end: int, contexts: seq<Context>)

  datatype Artifact = Artifact(collected: seq<string>, completed: seq<string>, skipped: seq<string>,
                               deselected: seq<string>, callables: seq<CallableRow>, elapsedMillis: int)

  // ----- the builder -----

  predicate NameLe(a: Span, b: Span) { LexLe(a.name, b.name) }

  /** The lines of a set from `lo` to `hi`, in order. */
  function LinesIn(lines: set<int>, lo: int, hi: int): seq<int>
    decreases hi - lo
  {
    if hi < lo then [] else LinesIn(lines, lo, hi - 1) + (if hi in lines then [hi] else [])
  }

  /** The nodes that executed lines of the span, with those lines. */
  function ContextsOf(span: Span, nodes: seq<string>, linesByNode: map<string, set<int>>): seq<Context>
    requires forall n :: n in nodes ==> n in linesByNode
  {
    if nodes == [] then [] else
    var node := nodes[|nodes| - 1];
    var earlier := ContextsOf(span, nodes[..|nodes| - 1], linesByNode);
    var lines := LinesIn(linesByNode[node], span.start, span.end);
    if lines == [] then earlier else earlier + [Context(node, lines)]
  }

  function RowOf(span: Span, nodes: seq<string>, linesByNode: map<string, set<int>>): CallableRow
    requires forall n :: n in nodes ==> n in linesByNode
  {
    CallableRow(span.name, span.start, span.end, ContextsOf(span, nodes, linesByNode))
  }

  ghost predicate AllKnown(nodes: seq<string>, linesByNode: map<string, set<int>>) {
    forall n :: n in nodes ==> n in linesByNode
  }

  /** One row per span, by name; nodes by name; nodes without a covered line left out. */
  method BuildCallables(spans: seq<Span>, nodes: seq<string>, linesByNode: map<string, set<int>>)
    returns (rows: seq<CallableRow>)
    requires AllKnown(nodes, linesByNode)
    ensures var ordered, sorted := Sort(nodes, LexLe), Sort(spans, NameLe);
            && (forall n :: n in ordered ==> n in linesByNode)
            && |rows| == |sorted|
            && forall i :: 0 <= i < |sorted| ==> rows[i] == RowOf(sorted[i], ordered, linesByNode)
  {
    var ordered, sorted := Sort(nodes, LexLe), Sort(spans, NameLe);
    SortedNodesKnown(nodes, linesByNode);
    rows := [];
    for i := 0 to |sorted|
      invariant |rows| == i
      invariant forall j :: 0 <= j < i ==> rows[j] == RowOf(sorted[j], ordered, linesByNode)
    {
      var span := sorted[i];
      var contexts: seq<Context> := [];
      for k := 0 to |ordered|
        invariant contexts == ContextsOf(span, ordered[..k], linesByNode)
      {
        assert ordered[..k + 1][..k] == ordered[..k];
        var lines := LinesIn(linesByNode[ordered[k]], span.start, span.end);
        if lines != [] {
          contexts := contexts + [Context(ordered[k], lines)];
        }
      }
      assert ordered[..|ordered|] == ordered;
      rows := rows + [CallableRow(span.name, span.start, span.end, contexts)];
    }
  }

  lemma SortedNodesKnown(nodes: seq<string>, linesByNode: map<string, set<int>>)
    requires AllKnown(nodes, linesByNode)
    ensures forall n :: n in Sort(nodes, LexLe) ==> n in nodes && n in linesByNode
  {
    LexOrder();
    SortCorrect(nodes, LexLe);
    forall n | n in Sort(nodes, LexLe) ensures n in nodes {
      assert n in multiset(Sort(nodes, LexLe));
    }
  }

  // ----- the rows are exact -----

  lemma {:induction false} LinesInExact(lines: set<int>, lo: int, hi: int)
    ensures forall l :: l in LinesIn(lines, lo, hi) <==> l in lines && lo <= l <= hi
    ensures forall i, j :: 0 <= i < j < |LinesIn(lines, lo, hi)| ==> LinesIn(lines, lo, hi)[i] < LinesIn(lines, lo, hi)[j]
    decreases hi - lo
  {
    if lo <= hi {
      LinesInExact(lines, lo, hi - 1);
      var earlier := LinesIn(lines, lo, hi - 1);
      assert forall i :: 0 <= i < |earlier| ==> earlier[i] in earlier;
    }
  }

  /** A row reports, for each node, exactly the covered lines inside the span, in order, and lists
      a node only if it covered one. */
  lemma {:induction false} RowsExact(span: Span, nodes: seq<string>, linesByNode: map<string, set<int>>)
    requires AllKnown(nodes, linesByNode)
    ensures forall c :: c in ContextsOf(span, nodes, linesByNode) ==>
              && c.node in nodes && c.lines != []
              && (forall l :: l in c.lines <==> l in linesByNode[c.node] && span.start <= l <= span.end)
              && (forall i, j :: 0 <= i < j < |c.lines| ==> c.lines[i] < c.lines[j])
    ensures forall n, l :: n in nodes && l in linesByNode[n] && span.start <= l <= span.end ==>
              exists c :: c in ContextsOf(span, nodes, linesByNode) && c.node == n
    decreases |nodes|
  {
    if nodes != [] {
      var last := |nodes| - 1;
      var node, earlier := nodes[last], ContextsOf(span, nodes[..last], linesByNode);
      RowsExact(span, nodes[..last], linesByNode);
      LinesInExact(linesByNode[node], span.start, span.end);
      assert nodes == nodes[..last] + [node];
      var lines := LinesIn(linesByNode[node], span.start, span.end);
      var all := ContextsOf(span, nodes, linesByNode);
      forall n, l | n in nodes && l in linesByNode[n] && span.start <= l <= span.end
        ensures exists c :: c in all && c.node == n
      {
        if n == node {
          assert l in lines;
          assert Context(node, lines) in all;
        } else {
          var c :| c in earlier && c.node == n;
          assert c in all;
        }
      }
    }
  }
}
