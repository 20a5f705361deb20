/**
 The validator that accepts a context-evidence artifact at the head it names, and the condition
 under which the builder's own artifact passes it.
 */
module ContextValidation {
  import opened Ordering
  import opened Sequences
  import opened ContextEvidence

  // ----- the validator -----

  const LIMIT_MILLIS: int := 120_000

  /** The spans of the target by name; a later span of the same name wins. */
  function ActualSpans(spans: seq<Span>): map<string, (int, int)>
    decreases |spans|
  {
    if spans == [] then map[] else
    var last := spans[|spans| - 1];
    ActualSpans(spans[..|spans| - 1])[last.name := (last.start, last.end)]
  }

  predicate Letter(c: char) { 'A' <= c <= 'Z' || 'a' <= c <= 'z' }

  /** The names the validator takes: ASCII letters, digits, underscores and dots, at least two
      characters, the first a letter or an underscore. */
  predicate CallableName(name: string) {
    && |name| >= 2 && (Letter(name[0]) || name[0] == '_')
    && forall i :: 1 <= i < |name| ==> Letter(name[i]) || '0' <= name[i] <= '9' || name[i] == '_' || name[i] == '.'
  }

  predicate ContextAccepted(c: Context, row: CallableRow, completed: seq<string>) {
    c.node in completed && c.lines != [] && forall i :: 0 <= i < |c.lines| ==> row.start <= c.lines[i] <= row.end
  }

  predicate RowAccepted(row: CallableRow, actual: map<string, (int, int)>, completed: seq<string>) {
    && CallableName(row.name) && row.name in actual
    && row.start <= row.end && (row.start, row.end) == actual[row.name]
    && forall i :: 0 <= i < |row.contexts| ==> ContextAccepted(row.contexts[i], row, completed)
  }

  function RowNames(rows: seq<CallableRow>): seq<string> {
    seq(|rows|, i requires 0 <= i < |rows| => rows[i].name)
  }

  predicate NodesAccepted(a: Artifact, nodeValid: string -> bool) {
    && a.collected != [] && (forall i :: 0 <= i < |a.collected| ==> nodeValid(a.collected[i]))
    && a.completed == a.collected && NoRepeat(a.collected)
    && a.skipped == [] && a.deselected == []
    && 0 <= a.elapsedMillis <= LIMIT_MILLIS
  }

  /** Every row is true of the target, none repeats and none is missing. */
  ghost predicate RowsAccepted(rows: seq<CallableRow>, actual: map<string, (int, int)>, completed: seq<string>) {
    && (forall i :: 0 <= i < |rows| ==> RowAccepted(rows[i], actual, completed))
    && NoRepeat(RowNames(rows))
    && (set n | n in RowNames(rows)) == actual.Keys
  }

  /** What the validator accepts: complete distinct nodes, a bounded run, and one true row for
      every callable of the target. */
  ghost predicate ValidArtifact(a: Artifact, spans: seq<Span>, nodeValid: string -> bool) {
    NodesAccepted(a, nodeValid) && RowsAccepted(a.callables, ActualSpans(spans), a.completed)
  }

  /** The row loop with its set of callables already seen. */
  method ValidateRows(rows: seq<CallableRow>, actual: map<string, (int, int)>, completed: seq<string>)
    returns (ok: bool)
    ensures ok <==> RowsAccepted(rows, actual, completed)
  {
    var seen: set<string> := {};
    for i := 0 to |rows|
      invariant forall j :: 0 <= j < i ==> RowAccepted(rows[j], actual, completed) && rows[j].name in seen
      invariant forall j, k :: 0 <= j < k < i ==> rows[j].name != rows[k].name
      invariant forall n :: n in seen ==> exists j :: 0 <= j < i && rows[j].name == n
    {
      var row := rows[i];
      if row.name in seen {
        var j :| 0 <= j < i && rows[j].name == row.name;
        assert RowNames(rows)[j] == RowNames(rows)[i];
        return false;
      }
      if !RowAccepted(row, actual, completed) {
        return false;
      }
      seen := seen + {row.name};
    }
    SeenAreNames(rows, seen);
    ok := seen == actual.Keys;
  }

  lemma SeenAreNames(rows: seq<CallableRow>, seen: set<string>)
    requires forall j :: 0 <= j < |rows| ==> rows[j].name in seen
    requires forall n :: n in seen ==> exists j :: 0 <= j < |rows| && rows[j].name == n
    ensures seen == set n | n in RowNames(rows)
  {
    forall n | n in seen ensures n in RowNames(rows) {
      var j :| 0 <= j < |rows| && rows[j].name == n;
      assert RowNames(rows)[j] == n;
    }
  }

  method ValidateEvidence(a: Artifact, spans: seq<Span>, nodeValid: string -> bool) returns (ok: bool)
    ensures ok <==> ValidArtifact(a, spans, nodeValid)
  {
    if !NodesAccepted(a, nodeValid) {
      return false;
    }
    ok := ValidateRows(a.callables, ActualSpans(spans), a.completed);
  }

  // ----- the builder's artifact meets the validator -----

  function SpanNames(spans: seq<Span>): seq<string> {
    seq(|spans|, i requires 0 <= i < |spans| => spans[i].name)
  }

  lemma {:induction false} ActualSpansExact(spans: seq<Span>)
    ensures ActualSpans(spans).Keys == set n | n in SpanNames(spans)
    ensures NoRepeat(SpanNames(spans)) ==>
              forall x :: x in spans ==> x.name in ActualSpans(spans) && ActualSpans(spans)[x.name] == (x.start, x.end)
    decreases |spans|
  {
    if spans != [] {
      var last := |spans| - 1;
      var names, earlier := SpanNames(spans), SpanNames(spans[..last]);
      ActualSpansExact(spans[..last]);
      assert names == earlier + [spans[last].name];
      if NoRepeat(names) {
        assert forall i :: 0 <= i < last ==> earlier[i] == names[i];
        forall x | x in spans
          ensures x.name in ActualSpans(spans) && ActualSpans(spans)[x.name] == (x.start, x.end)
        {
          var k :| 0 <= k < |spans| && spans[k] == x;
          if k < last {
            assert names[k] != names[last];
            assert spans[..last][k] == x;
          }
        }
      }
    }
  }

  lemma NameOrder()
    ensures TotalPreorder(NameLe)
  {
    forall x: Span, y: Span ensures NameLe(x, y) || NameLe(y, x) { LexTotal(x.name, y.name); }
    forall x: Span, y: Span, z: Span | NameLe(x, y) && NameLe(y, z) ensures NameLe(x, z) {
      LexTransitive(x.name, y.name, z.name);
    }
  }

  /** A permutation of the spans permutes their names. */
  lemma {:induction false} SameNames(xs: seq<Span>, ys: seq<Span>)
    requires multiset(xs) == multiset(ys)
    ensures multiset(SpanNames(xs)) == multiset(SpanNames(ys))
    decreases |xs|
  {
    assert |xs| == |multiset(xs)| == |ys|;
    if xs != [] {
      assert xs[0] in multiset(ys);
      var k :| 0 <= k < |ys| && ys[k] == xs[0];
      var rest := ys[..k] + ys[k + 1..];
      HeadRemoved(xs, ys, k);
      SameNames(xs[1..], rest);
      assert SpanNames(xs) == [xs[0].name] + SpanNames(xs[1..]);
      assert SpanNames(rest) == SpanNames(ys[..k]) + SpanNames(ys[k + 1..]);
      assert SpanNames(ys) == SpanNames(ys[..k]) + ([ys[k].name] + SpanNames(ys[k + 1..]));
    }
  }

  lemma {:induction false} NoRepeatCounts(xs: seq<string>)
    ensures NoRepeat(xs) <==> forall x :: x in multiset(xs) ==> multiset(xs)[x] == 1
    decreases |xs|
  {
    if xs != [] {
      var last := |xs| - 1;
      NoRepeatCounts(xs[..last]);
      assert xs == xs[..last] + [xs[last]];
      assert multiset(xs) == multiset(xs[..last]) + multiset{xs[last]};
      if NoRepeat(xs) {
        assert xs[last] !in xs[..last];
      } else if NoRepeat(xs[..last]) {
        assert xs[last] in xs[..last];
        assert multiset(xs)[xs[last]] == 2;
      } else {
        var x :| x in multiset(xs[..last]) && multiset(xs[..last])[x] != 1;
        assert multiset(xs)[x] > 1;
      }
    }
  }

  lemma PermutedNames(xs: seq<Span>, ys: seq<Span>)
    requires multiset(xs) == multiset(ys)
    ensures NoRepeat(SpanNames(xs)) <==> NoRepeat(SpanNames(ys))
    ensures (set n | n in SpanNames(xs)) == (set n | n in SpanNames(ys))
  {
    SameNames(xs, ys);
    NoRepeatCounts(SpanNames(xs));
    NoRepeatCounts(SpanNames(ys));
    assert forall n :: n in SpanNames(xs) <==> n in multiset(SpanNames(xs));
    assert forall n :: n in SpanNames(ys) <==> n in multiset(SpanNames(ys));
  }

  function BuiltRows(spans: seq<Span>, nodes: seq<string>, linesByNode: map<string, set<int>>): seq<CallableRow>
    requires forall n :: n in nodes ==> n in linesByNode
  {
    seq(|spans|, i requires 0 <= i < |spans| => RowOf(spans[i], nodes, linesByNode))
  }

  lemma BuiltRowAccepted(span: Span, nodes: seq<string>, ordered: seq<string>, linesByNode: map<string, set<int>>,
                         actual: map<string, (int, int)>)
    requires AllKnown(ordered, linesByNode) && (forall n :: n in ordered ==> n in nodes)
    requires CallableName(span.name) && span.start <= span.end
    requires span.name in actual && actual[span.name] == (span.start, span.end)
    ensures RowAccepted(RowOf(span, ordered, linesByNode), actual, nodes)
  {
    RowsExact(span, ordered, linesByNode);
    var row := RowOf(span, ordered, linesByNode);
    forall i | 0 <= i < |row.contexts| ensures ContextAccepted(row.contexts[i], row, nodes) {
      var c := row.contexts[i];
      assert c in row.contexts;
      assert forall k :: 0 <= k < |c.lines| ==> c.lines[k] in c.lines;
    }
  }

  /** The rows of a target with distinct callables are all accepted. */
  lemma DistinctRowsAccepted(spans: seq<Span>, sorted: seq<Span>, nodes: seq<string>, ordered: seq<string>,
                             linesByNode: map<string, set<int>>)
    requires AllKnown(ordered, linesByNode) && (forall n :: n in ordered ==> n in nodes)
    requires forall x :: x in spans ==> CallableName(x.name) && x.start <= x.end
    requires multiset(sorted) == multiset(spans) && NoRepeat(SpanNames(spans))
    ensures forall i :: 0 <= i < |sorted| ==>
              RowAccepted(BuiltRows(sorted, ordered, linesByNode)[i], ActualSpans(spans), nodes)
  {
    ActualSpansExact(spans);
    forall i | 0 <= i < |sorted|
      ensures RowAccepted(BuiltRows(sorted, ordered, linesByNode)[i], ActualSpans(spans), nodes)
    {
      assert sorted[i] in multiset(spans);
      BuiltRowAccepted(sorted[i], nodes, ordered, linesByNode, ActualSpans(spans));
    }
  }

  /** The artifact built from a clean run of distinct nodes. */
  function Built(spans: seq<Span>, nodes: seq<string>, linesByNode: map<string, set<int>>, elapsed: int): Artifact
    requires forall n :: n in Sort(nodes, LexLe) ==> n in linesByNode
  {
    Artifact(nodes, nodes, [], [], BuiltRows(Sort(spans, NameLe), Sort(nodes, LexLe), linesByNode), elapsed)
  }

  /** A row for every span is accepted only if every span's name is. */
  lemma RowsNameSpans(spans: seq<Span>, sorted: seq<Span>, rows: seq<CallableRow>, actual: map<string, (int, int)>, nodes: seq<string>)
    requires multiset(sorted) == multiset(spans) && RowNames(rows) == SpanNames(sorted)
    requires forall i :: 0 <= i < |rows| ==> RowAccepted(rows[i], actual, nodes)
    ensures forall x :: x in spans ==> CallableName(x.name)
  {
    forall x | x in spans ensures CallableName(x.name) {
      assert x in multiset(sorted);
      var k :| 0 <= k < |sorted| && sorted[k] == x;
      assert SpanNames(sorted)[k] == RowNames(rows)[k];
    }
  }

  lemma BuiltRowsAcceptedExactly(spans: seq<Span>, sorted: seq<Span>, nodes: seq<string>, ordered: seq<string>,
                                 linesByNode: map<string, set<int>>)
    requires AllKnown(ordered, linesByNode) && (forall n :: n in ordered ==> n in nodes)
    requires multiset(sorted) == multiset(spans) && forall x :: x in spans ==> x.start <= x.end
    ensures RowsAccepted(BuiltRows(sorted, ordered, linesByNode), ActualSpans(spans), nodes) <==>
            NoRepeat(SpanNames(spans)) && forall x :: x in spans ==> CallableName(x.name)
  {
    var rows := BuiltRows(sorted, ordered, linesByNode);
    PermutedNames(sorted, spans);
    assert RowNames(rows) == SpanNames(sorted);
    if NoRepeat(SpanNames(spans)) && forall x :: x in spans ==> CallableName(x.name) {
      DistinctRowsAccepted(spans, sorted, nodes, ordered, linesByNode);
      ActualSpansExact(spans);
    }
    if RowsAccepted(rows, ActualSpans(spans), nodes) {
      RowsNameSpans(spans, sorted, rows, ActualSpans(spans), nodes);
    }
  }

  /** The artifact built from a clean run passes the validator at the same head exactly when the
      target's callable names are distinct and ASCII and no node name holds a character the
      validator refuses. */
  lemma BuiltAcceptedExactly(spans: seq<Span>, nodes: seq<string>, linesByNode: map<string, set<int>>, elapsed: int,
                             nodeValid: string -> bool)
    requires nodes != [] && NoRepeat(nodes) && AllKnown(nodes, linesByNode) && 0 <= elapsed <= LIMIT_MILLIS
    requires forall x :: x in spans ==> x.start <= x.end
    ensures forall n :: n in Sort(nodes, LexLe) ==> n in linesByNode
    ensures ValidArtifact(Built(spans, nodes, linesByNode, elapsed), spans, nodeValid) <==>
            && NoRepeat(SpanNames(spans)) && (forall x :: x in spans ==> CallableName(x.name))
            && forall n :: n in nodes ==> nodeValid(n)
  {
    SortedNodesKnown(nodes, linesByNode);
    NameOrder();
    SortCorrect(spans, NameLe);
    BuiltRowsAcceptedExactly(spans, Sort(spans, NameLe), nodes, Sort(nodes, LexLe), linesByNode);
    assert (forall n :: n in nodes ==> nodeValid(n)) <==> forall i :: 0 <= i < |nodes| ==> nodeValid(nodes[i]);
  }

  const ACCENTED := [Span(1, 2, "app.caf\U{00E9}")]

  /** Distinct names are not enough: whatever was run, the artifact of a target whose one callable
      has an accented name is refused. */
  lemma AccentedNameRefused(nodes: seq<string>, linesByNode: map<string, set<int>>, elapsed: int, nodeValid: string -> bool)
    requires nodes != [] && NoRepeat(nodes) && AllKnown(nodes, linesByNode) && 0 <= elapsed <= LIMIT_MILLIS
    ensures forall n :: n in Sort(nodes, LexLe) ==> n in linesByNode
    ensures NoRepeat(SpanNames(ACCENTED)) && !ValidArtifact(Built(ACCENTED, nodes, linesByNode, elapsed), ACCENTED, nodeValid)
  {
    BuiltAcceptedExactly(ACCENTED, nodes, linesByNode, elapsed, nodeValid);
    assert ACCENTED[0].name[7] == '\U{00E9}';
    assert !CallableName(ACCENTED[0].name);
  }
}
