/**
 The per-file line counts of a Git delta: numstat rows of several diffs added up by path,
 untracked files added where no diff names them, and totals over the sorted rows.
 */
module Numstat {
  import opened Wrappers
  import opened Ordering
  import opened Sequences
  import opened TextOps

  datatype Entry = Entry(path: string, added: int, deleted: int)

  /** A count, or 0 for what does not parse as an integer (`-` for binary files). */
  function Field(text: string, parse: string -> Option<int>): int {
    match parse(text) case Some(n) => n case None => 0
  }

  function ParseLine(line: string, parse: string -> Option<int>): Option<Entry> {
    var parts := Split(line, "\t");
    if |parts| != 3 then None else Some(Entry(parts[2], Field(parts[0], parse), Field(parts[1], parse)))
  }

  function Entries(lines: seq<string>, parse: string -> Option<int>): seq<Entry> {
    if lines == [] then [] else
    var last := |lines| - 1;
    var entry := ParseLine(lines[last], parse);
    Entries(lines[..last], parse) + (if entry.Some? then [entry.value] else [])
  }

  /** A line of three tab-separated fields gives its first count as added and its second as deleted. */
  lemma LineRead(added: string, deleted: string, path: string, parse: string -> Option<int>)
    requires Free(added, '\t') && Free(deleted, '\t') && Free(path, '\t')
    ensures ParseLine(added + "\t" + deleted + "\t" + path, parse) == Some(Entry(path, Field(added, parse), Field(deleted, parse)))
  {
    var tail := deleted + "\t" + path;
    assert added + "\t" + deleted + "\t" + path == added + "\t" + tail;
    TabSplit(added, tail);
    TabSplit(deleted, path);
    NoTab(path);
  }

  lemma TabSplit(first: string, rest: string)
    requires Free(first, '\t')
    ensures Split(first + "\t" + rest, "\t") == [first] + Split(rest, "\t")
  {
    FirstTab(first, rest);
    var text := first + "\t" + rest;
    assert text[..|first|] == first && text[|first| + 1..] == rest;
  }

  lemma {:induction false} FirstTab(first: string, rest: string)
    requires Free(first, '\t')
    ensures Find(first + "\t" + rest, "\t") == Some(|first|)
    decreases |first|
  {
    var text := first + "\t" + rest;
    if first == "" {
      assert text[0..1] == "\t";
    } else {
      FirstTab(first[1..], rest);
      assert text[1..] == first[1..] + "\t" + rest;
      assert text[0..1][0] == first[0];
    }
  }

  lemma {:induction false} NoTab(text: string)
    requires Free(text, '\t')
    ensures Split(text, "\t") == [text]
    decreases |text|
  {
    NoTabFound(text);
  }

  lemma {:induction false} NoTabFound(text: string)
    requires Free(text, '\t')
    ensures Find(text, "\t") == None
    decreases |text|
  {
    if text != "" {
      NoTabFound(text[1..]);
      assert text[0..1][0] == text[0];
    }
  }

  function Paths(es: seq<Entry>): set<string> { set e | e in es :: e.path }

  /** What the entries of one path add up to. */
  function SumFor(es: seq<Entry>, path: string): (int, int) {
    if es == [] then (0, 0) else
    var last := |es| - 1;
    var sum := SumFor(es[..last], path);
    if es[last].path == path then (sum.0 + es[last].added, sum.1 + es[last].deleted) else sum
  }

  /** What all entries add up to. */
  function Total(es: seq<Entry>): (int, int) {
    if es == [] then (0, 0) else
    var last := |es| - 1;
    var sum := Total(es[..last]);
    (sum.0 + es[last].added, sum.1 + es[last].deleted)
  }

  /** The untracked files no diff names, each once, counted as all added. */
  function Fresh(seen: set<string>, untracked: seq<string>, lineCount: string -> nat): seq<Entry> {
    if untracked == [] then [] else
    var last := |untracked| - 1;
    var earlier, path := Fresh(seen, untracked[..last], lineCount), untracked[last];
    if path == "" || path in seen || path in Paths(earlier) then earlier else earlier + [Entry(path, lineCount(path), 0)]
  }

  /** Everything the report counts. */
  function Counted(lines: seq<string>, untracked: seq<string>, parse: string -> Option<int>, lineCount: string -> nat): seq<Entry> {
    var es := Entries(lines, parse);
    es + Fresh(Paths(es), untracked, lineCount)
  }

  ghost predicate Tallies(m: map<string, (int, int)>, es: seq<Entry>) {
    m.Keys == Paths(es) && forall p :: p in m ==> m[p] == SumFor(es, p)
  }

  function Bumped(m: map<string, (int, int)>, e: Entry): map<string, (int, int)> {
    var prior := if e.path in m then m[e.path] else (0, 0);
    m[e.path := (prior.0 + e.added, prior.1 + e.deleted)]
  }

  lemma TallyOne(m: map<string, (int, int)>, es: seq<Entry>, e: Entry)
    requires Tallies(m, es)
    ensures Tallies(Bumped(m, e), es + [e])
  {
    assert (es + [e])[..|es|] == es;
    if e.path !in m { Unseen(es, e.path); }
    assert Paths(es + [e]) == Paths(es) + {e.path};
  }

  lemma {:induction false} Unseen(es: seq<Entry>, path: string)
    requires path !in Paths(es)
    ensures SumFor(es, path) == (0, 0)
    decreases |es|
  {
    if es != [] {
      var last := |es| - 1;
      assert es[last].path in Paths(es);
      assert Paths(es[..last]) <= Paths(es);
      Unseen(es[..last], path);
    }
  }

  lemma EntriesOne(lines: seq<string>, line: string, parse: string -> Option<int>)
    ensures var entry := ParseLine(line, parse);
            Entries(lines + [line], parse) == Entries(lines, parse) + if entry.Some? then [entry.value] else []
  {
    assert (lines + [line])[..|lines|] == lines;
  }

  method TallyLine(m0: map<string, (int, int)>, ghost done: seq<string>, line: string, parse: string -> Option<int>)
    returns (m: map<string, (int, int)>)
    requires Tallies(m0, Entries(done, parse))
    ensures Tallies(m, Entries(done + [line], parse))
  {
    m := m0;
    EntriesOne(done, line, parse);
    var entry := ParseLine(line, parse);
    if entry.Some? {
      TallyOne(m, Entries(done, parse), entry.value);
      m := Bumped(m, entry.value);
    } else {
      assert Entries(done + [line], parse) == Entries(done, parse);
    }
  }

  method TallyLines(m0: map<string, (int, int)>, ghost done: seq<string>, lines: seq<string>, parse: string -> Option<int>)
    returns (m: map<string, (int, int)>)
    requires Tallies(m0, Entries(done, parse))
    ensures Tallies(m, Entries(done + lines, parse))
  {
    m := m0;
    assert done + lines[..0] == done;
    for j := 0 to |lines|
      invariant Tallies(m, Entries(done + lines[..j], parse))
    {
      assert done + lines[..j + 1] == done + lines[..j] + [lines[j]];
      m := TallyLine(m, done + lines[..j], lines[j], parse);
    }
    assert lines[..|lines|] == lines;
  }

  method Tally(outputs: seq<string>, parse: string -> Option<int>) returns (m: map<string, (int, int)>)
    ensures Tallies(m, Entries(AllLines(outputs), parse))
  {
    m := map[];
    for i := 0 to |outputs|
      invariant Tallies(m, Entries(AllLines(outputs[..i]), parse))
    {
      m := TallyLines(m, AllLines(outputs[..i]), SplitLines(outputs[i]), parse);
      assert outputs[..i + 1][..i] == outputs[..i];
    }
    assert outputs[..|outputs|] == outputs;
  }

  function AllLines(outputs: seq<string>): seq<string> {
    if outputs == [] then [] else AllLines(outputs[..|outputs| - 1]) + SplitLines(outputs[|outputs| - 1])
  }

  lemma FreshOne(es: seq<Entry>, untracked: seq<string>, path: string, lineCount: string -> nat)
    ensures var counted := es + Fresh(Paths(es), untracked, lineCount);
            es + Fresh(Paths(es), untracked + [path], lineCount) ==
            if path == "" || path in Paths(counted) then counted else counted + [Entry(path, lineCount(path), 0)]
  {
    var extra := Fresh(Paths(es), untracked, lineCount);
    assert (untracked + [path])[..|untracked|] == untracked;
    PathsAppend(es, extra);
  }

  method AddUntracked(m0: map<string, (int, int)>, ghost es: seq<Entry>, untracked: seq<string>, lineCount: string -> nat)
    returns (m: map<string, (int, int)>)
    requires Tallies(m0, es)
    ensures Tallies(m, es + Fresh(Paths(es), untracked, lineCount))
  {
    m := m0;
    assert es + Fresh(Paths(es), untracked[..0], lineCount) == es;
    for i := 0 to |untracked|
      invariant Tallies(m, es + Fresh(Paths(es), untracked[..i], lineCount))
    {
      var path := untracked[i];
      ghost var e := Entry(path, lineCount(path), 0);
      FreshOne(es, untracked[..i], path, lineCount);
      assert untracked[..i + 1] == untracked[..i] + [path];
      if path != "" && path !in m {
        TallyOne(m, es + Fresh(Paths(es), untracked[..i], lineCount), e);
        assert Bumped(m, e) == m[path := (lineCount(path), 0)];
        m := m[path := (lineCount(path), 0)];
      }
    }
    assert untracked[..|untracked|] == untracked;
  }

  // ----- the sorted rows -----

  predicate RowLe(a: Entry, b: Entry) { LexLe(a.path, b.path) }

  /** One row per path of the tally, in path order. */
  ghost predicate RowsOf(rows: seq<Entry>, m: map<string, (int, int)>) {
    && Paths(rows) == m.Keys
    && (forall i :: 0 <= i < |rows| ==> rows[i].path in m && m[rows[i].path] == (rows[i].added, rows[i].deleted))
    && StrictRows(rows)
  }

  ghost predicate DistinctPaths(rows: seq<Entry>) {
    forall i, j :: 0 <= i < j < |rows| ==> rows[i].path != rows[j].path
  }

  method SortedRows(m: map<string, (int, int)>) returns (rows: seq<Entry>)
    ensures RowsOf(rows, m)
  {
    rows := [];
    var left := m.Keys;
    while left != {}
      invariant left <= m.Keys && Paths(rows) == m.Keys - left
      invariant forall e :: e in rows ==> e.path in m && m[e.path] == (e.added, e.deleted)
      invariant DistinctPaths(rows) && Sorted(rows, RowLe)
      decreases left
    {
      var path :| path in left;
      var row := Entry(path, m[path].0, m[path].1);
      InsertRow(row, rows);
      rows := Insert(row, rows, RowLe);
      left := left - {path};
    }
    assert forall i, j :: 0 <= i < j < |rows| ==> RowLe(rows[i], rows[j]);
  }

  lemma RowOrder()
    ensures TotalPreorder(RowLe)
  {
    forall x: Entry, y: Entry ensures RowLe(x, y) || RowLe(y, x) { LexTotal(x.path, y.path); }
    forall x: Entry, y: Entry, z: Entry | RowLe(x, y) && RowLe(y, z) ensures RowLe(x, z) {
      LexTransitive(x.path, y.path, z.path);
    }
  }

  lemma {:induction false} InsertRow(row: Entry, rows: seq<Entry>)
    requires DistinctPaths(rows) && Sorted(rows, RowLe) && row.path !in Paths(rows)
    ensures DistinctPaths(Insert(row, rows, RowLe)) && Sorted(Insert(row, rows, RowLe), RowLe)
    ensures forall e :: e in Insert(row, rows, RowLe) <==> e == row || e in rows
    ensures Paths(Insert(row, rows, RowLe)) == Paths(rows) + {row.path}
  {
    RowOrder();
    InsertSorted(row, rows, RowLe);
    InsertMembers(row, rows);
    InsertDistinct(row, rows);
  }

  lemma {:induction false} InsertMembers(row: Entry, rows: seq<Entry>)
    ensures forall e :: e in Insert(row, rows, RowLe) <==> e == row || e in rows
  {
    if rows != [] && !RowLe(row, rows[0]) {
      InsertMembers(row, rows[1..]);
      assert rows == [rows[0]] + rows[1..];
    }
  }

  lemma {:induction false} InsertDistinct(row: Entry, rows: seq<Entry>)
    requires DistinctPaths(rows) && row.path !in Paths(rows)
    ensures DistinctPaths(Insert(row, rows, RowLe))
  {
    assert forall e :: e in rows ==> e.path in Paths(rows);
    if rows != [] && !RowLe(row, rows[0]) {
      var rest := Insert(row, rows[1..], RowLe);
      assert Paths(rows[1..]) <= Paths(rows);
      InsertDistinct(row, rows[1..]);
      InsertMembers(row, rows[1..]);
      forall j | 0 <= j < |rest| ensures rest[j].path != rows[0].path {
        assert rest[j] in rest;
      }
    }
  }

  function Names(untracked: Option<string>): seq<string> {
    if untracked.Some? then SplitLines(untracked.value) else []
  }

  method AddUp(rows: seq<Entry>) returns (added: int, deleted: int)
    ensures (added, deleted) == Total(rows)
  {
    added, deleted := 0, 0;
    for i := 0 to |rows|
      invariant (added, deleted) == Total(rows[..i])
    {
      assert rows[..i + 1][..i] == rows[..i];
      added, deleted := added + rows[i].added, deleted + rows[i].deleted;
    }
    assert rows[..|rows|] == rows;
  }

  /** The whole report. `untracked` is absent when local changes are left out. */
  method Report(outputs: seq<string>, untracked: Option<string>, parse: string -> Option<int>, lineCount: string -> nat)
    returns (added: int, deleted: int, rows: seq<Entry>)
    ensures var counted := Counted(AllLines(outputs), Names(untracked), parse, lineCount);
            && (added, deleted) == Total(counted)
            && IsReport(rows, counted)
  {
    var m := Tally(outputs, parse);
    ghost var es := Entries(AllLines(outputs), parse);
    ghost var counted := Counted(AllLines(outputs), Names(untracked), parse, lineCount);
    if untracked.Some? {
      m := AddUntracked(m, es, SplitLines(untracked.value), lineCount);
    } else {
      assert counted == es;
    }
    rows := SortedRows(m);
    assert IsReport(rows, counted);
    added, deleted := AddUp(rows);
    Conservation(rows, counted);
  }

  /** One row per counted path, in path order, with what the path's entries add up to. */
  ghost predicate IsReport(rows: seq<Entry>, counted: seq<Entry>) {
    && Paths(rows) == Paths(counted)
    && (forall i :: 0 <= i < |rows| ==> (rows[i].added, rows[i].deleted) == SumFor(counted, rows[i].path))
    && StrictRows(rows)
  }

  // ----- nothing is lost or counted twice -----

  /** What the entries of the rows' paths add up to. */
  function TotalOver(rows: seq<Entry>, es: seq<Entry>): (int, int) {
    if rows == [] then (0, 0) else
    var last := |rows| - 1;
    var sum, one := TotalOver(rows[..last], es), SumFor(es, rows[last].path);
    (sum.0 + one.0, sum.1 + one.1)
  }

  /** An entry counts in exactly one row. */
  lemma {:induction false} OneRowMoves(rows: seq<Entry>, es: seq<Entry>, e: Entry)
    requires DistinctPaths(rows)
    ensures var sum := TotalOver(rows, es);
            TotalOver(rows, es + [e]) == if e.path in Paths(rows) then (sum.0 + e.added, sum.1 + e.deleted) else sum
    decreases |rows|
  {
    if rows != [] {
      var last := |rows| - 1;
      OneRowMoves(rows[..last], es, e);
      assert (es + [e])[..|es|] == es;
      LastPath(rows);
    }
  }

  lemma LastPath(rows: seq<Entry>)
    requires rows != [] && DistinctPaths(rows)
    ensures Paths(rows) == Paths(rows[..|rows| - 1]) + {rows[|rows| - 1].path}
    ensures rows[|rows| - 1].path !in Paths(rows[..|rows| - 1])
  {
    assert rows == rows[..|rows| - 1] + [rows[|rows| - 1]];
  }

  lemma {:induction false} ConservationByEntries(rows: seq<Entry>, es: seq<Entry>)
    requires DistinctPaths(rows) && Paths(es) <= Paths(rows)
    ensures TotalOver(rows, es) == Total(es)
    decreases |es|
  {
    if es == [] {
      NothingOver(rows);
    } else {
      var last := |es| - 1;
      assert es[last].path in Paths(es);
      assert Paths(es[..last]) <= Paths(es);
      ConservationByEntries(rows, es[..last]);
      OneRowMoves(rows, es[..last], es[last]);
      assert es == es[..last] + [es[last]];
    }
  }

  lemma {:induction false} NothingOver(rows: seq<Entry>)
    ensures TotalOver(rows, []) == (0, 0)
    decreases |rows|
  {
    if rows != [] { NothingOver(rows[..|rows| - 1]); }
  }

  lemma {:induction false} RowsTotal(rows: seq<Entry>, counted: seq<Entry>)
    requires forall i :: 0 <= i < |rows| ==> (rows[i].added, rows[i].deleted) == SumFor(counted, rows[i].path)
    ensures Total(rows) == TotalOver(rows, counted)
    decreases |rows|
  {
    if rows != [] { RowsTotal(rows[..|rows| - 1], counted); }
  }

  /** The rows add up to exactly what was counted. */
  lemma Conservation(rows: seq<Entry>, counted: seq<Entry>)
    requires IsReport(rows, counted)
    ensures Total(rows) == Total(counted)
  {
    RowsTotal(rows, counted);
    ConservationByEntries(rows, counted);
  }

  // ----- an untracked file counts once, and only where no diff names it -----

  lemma {:induction false} FreshExact(seen: set<string>, untracked: seq<string>, lineCount: string -> nat, path: string)
    ensures var extra := Fresh(seen, untracked, lineCount);
            && (path in Paths(extra) <==> path != "" && path in untracked && path !in seen)
            && SumFor(extra, path) == if path in Paths(extra) then (lineCount(path), 0) else (0, 0)
    decreases |untracked|
  {
    if untracked != [] {
      var last := |untracked| - 1;
      FreshExact(seen, untracked[..last], lineCount, path);
      FreshExact(seen, untracked[..last], lineCount, untracked[last]);
      var earlier, extra := Fresh(seen, untracked[..last], lineCount), Fresh(seen, untracked, lineCount);
      assert untracked == untracked[..last] + [untracked[last]];
      if extra != earlier {
        var e := Entry(untracked[last], lineCount(untracked[last]), 0);
        assert extra == earlier + [e] && extra[..|extra| - 1] == earlier;
        assert Paths(extra) == Paths(earlier) + {e.path};
      }
    }
  }

  lemma {:induction false} SumAppends(a: seq<Entry>, b: seq<Entry>, path: string)
    ensures SumFor(a + b, path) == (SumFor(a, path).0 + SumFor(b, path).0, SumFor(a, path).1 + SumFor(b, path).1)
    decreases |b|
  {
    if b == [] {
      assert a + b == a;
    } else {
      var last := |b| - 1;
      SumAppends(a, b[..last], path);
      assert (a + b)[..|a + b| - 1] == a + b[..last];
    }
  }

  lemma PathsAppend(a: seq<Entry>, b: seq<Entry>)
    ensures Paths(a + b) == Paths(a) + Paths(b)
  {
  }

  /** A path's row: its diffs' sums if a diff names it, else its line count. */
  lemma CountedExact(es: seq<Entry>, untracked: seq<string>, lineCount: string -> nat, path: string)
    ensures var counted := es + Fresh(Paths(es), untracked, lineCount);
            && (path in Paths(counted) <==> path in Paths(es) || (path != "" && path in untracked))
            && SumFor(counted, path) ==
                 if path in Paths(es) then SumFor(es, path)
                 else if path != "" && path in untracked then (lineCount(path), 0) else (0, 0)
  {
    var extra := Fresh(Paths(es), untracked, lineCount);
    FreshExact(Paths(es), untracked, lineCount, path);
    SumAppends(es, extra, path);
    PathsAppend(es, extra);
    if path !in Paths(es) { Unseen(es, path); }
  }

  // ----- the order the lines come in does not matter -----

  lemma {:induction false} SumPermutes(xs: seq<Entry>, ys: seq<Entry>, path: string)
    requires multiset(xs) == multiset(ys)
    ensures SumFor(xs, path) == SumFor(ys, path)
    decreases |xs|
  {
    assert |xs| == |multiset(xs)| == |ys|;
    if xs != [] {
      var last := |xs| - 1;
      assert xs[last] in multiset(ys);
      var k :| 0 <= k < |ys| && ys[k] == xs[last];
      LastRemoved(xs, ys, k);
      SumPermutes(xs[..last], ys[..k] + ys[k + 1..], path);
      Around(ys, k);
      SumWithout(ys, ys[..k], ys[k], ys[k + 1..], path);
    }
  }

  lemma SumOne(es: seq<Entry>, e: Entry, path: string)
    ensures var sum := SumFor(es, path);
            SumFor(es + [e], path) == if e.path == path then (sum.0 + e.added, sum.1 + e.deleted) else sum
  {
    assert (es + [e])[..|es|] == es;
  }

  lemma SumMiddle(before: seq<Entry>, e: Entry, after: seq<Entry>, path: string)
    ensures var rest := SumFor(before + after, path);
            SumFor(before + [e] + after, path) == if e.path == path then (rest.0 + e.added, rest.1 + e.deleted) else rest
  {
    SumAppends(before, after, path);
    SumAppends(before + [e], after, path);
    SumOne(before, e, path);
  }

  lemma SumWithout(ys: seq<Entry>, before: seq<Entry>, e: Entry, after: seq<Entry>, path: string)
    requires ys == before + [e] + after
    ensures var rest := SumFor(before + after, path);
            SumFor(ys, path) == if e.path == path then (rest.0 + e.added, rest.1 + e.deleted) else rest
  {
    SumMiddle(before, e, after, path);
  }

  /** Strictly sorted rows over the same paths and sums are the same rows. */
  lemma {:induction false} SameRows(a: seq<Entry>, b: seq<Entry>, ca: seq<Entry>, cb: seq<Entry>)
    requires IsReport(a, ca) && IsReport(b, cb)
    requires Paths(ca) == Paths(cb) && forall p :: SumFor(ca, p) == SumFor(cb, p)
    ensures a == b
  {
    assert forall e :: e in a ==> e.path in Paths(a);
    assert forall e :: e in b ==> e.path in Paths(b);
    SameFrom(a, b);
  }

  ghost predicate StrictRows(rows: seq<Entry>) {
    forall i, j :: 0 <= i < j < |rows| ==> LexLe(rows[i].path, rows[j].path) && rows[i].path != rows[j].path
  }

  lemma {:induction false} SameFrom(a: seq<Entry>, b: seq<Entry>)
    requires Paths(a) == Paths(b) && StrictRows(a) && StrictRows(b)
    requires forall x, y :: x in a && y in b && x.path == y.path ==> x == y
    ensures a == b
    decreases |a|
  {
    if a == [] {
      HasPath(b);
    } else {
      assert a[0].path in Paths(b);
      FirstBelow(a, b);
      FirstBelow(b, a);
      LexAntisymmetric(a[0].path, b[0].path);
      TailPaths(a);
      TailPaths(b);
      SameFrom(a[1..], b[1..]);
      assert a == [a[0]] + a[1..] && b == [b[0]] + b[1..];
    }
  }

  lemma HasPath(b: seq<Entry>)
    ensures b != [] ==> b[0].path in Paths(b)
  {}

  lemma FirstBelow(a: seq<Entry>, b: seq<Entry>)
    requires a != [] && b != [] && b[0].path in Paths(a) && StrictRows(a)
    ensures LexLe(a[0].path, b[0].path)
  {
    LexTotal(a[0].path, a[0].path);
  }

  lemma TailPaths(a: seq<Entry>)
    requires a != [] && StrictRows(a)
    ensures Paths(a[1..]) == Paths(a) - {a[0].path}
  {
    assert a == [a[0]] + a[1..];
  }

  lemma {:induction false} EntriesAppend(a: seq<string>, b: seq<string>, parse: string -> Option<int>)
    ensures Entries(a + b, parse) == Entries(a, parse) + Entries(b, parse)
    decreases |b|, 1
  {
    if b == [] {
      assert a + b == a;
    } else {
      AppendOne(a, b[..|b| - 1], b[|b| - 1], parse);
      Ends(b);
    }
  }

  lemma AppendOne(a: seq<string>, b: seq<string>, line: string, parse: string -> Option<int>)
    ensures Entries(a + (b + [line]), parse) == Entries(a, parse) + Entries(b + [line], parse)
    decreases |b| + 1, 0
  {
    var entry := ParseLine(line, parse);
    var more := if entry.Some? then [entry.value] else [];
    EntriesAppend(a, b, parse);
    EntriesOne(a + b, line, parse);
    EntriesOne(b, line, parse);
    Assoc(a, b, [line]);
    Assoc(Entries(a, parse), Entries(b, parse), more);
  }

  lemma Ends<T>(b: seq<T>)
    requires b != []
    ensures b == b[..|b| - 1] + [b[|b| - 1]]
  {
  }

  lemma EntriesMiddle(before: seq<string>, line: string, after: seq<string>, parse: string -> Option<int>)
    ensures multiset(Entries(before + [line] + after, parse)) ==
            multiset(Entries(before + after, parse)) + multiset(Entries([line], parse))
  {
    EntriesAppend(before + [line], after, parse);
    EntriesAppend(before, [line], parse);
    EntriesAppend(before, after, parse);
  }

  /** Lines in another order give the same entries in another order. */
  lemma {:induction false} EntriesPermute(xs: seq<string>, ys: seq<string>, parse: string -> Option<int>)
    requires multiset(xs) == multiset(ys)
    ensures multiset(Entries(xs, parse)) == multiset(Entries(ys, parse))
    decreases |xs|
  {
    assert |xs| == |multiset(xs)| == |ys|;
    if xs != [] {
      var last := |xs| - 1;
      assert xs[last] in multiset(ys);
      var k :| 0 <= k < |ys| && ys[k] == xs[last];
      LastRemoved(xs, ys, k);
      EntriesPermute(xs[..last], ys[..k] + ys[k + 1..], parse);
      Around(ys, k);
      EntriesMiddle(ys[..k], ys[k], ys[k + 1..], parse);
      Around(xs, last);
      EntriesMiddle(xs[..last], xs[last], [], parse);
      assert xs[last + 1..] == [] && xs[..last] + [] == xs[..last];
    }
  }

  /** The same entries and untracked files, in whatever order, give the same rows. */
  lemma SameCounts(es: seq<Entry>, fs: seq<Entry>, us: seq<string>, vs: seq<string>, lineCount: string -> nat,
                   a: seq<Entry>, b: seq<Entry>)
    requires multiset(es) == multiset(fs) && forall u :: u in us <==> u in vs
    requires IsReport(a, es + Fresh(Paths(es), us, lineCount)) && IsReport(b, fs + Fresh(Paths(fs), vs, lineCount))
    ensures a == b
  {
    var ca, cb := es + Fresh(Paths(es), us, lineCount), fs + Fresh(Paths(fs), vs, lineCount);
    assert forall e :: e in es <==> e in multiset(es);
    assert forall e :: e in fs <==> e in multiset(fs);
    assert Paths(es) == Paths(fs);
    forall p ensures (p in Paths(ca) <==> p in Paths(cb)) && SumFor(ca, p) == SumFor(cb, p) {
      CountedExact(es, us, lineCount, p);
      CountedExact(fs, vs, lineCount, p);
      SumPermutes(es, fs, p);
    }
    SameRows(a, b, ca, cb);
  }

  /** Whatever order Git prints the lines in, and however they are spread over its outputs, the rows
      and the totals are the same. */
  lemma ReportOrderIrrelevant(outputs: seq<string>, others: seq<string>, untracked: Option<string>, otherUntracked: Option<string>,
                              parse: string -> Option<int>, lineCount: string -> nat, a: seq<Entry>, b: seq<Entry>)
    requires multiset(AllLines(outputs)) == multiset(AllLines(others))
    requires forall u :: u in Names(untracked) <==> u in Names(otherUntracked)
    requires IsReport(a, Counted(AllLines(outputs), Names(untracked), parse, lineCount))
    requires IsReport(b, Counted(AllLines(others), Names(otherUntracked), parse, lineCount))
    ensures a == b
    ensures Total(Counted(AllLines(outputs), Names(untracked), parse, lineCount)) ==
            Total(Counted(AllLines(others), Names(otherUntracked), parse, lineCount))
  {
    EntriesPermute(AllLines(outputs), AllLines(others), parse);
    SameCounts(Entries(AllLines(outputs), parse), Entries(AllLines(others), parse), Names(untracked), Names(otherUntracked), lineCount, a, b);
    Conservation(a, Counted(AllLines(outputs), Names(untracked), parse, lineCount));
    Conservation(b, Counted(AllLines(others), Names(otherUntracked), parse, lineCount));
  }
}
