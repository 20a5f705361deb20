/**
 The NUL-delimited decoders of the review-target snapshot, beside encoders for the formats Git
 documents for `status --porcelain=v1 -z` and `diff --name-status -z`.
 */
module GitDecoders {
  import opened Wrappers
  import opened Ordering

  const NUL: char := 0 as char

  /** The fields of a NUL-delimited output; empty fields are dropped. */
  function NulFields(text: string): seq<string> {
    FieldsFrom("", text)
  }

  function FieldsFrom(field: string, text: string): seq<string>
    decreases |text|
  {
    if text == "" then Kept(field)
    else if text[0] == NUL then Kept(field) + FieldsFrom("", text[1..])
    else FieldsFrom(field + [text[0]], text[1..])
  }

  function Kept(field: string): seq<string> { if field == "" then [] else [field] }

  predicate IsField(s: string) { s != "" && forall i :: 0 <= i < |s| ==> s[i] != NUL }

  /** Each field followed by a NUL, as Git writes with `-z`. */
  function Delimited(fields: seq<string>): string {
    if fields == [] then "" else fields[0] + [NUL] + Delimited(fields[1..])
  }

  lemma {:induction false} FieldRead(read: string, more: string, rest: string)
    requires forall i :: 0 <= i < |more| ==> more[i] != NUL
    ensures FieldsFrom(read, more + [NUL] + rest) == Kept(read + more) + FieldsFrom("", rest)
    decreases |more|
  {
    var text := more + [NUL] + rest;
    if more == "" {
      assert read + more == read && text[1..] == rest;
    } else {
      assert text[1..] == more[1..] + [NUL] + rest;
      FieldRead(read + [more[0]], more[1..], rest);
      assert read + [more[0]] + more[1..] == read + more;
    }
  }

  /** Splitting undoes delimiting for every list of non-empty NUL-free fields. */
  lemma {:induction false} FieldsRoundTrip(fields: seq<string>)
    requires forall f :: f in fields ==> IsField(f)
    ensures NulFields(Delimited(fields)) == fields
  {
    if fields != [] {
      assert IsField(fields[0]);
      FieldRead("", fields[0], Delimited(fields[1..]));
      FieldsRoundTrip(fields[1..]);
      assert "" + fields[0] == fields[0];
    }
  }

  // ----- worktree status -----

  /** One status entry; `source` is the path a rename or copy came from and empty otherwise. */
  datatype Entry = Entry(x: char, y: char, path: string, source: string)

  predicate Untracked(e: Entry) { e.x == '?' && e.y == '?' }

  predicate Moves(x: char) { x == 'R' || x == 'C' }

  predicate Staged(e: Entry) { !Untracked(e) && e.x != ' ' && e.x != '?' }

  predicate Unstaged(e: Entry) { !Untracked(e) && e.y != ' ' && e.y != '?' }

  /** Git writes a second path when either column says renamed or copied. */
  predicate TwoPaths(e: Entry) { Moves(e.x) || Moves(e.y) }

  predicate ValidEntry(e: Entry) {
    && e.x != NUL && e.y != NUL && IsField(e.path)
    && (if TwoPaths(e) then IsField(e.source) else e.source == "")
  }

  /** The decoder looks for the second path in the index column only. */
  predicate Understood(e: Entry) { Moves(e.y) ==> Moves(e.x) }

  function EntryFields(e: Entry): seq<string> {
    [[e.x, e.y, ' '] + e.path] + (if TwoPaths(e) then [e.source] else [])
  }

  function EncodeEntries(entries: seq<Entry>): seq<string> {
    if entries == [] then [] else EntryFields(entries[0]) + EncodeEntries(entries[1..])
  }

  /** The entries a field list spells, or `None` where the decoder raises. */
  function DecodeEntries(fields: seq<string>): Option<seq<Entry>>
    decreases |fields|
  {
    if fields == [] then Some([])
    else if |fields[0]| < 4 then None
    else
      var x, y, path := fields[0][0], fields[0][1], fields[0][3..];
      var moves := !(x == '?' && y == '?') && Moves(x);
      if moves && |fields| < 2 then None else
      var width := if moves then 2 else 1;
      var rest := DecodeEntries(fields[width..]);
      if rest.None? then None
      else Some([Entry(x, y, path, if moves then fields[1] else "")] + rest.value)
  }

  datatype Worktree = Worktree(clean: bool, staged: set<string>, unstaged: set<string>, untracked: set<string>)

  function StagedPaths(entries: seq<Entry>): set<string> { set e | e in entries && Staged(e) :: e.path }

  function UnstagedPaths(entries: seq<Entry>): set<string> { set e | e in entries && Unstaged(e) :: e.path }

  function UntrackedPaths(entries: seq<Entry>): set<string> { set e | e in entries && Untracked(e) :: e.path }

  /** Clean means that no entry is staged, unstaged or untracked. */
  predicate Clean(entries: seq<Entry>) {
    forall e :: e in entries ==> !Staged(e) && !Unstaged(e) && !Untracked(e)
  }

  function Summary(entries: seq<Entry>): Worktree {
    Worktree(Clean(entries), StagedPaths(entries), UnstagedPaths(entries), UntrackedPaths(entries))
  }

  /** Files the path of one entry under the sets its two columns name. */
  method Note(e: Entry, staged0: set<string>, unstaged0: set<string>, untracked0: set<string>, ghost done: seq<Entry>)
    returns (staged: set<string>, unstaged: set<string>, untracked: set<string>)
    requires staged0 == StagedPaths(done) && unstaged0 == UnstagedPaths(done) && untracked0 == UntrackedPaths(done)
    ensures staged == StagedPaths(done + [e]) && unstaged == UnstagedPaths(done + [e]) && untracked == UntrackedPaths(done + [e])
  {
    staged, unstaged, untracked := staged0, unstaged0, untracked0;
    if e.x == '?' && e.y == '?' {
      untracked := untracked + {e.path};
    } else {
      if e.x != ' ' && e.x != '?' {
        staged := staged + {e.path};
      }
      if e.y != ' ' && e.y != '?' {
        unstaged := unstaged + {e.path};
      }
    }
  }

  /** With `left` still to decode, the entries decoded so far are `done`. */
  ghost predicate Ahead(fields: seq<string>, left: seq<string>, done: seq<Entry>) {
    DecodeEntries(fields) == if DecodeEntries(left).None? then None else Some(done + DecodeEntries(left).value)
  }

  lemma Decoded(fields: seq<string>, left: seq<string>, done: seq<Entry>, e: Entry)
    requires Ahead(fields, left, done) && left != [] && |left[0]| >= 4
    requires var moves := !(left[0][0] == '?' && left[0][1] == '?') && Moves(left[0][0]);
             (moves ==> |left| >= 2) && e == Entry(left[0][0], left[0][1], left[0][3..], if moves then left[1] else "")
    ensures Ahead(fields, left[if !Untracked(e) && Moves(e.x) then 2 else 1..], done + [e])
  {
    var rest := DecodeEntries(left[if !Untracked(e) && Moves(e.x) then 2 else 1..]);
    if rest.Some? { assert done + ([e] + rest.value) == (done + [e]) + rest.value; }
  }

  /** The index-driven loop reports exactly what the decoded entries say, and raises exactly when
      they cannot be decoded. */
  method WorktreeState(fields: seq<string>) returns (r: Option<Worktree>)
    ensures r.None? <==> DecodeEntries(fields).None?
    ensures r.Some? ==> r.value == Summary(DecodeEntries(fields).value)
  {
    var staged: set<string>, unstaged: set<string>, untracked: set<string> := {}, {}, {};
    var index := 0;
    ghost var done: seq<Entry> := [];
    assert fields[0..] == fields;
    assert DecodeEntries(fields).Some? ==> done + DecodeEntries(fields).value == DecodeEntries(fields).value;
    while index < |fields|
      invariant 0 <= index <= |fields|
      invariant Ahead(fields, fields[index..], done)
      invariant staged == StagedPaths(done) && unstaged == UnstagedPaths(done) && untracked == UntrackedPaths(done)
    {
      var entry := fields[index];
      ghost var left := fields[index..];
      assert left[0] == entry;
      if |entry| < 4 {
        return None;
      }
      var e := Entry(entry[0], entry[1], entry[3..], "");
      if !Untracked(e) && Moves(e.x) {
        index := index + 1;
        if index >= |fields| {
          return None;
        }
        e := e.(source := fields[index]);
        assert left[1] == fields[index];
      }
      staged, unstaged, untracked := Note(e, staged, unstaged, untracked, done);
      index := index + 1;
      Decoded(fields, left, done, e);
      assert left[if !Untracked(e) && Moves(e.x) then 2 else 1..] == fields[index..];
      done := done + [e];
    }
    assert fields[index..] == [] && done + [] == done;
    CleanIffEmpty(done);
    r := Some(Worktree(staged == {} && unstaged == {} && untracked == {}, staged, unstaged, untracked));
  }

  lemma CleanIffEmpty(entries: seq<Entry>)
    ensures Clean(entries) <==> StagedPaths(entries) == {} && UnstagedPaths(entries) == {} && UntrackedPaths(entries) == {}
  {
    if !Clean(entries) {
      var e :| e in entries && (Staged(e) || Unstaged(e) || Untracked(e));
      assert Staged(e) ==> e.path in StagedPaths(entries);
      assert Unstaged(e) ==> e.path in UnstagedPaths(entries);
      assert Untracked(e) ==> e.path in UntrackedPaths(entries);
    }
  }

  lemma DecodeFirst(e: Entry, rest: seq<string>)
    requires ValidEntry(e) && Understood(e)
    ensures DecodeEntries(EntryFields(e) + rest) ==
            if DecodeEntries(rest).None? then None else Some([e] + DecodeEntries(rest).value)
  {
    var fields := EntryFields(e) + rest;
    var head := [e.x, e.y, ' '] + e.path;
    assert fields[0] == head && head[3..] == e.path;
    if Moves(e.x) {
      assert fields[1] == e.source && fields[2..] == rest;
    } else {
      assert fields[1..] == rest;
    }
  }

  lemma {:induction false} EntryFieldsValid(entries: seq<Entry>)
    requires forall e :: e in entries ==> ValidEntry(e)
    ensures forall f :: f in EncodeEntries(entries) ==> IsField(f)
  {
    if entries != [] {
      assert ValidEntry(entries[0]);
      EntryFieldsValid(entries[1..]);
    }
  }

  /** Decoding inverts encoding, text to entries, for a list of status entries if and only if no
      entry is renamed or copied in the work tree alone: of such an entry the decoder takes the old
      path for an entry of its own. */
  lemma EntriesRoundTrip(entries: seq<Entry>)
    requires forall e :: e in entries ==> ValidEntry(e)
    ensures DecodeEntries(NulFields(Delimited(EncodeEntries(entries)))) == Some(entries)
            <==> forall e :: e in entries ==> Understood(e)
  {
    EntryFieldsValid(entries);
    FieldsRoundTrip(EncodeEntries(entries));
    FieldsDecode(entries);
  }

  lemma {:induction false} FieldsDecode(entries: seq<Entry>)
    requires forall e :: e in entries ==> ValidEntry(e)
    ensures DecodeEntries(EncodeEntries(entries)) == Some(entries) <==> forall e :: e in entries ==> Understood(e)
  {
    if entries != [] {
      var e, rest := entries[0], entries[1..];
      assert ValidEntry(e) && entries == [e] + rest;
      FieldsDecode(rest);
      if Understood(e) {
        DecodeFirst(e, EncodeEntries(rest));
        if DecodeEntries(EncodeEntries(rest)).Some? { Tails(e, DecodeEntries(EncodeEntries(rest)).value, rest); }
      } else {
        Misread(e, EncodeEntries(rest));
      }
    }
  }

  lemma Tails(e: Entry, a: seq<Entry>, b: seq<Entry>)
    ensures [e] + a == [e] + b <==> a == b
  {
    if [e] + a == [e] + b { assert a == ([e] + a)[1..] == ([e] + b)[1..] == b; }
  }

  lemma Misread(e: Entry, rest: seq<string>)
    requires ValidEntry(e) && !Understood(e)
    ensures var r := DecodeEntries(EntryFields(e) + rest); r.Some? ==> r.value != [] && r.value[0] != e
  {
    var fields := EntryFields(e) + rest;
    assert fields[0] == [e.x, e.y, ' '] + e.path;
  }

  // ----- changed paths -----

  /** One name-status row; `oldPath` is empty where the row has none. */
  datatype Row = Row(status: string, oldPath: string, path: string)

  predicate RowMoves(status: string) { status != "" && Moves(status[0]) }

  predicate ValidRow(r: Row) {
    IsField(r.status) && IsField(r.path) && (if RowMoves(r.status) then IsField(r.oldPath) else r.oldPath == "")
  }

  function RowFields(r: Row): seq<string> {
    if RowMoves(r.status) then [r.status, r.oldPath, r.path] else [r.status, r.path]
  }

  function EncodeRows(rows: seq<Row>): seq<string> {
    if rows == [] then [] else RowFields(rows[0]) + EncodeRows(rows[1..])
  }

  /** The rows a field list spells, or `None` where the decoder raises. */
  function DecodeRows(fields: seq<string>): Option<seq<Row>>
    decreases |fields|
  {
    if fields == [] then Some([])
    else
      var width := if RowMoves(fields[0]) then 3 else 2;
      if |fields| < width then None else
      var row := if RowMoves(fields[0]) then Row(fields[0], fields[1], fields[2]) else Row(fields[0], "", fields[1]);
      var rest := DecodeRows(fields[width..]);
      if rest.None? then None else Some([row] + rest.value)
  }

  /** Rows compare by path, then status, then old path. */
  predicate RowLe(a: Row, b: Row) {
    if a.path != b.path then LexLe(a.path, b.path)
    else if a.status != b.status then LexLe(a.status, b.status)
    else LexLe(a.oldPath, b.oldPath)
  }

  lemma RowOrder()
    ensures TotalOrder(RowLe)
  {
    LexOrder();
    forall x, y ensures RowLe(x, y) || RowLe(y, x) {
      LexTotal(x.path, y.path);
      LexTotal(x.status, y.status);
      LexTotal(x.oldPath, y.oldPath);
    }
    forall x, y | RowLe(x, y) && RowLe(y, x) ensures x == y {
      RowAntisymmetric(x, y);
    }
    forall x, y, z | RowLe(x, y) && RowLe(y, z) ensures RowLe(x, z) {
      RowTransitive(x, y, z);
    }
  }

  lemma RowAntisymmetric(x: Row, y: Row)
    requires RowLe(x, y) && RowLe(y, x)
    ensures x == y
  {
    if x.path != y.path { LexAntisymmetric(x.path, y.path); }
    if x.status != y.status { LexAntisymmetric(x.status, y.status); }
    LexAntisymmetric(x.oldPath, y.oldPath);
  }

  lemma RowTransitive(x: Row, y: Row, z: Row)
    requires RowLe(x, y) && RowLe(y, z)
    ensures RowLe(x, z)
  {
    if x.path != y.path && y.path != z.path {
      LexTransitive(x.path, y.path, z.path);
      if x.path == z.path { LexAntisymmetric(x.path, y.path); }
    } else if x.path == y.path && y.path == z.path {
      if x.status != y.status && y.status != z.status {
        LexTransitive(x.status, y.status, z.status);
        if x.status == z.status { LexAntisymmetric(x.status, y.status); }
      } else if x.status == y.status && y.status == z.status {
        LexTransitive(x.oldPath, y.oldPath, z.oldPath);
      }
    }
  }

  ghost predicate RowsAhead(fields: seq<string>, left: seq<string>, done: seq<Row>) {
    DecodeRows(fields) == if DecodeRows(left).None? then None else Some(done + DecodeRows(left).value)
  }

  lemma RowDecoded(fields: seq<string>, left: seq<string>, done: seq<Row>)
    requires RowsAhead(fields, left, done) && |left| >= if left != [] && RowMoves(left[0]) then 3 else 2
    ensures if RowMoves(left[0]) then RowsAhead(fields, left[3..], done + [Row(left[0], left[1], left[2])])
            else RowsAhead(fields, left[2..], done + [Row(left[0], "", left[1])])
  {
    var row := if RowMoves(left[0]) then Row(left[0], left[1], left[2]) else Row(left[0], "", left[1]);
    var rest := DecodeRows(left[if RowMoves(left[0]) then 3 else 2..]);
    if rest.Some? { assert done + ([row] + rest.value) == (done + [row]) + rest.value; }
  }

  /** The index-driven loop decodes every row or raises, and returns the rows sorted. */
  method ChangedPaths(fields: seq<string>) returns (r: Option<seq<Row>>)
    ensures r.None? <==> DecodeRows(fields).None?
    ensures r.Some? ==> r.value == Sort(DecodeRows(fields).value, RowLe)
  {
    var rows: seq<Row> := [];
    var index := 0;
    assert fields[0..] == fields;
    assert DecodeRows(fields).Some? ==> rows + DecodeRows(fields).value == DecodeRows(fields).value;
    while index < |fields|
      invariant 0 <= index <= |fields|
      invariant RowsAhead(fields, fields[index..], rows)
    {
      ghost var left := fields[index..];
      var status := fields[index];
      assert left[0] == status;
      index := index + 1;
      if index >= |fields| {
        return None;
      }
      var firstPath := fields[index];
      assert left[1] == firstPath;
      index := index + 1;
      if RowMoves(status) {
        if index >= |fields| {
          return None;
        }
        assert left[2] == fields[index];
        RowDecoded(fields, left, rows);
        rows := rows + [Row(status, firstPath, fields[index])];
        index := index + 1;
        assert left[3..] == fields[index..];
      } else {
        RowDecoded(fields, left, rows);
        rows := rows + [Row(status, "", firstPath)];
        assert left[2..] == fields[index..];
      }
    }
    assert fields[index..] == [] && rows + [] == rows;
    r := Some(Sort(rows, RowLe));
  }

  lemma DecodeFirstRow(r: Row, rest: seq<string>)
    requires ValidRow(r)
    ensures DecodeRows(RowFields(r) + rest) ==
            if DecodeRows(rest).None? then None else Some([r] + DecodeRows(rest).value)
  {
    var fields := RowFields(r) + rest;
    if RowMoves(r.status) {
      assert fields[1] == r.oldPath && fields[2] == r.path && fields[3..] == rest;
    } else {
      assert fields[1] == r.path && fields[2..] == rest;
    }
  }

  lemma {:induction false} RowFieldsValid(rows: seq<Row>)
    requires forall r :: r in rows ==> ValidRow(r)
    ensures forall f :: f in EncodeRows(rows) ==> IsField(f)
  {
    if rows != [] {
      assert ValidRow(rows[0]);
      RowFieldsValid(rows[1..]);
    }
  }

  /** Decoding inverts encoding, text to rows, for every list of valid name-status rows. */
  lemma RowsRoundTrip(rows: seq<Row>)
    requires forall r :: r in rows ==> ValidRow(r)
    ensures DecodeRows(NulFields(Delimited(EncodeRows(rows)))) == Some(rows)
  {
    RowFieldsValid(rows);
    FieldsRoundTrip(EncodeRows(rows));
    RowFieldsDecode(rows);
  }

  lemma {:induction false} RowFieldsDecode(rows: seq<Row>)
    requires forall r :: r in rows ==> ValidRow(r)
    ensures DecodeRows(EncodeRows(rows)) == Some(rows)
  {
    if rows != [] {
      assert ValidRow(rows[0]) && rows == [rows[0]] + rows[1..];
      RowFieldsDecode(rows[1..]);
      DecodeFirstRow(rows[0], EncodeRows(rows[1..]));
    }
  }

  /** The snapshot's rows are canonical: sorted, complete, and the same for every order in which
      Git may list them. */
  lemma RowsCanonical(rows: seq<Row>, others: seq<Row>)
    requires multiset(rows) == multiset(others)
    ensures Sorted(Sort(rows, RowLe), RowLe) && multiset(Sort(rows, RowLe)) == multiset(rows)
    ensures Sort(rows, RowLe) == Sort(others, RowLe)
  {
    RowOrder();
    SortCorrect(rows, RowLe);
    SortCanonical(rows, others, RowLe);
  }
}
