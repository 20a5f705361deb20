/**
 What the decoders make of output cut off after any number of characters. They never ask for the
 final NUL, so a cut inside a path can pass for a shorter path.
 */
module GitTruncation {
  import opened Wrappers
  import opened GitDecoders

  // ----- cut text -----

  /** The fields of a delimited list cut off after `k` characters. */
  function CutFields(fields: seq<string>, k: nat): seq<string> {
    if fields == [] || k == 0 then []
    else if k <= |fields[0]| then [fields[0][..k]]
    else [fields[0]] + CutFields(fields[1..], k - |fields[0]| - 1)
  }

  lemma {:induction false} FieldEnd(read: string, more: string)
    requires forall i :: 0 <= i < |more| ==> more[i] != NUL
    ensures FieldsFrom(read, more) == Kept(read + more)
    decreases |more|
  {
    if more == "" {
      assert read + more == read;
    } else {
      FieldEnd(read + [more[0]], more[1..]);
      assert read + [more[0]] + more[1..] == read + more;
    }
  }

  lemma {:induction false} CutText(fields: seq<string>, k: nat)
    requires (forall f :: f in fields ==> IsField(f)) && k <= |Delimited(fields)|
    ensures NulFields(Delimited(fields)[..k]) == CutFields(fields, k)
  {
    if k > 0 {
      var first, rest := fields[0], Delimited(fields[1..]);
      assert IsField(first);
      var text := first + [NUL] + rest;
      if k <= |first| {
        assert text[..k] == first[..k];
        FieldEnd("", first[..k]);
        assert "" + first[..k] == first[..k];
      } else {
        var m := k - |first| - 1;
        assert text[..k] == first + [NUL] + rest[..m];
        FieldRead("", first, rest[..m]);
        CutText(fields[1..], m);
        assert "" + first == first;
      }
    }
  }

  // ----- status entries -----

  function Prepend<T>(x: T, later: Option<seq<T>>): Option<seq<T>> {
    if later.None? then None else Some([x] + later.value)
  }

  /** The entries the decoder gets before it stops, and whether it raises there. A work-tree rename
      is among them as two entries, the second begun by the old path. */
  datatype Reading = Reading(seen: seq<Entry>, raised: bool)

  function Also(e: Entry, later: Reading): Reading { Reading([e] + later.seen, later.raised) }

  /** The entry that begins with `field`; `next` is its second path, if it has one. */
  function EntryOf(field: string, next: string): Entry
    requires |field| >= 4
  {
    Entry(field[0], field[1], field[3..], if Moves(field[0]) then next else "")
  }

  function Read(fields: seq<string>): Reading
    decreases |fields|
  {
    if fields == [] then Reading([], false)
    else if |fields[0]| < 4 then Reading([], true)
    else if !Moves(fields[0][0]) then Also(EntryOf(fields[0], ""), Read(fields[1..]))
    else if |fields| < 2 then Reading([], true)
    else Also(EntryOf(fields[0], fields[1]), Read(fields[2..]))
  }

  /** An entry as the decoder reads it, its final NUL included, takes this many characters. */
  function Width(e: Entry): nat { 4 + |e.path| + (if Moves(e.x) then |e.source| + 1 else 0) }

  function TotalWidth(entries: seq<Entry>): nat {
    if entries == [] then 0 else Width(entries[0]) + TotalWidth(entries[1..])
  }

  /** What decoding gives after a cut among entries: those before it whole; of the entry it falls
      into, a shortened last path, or an error if too little of it is left. */
  function CutEntries(entries: seq<Entry>, k: nat): Option<seq<Entry>> {
    if entries == [] || k == 0 then Some([]) else
    var e := entries[0];
    if k >= Width(e) then Prepend(e, CutEntries(entries[1..], k - Width(e)))
    else if !Moves(e.x) then
      if k < 4 then None else Some([e.(path := e.path[..k - 3])])
    else
      if k <= 4 + |e.path| then None else Some([e.(source := e.source[..k - 4 - |e.path|])])
  }

  /** And after a cut anywhere: where the decoder raises on the whole, it raises on any part of it. */
  function CutOutcome(r: Reading, k: nat): Option<seq<Entry>> {
    if r.raised && k > TotalWidth(r.seen) then None else CutEntries(r.seen, k)
  }

  lemma OneField(f: string, rest: seq<string>, k: nat)
    requires k > |f|
    ensures CutFields([f] + rest, k) == [f] + CutFields(rest, k - |f| - 1)
  {
    assert ([f] + rest)[1..] == rest;
  }

  lemma DecodePlain(f: string, rest: seq<string>)
    requires |f| >= 4 && !Moves(f[0])
    ensures DecodeEntries([f] + rest) == Prepend(EntryOf(f, ""), DecodeEntries(rest))
  {
    assert ([f] + rest)[1..] == rest;
  }

  lemma DecodeMoved(f: string, next: string, rest: seq<string>)
    requires |f| >= 4 && Moves(f[0])
    ensures DecodeEntries([f] + ([next] + rest)) == Prepend(EntryOf(f, next), DecodeEntries(rest))
  {
    var fields := [f] + ([next] + rest);
    assert fields[2..] == rest && fields[1] == next;
  }

  lemma ReadMore(e: Entry, later: Reading, k: nat)
    ensures k >= Width(e) ==> CutOutcome(Also(e, later), k) == Prepend(e, CutOutcome(later, k - Width(e)))
    ensures k < Width(e) ==> CutOutcome(Also(e, later), k) == CutEntries([e] + later.seen, k)
  {
    assert ([e] + later.seen)[1..] == later.seen;
  }

  lemma CutPlain(fields: seq<string>, k: nat)
    requires fields != [] && |fields[0]| >= 4 && !Moves(fields[0][0]) && 0 < k <= |fields[0]|
    ensures DecodeEntries(CutFields(fields, k)) == CutOutcome(Read(fields), k)
  {
    var f, e := fields[0], EntryOf(fields[0], "");
    ReadMore(e, Read(fields[1..]), k);
    assert CutFields(fields, k) == [f[..k]] + [];
    if k >= 4 {
      DecodePlain(f[..k], []);
      assert f[..k][3..] == e.path[..k - 3];
      assert [e.(path := e.path[..k - 3])] + [] == [e.(path := e.path[..k - 3])];
    }
  }

  lemma CutMoved(fields: seq<string>, k: nat)
    requires |fields| >= 2 && |fields[0]| >= 4 && Moves(fields[0][0]) && 0 < k <= |fields[0]| + 1 + |fields[1]|
    ensures DecodeEntries(CutFields(fields, k)) == CutOutcome(Read(fields), k)
  {
    var f, e := fields[0], EntryOf(fields[0], fields[1]);
    ReadMore(e, Read(fields[2..]), k);
    if k <= |f| {
      assert CutFields(fields, k) == [f[..k]];
    } else {
      var m := k - |f| - 1;
      assert fields[1..][0] == fields[1];
      assert CutFields(fields[1..], m) == if m == 0 then [] else [fields[1][..m]];
      if m > 0 {
        DecodeMoved(f, fields[1][..m], []);
        assert [f] + [fields[1][..m]] == [f] + ([fields[1][..m]] + []);
        assert [e.(source := e.source[..m])] + [] == [e.(source := e.source[..m])];
      }
    }
  }

  /** Any list of fields cut off after any number of characters. */
  lemma {:induction false} CutDecodes(fields: seq<string>, k: nat)
    ensures DecodeEntries(CutFields(fields, k)) == CutOutcome(Read(fields), k)
    decreases |fields|
  {
    if fields != [] && k > 0 && |fields[0]| >= 4 {
      var f := fields[0];
      if !Moves(f[0]) {
        if k <= |f| {
          CutPlain(fields, k);
        } else {
          CutDecodes(fields[1..], k - |f| - 1);
          DecodePlain(f, CutFields(fields[1..], k - |f| - 1));
          ReadMore(EntryOf(f, ""), Read(fields[1..]), k);
        }
      } else if |fields| >= 2 {
        if k <= |f| + 1 + |fields[1]| { CutMoved(fields, k); } else { CutPastMoved(fields, k); }
      } else {
        assert CutFields(fields, k) == if k <= |f| then [f[..k]] else [f];
      }
    }
  }

  lemma {:induction false} CutPastMoved(fields: seq<string>, k: nat)
    requires |fields| >= 2 && |fields[0]| >= 4 && Moves(fields[0][0]) && k > |fields[0]| + 1 + |fields[1]|
    ensures DecodeEntries(CutFields(fields, k)) == CutOutcome(Read(fields), k)
    decreases |fields|, 0
  {
    var f, next, m := fields[0], fields[1], k - |fields[0]| - |fields[1]| - 2;
    CutDecodes(fields[2..], m);
    assert fields[1..][0] == next && fields[1..][1..] == fields[2..];
    assert CutFields(fields[1..], m + |next| + 1) == [next] + CutFields(fields[2..], m);
    DecodeMoved(f, next, CutFields(fields[2..], m));
    ReadMore(EntryOf(f, next), Read(fields[2..]), k);
  }

  // ----- what is read of Git's entries -----

  lemma ReadUnderstood(e: Entry, rest: seq<string>)
    requires ValidEntry(e) && Understood(e)
    ensures Read(EntryFields(e) + rest) == Also(e, Read(rest))
  {
    var head := [e.x, e.y, ' '] + e.path;
    var fields := EntryFields(e) + rest;
    assert head[3..] == e.path && fields[0] == head;
    if TwoPaths(e) {
      assert fields[1] == e.source && fields[2..] == rest;
    } else {
      assert fields[1..] == rest;
    }
  }

  /** Without a work-tree rename the decoder reads what Git wrote. */
  lemma {:induction false} ReadAllUnderstood(entries: seq<Entry>)
    requires forall e :: e in entries ==> ValidEntry(e) && Understood(e)
    ensures Read(EncodeEntries(entries)) == Reading(entries, false)
  {
    if entries != [] {
      var e, rest := entries[0], entries[1..];
      assert ValidEntry(e) && Understood(e) && entries == [e] + rest;
      ReadUnderstood(e, EncodeEntries(rest));
      ReadAllUnderstood(rest);
    }
  }

  /** The cut falls between entries or on the NUL that ends one, and after no work-tree rename. */
  predicate Between(entries: seq<Entry>, k: nat) {
    || entries == [] || k == 0
    || (Understood(entries[0])
        && (k == Width(entries[0]) - 1 || (k >= Width(entries[0]) && Between(entries[1..], k - Width(entries[0])))))
  }

  predicate Honest(r: Option<seq<Entry>>, entries: seq<Entry>) { r.Some? && r.value <= entries }

  /** Of a work-tree rename the decoder reads an entry without its old path. */
  lemma MisreadFirst(e: Entry, rest: seq<string>, k: nat)
    requires ValidEntry(e) && !Understood(e) && k > 0
    ensures var r := CutOutcome(Read(EntryFields(e) + rest), k); r.Some? ==> r.value != [] && r.value[0] != e
  {
    var head := [e.x, e.y, ' '] + e.path;
    var fields := EntryFields(e) + rest;
    assert head[3..] == e.path && fields[0] == head;
    ReadMore(EntryOf(head, ""), Read(fields[1..]), k);
  }

  lemma PrefixTail<T>(x: T, a: seq<T>, b: seq<T>)
    ensures [x] + a <= [x] + b <==> a <= b
  {
    if |a| <= |b| {
      assert ([x] + b)[..|a| + 1] == [x] + b[..|a|];
      assert a == ([x] + a)[1..] && b[..|a|] == ([x] + b[..|a|])[1..];
    }
  }

  lemma {:induction false} HonestBetween(entries: seq<Entry>, k: nat)
    requires forall e :: e in entries ==> ValidEntry(e)
    ensures Between(entries, k) <==> Honest(CutOutcome(Read(EncodeEntries(entries)), k), entries)
    decreases |entries|
  {
    if entries != [] && k > 0 {
      var e, rest := entries[0], entries[1..];
      assert ValidEntry(e) && entries == [e] + rest;
      if !Understood(e) {
        MisreadFirst(e, EncodeEntries(rest), k);
      } else {
        var later := Read(EncodeEntries(rest));
        ReadUnderstood(e, EncodeEntries(rest));
        ReadMore(e, later, k);
        if k >= Width(e) {
          HonestBetween(rest, k - Width(e));
          var after := CutOutcome(later, k - Width(e));
          if after.Some? { PrefixTail(e, after.value, rest); }
        } else {
          HonestWithin(e, later.seen, rest, k);
        }
      }
    }
  }

  lemma HonestWithin(e: Entry, later: seq<Entry>, rest: seq<Entry>, k: nat)
    requires ValidEntry(e) && Understood(e) && 0 < k < Width(e)
    ensures Honest(CutEntries([e] + later, k), [e] + rest) <==> k == Width(e) - 1
  {
    assert e.path[..|e.path|] == e.path && e.source[..|e.source|] == e.source;
    var r := CutEntries([e] + later, k);
    if k == Width(e) - 1 {
      assert r == Some([e]);
    } else if r.Some? {
      assert |r.value| == 1 && r.value[0] != e;
    }
  }

  /** Status output cut off after any number of characters decodes to the outcome above of what the
      decoder reads in the whole, which is Git's entries unless one is renamed in the work tree
      alone; it gives entries Git reported, and none other, exactly when the cut falls between
      entries or on the NUL that ends one, and after no such rename. */
  lemma CutEntriesDecode(entries: seq<Entry>, k: nat)
    requires (forall e :: e in entries ==> ValidEntry(e)) && k <= |Delimited(EncodeEntries(entries))|
    ensures var r := DecodeEntries(NulFields(Delimited(EncodeEntries(entries))[..k]));
            && r == CutOutcome(Read(EncodeEntries(entries)), k)
            && (Honest(r, entries) <==> Between(entries, k))
    ensures (forall e :: e in entries ==> Understood(e)) ==> Read(EncodeEntries(entries)) == Reading(entries, false)
  {
    EntryFieldsValid(entries);
    CutText(EncodeEntries(entries), k);
    CutDecodes(EncodeEntries(entries), k);
    HonestBetween(entries, k);
    if forall e :: e in entries ==> Understood(e) { ReadAllUnderstood(entries); }
  }

  /** A cut inside the path of a plain entry is not noticed: the decoder reports a path that Git did not. */
  lemma CutPathPasses(e: Entry, k: nat)
    requires ValidEntry(e) && !TwoPaths(e) && 4 <= k < 3 + |e.path|
    ensures k <= |Delimited(EncodeEntries([e]))|
    ensures DecodeEntries(NulFields(Delimited(EncodeEntries([e]))[..k])) == Some([e.(path := e.path[..k - 3])])
    ensures e.path[..k - 3] != e.path
  {
    var entries := [e];
    assert entries[1..] == [];
    assert EncodeEntries(entries) == EntryFields(e) + EncodeEntries(entries[1..]);
    var fields := EncodeEntries(entries);
    assert fields[0] == [e.x, e.y, ' '] + e.path;
    assert |Delimited(fields)| >= |fields[0]| + 1;
    CutEntriesDecode(entries, k);
  }

  // ----- name-status rows -----

  function RowWidth(r: Row): nat { |r.status| + 1 + (if RowMoves(r.status) then |r.oldPath| + 1 else 0) + |r.path| + 1 }

  function CutRows(rows: seq<Row>, k: nat): Option<seq<Row>> {
    if rows == [] || k == 0 then Some([]) else
    var r := rows[0];
    var before := RowWidth(r) - |r.path| - 1;
    if k >= RowWidth(r) then Prepend(r, CutRows(rows[1..], k - RowWidth(r)))
    else if k <= before then None
    else Some([r.(path := r.path[..k - before])])
  }

  lemma CutBeyondRow(r: Row, rest: seq<string>, k: nat)
    requires k >= RowWidth(r)
    ensures CutFields(RowFields(r) + rest, k) == RowFields(r) + CutFields(rest, k - RowWidth(r))
  {
    var m := k - |r.status| - 1;
    if RowMoves(r.status) {
      assert RowFields(r) + rest == [r.status] + ([r.oldPath] + ([r.path] + rest));
      OneField(r.status, [r.oldPath] + ([r.path] + rest), k);
      OneField(r.oldPath, [r.path] + rest, m);
      OneField(r.path, rest, m - |r.oldPath| - 1);
    } else {
      assert RowFields(r) + rest == [r.status] + ([r.path] + rest);
      OneField(r.status, [r.path] + rest, k);
      OneField(r.path, rest, m);
    }
  }

  /** The last field of a row is what a cut may shorten. */
  lemma CutLast(path: string, rest: seq<string>, m: nat)
    requires m <= |path|
    ensures CutFields([path] + rest, m) == if m == 0 then [] else [path[..m]]
  {
  }

  lemma CutWithinRow(r: Row, rest: seq<string>, k: nat)
    requires ValidRow(r) && 0 < k < RowWidth(r)
    ensures DecodeRows(CutFields(RowFields(r) + rest, k)) == CutRows([r], k)
  {
    var fields := RowFields(r) + rest;
    assert fields[0] == r.status;
    if k <= |r.status| {
      assert CutFields(fields, k) == [r.status[..k]];
    } else {
      var m := k - |r.status| - 1;
      if RowMoves(r.status) {
        assert fields == [r.status] + ([r.oldPath] + ([r.path] + rest));
        OneField(r.status, [r.oldPath] + ([r.path] + rest), k);
        if m <= |r.oldPath| {
          CutLast(r.oldPath, [r.path] + rest, m);
        } else {
          OneField(r.oldPath, [r.path] + rest, m);
          CutLast(r.path, rest, m - |r.oldPath| - 1);
          ShortRow(r, m - |r.oldPath| - 1);
        }
      } else {
        assert fields == [r.status] + ([r.path] + rest);
        OneField(r.status, [r.path] + rest, k);
        CutLast(r.path, rest, m);
        ShortRow(r, m);
      }
    }
  }

  lemma ShortRow(r: Row, m: nat)
    requires ValidRow(r) && m <= |r.path|
    ensures var tail := if m == 0 then [] else [r.path[..m]];
            DecodeRows(if RowMoves(r.status) then [r.status] + ([r.oldPath] + tail) else [r.status] + tail) ==
            if m == 0 then None else Some([r.(path := r.path[..m])])
  {
    if m > 0 {
      var fields := if RowMoves(r.status) then [r.status] + ([r.oldPath] + [r.path[..m]]) else [r.status] + [r.path[..m]];
      assert fields[if RowMoves(r.status) then 3 else 2..] == [];
      assert [r.(path := r.path[..m])] + [] == [r.(path := r.path[..m])];
    }
  }

  lemma {:induction false} CutRowFields(rows: seq<Row>, k: nat)
    requires forall r :: r in rows ==> ValidRow(r)
    ensures DecodeRows(CutFields(EncodeRows(rows), k)) == CutRows(rows, k)
    decreases |rows|
  {
    if rows != [] && k > 0 {
      var r, rest := rows[0], rows[1..];
      assert ValidRow(r);
      if k >= RowWidth(r) {
        CutBeyondRow(r, EncodeRows(rest), k);
        DecodeFirstRow(r, CutFields(EncodeRows(rest), k - RowWidth(r)));
        CutRowFields(rest, k - RowWidth(r));
      } else {
        CutWithinRow(r, EncodeRows(rest), k);
      }
    }
  }

  predicate BetweenRows(rows: seq<Row>, k: nat) {
    rows == [] || k == 0 || k == RowWidth(rows[0]) - 1 || (k >= RowWidth(rows[0]) && BetweenRows(rows[1..], k - RowWidth(rows[0])))
  }

  lemma {:induction false} HonestRows(rows: seq<Row>, k: nat)
    requires forall r :: r in rows ==> ValidRow(r)
    ensures BetweenRows(rows, k) <==> CutRows(rows, k).Some? && CutRows(rows, k).value <= rows
    decreases |rows|
  {
    if rows != [] && k > 0 {
      var r, rest := rows[0], rows[1..];
      assert ValidRow(r) && rows == [r] + rest;
      if k >= RowWidth(r) {
        HonestRows(rest, k - RowWidth(r));
        var later := CutRows(rest, k - RowWidth(r));
        if later.Some? { PrefixTail(r, later.value, rest); }
      } else if k == RowWidth(r) - 1 {
        assert r.path[..|r.path|] == r.path;
        assert CutRows(rows, k) == Some([r]);
      }
    }
  }

  /** Name-status output cut off after any number of characters: rows before the cut are whole; the
      row it falls into raises unless part of its last path is left, which is then taken for the
      whole path. The rows are Git's exactly when the cut falls between rows or on an ending NUL. */
  lemma CutRowsDecode(rows: seq<Row>, k: nat)
    requires (forall r :: r in rows ==> ValidRow(r)) && k <= |Delimited(EncodeRows(rows))|
    ensures var r := DecodeRows(NulFields(Delimited(EncodeRows(rows))[..k]));
            r == CutRows(rows, k) && (r.Some? && r.value <= rows <==> BetweenRows(rows, k))
  {
    RowFieldsValid(rows);
    CutText(EncodeRows(rows), k);
    CutRowFields(rows, k);
    HonestRows(rows, k);
  }
}
