/**
 Every file the serializer writes is read back exactly, as long as the last object starts
 within ten digits; and only then.
 */
module PdfRoundTrip {
  import opened Wrappers
  import opened PdfWriter

  // ----- the fixed texts -----

  lemma Texts()
    ensures |OBJ| == 7 && |ENDOBJ| == 8 && |XREF| == 7 && |FREE| == 20 && |IN_USE| == 10 && |STARTXREF| == 10 && |EOF| == 7
    ensures |NEWLINE| == 1 && NEWLINE[0] == 10 && STARTXREF[9] == 10 && IN_USE[0] == 32
  {
  }

  // ----- numbers -----

  function Pow10(k: nat): nat { if k == 0 then 1 else 10 * Pow10(k - 1) }

  lemma {:induction false} DecDigits(n: nat)
    ensures |Dec(n)| >= 1 && AllDigits(Dec(n)) && Value(Dec(n)) == n
  {
    if n >= 10 {
      DecDigits(n / 10);
      assert Dec(n)[..|Dec(n)| - 1] == Dec(n / 10);
    } else {
      assert Dec(n)[..0] == [];
    }
  }

  lemma {:induction false} DecWidth(n: nat, k: nat)
    requires k >= 1
    ensures |Dec(n)| <= k <==> n < Pow10(k)
  {
    if k == 1 {
      assert Pow10(1) == 10 * Pow10(0);
      if n >= 10 { DecDigits(n / 10); }
    } else if n >= 10 {
      DecWidth(n / 10, k - 1);
    } else {
      Pow10AtLeast(k);
    }
  }

  lemma {:induction false} Pow10AtLeast(k: nat)
    requires k >= 1
    ensures Pow10(k) >= 10
  {
    if k > 1 { Pow10AtLeast(k - 1); }
  }

  lemma {:induction false} ValueOfPadded(zeros: nat, d: Bytes)
    ensures Value(Zeros(zeros) + d) == Value(d)
    decreases zeros + |d|
  {
    var s := Zeros(zeros) + d;
    if d != [] {
      assert s[..|s| - 1] == Zeros(zeros) + d[..|d| - 1];
      ValueOfPadded(zeros, d[..|d| - 1]);
    } else if zeros > 0 {
      assert s[..|s| - 1] == Zeros(zeros - 1) + d;
      ValueOfPadded(zeros - 1, d);
    }
  }

  lemma TenDigits()
    ensures Pow10(10) == TEN_DIGITS
  {
    assert Pow10(5) == 100_000;
    assert Pow10(10) == 10 * 10 * 10 * 10 * 10 * Pow10(5);
  }

  /** A table entry is twenty bytes exactly for offsets of at most ten digits. */
  lemma EntryWidth(offset: nat)
    ensures AllDigits(Pad10(offset)) && Value(Pad10(offset)) == offset
    ensures |Pad10(offset)| >= 10
    ensures |Entry(offset)| == 20 <==> offset < TEN_DIGITS
  {
    Texts();
    DecDigits(offset);
    DecWidth(offset, 10);
    TenDigits();
    if |Dec(offset)| < 10 { ValueOfPadded(10 - |Dec(offset)|, Dec(offset)); }
  }

  lemma {:induction false} DigitsEnding(a: Bytes, d: Bytes)
    requires AllDigits(d) && a != [] && !Digit(a[|a| - 1])
    ensures DigitsAtEnd(a + d) == |d|
    decreases |d|
  {
    var s := a + d;
    if d == [] {
      assert s == a;
    } else {
      assert s[..|s| - 1] == a + d[..|d| - 1];
      DigitsEnding(a, d[..|d| - 1]);
    }
  }

  lemma {:induction false} DigitsStarting(d: Bytes, b: Bytes)
    requires AllDigits(d) && b != [] && !Digit(b[0])
    ensures DigitsAtStart(d + b) == |d|
    decreases |d|
  {
    var s := d + b;
    if d == [] {
      assert s == b;
    } else {
      assert s[1..] == d[1..] + b;
      DigitsStarting(d[1..], b);
    }
  }

  // ----- finding the table -----

  /** The number after `startxref` is the offset of the cross-reference table. */
  lemma StartIsTableOffset(objects: seq<Bytes>)
    ensures ReadStart(Pdf(objects)) == Some(|Front(objects, |objects|)|)
    ensures StartsWith(Pdf(objects)[|Front(objects, |objects|)|..], XREF)
  {
    Texts();
    var front := Front(objects, |objects|);
    var number := Dec(|front|);
    DecDigits(|front|);
    var before := front + (XREF + Dec(|objects| + 1) + NEWLINE) + Table(objects, |objects|) + (TRAILER + Dec(|objects| + 1) + ROOT);
    var file := Pdf(objects);
    assert file == before + (STARTXREF + number + EOF);
    StartFound(before, number);
    assert file[|front|..][..7] == XREF;
  }

  lemma StartFound(before: Bytes, number: Bytes)
    requires AllDigits(number) && number != []
    ensures ReadStart(before + (STARTXREF + number + EOF)) == Some(Value(number))
  {
    Texts();
    var file := before + (STARTXREF + number + EOF);
    var text := before + STARTXREF + number;
    assert file == text + EOF;
    assert file[|file| - |EOF|..] == EOF && file[..|file| - |EOF|] == text;
    assert (before + STARTXREF)[|before| + 9] == STARTXREF[9];
    DigitsEnding(before + STARTXREF, number);
    assert text[..|text| - |number|] == before + STARTXREF && text[|text| - |number|..] == number;
    assert (before + STARTXREF)[|before|..] == STARTXREF;
  }

  lemma TableFound(count: nat, rest: Bytes)
    ensures ReadTable(XREF + Dec(count) + NEWLINE + rest) == Some((count, rest))
  {
    Texts();
    DecDigits(count);
    var text := XREF + Dec(count) + NEWLINE + rest;
    var tail := Dec(count) + (NEWLINE + rest);
    assert text == XREF + tail;
    assert text[..|XREF|] == XREF && text[|XREF|..] == tail;
    DigitsStarting(Dec(count), NEWLINE + rest);
    assert tail[..|Dec(count)|] == Dec(count) && tail[|Dec(count)|..] == NEWLINE + rest;
    assert (NEWLINE + rest)[..1] == NEWLINE;
    assert tail[|Dec(count)| + 1..] == rest;
  }

  // ----- the entries -----

  lemma Halves<T>(a: seq<T>, b: seq<T>)
    ensures (a + b)[..|a|] == a && (a + b)[|a|..] == b
  {
  }

  lemma {:induction false} FrontGrows(objects: seq<Bytes>, i: nat, n: nat)
    requires i <= n <= |objects|
    ensures Front(objects, i) <= Front(objects, n)
    decreases n
  {
    if i < n { FrontGrows(objects, i, n - 1); }
  }

  lemma {:induction false} TableGrows(objects: seq<Bytes>, i: nat, n: nat)
    requires i <= n <= |objects|
    ensures Table(objects, i) <= Table(objects, n)
    decreases n
  {
    if i < n {
      TableGrows(objects, i, n - 1);
      assert Table(objects, n - 1) <= Table(objects, n);
    }
  }

  lemma {:induction false} TableAligned(objects: seq<Bytes>, n: nat)
    requires n <= |objects| && (n > 0 ==> Offset(objects, n) < TEN_DIGITS)
    ensures |Table(objects, n)| == 20 * (n + 1)
  {
    Texts();
    if n > 0 {
      if n > 1 { FrontGrows(objects, n - 2, n - 1); }
      TableAligned(objects, n - 1);
      EntryWidth(Offset(objects, n));
    }
  }

  /** A text that continues the table holds entry `i` in its place when the earlier ones are aligned. */
  lemma EntryInPlace(objects: seq<Bytes>, i: nat, rest: Bytes) returns (tail: Bytes)
    requires 1 <= i <= |objects| && (i > 1 ==> Offset(objects, i - 1) < TEN_DIGITS)
    ensures |Table(objects, i - 1)| == 20 * i
    ensures Table(objects, |objects|) + rest == Table(objects, i - 1) + (Entry(Offset(objects, i)) + tail)
  {
    TableAligned(objects, i - 1);
    TableGrows(objects, i, |objects|);
    tail := Table(objects, |objects|)[|Table(objects, i)|..] + rest;
    Spliced(Table(objects, i - 1), Entry(Offset(objects, i)), Table(objects, |objects|), rest);
  }

  lemma Spliced<T>(a: seq<T>, b: seq<T>, all: seq<T>, rest: seq<T>)
    requires a + b <= all
    ensures all + rest == a + (b + (all[|a + b|..] + rest))
  {
    assert all == a + b + all[|a + b|..];
  }

  lemma ReadEntryOf(before: Bytes, number: Bytes, tail: Bytes, i: nat)
    requires |before| == 20 * i && |number| == 10 && AllDigits(number)
    ensures 20 * (i + 1) <= |before + (number + IN_USE + tail)|
    ensures ReadEntry(before + (number + IN_USE + tail), i) == Some(Value(number))
  {
    Texts();
    var text := before + (number + IN_USE + tail);
    var entry := text[20 * i..20 * i + 20];
    assert entry == number + IN_USE;
    Halves(number, IN_USE);
  }

  lemma EntryRead(objects: seq<Bytes>, i: nat, rest: Bytes)
    requires 1 <= i <= |objects| && Offset(objects, i) < TEN_DIGITS
    ensures 20 * (i + 1) <= |Table(objects, |objects|) + rest|
    ensures ReadEntry(Table(objects, |objects|) + rest, i) == Some(Offset(objects, i))
  {
    var offset := Offset(objects, i);
    if i > 1 { FrontGrows(objects, i - 2, i - 1); }
    var tail := EntryInPlace(objects, i, rest);
    EntryWidth(offset);
    Texts();
    ReadEntryOf(Table(objects, i - 1), Pad10(offset), tail, i);
  }

  lemma ReadEntryTooWide(before: Bytes, number: Bytes, tail: Bytes, i: nat)
    requires |before| == 20 * i && |number| > 10 && AllDigits(number)
    ensures 20 * (i + 1) <= |before + (number + IN_USE + tail)|
    ensures ReadEntry(before + (number + IN_USE + tail), i) == None
  {
    Texts();
    var text := before + (number + IN_USE + tail);
    var entry := text[20 * i..20 * i + 20];
    assert entry[10..][0] == number[10];
    assert Digit(number[10]);
  }

  /** The first offset beyond ten digits makes its entry unreadable. */
  lemma EntryUnreadable(objects: seq<Bytes>, i: nat, rest: Bytes)
    requires 1 <= i <= |objects| && Offset(objects, i) >= TEN_DIGITS && (i > 1 ==> Offset(objects, i - 1) < TEN_DIGITS)
    ensures 20 * (i + 1) <= |Table(objects, |objects|) + rest|
    ensures ReadEntry(Table(objects, |objects|) + rest, i) == None
  {
    var offset := Offset(objects, i);
    var tail := EntryInPlace(objects, i, rest);
    EntryWidth(offset);
    Texts();
    ReadEntryTooWide(Table(objects, i - 1), Pad10(offset), tail, i);
  }

  // ----- the objects -----

  lemma ReadObjectOf(before: Bytes, i: nat, body: Bytes, tail: Bytes)
    ensures ReadObject(before + (ObjectText(i, body) + tail), i, |before|, |before| + |ObjectText(i, body)|) == Some(body)
  {
    var head := Dec(i) + OBJ;
    var text := ObjectText(i, body);
    var file := before + (text + tail);
    var start, end := |before|, |before| + |text|;
    assert file[start..end] == text;
    assert text == head + (body + ENDOBJ);
    Halves(head, body + ENDOBJ);
    assert text == (head + body) + ENDOBJ;
    Halves(head + body, ENDOBJ);
    assert file[start + |head|..end - |ENDOBJ|] == body;
  }

  lemma ObjectRead(objects: seq<Bytes>, after: Bytes, i: nat)
    requires 1 <= i <= |objects|
    ensures ReadObject(Front(objects, |objects|) + after, i, Offset(objects, i), |Front(objects, i)|) == Some(objects[i - 1])
  {
    FrontGrows(objects, i, |objects|);
    ReadObjectIn(Front(objects, |objects|), Front(objects, i - 1), i, objects[i - 1], after);
  }

  lemma ReadObjectIn(all: Bytes, before: Bytes, i: nat, body: Bytes, after: Bytes)
    requires before + ObjectText(i, body) <= all
    ensures ReadObject(all + after, i, |before|, |before + ObjectText(i, body)|) == Some(body)
  {
    Spliced(before, ObjectText(i, body), all, after);
    ReadObjectOf(before, i, body, all[|before + ObjectText(i, body)|..] + after);
  }

  /** Where an object ends is where the next one, or the table, starts. */
  lemma EndRead(objects: seq<Bytes>, rest: Bytes, n: nat)
    requires 1 <= n <= |objects| && Offset(objects, |objects|) < TEN_DIGITS
    ensures 20 * (|objects| + 1) <= |Table(objects, |objects|) + rest|
    ensures ReadEntry(Table(objects, |objects|) + rest, n) == Some(Offset(objects, n))
    ensures n < |objects| ==> ReadEntry(Table(objects, |objects|) + rest, n + 1) == Some(|Front(objects, n)|)
  {
    TableAligned(objects, |objects|);
    FrontGrows(objects, n - 1, |objects| - 1);
    EntryRead(objects, n, rest);
    if n < |objects| {
      FrontGrows(objects, n, |objects| - 1);
      EntryRead(objects, n + 1, rest);
    }
  }

  lemma {:induction false} ObjectsRead(objects: seq<Bytes>, rest: Bytes, after: Bytes, n: nat)
    requires n <= |objects| && (|objects| > 0 ==> Offset(objects, |objects|) < TEN_DIGITS)
    ensures 20 * (|objects| + 1) <= |Table(objects, |objects|) + rest|
    ensures ReadObjects(Front(objects, |objects|) + after, Table(objects, |objects|) + rest,
                        |Front(objects, |objects|)|, |objects| + 1, n) == Some(objects[..n])
  {
    TableAligned(objects, |objects|);
    if n > 0 {
      ObjectsRead(objects, rest, after, n - 1);
      ObjectInFile(objects, rest, after, n);
      NextObjectRead(Front(objects, |objects|) + after, Table(objects, |objects|) + rest, |Front(objects, |objects|)|,
                     |objects| + 1, n, objects[..n - 1], objects[n - 1]);
      OneMore(objects, n);
    }
  }

  lemma OneMore<T>(xs: seq<T>, n: nat)
    requires 1 <= n <= |xs|
    ensures xs[..n - 1] + [xs[n - 1]] == xs[..n]
  {
  }

  /** The table leads to this body. */
  predicate Holds(file: Bytes, table: Bytes, xref: nat, size: nat, n: nat, body: Bytes)
    requires 1 <= n < size && 20 * size <= |table|
  {
    var start := ReadEntry(table, n);
    var end := if n + 1 < size then ReadEntry(table, n + 1) else Some(xref);
    start.Some? && end.Some? && ReadObject(file, n, start.value, end.value) == Some(body)
  }

  lemma ObjectInFile(objects: seq<Bytes>, rest: Bytes, after: Bytes, n: nat)
    requires 1 <= n <= |objects| && Offset(objects, |objects|) < TEN_DIGITS
    ensures 20 * (|objects| + 1) <= |Table(objects, |objects|) + rest|
    ensures Holds(Front(objects, |objects|) + after, Table(objects, |objects|) + rest, |Front(objects, |objects|)|,
                  |objects| + 1, n, objects[n - 1])
  {
    EndRead(objects, rest, n);
    ObjectRead(objects, after, n);
  }

  lemma NextObjectRead(file: Bytes, table: Bytes, xref: nat, size: nat, n: nat, earlier: seq<Bytes>, body: Bytes)
    requires 1 <= n < size && 20 * size <= |table|
    requires ReadObjects(file, table, xref, size, n - 1) == Some(earlier) && Holds(file, table, xref, size, n, body)
    ensures ReadObjects(file, table, xref, size, n) == Some(earlier + [body])
  {
  }

  function AfterTable(objects: seq<Bytes>): Bytes {
    (TRAILER + Dec(|objects| + 1) + ROOT) + (STARTXREF + Dec(|Front(objects, |objects|)|) + EOF)
  }

  lemma PdfSplit(objects: seq<Bytes>)
    ensures var front := Front(objects, |objects|);
            var text := Table(objects, |objects|) + AfterTable(objects);
            && Pdf(objects) == front + (XREF + Dec(|objects| + 1) + NEWLINE + text)
            && Pdf(objects)[|front|..] == XREF + Dec(|objects| + 1) + NEWLINE + text
  {
    FiveParts(Front(objects, |objects|), XREF + Dec(|objects| + 1) + NEWLINE, Table(objects, |objects|),
              TRAILER + Dec(|objects| + 1) + ROOT, STARTXREF + Dec(|Front(objects, |objects|)|) + EOF);
  }

  lemma FiveParts<T>(a: seq<T>, b: seq<T>, c: seq<T>, d: seq<T>, e: seq<T>)
    ensures a + b + c + d + e == a + (b + (c + (d + e)))
    ensures (a + b + c + d + e)[|a|..] == b + (c + (d + e))
  {
  }

  lemma {:induction false} ObjectsUnread(objects: seq<Bytes>, rest: Bytes, after: Bytes, xref: nat, k: nat, n: nat)
    requires 1 <= k <= n <= |objects| && 20 * (|objects| + 1) <= |Table(objects, |objects|) + rest|
    requires Offset(objects, k) >= TEN_DIGITS && (k > 1 ==> Offset(objects, k - 1) < TEN_DIGITS)
    ensures ReadObjects(after, Table(objects, |objects|) + rest, xref, |objects| + 1, n).None?
    decreases n
  {
    EntryUnreadable(objects, k, rest);
    if n > k { ObjectsUnread(objects, rest, after, xref, k, n - 1); }
  }

  lemma {:induction false} FirstWideOffset(objects: seq<Bytes>, n: nat) returns (k: nat)
    requires 1 <= n <= |objects| && Offset(objects, n) >= TEN_DIGITS
    ensures 1 <= k <= n && Offset(objects, k) >= TEN_DIGITS && (k > 1 ==> Offset(objects, k - 1) < TEN_DIGITS)
    decreases n
  {
    if n > 1 && Offset(objects, n - 1) >= TEN_DIGITS { k := FirstWideOffset(objects, n - 1); } else { k := n; }
  }

  /** Reading a written file is reading its objects through its table. */
  lemma ReadsThroughTable(objects: seq<Bytes>)
    ensures var text := Table(objects, |objects|) + AfterTable(objects);
            ReadPdf(Pdf(objects)) ==
            if 20 * (|objects| + 1) > |text| then None
            else ReadObjects(Pdf(objects), text, |Front(objects, |objects|)|, |objects| + 1, |objects|)
  {
    StartIsTableOffset(objects);
    TableRead(objects);
    ReadPdfBy(Pdf(objects), |Front(objects, |objects|)|, |objects| + 1, Table(objects, |objects|) + AfterTable(objects));
  }

  lemma TableRead(objects: seq<Bytes>)
    ensures |Front(objects, |objects|)| <= |Pdf(objects)|
    ensures ReadTable(Pdf(objects)[|Front(objects, |objects|)|..]) ==
            Some((|objects| + 1, Table(objects, |objects|) + AfterTable(objects)))
  {
    PdfSplit(objects);
    TableFound(|objects| + 1, Table(objects, |objects|) + AfterTable(objects));
  }

  lemma ReadPdfBy(file: Bytes, xref: nat, size: nat, table: Bytes)
    requires ReadStart(file) == Some(xref) && xref <= |file| && size >= 1 && ReadTable(file[xref..]) == Some((size, table))
    ensures ReadPdf(file) == if 20 * size > |table| then None else ReadObjects(file, table, xref, size, size - 1)
  {
  }

  /** Writing and reading gives back every list of bodies, whatever bytes they hold, exactly when
      the last object starts within the first ten thousand million bytes. */
  lemma RoundTrip(objects: seq<Bytes>)
    ensures ReadPdf(Pdf(objects)) == Some(objects) <==> (objects == [] || Offset(objects, |objects|) < TEN_DIGITS)
  {
    ReadsThroughTable(objects);
    PdfSplit(objects);
    var rest := AfterTable(objects);
    var text := Table(objects, |objects|) + rest;
    if objects == [] || Offset(objects, |objects|) < TEN_DIGITS {
      ObjectsRead(objects, rest, XREF + Dec(|objects| + 1) + NEWLINE + text, |objects|);
      assert objects[..|objects|] == objects;
    } else if 20 * (|objects| + 1) <= |text| {
      var k := FirstWideOffset(objects, |objects|);
      ObjectsUnread(objects, rest, Pdf(objects), |Front(objects, |objects|)|, k, |objects|);
    }
  }
}
