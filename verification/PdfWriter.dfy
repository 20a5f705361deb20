/**
 The proof script's PDF serializer, for any list of object bodies, and a reader that follows
 sections 7.5.4 and 7.5.5 of ISO 32000-1: last lines, cross-reference table, objects.
 */
module PdfWriter {
  import opened Wrappers

  newtype byte = x: int | 0 <= x < 256

  type Bytes = seq<byte>

  const TEN_DIGITS: nat := 10_000_000_000

  function Ascii(s: string): (b: Bytes)
    requires forall c :: c in s ==> c as int < 128
    ensures |b| == |s|
  {
    seq(|s|, i requires 0 <= i < |s| => assert s[i] in s; s[i] as int as byte)
  }

  const HEADER: Bytes := Ascii("%PDF-1.4\n")
  const OBJ: Bytes := Ascii(" 0 obj\n")
  const ENDOBJ: Bytes := Ascii("\nendobj\n")
  const XREF: Bytes := Ascii("xref\n0 ")
  const NEWLINE: Bytes := Ascii("\n")
  const FREE: Bytes := Ascii("0000000000 65535 f \n")
  const IN_USE: Bytes := Ascii(" 00000 n \n")
  const TRAILER: Bytes := Ascii("trailer\n<< /Size ")
  const ROOT: Bytes := Ascii(" /Root 1 0 R >>\n")
  const STARTXREF: Bytes := Ascii("startxref\n")
  const EOF: Bytes := Ascii("\n%%EOF\n")

  // ----- decimal numbers -----

  predicate Digit(b: byte) { 48 <= b <= 57 }

  function Dec(n: nat): Bytes {
    if n < 10 then [(48 + n) as byte] else Dec(n / 10) + [(48 + n % 10) as byte]
  }

  function Zeros(n: nat): Bytes { seq(n, _ => 48) }

  /** A number padded with zeros to at least ten digits. */
  function Pad10(n: nat): Bytes {
    var d := Dec(n);
    if |d| >= 10 then d else Zeros(10 - |d|) + d
  }

  predicate AllDigits(s: Bytes) { forall i :: 0 <= i < |s| ==> Digit(s[i]) }

  function DigitValue(b: byte): nat { if Digit(b) then (b - 48) as nat else 0 }

  /** The value of a run of digits. */
  function Value(s: Bytes): nat {
    if s == [] then 0 else 10 * Value(s[..|s| - 1]) + DigitValue(s[|s| - 1])
  }

  // ----- the file -----

  function ObjectText(index: nat, body: Bytes): Bytes {
    Dec(index) + OBJ + body + ENDOBJ
  }

  /** The header and the first `n` objects. */
  function Front(objects: seq<Bytes>, n: nat): Bytes
    requires n <= |objects|
  {
    if n == 0 then HEADER else Front(objects, n - 1) + ObjectText(n, objects[n - 1])
  }

  /** Where object `i`, counted from one, starts. */
  function Offset(objects: seq<Bytes>, i: nat): nat
    requires 1 <= i <= |objects|
  {
    |Front(objects, i - 1)|
  }

  function Entry(offset: nat): Bytes { Pad10(offset) + IN_USE }

  function Table(objects: seq<Bytes>, n: nat): Bytes
    requires n <= |objects|
  {
    if n == 0 then FREE else Table(objects, n - 1) + Entry(Offset(objects, n))
  }

  function Pdf(objects: seq<Bytes>): Bytes {
    var front := Front(objects, |objects|);
    front
    + (XREF + Dec(|objects| + 1) + NEWLINE)
    + Table(objects, |objects|)
    + (TRAILER + Dec(|objects| + 1) + ROOT)
    + (STARTXREF + Dec(|front|) + EOF)
  }

  /** The header and the objects, remembering where each object began. */
  method WriteObjects(objects: seq<Bytes>) returns (output: Bytes, offsets: seq<nat>)
    ensures output == Front(objects, |objects|)
    ensures |offsets| == |objects| + 1 && forall j :: 1 <= j <= |objects| ==> offsets[j] == Offset(objects, j)
  {
    output, offsets := HEADER, [0];
    for i := 0 to |objects|
      invariant output == Front(objects, i)
      invariant |offsets| == i + 1 && forall j :: 1 <= j <= i ==> offsets[j] == Offset(objects, j)
    {
      offsets := offsets + [|output|];
      output := output + ObjectText(i + 1, objects[i]);
    }
  }

  /** The free entry and one entry per remembered offset. */
  method WriteTable(ghost objects: seq<Bytes>, offsets: seq<nat>) returns (output: Bytes)
    requires |offsets| == |objects| + 1 && forall j :: 1 <= j <= |objects| ==> offsets[j] == Offset(objects, j)
    ensures output == Table(objects, |objects|)
  {
    output := FREE;
    for i := 1 to |offsets|
      invariant output == Table(objects, i - 1)
    {
      output := output + Entry(offsets[i]);
    }
  }

  /** Builds the whole file in one pass over the objects and one over their offsets. */
  method WritePdf(objects: seq<Bytes>) returns (output: Bytes)
    ensures output == Pdf(objects)
  {
    var offsets;
    output, offsets := WriteObjects(objects);
    var xref := |output|;
    output := output + (XREF + Dec(|objects| + 1) + NEWLINE);
    var table := WriteTable(objects, offsets);
    output := output + table;
    output := output + (TRAILER + Dec(|objects| + 1) + ROOT) + (STARTXREF + Dec(xref) + EOF);
  }

  // ----- a reader -----

  predicate StartsWith(s: Bytes, prefix: Bytes) { |prefix| <= |s| && s[..|prefix|] == prefix }

  predicate EndsWith(s: Bytes, suffix: Bytes) { |suffix| <= |s| && s[|s| - |suffix|..] == suffix }

  /** How many digits end the text. */
  function DigitsAtEnd(s: Bytes): (n: nat)
    ensures n <= |s|
    decreases |s|
  {
    if s == [] || !Digit(s[|s| - 1]) then 0 else DigitsAtEnd(s[..|s| - 1]) + 1
  }

  /** How many digits begin the text. */
  function DigitsAtStart(s: Bytes): (n: nat)
    ensures n <= |s|
    decreases |s|
  {
    if s == [] || !Digit(s[0]) then 0 else DigitsAtStart(s[1..]) + 1
  }

  /** The offset an in-use entry of the table names. */
  function ReadEntry(table: Bytes, i: nat): Option<nat>
    requires 20 * (i + 1) <= |table|
  {
    var entry := table[20 * i..20 * i + 20];
    if AllDigits(entry[..10]) && entry[10..] == IN_USE then Some(Value(entry[..10])) else None
  }

  /** The body of object `i`, which ends where the next object or the table starts. */
  function ReadObject(file: Bytes, i: nat, start: nat, end: nat): Option<Bytes> {
    var head := Dec(i) + OBJ;
    if start + |head| + |ENDOBJ| <= end <= |file|
       && StartsWith(file[start..end], head) && EndsWith(file[start..end], ENDOBJ)
    then Some(file[start + |head|..end - |ENDOBJ|]) else None
  }

  /** Objects `1` to `n`, given where the table starts. */
  function ReadObjects(file: Bytes, table: Bytes, xref: nat, size: nat, n: nat): Option<seq<Bytes>>
    requires n < size && 20 * size <= |table|
  {
    if n == 0 then Some([]) else
    var earlier := ReadObjects(file, table, xref, size, n - 1);
    var start := ReadEntry(table, n);
    var end := if n + 1 < size then ReadEntry(table, n + 1) else Some(xref);
    if earlier.None? || start.None? || end.None? then None else
    var body := ReadObject(file, n, start.value, end.value);
    if body.None? then None else Some(earlier.value + [body.value])
  }

  /** The table's declared size and its entries. */
  function ReadTable(text: Bytes): Option<(nat, Bytes)> {
    if !StartsWith(text, XREF) then None else
    var rest := text[|XREF|..];
    var c := DigitsAtStart(rest);
    if c == 0 || !StartsWith(rest[c..], NEWLINE) then None
    else Some((Value(rest[..c]), rest[c + 1..]))
  }

  /** The number between the last `startxref` line and the end-of-file line. */
  function ReadStart(file: Bytes): Option<nat> {
    if !EndsWith(file, EOF) then None else
    var text := file[..|file| - |EOF|];
    var d := DigitsAtEnd(text);
    if d == 0 || !EndsWith(text[..|text| - d], STARTXREF) then None
    else Some(Value(text[|text| - d..]))
  }

  function ReadPdf(file: Bytes): Option<seq<Bytes>> {
    var xref := ReadStart(file);
    if xref.None? || xref.value > |file| then None else
    ReadFrom(file, xref.value, ReadTable(file[xref.value..]))
  }

  function ReadFrom(file: Bytes, xref: nat, table: Option<(nat, Bytes)>): Option<seq<Bytes>> {
    if table.None? || table.value.0 == 0 || 20 * table.value.0 > |table.value.1| then None
    else ReadObjects(file, table.value.1, xref, table.value.0, table.value.0 - 1)
  }
}
