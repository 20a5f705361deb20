/** Which trees have a ledger that the validator accepts. */
module LedgerAcceptance {
  import opened Wrappers
  import opened TextOps
  import opened BoundaryLedger
  import opened LedgerRoundTrip

  // ----- quoting blanks -----

  /** Every blank as a character reference. */
  function QuoteBlanks(q: string): string {
    if q == "" then "" else (if q[0] == ' ' then "&#32;" else [q[0]]) + QuoteBlanks(q[1..])
  }

  /** `html.unescape` reads a character reference for a blank as a blank, wherever it stands. */
  ghost predicate ReadsBlanks(unescape: string -> string) {
    forall q :: unescape(QuoteBlanks(q)) == unescape(q)
  }

  lemma {:induction false} QuotedPlain(q: string)
    requires OneLine(q)
    ensures OneLine(QuoteBlanks(q)) && Free(QuoteBlanks(q), ' ')
    ensures q != "" ==> QuoteBlanks(q) != ""
  {
    if q != "" {
      QuotedPlain(q[1..]);
      assert !LineBreak(q[0]);
    }
  }

  lemma {:induction false} QuotedEnds(q: string)
    requires q != "" && q[|q| - 1] != ' '
    ensures QuoteBlanks(q) != "" && QuoteBlanks(q)[|QuoteBlanks(q)| - 1] == q[|q| - 1]
  {
    if |q| > 1 { QuotedEnds(q[1..]); }
  }

  lemma {:induction false} QuotedFences(q: string)
    requires NoFence(q)
    ensures NoFence(QuoteBlanks(q))
  {
    if q != "" {
      var rest := QuoteBlanks(q[1..]);
      assert NoFence(q[1..]) by {
        forall i | 0 <= i < |q[1..]| - 2 ensures !(q[1..][i] == '`' && q[1..][i + 1] == '`' && q[1..][i + 2] == '`') {
          assert q[1..][i] == q[i + 1] && q[1..][i + 1] == q[i + 2] && q[1..][i + 2] == q[i + 3];
        }
      }
      QuotedFences(q[1..]);
      if q[0] == ' ' {
        PieceBefore("&#32;", rest);
      } else {
        TicksKept(q[1..]);
        TickBefore(q, rest);
      }
    }
  }

  lemma PieceBefore(piece: string, rest: string)
    requires Free(piece, '`') && NoFence(rest)
    ensures NoFence(piece + rest)
  {
    var t := piece + rest;
    forall i | 0 <= i < |t| - 2 ensures !(t[i] == '`' && t[i + 1] == '`' && t[i + 2] == '`') {
      if i >= |piece| { assert t[i] == rest[i - |piece|] && t[i + 1] == rest[i - |piece| + 1] && t[i + 2] == rest[i - |piece| + 2]; }
    }
  }

  lemma TickBefore(q: string, rest: string)
    requires q != "" && NoFence(q) && NoFence(rest)
    requires |rest| >= 2 && rest[0] == '`' && rest[1] == '`' ==> |q| >= 3 && q[1] == '`' && q[2] == '`'
    ensures NoFence([q[0]] + rest)
  {
    var t := [q[0]] + rest;
    forall i | 0 <= i < |t| - 2 ensures !(t[i] == '`' && t[i + 1] == '`' && t[i + 2] == '`') {
      if i >= 1 { assert t[i] == rest[i - 1] && t[i + 1] == rest[i] && t[i + 2] == rest[i + 1]; }
    }
  }

  /** A backquote of the quoted text is one of the text. */
  lemma TicksKept(r: string)
    ensures |QuoteBlanks(r)| >= 2 && QuoteBlanks(r)[0] == '`' && QuoteBlanks(r)[1] == '`' ==> |r| >= 2 && r[0] == '`' && r[1] == '`'
  {
    if r != "" && r[0] != ' ' {
      assert QuoteBlanks(r) == [r[0]] + QuoteBlanks(r[1..]);
      if |r| >= 2 { assert QuoteBlanks(r[1..])[0] == if r[1] == ' ' then '&' else r[1]; }
    }
  }

  lemma QuotedLine(q: string)
    requires Line(q)
    ensures Line(QuoteBlanks(q)) && Free(QuoteBlanks(q), ' ')
  {
    assert Space(' ');
    QuotedPlain(q);
    QuotedEnds(q);
    QuotedFences(q);
    assert QuoteBlanks(q)[0] == q[0];
  }

  // ----- what a loaded ledger says of its sources -----

  /** The source has a quoted form that fits a line of the ledger. */
  ghost predicate Listable(unescape: string -> string, source: string) {
    InApplication(source) && exists q :: Line(q) && unescape(q) == source
  }

  predicate Tame(s: string) { OneLine(s) && NoFence(s) }

  lemma {:induction false} StripLeftTame(s: string)
    ensures NoFence(s) ==> NoFence(StripLeft(s))
    ensures OneLine(s) ==> OneLine(StripLeft(s))
    ensures StripLeft(s) != "" ==> !Space(StripLeft(s)[0])
  {
    if s != "" && Space(s[0]) {
      StripLeftTame(s[1..]);
      if NoFence(s) { SliceNoFence(s, 1, |s|); }
    }
  }

  lemma {:induction false} StripRightTame(s: string)
    ensures NoFence(s) ==> NoFence(StripRight(s))
    ensures OneLine(s) ==> OneLine(StripRight(s))
    ensures StripRight(s) <= s
    ensures StripRight(s) != "" ==> !Space(StripRight(s)[|StripRight(s)| - 1])
    decreases |s|
  {
    if s != "" && Space(s[|s| - 1]) {
      StripRightTame(s[..|s| - 1]);
      if NoFence(s) { SliceNoFence(s, 0, |s| - 1); }
    }
  }

  lemma SliceNoFence(s: string, i: nat, j: nat)
    requires NoFence(s) && i <= j <= |s|
    ensures NoFence(s[i..j])
  {
    var t := s[i..j];
    forall k | 0 <= k < |t| - 2 ensures !(t[k] == '`' && t[k + 1] == '`' && t[k + 2] == '`') {
      assert t[k] == s[i + k] && t[k + 1] == s[i + k + 1] && t[k + 2] == s[i + k + 2];
    }
  }

  lemma StripTame(s: string)
    ensures NoFence(s) ==> NoFence(Strip(s))
    ensures Tame(s) && Strip(s) != "" ==> Line(Strip(s))
  {
    StripLeftTame(s);
    StripRightTame(StripLeft(s));
    if Strip(s) != "" { assert Strip(s)[0] == StripLeft(s)[0]; }
  }

  lemma {:induction false} LinesTame(s: string)
    requires NoFence(s)
    ensures forall l :: l in SplitLines(s) ==> Tame(l)
    decreases |s|
  {
    if s != "" {
      var n := FirstLine(s);
      FirstLineOneLine(s);
      SliceNoFence(s, 0, n);
      if n < |s| {
        var width := if s[n] == '\r' && n + 1 < |s| && s[n + 1] == '\n' then 2 else 1;
        SliceNoFence(s, n + width, |s|);
        LinesTame(s[n + width..]);
      } else {
        assert s[..n] == s;
      }
    }
  }

  lemma {:induction false} FirstLineOneLine(s: string)
    ensures OneLine(s[..FirstLine(s)])
  {
    if s != "" && !LineBreak(s[0]) {
      FirstLineOneLine(s[1..]);
      assert s[..FirstLine(s)] == [s[0]] + s[1..][..FirstLine(s[1..])];
    }
  }

  /** What stands before the first fence holds none. */
  lemma BeforeFence(text: string, k: nat)
    requires Find(text, FENCE) == Some(k)
    ensures NoFence(text[..k])
  {
    FindFirst(text, FENCE);
    var t := text[..k];
    forall i | 0 <= i < |t| - 2 ensures !(t[i] == '`' && t[i + 1] == '`' && t[i + 2] == '`') {
      assert !MatchesAt(text, FENCE, i);
      assert text[i..i + 3] == [t[i], t[i + 1], t[i + 2]];
    }
  }

  lemma SectionTame(text: string, heading: string)
    requires heading != "" && SectionBlock(text, heading).Good?
    ensures forall l :: l in SectionBlock(text, heading).value ==> Tame(l)
  {
    var remainder := SplitOnce(text, heading).value.1;
    var next := SplitOnce(remainder, NEXT_HEADING);
    var beforeNext := if next.Some? then next.value.0 else remainder;
    var parts := Split(beforeNext, FENCE_TEXT);
    var block := SplitOnce(parts[1], FENCE).value.0;
    BeforeFence(parts[1], Find(parts[1], FENCE).value);
    StripTame(block);
    LinesTame(Strip(block));
  }

  ghost predicate AllListable(unescape: string -> string, s: Reading) {
    && (s.source.Some? ==> Listable(unescape, s.source.value))
    && (forall e :: e in s.edges ==> Listable(unescape, e.source))
  }

  lemma {:induction false} ReadListable(unescape: string -> string, s: Reading, lines: seq<string>)
    requires AllListable(unescape, s) && forall l :: l in lines ==> Tame(l)
    ensures var r := ReadLines(unescape, s, lines); r.Good? ==> AllListable(unescape, r.value)
    decreases |lines|
  {
    if lines != [] {
      var first := ReadLine(unescape, s, lines[0]);
      StripTame(lines[0]);
      if first.Good? { ReadListable(unescape, first.value, lines[1..]); }
    }
  }

  lemma LoadedListable(unescape: string -> string, text: string)
    requires LoadLedger(unescape, text).Good?
    ensures var (inbound, outbound) := LoadLedger(unescape, text).value;
            inbound != {} && outbound != {} && forall e :: e in inbound + outbound ==> Listable(unescape, e.source)
  {
    SectionTame(text, INBOUND);
    SectionTame(text, OUTBOUND);
    ReadListable(unescape, Reading(None, {}), SectionBlock(text, INBOUND).value);
    ReadListable(unescape, Reading(None, {}), SectionBlock(text, OUTBOUND).value);
  }

  // ----- the exact condition -----

  ghost function Form(unescape: string -> string, source: string): (q: string)
    requires Listable(unescape, source)
    ensures Line(q) && unescape(q) == source
  {
    var q :| Line(q) && unescape(q) == source;
    q
  }

  ghost function QuoteOf(unescape: string -> string, source: string): string {
    if Listable(unescape, source) then QuoteBlanks(Form(unescape, source)) else ""
  }

  lemma AllQuoted(unescape: string -> string, edges: seq<Edge>)
    requires ReadsBlanks(unescape) && forall e :: e in edges ==> Plain(e.target) && Listable(unescape, e.source)
    ensures AllPrintable(s => QuoteOf(unescape, s), unescape, edges)
  {
    forall e | e in edges ensures Printable(s => QuoteOf(unescape, s), unescape, e) {
      QuotedLine(Form(unescape, e.source));
    }
  }

  /** For edges to dotted names, a ledger that the validator accepts exists if and only if there are
      edges in both directions and every source is a path of the application with a quoted form
      that fits a line. */
  lemma AcceptableExactly(unescape: string -> string, inbound: set<Edge>, outbound: set<Edge>)
    requires ReadsBlanks(unescape) && forall e :: e in inbound + outbound ==> Plain(e.target)
    ensures (exists text :: Validate(unescape, text, inbound, outbound).Good?) <==>
            && inbound != {} && outbound != {}
            && forall e :: e in inbound + outbound ==> Listable(unescape, e.source)
  {
    if inbound != {} && outbound != {} && forall e :: e in inbound + outbound ==> Listable(unescape, e.source) {
      var a := Listed(inbound);
      var b := Listed(outbound);
      assert forall e :: e in a ==> e in SetOf(a);
      assert forall e :: e in b ==> e in SetOf(b);
      AllQuoted(unescape, a);
      AllQuoted(unescape, b);
      var quote := s => QuoteOf(unescape, s);
      LedgerRoundTrips(quote, unescape, a, b);
      assert Validate(unescape, PrintLedger(quote, a, b), inbound, outbound).Good?;
    }
    forall text | Validate(unescape, text, inbound, outbound).Good?
      ensures inbound != {} && outbound != {} && forall e :: e in inbound + outbound ==> Listable(unescape, e.source)
    {
      LoadedListable(unescape, text);
    }
  }
}
