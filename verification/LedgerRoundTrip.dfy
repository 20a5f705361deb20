/**
 Loading a printed ledger gives back exactly the printed edges, for every quoting of their sources
 that the parser undoes.
 */
module LedgerRoundTrip {
  import opened Wrappers
  import opened TextOps
  import opened Sequences
  import opened BoundaryLedger

  ghost predicate AllPrintable(quote: string -> string, unescape: string -> string, edges: seq<Edge>) {
    forall e :: e in edges ==> Printable(quote, unescape, e)
  }

  function SetOf(edges: seq<Edge>): set<Edge> { set e | e in edges }

  lemma NoRepeatCons(e: Edge, rest: seq<Edge>)
    ensures NoRepeat([e] + rest) <==> NoRepeat(rest) && e !in rest
  {
    var edges := [e] + rest;
    assert forall k :: 0 <= k < |rest| ==> edges[k + 1] == rest[k];
    if NoRepeat(edges) {
      forall k | 0 <= k < |rest| ensures rest[k] != e { assert edges[0] != edges[k + 1]; }
      forall i, j | 0 <= i < j < |rest| ensures rest[i] != rest[j] { assert edges[i + 1] != edges[j + 1]; }
    }
  }

  // ----- the line level -----

  lemma {:induction false} ReadAllPrinted(quote: string -> string, unescape: string -> string, s: Reading, edges: seq<Edge>)
    requires AllPrintable(quote, unescape, edges)
    ensures var r := ReadLines(unescape, s, PrintLines(quote, edges));
            && (r.Good? <==> NoRepeat(edges) && SetOf(edges) !! s.edges)
            && (r.Good? ==> r.value.edges == s.edges + SetOf(edges))
            && (r.Bad? ==> r.fault == DuplicateEdge)
    decreases |edges|
  {
    if edges != [] {
      var e, rest := edges[0], edges[1..];
      assert edges == [e] + rest;
      ReadPrinted(quote, unescape, s, e, PrintLines(quote, rest));
      assert SetOf(edges) == {e} + SetOf(rest);
      if e !in s.edges {
        var t := Reading(Some(e.source), s.edges + {e});
        ReadAllPrinted(quote, unescape, t, rest);
        NoRepeatCons(e, rest);
      }
    }
  }

  /** Printed lines parse to the printed edges; a repeated edge or an empty list is refused. */
  lemma LinesParseBack(quote: string -> string, unescape: string -> string, edges: seq<Edge>)
    requires AllPrintable(quote, unescape, edges)
    ensures EdgesOf(unescape, PrintLines(quote, edges)) ==
            if !NoRepeat(edges) then Bad(DuplicateEdge)
            else if edges == [] then Bad(EmptySection)
            else Good(SetOf(edges))
  {
    ReadAllPrinted(quote, unescape, Reading(None, {}), edges);
    assert {} + SetOf(edges) == SetOf(edges);
    if edges == [] { assert SetOf(edges) == {}; } else { assert edges[0] in SetOf(edges); }
  }

  // ----- one section -----

  lemma {:induction false} JoinedHarmless(lines: seq<string>)
    requires forall i :: 0 <= i < |lines| ==> Harmless(lines[i])
    ensures NoFence(JoinLines(lines)) && NoHeading(JoinLines(lines))
  {
    if |lines| > 1 {
      JoinedHarmless(lines[1..]);
      TwoParts(lines[0], JoinLines(lines[1..]));
    }
  }

  /** A line break keeps two harmless texts apart. */
  lemma TwoParts(a: string, b: string)
    requires NoFence(a) && NoHeading(a) && NoFence(b) && NoHeading(b)
    ensures NoFence(a + "\n" + b) && NoHeading(a + "\n" + b)
  {
    var t := a + "\n" + b;
    assert forall i :: 0 <= i < |a| ==> t[i] == a[i];
    assert t[|a|] == '\n';
    assert forall i :: |a| < i < |t| ==> t[i] == b[i - |a| - 1];
    forall i | 0 <= i < |t| - 2 ensures !(t[i] == '`' && t[i + 1] == '`' && t[i + 2] == '`') {
      if |a| < i { assert t[i] == b[i - |a| - 1] && t[i + 1] == b[i - |a|] && t[i + 2] == b[i - |a| + 1]; }
    }
    forall i | 0 <= i < |t| - 1 ensures !(t[i] == '#' && t[i + 1] == ' ') {
      if |a| < i { assert t[i] == b[i - |a| - 1] && t[i + 1] == b[i - |a|]; }
    }
  }

  lemma {:induction false} JoinedEnds(lines: seq<string>)
    requires lines != [] && forall i :: 0 <= i < |lines| ==> lines[i] != ""
    ensures var j := JoinLines(lines);
            j != "" && j[0] == lines[0][0] && j[|j| - 1] == lines[|lines| - 1][|lines[|lines| - 1]| - 1]
  {
    if |lines| > 1 { JoinedEnds(lines[1..]); }
  }

  /** The lines of a section with a line break on either side. */
  function Inner(quote: string -> string, edges: seq<Edge>): string { "\n" + JoinLines(PrintLines(quote, edges)) + "\n" }

  lemma BlockFree(quote: string -> string, unescape: string -> string, edges: seq<Edge>)
    requires AllPrintable(quote, unescape, edges)
    ensures NoFence(Inner(quote, edges)) && NoHeading(Inner(quote, edges))
    ensures SplitLines(JoinLines(PrintLines(quote, edges))) == PrintLines(quote, edges)
  {
    PrintedLines(quote, unescape, edges);
    JoinedHarmless(PrintLines(quote, edges));
    Padded(JoinLines(PrintLines(quote, edges)));
    LinesRoundTrip(PrintLines(quote, edges));
  }

  lemma Padded(j: string)
    requires NoFence(j) && NoHeading(j)
    ensures NoFence("\n" + j + "\n") && NoHeading("\n" + j + "\n")
  {
    TwoParts("", j);
    assert "" + "\n" + j == "\n" + j;
    TwoParts("\n" + j, "");
    assert "\n" + j + "\n" + "" == "\n" + j + "\n";
  }

  lemma BlockEnds(quote: string -> string, unescape: string -> string, edges: seq<Edge>)
    requires AllPrintable(quote, unescape, edges) && edges != []
    ensures var j := JoinLines(PrintLines(quote, edges)); j != "" && !Space(j[0]) && !Space(j[|j| - 1])
  {
    PrintedLines(quote, unescape, edges);
    var lines := PrintLines(quote, edges);
    JoinedEnds(lines);
    var last := edges[|edges| - 1];
    assert Printable(quote, unescape, last);
    var line := "  " + last.target;
    assert lines[|lines| - 1] == line;
    assert line[|line| - 1] == last.target[|last.target| - 1];
  }

  lemma StripBlock(j: string)
    requires j != "" && !Space(j[0]) && !Space(j[|j| - 1])
    ensures Strip("\n" + j + "\n") == j
  {
    assert "\n" + j + "\n" == "\n" + (j + "\n");
    StripLeftKeeps("\n", j + "\n");
    StripRightKeeps(j, "\n");
  }

  /** A fenced body that holds no fence itself is cut at its fences. */
  lemma FencesCut(inner: string)
    requires NoFence(inner) && inner != "" && inner[|inner| - 1] == '\n'
    ensures Split("\n\n" + (FENCE_TEXT + (inner + (FENCE + "\n"))), FENCE_TEXT) == ["\n\n", inner + (FENCE + "\n")]
    ensures SplitOnce(inner + (FENCE + "\n"), FENCE) == Some((inner, "\n"))
    ensures !Contains("\n", FENCE)
  {
    FirstFence(inner);
    OpeningFence(inner + (FENCE + "\n"));
    ClosingFence(inner, "\n");
    NotFound("\n", FENCE, 0);
  }

  lemma OpeningFence(rest: string)
    requires Find(rest, FENCE_TEXT) == None
    ensures Split("\n\n" + (FENCE_TEXT + rest), FENCE_TEXT) == ["\n\n", rest]
  {
    TwoPieces("\n\n", FENCE_TEXT, rest);
  }

  lemma ClosingFence(inner: string, tail: string)
    requires Find(inner + (FENCE + tail), FENCE) == Some(|inner|)
    ensures SplitOnce(inner + (FENCE + tail), FENCE) == Some((inner, tail))
  {
    Cut(inner, FENCE, tail);
  }

  lemma TwoPieces(a: string, pat: string, rest: string)
    requires pat != "" && Free(a, pat[0]) && Find(rest, pat) == None
    ensures Split(a + (pat + rest), pat) == [a, rest]
  {
    FindAfter(a, pat, rest, 0);
    Cut(a, pat, rest);
    assert Split(rest, pat) == [rest];
  }

  lemma FirstFence(inner: string)
    requires NoFence(inner) && inner != "" && inner[|inner| - 1] == '\n'
    ensures Find(inner + (FENCE + "\n"), FENCE) == Some(|inner|)
    ensures Find(inner + (FENCE + "\n"), FENCE_TEXT) == None
  {
    PassInner(inner, FENCE + "\n");
    FenceOnly();
  }

  lemma FenceOnly()
    ensures Find(FENCE + "\n", FENCE) == Some(0) && Find(FENCE + "\n", FENCE_TEXT) == None
  {
    FindHere(FENCE, "\n");
    NotFound(FENCE + "\n", FENCE_TEXT, 3);
  }

  lemma PassInner(inner: string, tail: string)
    requires NoFence(inner) && inner != "" && inner[|inner| - 1] == '\n'
    ensures Find(inner + tail, FENCE) == if Find(tail, FENCE).None? then None else Some(|inner| + Find(tail, FENCE).value)
    ensures Find(inner + tail, FENCE_TEXT) == if Find(tail, FENCE_TEXT).None? then None else Some(|inner| + Find(tail, FENCE_TEXT).value)
  {
    forall k: nat | k < |inner| ensures !MatchesAt(inner + tail, FENCE, k) && !MatchesAt(inner + tail, FENCE_TEXT, k) {
      NoFenceAt(inner, tail, k);
    }
    Shift(inner, tail, FENCE);
    Shift(inner, tail, FENCE_TEXT);
  }

  lemma NoFenceAt(inner: string, tail: string, k: nat)
    requires NoFence(inner) && k < |inner| && inner[|inner| - 1] == '\n'
    ensures !MatchesAt(inner + tail, FENCE, k) && !MatchesAt(inner + tail, FENCE_TEXT, k)
  {
    var i := if k + 2 >= |inner| then |inner| - 1 - k else if inner[k] != '`' then 0 else if inner[k + 1] != '`' then 1 else 2;
    assert (inner + tail)[k + i] == inner[k + i] != '`';
    Mismatch(inner + tail, FENCE, k, i);
    Mismatch(inner + tail, FENCE_TEXT, k, i);
  }

  lemma BlockOfBody(quote: string -> string, unescape: string -> string, edges: seq<Edge>, remainder: string)
    requires AllPrintable(quote, unescape, edges) && edges != []
    requires (SplitOnce(remainder, NEXT_HEADING) == None && remainder == PrintBody(quote, edges))
             || (SplitOnce(remainder, NEXT_HEADING).Some? && SplitOnce(remainder, NEXT_HEADING).value.0 == PrintBody(quote, edges))
    ensures BlockIn(remainder) == Good(PrintLines(quote, edges))
  {
    BlockFree(quote, unescape, edges);
    BlockEnds(quote, unescape, edges);
    FencesCut(Inner(quote, edges));
    StripBlock(JoinLines(PrintLines(quote, edges)));
  }

  lemma BodyFree(quote: string -> string, unescape: string -> string, edges: seq<Edge>)
    requires AllPrintable(quote, unescape, edges) && edges != []
    ensures var body := PrintBody(quote, edges); NoHeading(body) && body[|body| - 1] == '\n'
  {
    BlockFree(quote, unescape, edges);
    var inner, body := Inner(quote, edges), PrintBody(quote, edges);
    var head := "\n\n" + FENCE_TEXT;
    assert body == head + inner + (FENCE + "\n");
    assert Free(head, '#') && Free(FENCE + "\n", '#');
    HeadingFreeBetween(head, inner, FENCE + "\n");
  }

  lemma HeadingFreeBetween(head: string, inner: string, tail: string)
    requires Free(head, '#') && NoHeading(inner) && Free(tail, '#')
    requires tail == "" || (tail[0] != ' ')
    ensures NoHeading(head + inner + tail)
  {
    var t := head + inner + tail;
    forall i | 0 <= i < |t| - 1 ensures !(t[i] == '#' && t[i + 1] == ' ') {
      if |head| <= i < |head| + |inner| { assert t[i] == inner[i - |head|]; }
      if |head| <= i < |head| + |inner| - 1 { assert t[i + 1] == inner[i - |head| + 1]; }
    }
  }

  // ----- the two headings -----

  /** A text in which no blank follows a hash sign holds no heading. */
  lemma NoHeadingFound(text: string, pat: string, m: nat)
    requires NoHeading(text) && m + 1 < |pat| && pat[m] == '#' && pat[m + 1] == ' '
    ensures Find(text, pat) == None
  {
    FindFirst(text, pat);
    forall k: nat ensures !MatchesAt(text, pat, k) {
      Mismatch(text, pat, k, if k + m >= |text| || text[k + m] != '#' then m else m + 1);
    }
  }

  /** Neither does one that ends in a line break begin a heading, whatever follows it. */
  lemma NoHeadingAt(a: string, b: string, pat: string, m: nat, k: nat)
    requires NoHeading(a) && k < |a| && a[|a| - 1] == '\n' && m + 1 < |pat| && pat[m] == '#' && pat[m + 1] == ' '
    requires (m == 1 && pat[0] == '#') || (m == 2 && pat[1] == '#' && b != "" && b[0] != '#')
    ensures !MatchesAt(a + b, pat, k)
  {
    var t := a + b;
    assert forall i :: 0 <= i < |a| ==> t[i] == a[i];
    if k + m < |a| {
      Mismatch(t, pat, k, if a[k + m] != '#' then m else m + 1);
    } else if m == 1 {
      Mismatch(t, pat, k, 0);
    } else {
      assert t[|a|] == b[0];
      Mismatch(t, pat, k, |a| - k);
    }
  }

  /** A search for a heading passes over such a text. */
  lemma PassBody(a: string, b: string, pat: string, m: nat)
    requires NoHeading(a) && a != "" && a[|a| - 1] == '\n' && m + 1 < |pat| && pat[m] == '#' && pat[m + 1] == ' '
    requires (m == 1 && pat[0] == '#') || (m == 2 && pat[1] == '#' && b != "" && b[0] != '#')
    ensures Find(a + b, pat) == if Find(b, pat).None? then None else Some(|a| + Find(b, pat).value)
  {
    forall k: nat | k < |a| ensures !MatchesAt(a + b, pat, k) {
      NoHeadingAt(a, b, pat, m, k);
    }
    Shift(a, b, pat);
  }

  predicate IsHeading(h: string) { |h| >= 4 && h[0] == '#' && h[1] == '#' && h[2] == ' ' && Free(h[2..], '#') }

  /** A search for one heading passes over the signs of another. */
  lemma PassSigns(h: string, rest: string, pat: string)
    requires IsHeading(h) && IsHeading(pat) && h[3] != pat[3]
    ensures Find(h + rest, pat) == if Find(h[2..] + rest, pat).None? then None else Some(2 + Find(h[2..] + rest, pat).value)
  {
    var t := h[..2] + (h[2..] + rest);
    assert t == h + rest;
    Mismatch(t, pat, 0, 3);
    Mismatch(t, pat, 1, 1);
    Shift(h[..2], h[2..] + rest, pat);
  }

  lemma OtherHeading(h: string, rest: string, pat: string)
    requires IsHeading(h) && IsHeading(pat) && h[3] != pat[3] && NoHeading(rest)
    ensures Find(h + rest, pat) == None
  {
    PassSigns(h, rest, pat);
    HeadingFreeBetween(h[2..], rest, "");
    assert h[2..] + rest + "" == h[2..] + rest;
    NoHeadingFound(h[2..] + rest, pat, 1);
  }

  lemma Names()
    ensures |INBOUND_NAME| >= 1 && INBOUND_NAME[0] == 'I' && Free(INBOUND_NAME, '#')
    ensures |OUTBOUND_NAME| >= 1 && OUTBOUND_NAME[0] == 'A' && Free(OUTBOUND_NAME, '#')
  {
  }

  lemma HeadingOf(name: string)
    requires |name| >= 1 && Free(name, '#')
    ensures var h := "## " + name;
            && |h| >= 4 && h[0] == '#' && h[1] == '#' && h[2] == ' ' && h[3] == name[0] && Free(h[2..], '#')
            && h[3..] == name
  {
    var h := "## " + name;
    assert h[2..] == " " + name;
  }

  lemma Headings()
    ensures IsHeading(INBOUND) && IsHeading(OUTBOUND) && INBOUND[3] != OUTBOUND[3]
  {
    Names();
    HeadingOf(INBOUND_NAME);
    HeadingOf(OUTBOUND_NAME);
  }

  lemma InboundCount(body: string, rest: string)
    requires NoHeading(body) && NoHeading(rest) && body != "" && body[|body| - 1] == '\n'
    ensures var text := INBOUND + (body + ("\n" + (OUTBOUND + rest)));
            Count(text, INBOUND) == 1 && SplitOnce(text, INBOUND) == Some(("", body + ("\n" + (OUTBOUND + rest))))
  {
    Headings();
    var remainder := body + ("\n" + (OUTBOUND + rest));
    FindHere(INBOUND, remainder);
    Cut("", INBOUND, remainder);
    assert "" + (INBOUND + remainder) == INBOUND + remainder;
    RemainderFree(body, rest);
    assert Count(remainder, INBOUND) == 0;
  }

  lemma RemainderFree(body: string, rest: string)
    requires NoHeading(body) && NoHeading(rest) && body != "" && body[|body| - 1] == '\n'
    ensures Find(body + ("\n" + (OUTBOUND + rest)), INBOUND) == None
  {
    Headings();
    OtherHeading(OUTBOUND, rest, INBOUND);
    BreakAfter(body);
    PassBody(body + "\n", OUTBOUND + rest, INBOUND, 1);
    Assoc(body, "\n", OUTBOUND + rest);
  }

  lemma BreakAfter(body: string)
    requires NoHeading(body)
    ensures NoHeading(body + "\n")
  {
    HeadingFreeBetween("", body, "\n");
    assert "" + body + "\n" == body + "\n";
  }

  lemma OutboundFound(body: string, rest: string)
    requires NoHeading(body)
    ensures Find(INBOUND + (body + ("\n" + (OUTBOUND + rest))), OUTBOUND) == Some(|INBOUND + body + "\n"|)
  {
    Headings();
    var before := INBOUND[2..] + body + "\n";
    HeadingFreeBetween(INBOUND[2..], body, "\n");
    FindHere(OUTBOUND, rest);
    PassBody(before, OUTBOUND + rest, OUTBOUND, 1);
    var remainder := body + ("\n" + (OUTBOUND + rest));
    assert INBOUND[2..] + remainder == before + (OUTBOUND + rest);
    PassSigns(INBOUND, remainder, OUTBOUND);
  }

  lemma OutboundCount(body: string, rest: string)
    requires NoHeading(body) && NoHeading(rest)
    ensures var text := INBOUND + (body + ("\n" + (OUTBOUND + rest)));
            Count(text, OUTBOUND) == 1 && SplitOnce(text, OUTBOUND).Some? && SplitOnce(text, OUTBOUND).value.1 == rest
  {
    Headings();
    OutboundFound(body, rest);
    var before := INBOUND + body + "\n";
    assert INBOUND + (body + ("\n" + (OUTBOUND + rest))) == before + (OUTBOUND + rest);
    Cut(before, OUTBOUND, rest);
    NoHeadingFound(rest, OUTBOUND, 1);
  }

  // ----- the ledger -----

  lemma SectionsFound(quote: string -> string, unescape: string -> string, inbound: seq<Edge>, outbound: seq<Edge>)
    requires AllPrintable(quote, unescape, inbound) && AllPrintable(quote, unescape, outbound) && inbound != [] && outbound != []
    ensures SectionBlock(PrintLedger(quote, inbound, outbound), INBOUND) == Good(PrintLines(quote, inbound))
    ensures SectionBlock(PrintLedger(quote, inbound, outbound), OUTBOUND) == Good(PrintLines(quote, outbound))
  {
    var body, rest := PrintBody(quote, inbound), PrintBody(quote, outbound);
    BodyFree(quote, unescape, inbound);
    BodyFree(quote, unescape, outbound);
    InboundCount(body, rest);
    OutboundCount(body, rest);
    var remainder := body + ("\n" + (OUTBOUND + rest));
    NextHeadingFound(body, rest);
    BlockOfBody(quote, unescape, inbound, remainder);
    NoHeadingFound(rest, NEXT_HEADING, 2);
    BlockOfBody(quote, unescape, outbound, rest);
  }

  lemma NextHeadingFound(body: string, rest: string)
    requires NoHeading(body) && body != "" && body[|body| - 1] == '\n'
    ensures SplitOnce(body + ("\n" + (OUTBOUND + rest)), NEXT_HEADING) == Some((body, OUTBOUND_NAME + rest))
  {
    HeadingSplit(OUTBOUND_NAME, rest);
    var after := OUTBOUND_NAME + rest;
    FindHere(NEXT_HEADING, after);
    PassBody(body, NEXT_HEADING + after, NEXT_HEADING, 2);
    Cut(body, NEXT_HEADING, after);
  }

  lemma HeadingSplit(name: string, rest: string)
    ensures "\n" + (("## " + name) + rest) == NEXT_HEADING + (name + rest)
  {
  }

  /** Printing any two non-empty lists of distinct edges and loading the text returns exactly
      those edges; a repeated edge is refused. */
  lemma LedgerRoundTrips(quote: string -> string, unescape: string -> string, inbound: seq<Edge>, outbound: seq<Edge>)
    requires AllPrintable(quote, unescape, inbound) && AllPrintable(quote, unescape, outbound) && inbound != [] && outbound != []
    ensures LoadLedger(unescape, PrintLedger(quote, inbound, outbound)) ==
            if NoRepeat(inbound) && NoRepeat(outbound) then Good((SetOf(inbound), SetOf(outbound)))
            else Bad(DuplicateEdge)
  {
    SectionsFound(quote, unescape, inbound, outbound);
    LinesParseBack(quote, unescape, inbound);
    LinesParseBack(quote, unescape, outbound);
  }

  lemma {:induction false} Listed(edges: set<Edge>) returns (list: seq<Edge>)
    ensures SetOf(list) == edges && NoRepeat(list)
    decreases edges
  {
    list := [];
    if edges != {} {
      var e :| e in edges;
      var rest := Listed(edges - {e});
      list := [e] + rest;
      NoRepeatCons(e, rest);
      assert e !in SetOf(rest);
      assert SetOf(list) == {e} + SetOf(rest);
    }
  }

}
