/**
 The frozen import ledger of the authorization boundary: its text form, the parser that loads
 it, and the validator that compares it with the scanned tree.
 */
module BoundaryLedger {
  import opened Wrappers
  import opened TextOps

  datatype Edge = Edge(source: string, target: string)

  const INBOUND_NAME: string := "Inbound private-import debt"
  const OUTBOUND_NAME: string := "AUTH outbound private-import debt"
  const INBOUND: string := "## " + INBOUND_NAME
  const OUTBOUND: string := "## " + OUTBOUND_NAME
  const NEXT_HEADING: string := "\n## "
  const FENCE_TEXT: string := "```text"
  const FENCE: string := "```"

  datatype Fault = InvalidHeading | InvalidBlock | InvalidEdge | DuplicateEdge | InvalidSource | EmptySection
                 | InboundMismatch | OutboundMismatch

  datatype Loaded<+T> = Good(value: T) | Bad(fault: Fault)

  // ----- the parser -----

  /** The lines of the only fenced text block before the next heading. */
  function BlockIn(remainder: string): Loaded<seq<string>> {
    var next := SplitOnce(remainder, NEXT_HEADING);
    var beforeNext := if next.Some? then next.value.0 else remainder;
    var parts := Split(beforeNext, FENCE_TEXT);
    if |parts| != 2 || !Contains(parts[1], FENCE) then Bad(InvalidBlock) else
    var (block, tail) := SplitOnce(parts[1], FENCE).value;
    if Contains(tail, FENCE) then Bad(InvalidBlock) else Good(SplitLines(Strip(block)))
  }

  /** The block under a heading that stands in the text once. */
  function SectionBlock(text: string, heading: string): Loaded<seq<string>>
    requires heading != ""
  {
    if Count(text, heading) != 1 then Bad(InvalidHeading) else BlockIn(SplitOnce(text, heading).value.1)
  }

  /** The state of the line parser: the source being listed and the edges so far. */
  datatype Reading = Reading(source: Option<string>, edges: set<Edge>)

  function ReadLine(unescape: string -> string, s: Reading, raw: string): Loaded<Reading> {
    if Strip(raw) == "" then Good(s)
    else if StartsWith(raw, "  ") then
      if s.source.None? || StartsWith(raw, "   ") then Bad(InvalidEdge) else
      var edge := Edge(s.source.value, Strip(raw));
      if edge in s.edges then Bad(DuplicateEdge) else Good(s.(edges := s.edges + {edge}))
    else
      var source := unescape(Strip(raw));
      if !StartsWith(source, "backend/app/") || !EndsWith(source, ".py") then Bad(InvalidSource)
      else Good(s.(source := Some(source)))
  }

  function ReadLines(unescape: string -> string, s: Reading, lines: seq<string>): Loaded<Reading>
    decreases |lines|
  {
    if lines == [] then Good(s) else
    var first := ReadLine(unescape, s, lines[0]);
    if first.Bad? then first else ReadLines(unescape, first.value, lines[1..])
  }

  function EdgesOf(unescape: string -> string, lines: seq<string>): Loaded<set<Edge>> {
    var r := ReadLines(unescape, Reading(None, {}), lines);
    if r.Bad? then Bad(r.fault)
    else if r.value.edges == {} then Bad(EmptySection)
    else Good(r.value.edges)
  }

  /** The parsing loop. */
  method ParseEdges(unescape: string -> string, lines: seq<string>) returns (r: Loaded<set<Edge>>)
    ensures r == EdgesOf(unescape, lines)
  {
    var state := Reading(None, {});
    ghost var whole := ReadLines(unescape, state, lines);
    for i := 0 to |lines|
      invariant ReadLines(unescape, state, lines[i..]) == whole
    {
      var raw := lines[i];
      assert lines[i..][0] == raw && lines[i..][1..] == lines[i + 1..];
      if Strip(raw) == "" {
        continue;
      }
      if StartsWith(raw, "  ") {
        if state.source.None? || StartsWith(raw, "   ") {
          return Bad(InvalidEdge);
        }
        var edge := Edge(state.source.value, Strip(raw));
        if edge in state.edges {
          return Bad(DuplicateEdge);
        }
        state := state.(edges := state.edges + {edge});
        continue;
      }
      var source := unescape(Strip(raw));
      if !StartsWith(source, "backend/app/") || !EndsWith(source, ".py") {
        return Bad(InvalidSource);
      }
      state := state.(source := Some(source));
    }
    assert lines[|lines|..] == [];
    if state.edges == {} {
      return Bad(EmptySection);
    }
    r := Good(state.edges);
  }

  function LoadLedger(unescape: string -> string, text: string): Loaded<(set<Edge>, set<Edge>)> {
    var inLines := SectionBlock(text, INBOUND);
    if inLines.Bad? then Bad(inLines.fault) else
    var inEdges := EdgesOf(unescape, inLines.value);
    if inEdges.Bad? then Bad(inEdges.fault) else
    var outLines := SectionBlock(text, OUTBOUND);
    if outLines.Bad? then Bad(outLines.fault) else
    var outEdges := EdgesOf(unescape, outLines.value);
    if outEdges.Bad? then Bad(outEdges.fault) else
    Good((inEdges.value, outEdges.value))
  }

  /** The ledger must equal the scanned edges exactly. */
  function Validate(unescape: string -> string, text: string, inbound: set<Edge>, outbound: set<Edge>): Loaded<()> {
    var ledger := LoadLedger(unescape, text);
    if ledger.Bad? then Bad(ledger.fault)
    else if ledger.value.0 != inbound then Bad(InboundMismatch)
    else if ledger.value.1 != outbound then Bad(OutboundMismatch)
    else Good(())
  }

  // ----- the printed form -----

  /** No space, fence or heading character: what dotted names are made of. */
  predicate Plain(s: string) {
    s != "" && forall i :: 0 <= i < |s| ==> !Space(s[i]) && s[i] != '`' && s[i] != '#'
  }

  predicate NoFence(s: string) {
    forall i :: 0 <= i < |s| - 2 ==> !(s[i] == '`' && s[i + 1] == '`' && s[i + 2] == '`')
  }

  /** What a line of a section can hold. */
  predicate Line(q: string) {
    q != "" && OneLine(q) && !Space(q[0]) && !Space(q[|q| - 1]) && NoFence(q)
  }

  predicate InApplication(source: string) { StartsWith(source, "backend/app/") && EndsWith(source, ".py") }

  /** The source has a quoted form of one line without blanks, and the target is a dotted name. */
  predicate Printable(quote: string -> string, unescape: string -> string, e: Edge) {
    && Plain(e.target) && InApplication(e.source)
    && Line(quote(e.source)) && Free(quote(e.source), ' ') && unescape(quote(e.source)) == e.source
  }

  function PrintLines(quote: string -> string, edges: seq<Edge>): seq<string> {
    if edges == [] then [] else [quote(edges[0].source), "  " + edges[0].target] + PrintLines(quote, edges[1..])
  }

  function PrintBody(quote: string -> string, edges: seq<Edge>): string {
    "\n\n" + (FENCE_TEXT + (("\n" + JoinLines(PrintLines(quote, edges)) + "\n") + (FENCE + "\n")))
  }

  function PrintLedger(quote: string -> string, inbound: seq<Edge>, outbound: seq<Edge>): string {
    INBOUND + (PrintBody(quote, inbound) + ("\n" + (OUTBOUND + PrintBody(quote, outbound))))
  }

  // ----- lines -----

  /** A hash sign is never followed by a blank, so nothing in the text looks like a heading. */
  predicate NoHeading(s: string) {
    forall i :: 0 <= i < |s| - 1 ==> !(s[i] == '#' && s[i + 1] == ' ')
  }

  predicate Harmless(line: string) { line != "" && OneLine(line) && NoFence(line) && NoHeading(line) }

  lemma TargetLine(target: string)
    requires Plain(target)
    ensures Harmless("  " + target)
  {
    var line := "  " + target;
    assert forall i :: 2 <= i < |line| ==> line[i] == target[i - 2];
  }

  lemma {:induction false} PrintedLines(quote: string -> string, unescape: string -> string, edges: seq<Edge>)
    requires forall e :: e in edges ==> Printable(quote, unescape, e)
    ensures forall i :: 0 <= i < |PrintLines(quote, edges)| ==> Harmless(PrintLines(quote, edges)[i])
    ensures edges != [] ==>
              |PrintLines(quote, edges)| >= 2 && PrintLines(quote, edges)[0] != "" && !Space(PrintLines(quote, edges)[0][0])
              && PrintLines(quote, edges)[|PrintLines(quote, edges)| - 1] == "  " + edges[|edges| - 1].target
  {
    if edges != [] {
      PrintedLines(quote, unescape, edges[1..]);
      assert Printable(quote, unescape, edges[0]);
      TargetLine(edges[0].target);
      var q := quote(edges[0].source);
      assert NoHeading(q);
    }
  }

  lemma StripTarget(target: string)
    requires Plain(target)
    ensures Strip("  " + target) == target
  {
    StripLeftKeeps("  ", target);
    StripRightKeeps(target, "");
    assert target + "" == target;
  }

  lemma StripLine(s: string)
    requires s != "" && !Space(s[0]) && !Space(s[|s| - 1])
    ensures Strip(s) == s
  {
    StripLeftKeeps("", s);
    StripRightKeeps(s, "");
    assert "" + s == s && s + "" == s;
  }

  /** Reading one printed edge adds it, or reports that it is there already. */
  lemma ReadPrinted(quote: string -> string, unescape: string -> string, s: Reading, e: Edge, rest: seq<string>)
    requires Printable(quote, unescape, e)
    ensures ReadLines(unescape, s, [quote(e.source), "  " + e.target] + rest) ==
            if e in s.edges then Bad(DuplicateEdge)
            else ReadLines(unescape, Reading(Some(e.source), s.edges + {e}), rest)
  {
    var q := quote(e.source);
    StripLine(q);
    StripTarget(e.target);
    var lines := [q, "  " + e.target] + rest;
    assert lines[1..][0] == "  " + e.target && lines[1..][1..] == rest;
    assert !StartsWith(q, "  ") by { assert Space(' '); }
    var line := "  " + e.target;
    assert line[..2] == "  ";
    assert line[2] == e.target[0];
    assert !StartsWith(line, "   ") by { assert line[..3][2] == e.target[0]; }
    assert ReadLine(unescape, s, q) == Good(s.(source := Some(e.source)));
    ReadTwo(unescape, s, lines);
  }

  lemma ReadTwo(unescape: string -> string, s: Reading, lines: seq<string>)
    requires |lines| >= 2
    ensures ReadLines(unescape, s, lines) ==
            var first := ReadLine(unescape, s, lines[0]);
            if first.Bad? then first else
            var second := ReadLine(unescape, first.value, lines[1]);
            if second.Bad? then second else ReadLines(unescape, second.value, lines[2..])
  {
    assert lines[1..][1..] == lines[2..];
  }
}
