/**
 The required sections of a record: a heading is searched in the structure view, and what stands
 in the visible view between it and the next heading must say something.
 */
module SectionBodies {
  import opened TextOps
  import opened MarkdownViews
  import opened MarkdownSections

  // ----- the search -----

  /** Past the blanks and tabs at `q`. */
  function SkipBlanks(s: string, q: nat): (r: nat)
    requires q <= |s|
    ensures q <= r <= |s|
    decreases |s| - q
  {
    if q < |s| && (s[q] == ' ' || s[q] == '\t') then SkipBlanks(s, q + 1) else q
  }

  /** The heading, alone on a line but for blanks after it, begins at `p`. */
  predicate HeadingAt(s: string, heading: string, p: nat) {
    && MatchesAt(s, heading, p) && (p == 0 || s[p - 1] == '\n')
    && var q := SkipBlanks(s, p + |heading|);
    (q == |s| || s[q] == '\n')
  }

  /** In what follows `q`, a line begins at `j` with two hash signs and white space. */
  predicate NextAt(s: string, q: nat, j: nat) {
    && q <= j && j + 3 <= |s| && (j == q || s[j - 1] == '\n')
    && s[j] == '#' && s[j + 1] == '#' && Space(s[j + 2])
  }

  /** The section runs from `from`, right after its heading at `p`, to `to`. */
  ghost predicate SectionAt(s: string, heading: string, p: nat, from: nat, to: nat) {
    && HeadingAt(s, heading, p) && (forall j: nat :: j < p ==> !HeadingAt(s, heading, j))
    && from == SkipBlanks(s, p + |heading|)
    && from <= to <= |s| && (to == |s| || NextAt(s, from, to)) && forall j :: from <= j < to ==> !NextAt(s, from, j)
  }

  predicate HasSubstance(body: string) {
    exists i :: 0 <= i < |SplitLines(body)| && Strip(SplitLines(body)[i]) != "" && !StartsWith(StripLeft(SplitLines(body)[i]), "#")
  }

  datatype Verdict = FieldMissing | FieldEmpty | FieldPresent

  /** Finds the section in the structure and looks at the same place of the visible text. */
  method RequiredSectionBody(visible: string, structure: string, heading: string)
    returns (r: Verdict, ghost p: nat, ghost from: nat, ghost to: nat)
    requires |visible| == |structure|
    ensures r == FieldMissing <==> forall j: nat :: !HeadingAt(structure, heading, j)
    ensures r != FieldMissing ==>
              && SectionAt(structure, heading, p, from, to)
              && (r == FieldPresent <==> HasSubstance(visible[from..to]))
  {
    var i := 0;
    p, from, to := 0, 0, 0;
    while i <= |structure| && !HeadingAt(structure, heading, i)
      invariant i <= |structure| + 1 && forall j: nat :: j < i ==> !HeadingAt(structure, heading, j)
    {
      i := i + 1;
    }
    if i > |structure| {
      return FieldMissing, p, from, to;
    }
    var start := SkipBlanks(structure, i + |heading|);
    var stop := start;
    while stop < |structure| && !NextAt(structure, start, stop)
      invariant start <= stop <= |structure| && forall j :: start <= j < stop ==> !NextAt(structure, start, j)
    {
      stop := stop + 1;
    }
    p, from, to := i, start, stop;
    r := if HasSubstance(visible[start..stop]) then FieldPresent else FieldEmpty;
  }

  // ----- the section is a run of lines -----

  /** Lines as `splitlines` leaves them: none empty, a line feed only at the end of one, and a line
      break at the end of each but the last. */
  predicate Lines(lines: seq<string>) { forall i :: 0 <= i < |lines| ==> Ended(lines, i) }

  predicate Ended(lines: seq<string>, i: nat)
    requires i < |lines|
  {
    && lines[i] != "" && (forall c :: 0 <= c < |lines[i]| - 1 ==> lines[i][c] != '\n')
    && (i < |lines| - 1 ==> LineBreak(lines[i][|lines[i]| - 1]))
  }

  /** A heading is one line and begins with a character that masking would blank. */
  predicate IsHeading(heading: string) { heading != "" && OneLine(heading) && heading[0] != ' ' }

  /** Every position of the text lies in one line. */
  lemma {:induction false} Locate(lines: seq<string>, x: nat) returns (i: nat, c: nat)
    requires x < |Join(lines)|
    ensures i < |lines| && c < |lines[i]| && x == Offset(lines, i) + c && Join(lines)[x] == lines[i][c]
    decreases |lines|
  {
    var last := |lines| - 1;
    var before := Join(lines[..last]);
    if x < |before| {
      i, c := Locate(lines[..last], x);
      assert lines[..last][..i] == lines[..i];
    } else {
      i, c := last, x - |before|;
    }
  }

  lemma NextOffset(lines: seq<string>, i: nat)
    requires i < |lines|
    ensures Offset(lines, i + 1) == Offset(lines, i) + |lines[i]|
  {
    assert lines[..i + 1][..i] == lines[..i];
  }

  /** A view has its line feeds where the source has them. */
  lemma ViewFeeds(lines: seq<string>, view: seq<string>, i: nat, c: nat)
    requires IsView(lines, view) && i < |lines| && c < |view[i]|
    ensures c < |lines[i]| && (view[i][c] == '\n' <==> lines[i][c] == '\n')
  {
  }

  /** After a line feed of the view a line begins. */
  lemma LineBegins(lines: seq<string>, view: seq<string>, p: nat) returns (h: nat)
    requires Lines(lines) && IsView(lines, view) && p < |Join(view)| && (p == 0 || Join(view)[p - 1] == '\n')
    ensures h < |lines| && p == Offset(view, h)
  {
    WholeLength(view);
    assert view[..0] == [];
    if p == 0 {
      h := 0;
    } else {
      var i, c := Locate(view, p - 1);
      assert Ended(lines, i);
      ViewFeeds(lines, view, i, c);
      NextOffset(view, i);
      h := i + 1;
    }
  }

  lemma WholeLength(view: seq<string>)
    ensures Offset(view, |view|) == |Join(view)|
  {
    assert view[..|view|] == view;
  }

  lemma OffsetOrder(view: seq<string>, a: nat, b: nat)
    requires a <= |view| && b <= |view| && Offset(view, a) < Offset(view, b)
    ensures a < b
  {
    if b <= a { CutLines(view, b, a); }
  }

  lemma {:induction false} BlanksOnly(s: string, q: nat)
    requires q <= |s|
    ensures forall j :: q <= j < SkipBlanks(s, q) ==> s[j] == ' ' || s[j] == '\t'
    decreases |s| - q
  {
    if q < |s| && (s[q] == ' ' || s[q] == '\t') { BlanksOnly(s, q + 1); }
  }

  /** A line is where its offset says. */
  lemma LineAt(view: seq<string>, h: nat)
    requires h < |view|
    ensures Offset(view, h) + |view[h]| == Offset(view, h + 1) <= |Join(view)|
    ensures Join(view)[Offset(view, h)..Offset(view, h) + |view[h]|] == view[h]
    ensures h == |view| - 1 ==> Offset(view, h) + |view[h]| == |Join(view)|
  {
    CutLines(view, h, h + 1);
    NextOffset(view, h);
    WholeLength(view);
    JoinOne(view[h]);
    assert view[h..h + 1] == [view[h]];
  }

  lemma JoinOne(line: string)
    ensures Join([line]) == line
  {
    assert [line][..0] == [];
  }

  lemma NoBreakInHeading(s: string, heading: string, p: nat)
    requires HeadingAt(s, heading, p) && OneLine(heading)
    ensures forall j :: p <= j < SkipBlanks(s, p + |heading|) ==> !LineBreak(s[j])
  {
    BlanksOnly(s, p + |heading|);
    forall j | p <= j < p + |heading| ensures !LineBreak(s[j]) {
      assert s[p..p + |heading|][j - p] == heading[j - p];
    }
  }

  /** A line of a view that begins with a heading is not blanked. */
  lemma HeadingShown(lines: seq<string>, view: seq<string>, heading: string, h: nat)
    requires IsView(lines, view) && IsHeading(heading) && h < |lines|
    requires view[h] != "" && view[h][0] == heading[0]
    ensures view[h] == lines[h]
  {
    assert !LineBreak(heading[0]);
  }

  /** A heading, with the blanks after it, ends in the line it begins in. */
  lemma EndsInLine(s: string, heading: string, p: nat, line: string)
    requires HeadingAt(s, heading, p) && OneLine(heading) && line != "" && p + |line| <= |s| && s[p..p + |line|] == line
    requires p + |line| == |s| || LineBreak(line[|line| - 1])
    ensures SkipBlanks(s, p + |heading|) <= p + |line|
  {
    NoBreakInHeading(s, heading, p);
    var last := p + |line| - 1;
    assert s[last] == line[|line| - 1];
  }

  lemma LineKept(lines: seq<string>, view: seq<string>, heading: string, h: nat)
    requires Lines(lines) && IsView(lines, view) && IsHeading(heading) && h < |lines|
    requires MatchesAt(Join(view), heading, Offset(view, h))
    ensures view[h] != "" && (h < |lines| - 1 ==> LineBreak(view[h][|view[h]| - 1]))
  {
    assert Ended(lines, h);
    LineAt(view, h);
    FirstChar(Join(view), Offset(view, h), view[h], heading);
    HeadingShown(lines, view, heading, h);
  }

  lemma FirstChar(s: string, p: nat, line: string, heading: string)
    requires heading != "" && MatchesAt(s, heading, p) && p + |line| <= |s| && s[p..p + |line|] == line && line != ""
    ensures line[0] == heading[0]
  {
    assert s[p..p + |line|][0] == s[p] && s[p..p + |heading|][0] == s[p];
  }

  /** A section found in a view begins inside a line and ends where a line begins. */
  lemma SectionLines(lines: seq<string>, view: seq<string>, heading: string, p: nat, from: nat, to: nat)
    returns (h: nat, column: nat, n: nat)
    requires Lines(lines) && IsView(lines, view) && IsHeading(heading)
    requires SectionAt(Join(view), heading, p, from, to)
    ensures h < n <= |lines| && column <= |lines[h]|
    ensures p == Offset(view, h) && from == p + column && to == Offset(view, n)
  {
    h, column := SectionBegins(lines, view, heading, p, from);
    n := SectionEnds(lines, view, from, to);
    OffsetOrder(view, h, n);
  }

  lemma SectionBegins(lines: seq<string>, view: seq<string>, heading: string, p: nat, from: nat)
    returns (h: nat, column: nat)
    requires Lines(lines) && IsView(lines, view) && IsHeading(heading)
    requires HeadingAt(Join(view), heading, p) && from == SkipBlanks(Join(view), p + |heading|)
    ensures h < |lines| && column <= |lines[h]| && p == Offset(view, h) && from == p + column && 0 < column
  {
    h := LineBegins(lines, view, p);
    LineKept(lines, view, heading, h);
    LineAt(view, h);
    EndsInLine(Join(view), heading, p, view[h]);
    column := from - p;
  }

  lemma SectionEnds(lines: seq<string>, view: seq<string>, from: nat, to: nat) returns (n: nat)
    requires Lines(lines) && IsView(lines, view) && 0 < from <= to
    requires to == |Join(view)| || (NextAt(Join(view), from, to) && Join(view)[to - 1] == '\n')
    ensures n <= |lines| && to == Offset(view, n)
  {
    if to == |Join(view)| {
      n := |lines|;
      WholeLength(view);
    } else {
      n := LineBegins(lines, view, to);
    }
  }

  /** What the check reads of a section is the rest of the heading's line and then exactly the
      visible lines down to the next heading of the structure or the end of the record. */
  lemma SectionIsLines(lines: seq<string>, tokens: seq<Token>, heading: string, p: nat, from: nat, to: nat)
    returns (h: nat, column: nat, n: nat)
    requires Lines(lines) && IsHeading(heading)
    requires SectionAt(Join(Structure(lines, tokens)), heading, p, from, to)
    ensures h < n <= |lines| && column <= |lines[h]|
    ensures var structure, visible := Structure(lines, tokens), Visible(lines, tokens);
            && p == Offset(structure, h) && from == p + column && to == Offset(structure, n)
            && |Join(visible)| == |Join(structure)|
            && Join(visible)[from..to] == visible[h][column..] + Join(visible[h + 1..n])
  {
    ProjectionsAreViews(lines, tokens);
    h, column, n := SectionLines(lines, Structure(lines, tokens), heading, p, from, to);
    SectionSelectsLines(lines, tokens, h, column, n);
  }
}
