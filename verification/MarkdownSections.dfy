/**
 Why offsets found in the structure view may be used to cut the visible view.
 */
module MarkdownSections {
  import opened MarkdownViews

  function Join(lines: seq<string>): string {
    if lines == [] then "" else Join(lines[..|lines| - 1]) + lines[|lines| - 1]
  }

  /** Where line `i` starts in the joined text. */
  function Offset(lines: seq<string>, i: nat): nat
    requires i <= |lines|
  {
    |Join(lines[..i])|
  }

  /** Every line of the view is the source line or its blank. */
  predicate IsView(lines: seq<string>, view: seq<string>) {
    |view| == |lines| && forall i :: 0 <= i < |lines| ==> view[i] == lines[i] || view[i] == Mask(lines[i])
  }

  /** Same length, same line breaks in the same places, and blanks where anything is hidden. */
  predicate Aligned(text: string, view: string) {
    && |view| == |text|
    && forall p :: 0 <= p < |text| ==>
         && (Break(text[p]) <==> Break(view[p]))
         && (view[p] == text[p] || (view[p] == ' ' && !Break(text[p])))
  }

  lemma ProjectionsAreViews(lines: seq<string>, tokens: seq<Token>)
    ensures IsView(lines, Structure(lines, tokens)) && IsView(lines, Visible(lines, tokens))
  {
  }

  /** A view keeps the source's length and line breaks. */
  lemma {:induction false} ViewAligned(lines: seq<string>, view: seq<string>)
    requires IsView(lines, view)
    ensures Aligned(Join(lines), Join(view))
    decreases |lines|
  {
    if lines != [] {
      var last := |lines| - 1;
      ViewAligned(lines[..last], view[..last]);
      var a, b := Join(lines[..last]), Join(view[..last]);
      forall p | |a| <= p < |a| + |lines[last]|
        ensures (a + lines[last])[p] == lines[last][p - |a|] && (b + view[last])[p] == view[last][p - |a|]
      {
      }
    }
  }

  lemma ViewOffsets(lines: seq<string>, view: seq<string>, i: nat)
    requires IsView(lines, view) && i <= |lines|
    ensures Offset(view, i) == Offset(lines, i)
  {
    ViewAligned(lines[..i], view[..i]);
  }

  lemma {:induction false} JoinSplit(lines: seq<string>, i: nat)
    requires i <= |lines|
    ensures Join(lines) == Join(lines[..i]) + Join(lines[i..])
    decreases |lines|
  {
    if i == |lines| {
      assert lines[..i] == lines && lines[i..] == [];
    } else {
      var last := |lines| - 1;
      JoinSplit(lines[..last], i);
      assert lines[..last][..i] == lines[..i] && lines[..last][i..] == lines[i..][..last - i];
      assert lines[i..][|lines[i..]| - 1] == lines[last];
    }
  }

  /** Cutting a text between two line starts gives the lines between them. */
  lemma CutLines(lines: seq<string>, i: nat, j: nat)
    requires i <= j <= |lines|
    ensures Offset(lines, i) <= Offset(lines, j) <= |Join(lines)|
    ensures Join(lines)[Offset(lines, i)..Offset(lines, j)] == Join(lines[i..j])
  {
    JoinSplit(lines, j);
    JoinSplit(lines[..j], i);
    assert lines[..j][..i] == lines[..i] && lines[..j][i..] == lines[i..j];
    var a, b, c := Join(lines[..i]), Join(lines[i..j]), Join(lines[j..]);
    assert Join(lines) == (a + b) + c;
    assert ((a + b) + c)[|a|..|a + b|] == b;
  }

  /** A section found by offsets in one view, from a place in line `h` to the start of line `n`,
      selects the rest of line `h` and exactly the lines up to `n` of the other view. */
  lemma SectionSelectsLines(lines: seq<string>, tokens: seq<Token>, h: nat, column: nat, n: nat)
    requires h < n <= |lines| && column <= |lines[h]|
    ensures var structure, visible := Structure(lines, tokens), Visible(lines, tokens);
            var from, to := Offset(structure, h) + column, Offset(structure, n);
            && from <= to <= |Join(visible)| == |Join(structure)|
            && Join(visible)[from..to] == visible[h][column..] + Join(visible[h + 1..n])
            && Join(structure)[from..to] == structure[h][column..] + Join(structure[h + 1..n])
  {
    var structure, visible := Structure(lines, tokens), Visible(lines, tokens);
    ProjectionsAreViews(lines, tokens);
    ViewAligned(lines, structure);
    ViewAligned(lines, visible);
    ViewOffsets(lines, structure, h);
    ViewOffsets(lines, visible, h);
    ViewOffsets(lines, structure, n);
    ViewOffsets(lines, visible, n);
    CutFrom(structure, h, column, n);
    CutFrom(visible, h, column, n);
  }

  lemma CutFrom(view: seq<string>, h: nat, column: nat, n: nat)
    requires h < n <= |view| && column <= |view[h]|
    ensures Offset(view, h) + column <= Offset(view, n) <= |Join(view)|
    ensures Join(view)[Offset(view, h) + column..Offset(view, n)] == view[h][column..] + Join(view[h + 1..n])
  {
    CutLines(view, h, n);
    JoinSplit(view[h..n], 1);
    assert view[h..n][..1] == [view[h]] && view[h..n][1..] == view[h + 1..n];
    assert Join([view[h]]) == view[h] by { assert [view[h]][..0] == []; }
    var text := Join(view)[Offset(view, h)..Offset(view, n)];
    assert text == view[h] + Join(view[h + 1..n]);
    assert Join(view)[Offset(view, h) + column..Offset(view, n)] == text[column..];
  }

  /** The views and the refusal depend only on which tokens there are, not on their order. */
  lemma OrderIrrelevant(lines: seq<string>, tokens: seq<Token>, others: seq<Token>, p: Patterns)
    requires forall t :: t in tokens ==> InRange(t, |lines|)
    requires forall t :: t in tokens <==> t in others
    ensures Structure(lines, tokens) == Structure(lines, others)
    ensures Visible(lines, tokens) == Visible(lines, others)
    ensures (exists t :: t in tokens && Faulty(lines, t, p)) <==> (exists t :: t in others && Faulty(lines, t, p))
  {
    forall i | 0 <= i < |lines|
      ensures StructuralAt(lines, tokens, i) == StructuralAt(lines, others, i)
      ensures VisibleAt(tokens, i) == VisibleAt(others, i)
    {
      assert InlineAt(tokens, i) == InlineAt(others, i);
      assert HtmlAt(tokens, i) == HtmlAt(others, i);
      assert TableRowAt(tokens, i) == TableRowAt(others, i);
    }
  }

  /** No cell restores a line that another cell gave HTML: such a line is blank structure. */
  lemma HtmlIsNeverStructure(lines: seq<string>, tokens: seq<Token>, t: Token, i: nat)
    requires t in tokens && HasHtml(t) && Covers(t, i) && i < |lines|
    ensures Structure(lines, tokens)[i] == Mask(lines[i])
  {
  }
}
