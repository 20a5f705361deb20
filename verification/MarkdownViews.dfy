/**
 Projecting a record's Markdown tokens onto its source lines: one view keeps live structure, one
 keeps visible content, and everything else is blanked in place.
 */
module MarkdownViews {
  import opened Wrappers
  import opened TextOps

  datatype Child = HtmlInline | Image | TextChild(content: string) | CodeInline(content: string) | OtherChild

  datatype Kind = Inline(children: seq<Child>) | CodeBlock | Fence(markup: string) | TableRow | OtherToken

  /** A token of the tokenizer with the source lines it covers, if it covers any. */
  datatype Token = Token(kind: Kind, lines: Option<(nat, nat)>)

  /** What the two fence patterns say about a line: whether it opens a backtick fence whose info
      string holds a backtick, and the fence it closes. */
  datatype Patterns = Patterns(badOpener: string -> bool, closer: string -> Option<(char, nat)>)

  predicate Break(c: char) { c == '\r' || c == '\n' }

  /** Keeps line breaks and blanks the rest. */
  function Mask(line: string): (m: string)
    ensures |m| == |line|
    ensures forall i :: 0 <= i < |line| ==> m[i] == if Break(line[i]) then line[i] else ' '
  {
    if line == "" then "" else [if Break(line[0]) then line[0] else ' '] + Mask(line[1..])
  }

  predicate Blank(s: string) { forall i :: 0 <= i < |s| ==> Space(s[i]) }

  /** Ranges lie in the text; a fence covers at least its opening line. */
  predicate InRange(t: Token, count: nat) {
    t.lines.Some? ==> t.lines.value.0 <= t.lines.value.1 <= count && (t.kind.Fence? ==> t.lines.value.0 < t.lines.value.1 && |t.kind.markup| > 0)
  }

  // ----- what each line of the views should be -----

  predicate Covers(t: Token, i: int) { t.lines.Some? && t.lines.value.0 <= i < t.lines.value.1 }

  predicate HasHtml(t: Token) { t.kind.Inline? && HtmlInline in t.kind.children }

  predicate Substantive(c: Child) {
    c == Image || (c.TextChild? && !Blank(c.content)) || (c.CodeInline? && !Blank(c.content))
  }

  predicate HasContent(t: Token) {
    t.kind.Inline? && exists c :: c in t.kind.children && Substantive(c)
  }

  predicate TableRowAt(tokens: seq<Token>, i: int) {
    exists t :: t in tokens && t.kind.TableRow? && t.lines.Some? && t.lines.value.0 == i
  }

  predicate Stray(lines: seq<string>, tokens: seq<Token>, i: nat)
    requires i < |lines|
  {
    |lines[i]| > 0 && lines[i][0] == '|' && !TableRowAt(tokens, i)
  }

  /** The token shows line `i` in the visible view. */
  predicate Shows(t: Token, i: int) {
    match t.kind
    case Inline(_) => HasContent(t) && Covers(t, i)
    case CodeBlock => Covers(t, i)
    case Fence(_) => t.lines.Some? && t.lines.value.0 < i < t.lines.value.1 - 1
    case _ => false
  }

  predicate InlineAt(tokens: seq<Token>, i: int) { exists t :: t in tokens && t.kind.Inline? && Covers(t, i) }

  predicate HtmlAt(tokens: seq<Token>, i: int) { exists t :: t in tokens && HasHtml(t) && Covers(t, i) }

  predicate VisibleAt(tokens: seq<Token>, i: int) { exists t :: t in tokens && Shows(t, i) }

  predicate StructuralAt(lines: seq<string>, tokens: seq<Token>, i: nat)
    requires i < |lines|
  {
    InlineAt(tokens, i) && !Stray(lines, tokens, i) && !HtmlAt(tokens, i)
  }

  function Structure(lines: seq<string>, tokens: seq<Token>): seq<string> {
    seq(|lines|, i requires 0 <= i < |lines| => if StructuralAt(lines, tokens, i) then lines[i] else Mask(lines[i]))
  }

  function Visible(lines: seq<string>, tokens: seq<Token>): seq<string> {
    seq(|lines|, i requires 0 <= i < |lines| => if VisibleAt(tokens, i) then lines[i] else Mask(lines[i]))
  }

  /** A token the projection refuses: a malformed opener inside text, or a fence left open. */
  predicate Faulty(lines: seq<string>, t: Token, p: Patterns)
    requires InRange(t, |lines|)
  {
    t.lines.Some? &&
    var (start, end) := t.lines.value;
    match t.kind
    case Inline(_) => exists i :: start <= i < end && p.badOpener(lines[i])
    case Fence(markup) =>
      || end - start < 2
      || p.closer(lines[end - 1]).None?
      || p.closer(lines[end - 1]).value.0 != markup[0]
      || p.closer(lines[end - 1]).value.1 < |markup|
    case _ => false
  }

  // ----- the projection -----

  /** `target[start:end] = lines[start:end]`. */
  method Restore(target: array<string>, lines: seq<string>, start: nat, end: nat)
    requires target.Length == |lines| && start <= end <= |lines|
    modifies target
    ensures forall i :: 0 <= i < |lines| ==> target[i] == if start <= i < end then lines[i] else old(target[i])
  {
    for i := start to end
      invariant forall j :: 0 <= j < |lines| ==> target[j] == if start <= j < i then lines[j] else old(target[j])
    {
      target[i] := lines[i];
    }
  }

  method FindBadOpener(lines: seq<string>, start: nat, end: nat, p: Patterns) returns (bad: bool)
    requires start <= end <= |lines|
    ensures bad <==> exists i :: start <= i < end && p.badOpener(lines[i])
  {
    for i := start to end
      invariant forall j :: start <= j < i ==> !p.badOpener(lines[j])
    {
      if p.badOpener(lines[i]) { return true; }
    }
    bad := false;
  }

  /** Blanks the pipe lines of a stretch that do not belong to a table. */
  method BlankStray(masked: array<string>, lines: seq<string>, tokens: seq<Token>, start: nat, end: nat)
    requires masked.Length == |lines| && start <= end <= |lines|
    modifies masked
    ensures forall i :: 0 <= i < |lines| ==>
              masked[i] == if start <= i < end && Stray(lines, tokens, i) then Mask(lines[i]) else old(masked[i])
  {
    for i := start to end
      invariant forall j :: 0 <= j < |lines| ==>
                  masked[j] == if start <= j < i && Stray(lines, tokens, j) then Mask(lines[j]) else old(masked[j])
    {
      if Stray(lines, tokens, i) {
        masked[i] := Mask(lines[i]);
      }
    }
  }

  method AddRange(html0: set<int>, start: nat, end: nat) returns (html: set<int>)
    requires start <= end
    ensures forall i: int :: i in html <==> i in html0 || start <= i < end
  {
    html := html0;
    for i := start to end
      invariant forall j: int :: j in html <==> j in html0 || start <= j < i
    {
      html := html + {i};
    }
  }

  /** The state after the tokens of `done`: HTML lines are remembered and blanked only at the end. */
  ghost predicate Projected(lines: seq<string>, tokens: seq<Token>, done: seq<Token>,
                            masked: seq<string>, visible: seq<string>, html: set<int>)
  {
    && |masked| == |lines| && |visible| == |lines|
    && (forall i :: 0 <= i < |lines| ==>
          masked[i] == if InlineAt(done, i) && !Stray(lines, tokens, i) then lines[i] else Mask(lines[i]))
    && (forall i :: 0 <= i < |lines| ==> visible[i] == if VisibleAt(done, i) then lines[i] else Mask(lines[i]))
    && (forall i :: i in html <==> HtmlAt(done, i))
  }

  /** The views before and after one token, line by line. */
  ghost predicate Moved(lines: seq<string>, tokens: seq<Token>, t: Token,
                        masked0: seq<string>, visible0: seq<string>, html0: set<int>,
                        masked: seq<string>, visible: seq<string>, html: set<int>)
  {
    && |masked0| == |visible0| == |masked| == |visible| == |lines|
    && (forall i :: 0 <= i < |lines| ==>
          masked[i] == if t.kind.Inline? && Covers(t, i)
                       then (if Stray(lines, tokens, i) then Mask(lines[i]) else lines[i])
                       else masked0[i])
    && (forall i :: 0 <= i < |lines| ==> visible[i] == if Shows(t, i) then lines[i] else visible0[i])
    && (forall i :: i in html <==> i in html0 || (HasHtml(t) && Covers(t, i)))
  }

  lemma MovedProjects(lines: seq<string>, tokens: seq<Token>, done: seq<Token>, t: Token,
                      masked0: seq<string>, visible0: seq<string>, html0: set<int>,
                      masked: seq<string>, visible: seq<string>, html: set<int>)
    requires Projected(lines, tokens, done, masked0, visible0, html0)
    requires Moved(lines, tokens, t, masked0, visible0, html0, masked, visible, html)
    ensures Projected(lines, tokens, done + [t], masked, visible, html)
  {
    AddedToken(done, t);
  }

  /** Takes in one token, or reports the fault that stops the projection. */
  method ProjectToken(lines: seq<string>, tokens: seq<Token>, t: Token, p: Patterns,
                      masked: array<string>, visible: array<string>, html0: set<int>)
    returns (ok: bool, html: set<int>)
    requires masked != visible && masked.Length == |lines| && visible.Length == |lines| && InRange(t, |lines|)
    modifies masked, visible
    ensures ok <==> !Faulty(lines, t, p)
    ensures ok ==> Moved(lines, tokens, t, old(masked[..]), old(visible[..]), html0, masked[..], visible[..], html)
  {
    ok, html := true, html0;
    if t.lines.None? {
      return;
    }
    var (start, end) := t.lines.value;
    match t.kind
    case Inline(children) =>
      var bad := FindBadOpener(lines, start, end, p);
      if bad { return false, html; }
      if HtmlInline in children {
        html := AddRange(html, start, end);
      }
      Restore(masked, lines, start, end);
      if HasContent(t) {
        Restore(visible, lines, start, end);
      }
      BlankStray(masked, lines, tokens, start, end);
    case CodeBlock =>
      Restore(visible, lines, start, end);
    case Fence(markup) =>
      var closing := p.closer(lines[end - 1]);
      if end - start < 2 || closing.None? || closing.value.0 != markup[0] || closing.value.1 < |markup| {
        return false, html;
      }
      Restore(visible, lines, start + 1, end - 1);
    case _ =>
  }

  lemma AddedToken(done: seq<Token>, t: Token)
    ensures forall i :: InlineAt(done + [t], i) <==> InlineAt(done, i) || (t.kind.Inline? && Covers(t, i))
    ensures forall i :: HtmlAt(done + [t], i) <==> HtmlAt(done, i) || (HasHtml(t) && Covers(t, i))
    ensures forall i :: VisibleAt(done + [t], i) <==> VisibleAt(done, i) || Shows(t, i)
  {
  }

  lemma NothingYet(lines: seq<string>, tokens: seq<Token>, masked: seq<string>)
    requires |masked| == |lines| && forall i :: 0 <= i < |lines| ==> masked[i] == Mask(lines[i])
    ensures Projected(lines, tokens, [], masked, masked, {})
  {
  }

  /** Projects the tokens in order, in place, and blanks HTML lines last. It refuses exactly when
      some token is faulty; otherwise each line of either view is original or blank as one
      predicate of the whole token list says. */
  method ProjectViews(lines: seq<string>, tokens: seq<Token>, p: Patterns) returns (views: Option<(seq<string>, seq<string>)>)
    requires forall t :: t in tokens ==> InRange(t, |lines|)
    ensures views.None? <==> exists t :: t in tokens && Faulty(lines, t, p)
    ensures views.Some? ==> views.value == (Structure(lines, tokens), Visible(lines, tokens))
  {
    var masked := new string[|lines|](i requires 0 <= i < |lines| => Mask(lines[i]));
    var visible := new string[|lines|](i requires 0 <= i < |lines| => Mask(lines[i]));
    assert masked[..] == visible[..];
    NothingYet(lines, tokens, masked[..]);
    var html: set<int> := {};
    for k := 0 to |tokens|
      invariant Projected(lines, tokens, tokens[..k], masked[..], visible[..], html)
      invariant forall j :: 0 <= j < k ==> !Faulty(lines, tokens[j], p)
    {
      ghost var masked0, visible0, html0 := masked[..], visible[..], html;
      var ok;
      ok, html := ProjectToken(lines, tokens, tokens[k], p, masked, visible, html);
      if !ok {
        assert tokens[k] in tokens;
        return None;
      }
      MovedProjects(lines, tokens, tokens[..k], tokens[k], masked0, visible0, html0, masked[..], visible[..], html);
      assert tokens[..k] + [tokens[k]] == tokens[..k + 1];
    }
    assert tokens[..|tokens|] == tokens;
    ghost var before := masked[..];
    BlankHtml(masked, lines, html);
    assert masked[..] == Structure(lines, tokens);
    assert visible[..] == Visible(lines, tokens);
    views := Some((masked[..], visible[..]));
  }

  method BlankHtml(masked: array<string>, lines: seq<string>, html: set<int>)
    requires masked.Length == |lines|
    modifies masked
    ensures forall i :: 0 <= i < |lines| ==> masked[i] == if i in html then Mask(lines[i]) else old(masked[i])
  {
    for i := 0 to |lines|
      invariant forall j :: 0 <= j < |lines| ==> masked[j] == if j < i && j in html then Mask(lines[j]) else old(masked[j])
    {
      if i in html {
        masked[i] := Mask(lines[i]);
      }
    }
  }
}
