/** The string operations the ledger parser is written with, as Python defines them. */
module TextOps {
  import opened Wrappers

  predicate MatchesAt(text: string, pat: string, k: nat) {
    k + |pat| <= |text| && text[k..k + |pat|] == pat
  }

  /** The first position of `pat` in `text`. */
  function Find(text: string, pat: string): (r: Option<nat>)
    requires pat != ""
    ensures r.Some? ==> r.value + |pat| <= |text|
    decreases |text|
  {
    if MatchesAt(text, pat, 0) then Some(0)
    else if text == "" then None
    else
      var later := Find(text[1..], pat);
      if later.Some? then Some(later.value + 1) else None
  }

  predicate Contains(text: string, pat: string)
    requires pat != ""
  {
    Find(text, pat).Some?
  }

  /** How often `pat` occurs, without overlaps. */
  function Count(text: string, pat: string): nat
    requires pat != ""
    decreases |text|
  {
    var k := Find(text, pat);
    if k.None? then 0 else 1 + Count(text[k.value + |pat|..], pat)
  }

  /** The text before and after the first `pat`. */
  function SplitOnce(text: string, pat: string): Option<(string, string)>
    requires pat != ""
  {
    var k := Find(text, pat);
    if k.None? then None else Some((text[..k.value], text[k.value + |pat|..]))
  }

  function Split(text: string, pat: string): seq<string>
    requires pat != ""
    decreases |text|
  {
    var k := Find(text, pat);
    if k.None? then [text] else [text[..k.value]] + Split(text[k.value + |pat|..], pat)
  }

  /** Line boundaries of `splitlines`. */
  predicate LineBreak(c: char) {
    var n := c as int;
    10 <= n <= 13 || 28 <= n <= 30 || n == 133 || n == 8232 || n == 8233
  }

  /** The characters `strip` removes. */
  predicate Space(c: char) {
    var n := c as int;
    LineBreak(c) || n == 9 || n == 31 || n == 32 || n == 160 || n == 5760 || 8192 <= n <= 8202
    || n == 8239 || n == 8287 || n == 12288
  }

  function StripLeft(s: string): string {
    if s != "" && Space(s[0]) then StripLeft(s[1..]) else s
  }

  function StripRight(s: string): string {
    if s != "" && Space(s[|s| - 1]) then StripRight(s[..|s| - 1]) else s
  }

  function Strip(s: string): string { StripRight(StripLeft(s)) }

  function FirstLine(s: string): (n: nat)
    ensures n <= |s| && (n < |s| ==> LineBreak(s[n]))
  {
    if s == "" || LineBreak(s[0]) then 0 else 1 + FirstLine(s[1..])
  }

  /** The lines of a text; a carriage return and line feed end one line together. */
  function SplitLines(s: string): seq<string>
    decreases |s|
  {
    if s == "" then [] else
    var n := FirstLine(s);
    if n == |s| then [s]
    else
      var width := if s[n] == '\r' && n + 1 < |s| && s[n + 1] == '\n' then 2 else 1;
      [s[..n]] + SplitLines(s[n + width..])
  }

  predicate StartsWith(s: string, prefix: string) { |prefix| <= |s| && s[..|prefix|] == prefix }

  predicate EndsWith(s: string, suffix: string) { |suffix| <= |s| && s[|s| - |suffix|..] == suffix }

  predicate Free(s: string, c: char) { forall i :: 0 <= i < |s| ==> s[i] != c }

  // ----- facts about them -----

  /** The search finds the first match, or there is none. */
  lemma {:induction false} FindFirst(text: string, pat: string)
    requires pat != ""
    ensures match Find(text, pat)
            case None => forall k: nat :: !MatchesAt(text, pat, k)
            case Some(k) => MatchesAt(text, pat, k) && forall j: nat :: j < k ==> !MatchesAt(text, pat, j)
    decreases |text|
  {
    if text != "" && !MatchesAt(text, pat, 0) {
      FindFirst(text[1..], pat);
      forall k: nat | k >= 1 ensures MatchesAt(text, pat, k) == MatchesAt(text[1..], pat, k - 1) {
        if k + |pat| <= |text| { Shifted(text, k, |pat|); }
      }
    }
  }

  lemma Shifted(text: string, k: nat, n: nat)
    requires 1 <= k && k + n <= |text|
    ensures text[k..k + n] == text[1..][k - 1..k - 1 + n]
  {
  }

  /** One wrong character rules a match out. */
  lemma Mismatch(text: string, pat: string, k: nat, i: nat)
    requires i < |pat| && (k + i >= |text| || text[k + i] != pat[i])
    ensures !MatchesAt(text, pat, k)
  {
    if k + |pat| <= |text| { assert text[k..k + |pat|][i] == text[k + i]; }
  }

  /** A search passes over a prefix in which no match begins. */
  lemma {:induction false} Shift(a: string, b: string, pat: string)
    requires pat != "" && forall k: nat :: k < |a| ==> !MatchesAt(a + b, pat, k)
    ensures Find(a + b, pat) == if Find(b, pat).None? then None else Some(|a| + Find(b, pat).value)
    decreases |a|
  {
    if a == "" {
      assert a + b == b;
    } else {
      var text := a + b;
      assert text[1..] == a[1..] + b;
      forall k: nat | k < |a| - 1 ensures !MatchesAt(a[1..] + b, pat, k) {
        assert !MatchesAt(text, pat, k + 1);
        if k + |pat| <= |text| - 1 { assert text[1..][k..k + |pat|] == text[k + 1..k + 1 + |pat|]; }
      }
      Shift(a[1..], b, pat);
    }
  }

  /** A text without the pattern's `i`-th character holds no match, and a text that starts that
      way is searched past. */
  lemma {:induction false} SkipFree(a: string, b: string, pat: string, i: nat)
    requires i < |pat| && Free(a, pat[i]) && i <= |b| && Free(b[..i], pat[i])
    ensures Find(a + b, pat) == if Find(b, pat).None? then None else Some(|a| + Find(b, pat).value)
    decreases |a|
  {
    if a == "" {
      assert a + b == b;
    } else {
      var text := a + b;
      assert text[1..] == a[1..] + b;
      assert i < |text| ==> text[i] != pat[i] by {
        if |a| <= i < |text| { assert text[i] == b[..i][i - |a|]; }
      }
      SkipFree(a[1..], b, pat, i);
    }
  }

  lemma {:induction false} NotFound(a: string, pat: string, i: nat)
    requires i < |pat| && Free(a, pat[i])
    ensures Find(a, pat) == None
    decreases |a|
  {
    if a != "" { NotFound(a[1..], pat, i); }
  }

  lemma FindHere(pat: string, rest: string)
    requires pat != ""
    ensures Find(pat + rest, pat) == Some(0)
  {
    assert (pat + rest)[0..|pat|] == pat;
  }

  /** A match right after a prefix without the pattern's `i`-th character. */
  lemma FindAfter(a: string, pat: string, rest: string, i: nat)
    requires i < |pat| && Free(a, pat[i]) && Free(pat[..i], pat[i])
    ensures Find(a + (pat + rest), pat) == Some(|a|)
    ensures SplitOnce(a + (pat + rest), pat) == Some((a, rest))
  {
    assert (pat + rest)[..i] == pat[..i];
    assert Find(a + (pat + rest), pat) == Some(|a|) by {
      SkipFree(a, pat + rest, pat, i);
      FindHere(pat, rest);
    }
    Cut(a, pat, rest);
  }

  lemma Cut(a: string, b: string, c: string)
    ensures (a + (b + c))[..|a|] == a && (a + (b + c))[|a| + |b|..] == c
  {
  }

  lemma {:induction false} StripRightKeeps(s: string, tail: string)
    requires s != "" && !Space(s[|s| - 1]) && forall i :: 0 <= i < |tail| ==> Space(tail[i])
    ensures StripRight(s + tail) == s
    decreases |tail|
  {
    if tail == "" {
      assert s + tail == s;
    } else {
      assert (s + tail)[..|s + tail| - 1] == s + tail[..|tail| - 1];
      StripRightKeeps(s, tail[..|tail| - 1]);
    }
  }

  lemma {:induction false} StripLeftKeeps(head: string, s: string)
    requires s != "" && !Space(s[0]) && forall i :: 0 <= i < |head| ==> Space(head[i])
    ensures StripLeft(head + s) == s
    decreases |head|
  {
    if head == "" {
      assert head + s == s;
    } else {
      assert (head + s)[1..] == head[1..] + s;
      StripLeftKeeps(head[1..], s);
    }
  }

  predicate OneLine(s: string) { forall i :: 0 <= i < |s| ==> !LineBreak(s[i]) }

  lemma {:induction false} FirstLineOf(line: string, rest: string)
    requires OneLine(line)
    ensures FirstLine(line + "\n" + rest) == |line|
    decreases |line|
  {
    var s := line + "\n" + rest;
    if line != "" {
      assert s[1..] == line[1..] + "\n" + rest;
      FirstLineOf(line[1..], rest);
    }
  }

  lemma {:induction false} OneLineOnly(line: string)
    requires OneLine(line)
    ensures FirstLine(line) == |line|
    decreases |line|
  {
    if line != "" { OneLineOnly(line[1..]); }
  }

  /** Lines joined by line feeds. */
  function JoinLines(lines: seq<string>): string {
    if lines == [] then ""
    else if |lines| == 1 then lines[0]
    else lines[0] + "\n" + JoinLines(lines[1..])
  }

  /** Splitting undoes joining for non-empty lines without line breaks. */
  lemma {:induction false} LinesRoundTrip(lines: seq<string>)
    requires forall i :: 0 <= i < |lines| ==> OneLine(lines[i]) && lines[i] != ""
    ensures SplitLines(JoinLines(lines)) == lines
  {
    if |lines| == 1 {
      OneLineOnly(lines[0]);
    } else if lines != [] {
      var rest := JoinLines(lines[1..]);
      var s := lines[0] + "\n" + rest;
      FirstLineOf(lines[0], rest);
      assert s[|lines[0]|] == '\n';
      assert s[..|lines[0]|] == lines[0] && s[|lines[0]| + 1..] == rest;
      LinesRoundTrip(lines[1..]);
    }
  }
}
