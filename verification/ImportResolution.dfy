/** Resolving absolute and relative `from` imports to dotted module names. */
module ImportResolution {
  import opened Wrappers
  import opened TextOps

  const DOT: string := "."

  // ----- dotted names -----

  function JoinDots(parts: seq<string>): string {
    if parts == [] then ""
    else if |parts| == 1 then parts[0]
    else JoinDots(parts[..|parts| - 1]) + DOT + parts[|parts| - 1]
  }

  /** The position of the last dot. */
  function LastDot(s: string): (r: Option<nat>)
    ensures r.Some? ==> r.value < |s|
    decreases |s|
  {
    if s == "" then None
    else if s[|s| - 1] == '.' then Some(|s| - 1)
    else LastDot(s[..|s| - 1])
  }

  /** What `rpartition` puts before the last dot: nothing when there is none. */
  function BeforeLastDot(s: string): string {
    var k := LastDot(s);
    if k.None? then "" else s[..k.value]
  }

  // ----- resolution -----

  /** Why a source file or an import of it is refused. */
  datatype Fault = InvalidSource | DynamicImport | UnresolvedImport | UnresolvedRelativeImport | WildcardImport

  datatype Found<+T> = Found(value: T) | Missing(fault: Fault)

  /** The package an import of this module is relative to. */
  function PackageOf(current: string, isPackage: bool): string {
    if isPackage then current else BeforeLastDot(current)
  }

  /** Canonicalizes an absolute or relative `from` import; an empty module stands for none. */
  function ResolveFrom(level: nat, moduleName: string, current: string, isPackage: bool): Found<string> {
    if level == 0 then
      if moduleName == "" then Missing(UnresolvedImport) else Found(moduleName)
    else
      var package := PackageOf(current, isPackage);
      ResolveParts(if package != "" then Split(package, DOT) else [], level, moduleName)
  }

  function ResolveParts(packageParts: seq<string>, level: nat, moduleName: string): Found<string> {
    var keep := |packageParts| - (level - 1);
    if level == 0 || keep <= 0 then Missing(UnresolvedRelativeImport)
    else
      var parts := packageParts[..keep] + (if moduleName != "" then Split(moduleName, DOT) else []);
      if parts == [] then Missing(UnresolvedRelativeImport) else Found(JoinDots(parts))
  }

  /** Section 5.7 of the Python Language Reference: one leading dot is the current package, and
      each further dot its parent; there is nothing above a package without a dot. */
  function Climb(package: string, steps: nat): Option<string> {
    if steps == 0 then Some(package) else
    var parent := Parent(package);
    if parent.None? then None else Climb(parent.value, steps - 1)
  }

  function Parent(package: string): Option<string> {
    if LastDot(package).None? then None else Some(BeforeLastDot(package))
  }

  // ----- facts about dotted names -----

  lemma {:induction false} SplitParts(s: string)
    ensures |Split(s, DOT)| >= 1 && JoinBack(Split(s, DOT)) == s
    ensures forall p :: p in Split(s, DOT) ==> Free(p, '.')
    decreases |s|
  {
    var k := Find(s, DOT);
    FindDot(s);
    if k.Some? {
      SplitParts(s[k.value + 1..]);
      JoinBackCons(s[..k.value], Split(s[k.value + 1..], DOT));
      CutAtDot(s, k.value);
    }
  }

  lemma JoinBackCons(first: string, parts: seq<string>)
    requires parts != []
    ensures JoinBack([first] + parts) == first + DOT + JoinBack(parts)
  {
    assert ([first] + parts)[1..] == parts;
  }

  lemma CutAtDot(s: string, k: nat)
    requires k < |s| && s[k] == '.'
    ensures s == s[..k] + DOT + s[k + 1..]
  {}

  /** Joining from the left end. */
  function JoinBack(parts: seq<string>): string {
    if parts == [] then ""
    else if |parts| == 1 then parts[0]
    else parts[0] + DOT + JoinBack(parts[1..])
  }

  lemma {:induction false} FindDot(s: string)
    ensures match Find(s, DOT)
            case None => Free(s, '.')
            case Some(k) => k < |s| && s[k] == '.' && Free(s[..k], '.')
    decreases |s|
  {
    if s != "" {
      FindDot(s[1..]);
      if s[0] == '.' { assert s[0..1] == DOT; } else { assert s[0..1] != DOT; }
    }
  }

  lemma {:induction false} JoinConcat(a: seq<string>, b: seq<string>)
    requires a != [] && b != []
    ensures JoinDots(a + b) == JoinDots(a) + DOT + JoinDots(b)
    decreases |b|
  {
    var last := |b| - 1;
    assert (a + b)[..|a + b| - 1] == a + b[..last];
    if last == 0 {
      assert a + b[..last] == a;
    } else {
      JoinConcat(a, b[..last]);
      assert JoinDots(b) == JoinDots(b[..last]) + DOT + b[last];
    }
  }

  lemma {:induction false} JoinsAgree(parts: seq<string>)
    ensures JoinDots(parts) == JoinBack(parts)
    decreases |parts|
  {
    if |parts| > 1 {
      JoinsAgree(parts[1..]);
      JoinConcat([parts[0]], parts[1..]);
      assert [parts[0]] + parts[1..] == parts;
    }
  }

  lemma {:induction false} LastDotOf(a: string, p: string)
    requires Free(p, '.')
    ensures LastDot(a + DOT + p) == Some(|a|) && BeforeLastDot(a + DOT + p) == a
    decreases |p|
  {
    var s := a + DOT + p;
    if p != "" {
      assert s[..|s| - 1] == a + DOT + p[..|p| - 1];
      LastDotOf(a, p[..|p| - 1]);
    }
    assert s[..|a|] == a;
  }

  lemma {:induction false} NoLastDot(p: string)
    requires Free(p, '.')
    ensures LastDot(p) == None
    decreases |p|
  {
    if p != "" { NoLastDot(p[..|p| - 1]); }
  }

  predicate AllFree(parts: seq<string>) {
    forall i :: 0 <= i < |parts| ==> Free(parts[i], '.')
  }

  /** The first `k` parts, joined. */
  function JoinFirst(parts: seq<string>, k: nat): string
    requires k <= |parts|
  {
    if k == 0 then "" else if k == 1 then parts[0] else JoinFirst(parts, k - 1) + DOT + parts[k - 1]
  }

  lemma {:induction false} JoinsFirst(parts: seq<string>, k: nat)
    requires k <= |parts|
    ensures JoinDots(parts[..k]) == JoinFirst(parts, k)
  {
    if k > 1 {
      JoinsFirst(parts, k - 1);
      assert parts[..k][..k - 1] == parts[..k - 1];
    }
  }

  lemma {:induction false} ClimbParts(parts: seq<string>, k: nat, steps: nat)
    requires 1 <= k <= |parts| && AllFree(parts)
    ensures Climb(JoinFirst(parts, k), steps) == if steps < k then Some(JoinFirst(parts, k - steps)) else None
    decreases k
  {
    if steps > 0 {
      ParentOfParts(parts, k);
      if k > 1 { ClimbParts(parts, k - 1, steps - 1); }
    }
  }

  lemma ParentOfParts(parts: seq<string>, k: nat)
    requires 1 <= k <= |parts| && AllFree(parts)
    ensures Parent(JoinFirst(parts, k)) == if k == 1 then None else Some(JoinFirst(parts, k - 1))
  {
    if k == 1 {
      NoLastDot(parts[0]);
    } else {
      LastDotOf(JoinFirst(parts, k - 1), parts[k - 1]);
    }
  }

  lemma JoinsAll(parts: seq<string>)
    ensures JoinDots(parts) == JoinFirst(parts, |parts|)
  {
    JoinsFirst(parts, |parts|);
    assert parts[..|parts|] == parts;
  }

  lemma ClimbJoined(parts: seq<string>, steps: nat)
    requires parts != [] && AllFree(parts)
    ensures Climb(JoinDots(parts), steps) == if steps < |parts| then Some(JoinDots(parts[..|parts| - steps])) else None
  {
    ClimbParts(parts, |parts|, steps);
    JoinsAll(parts);
    if steps < |parts| { JoinsFirst(parts, |parts| - steps); }
  }

  lemma JoinModule(parts: seq<string>, moduleName: string)
    requires parts != []
    ensures JoinDots(parts + (if moduleName != "" then Split(moduleName, DOT) else [])) ==
            if moduleName == "" then JoinDots(parts) else JoinDots(parts) + DOT + moduleName
  {
    if moduleName == "" {
      assert parts + [] == parts;
    } else {
      SplitParts(moduleName);
      JoinsAgree(Split(moduleName, DOT));
      JoinConcat(parts, Split(moduleName, DOT));
    }
  }

  /** Relative resolution is Python's rule for every module, level and spelling: it fails exactly
      when the import climbs above the top package, or there is no package to start from. */
  lemma ResolutionIsClimbing(level: nat, moduleName: string, current: string, isPackage: bool)
    requires level >= 1
    ensures var package := PackageOf(current, isPackage);
            var base := Climb(package, level - 1);
            ResolveFrom(level, moduleName, current, isPackage) ==
            if package == "" || base.None? then Missing(UnresolvedRelativeImport)
            else if moduleName == "" then Found(base.value)
            else Found(base.value + DOT + moduleName)
  {
    var package := PackageOf(current, isPackage);
    if package != "" {
      var parts := Split(package, DOT);
      SplitParts(package);
      JoinsAgree(parts);
      PartsClimb(parts, level, moduleName);
    }
  }

  lemma PartsClimb(parts: seq<string>, level: nat, moduleName: string)
    requires level >= 1 && parts != [] && AllFree(parts)
    ensures var base := Climb(JoinDots(parts), level - 1);
            ResolveParts(parts, level, moduleName) ==
            if base.None? then Missing(UnresolvedRelativeImport)
            else if moduleName == "" then Found(base.value)
            else Found(base.value + DOT + moduleName)
  {
    ClimbJoined(parts, level - 1);
    var keep := |parts| - (level - 1);
    if keep > 0 { JoinModule(parts[..keep], moduleName); }
  }
}
