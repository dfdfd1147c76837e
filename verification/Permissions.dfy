/**
 Path grants, after vibe/permissions.py.

 A grant is a string: a prefix, a scope and a normalised path, separated by colons.  Matching
 works on strings; what it means is said in terms of path components.  Paths here are POSIX
 paths: those `_is_windows_path` sends to the other branch are not modelled.
 */
module Permissions {
  import opened Common
  import opened Strings

  // ---------- normalisation

  /** One step of `posixpath.normpath`'s loop over the components. */
  function PushComponent(stack: seq<string>, comp: string, absolute: bool): seq<string> {
    if comp == "" || comp == "." then stack
    else if comp != ".." || (!absolute && stack == []) || (stack != [] && stack[|stack| - 1] == "..") then stack + [comp]
    else if stack != [] then stack[..|stack| - 1]
    else stack
  }

  function PushAll(stack: seq<string>, comps: seq<string>, absolute: bool): seq<string>
    decreases |comps|
  {
    if comps == [] then stack else PushAll(PushComponent(stack, comps[0], absolute), comps[1..], absolute)
  }

  /** How many leading slashes survive: two only when there are exactly two. */
  function LeadingSlashes(path: string): nat {
    if path == "" || path[0] != '/' then 0
    else if |path| >= 2 && path[1] == '/' && !(|path| >= 3 && path[2] == '/') then 2
    else 1
  }

  /** `posixpath.normpath`. */
  function NormPath(path: string): string {
    if path == "" then "."
    else
      var slashes := LeadingSlashes(path);
      var comps := PushAll([], Split(path, '/'), slashes > 0);
      var joined := seq(slashes, _ => '/') + Join(comps, '/');
      if joined == "" then "." else joined
  }

  method NormPathLoop(path: string) returns (normalized: string)
    ensures normalized == NormPath(path)
  {
    if path == "" { return "."; }
    var slashes := LeadingSlashes(path);
    var comps := Split(path, '/');
    var kept: seq<string> := [];
    for k := 0 to |comps|
      invariant PushAll(kept, comps[k..], slashes > 0) == PushAll([], comps, slashes > 0)
    {
      assert comps[k..][1..] == comps[k + 1..];
      kept := PushComponent(kept, comps[k], slashes > 0);
    }
    normalized := seq(slashes, _ => '/') + Join(kept, '/');
    if normalized == "" { normalized := "."; }
  }

  /** An absolute POSIX path: one leading slash, and no backslash. */
  predicate Absolute(path: string) {
    && path != "" && path[0] == '/' && (|path| >= 2 ==> path[1] != '/')
    && '\\' !in path
  }

  /** The components an absolute path names once `.` and `..` are resolved. */
  function Components(path: string): seq<string> {
    PushAll([], Split(path, '/'), true)
  }

  /** The text of an absolute path with these components. */
  function Render(comps: seq<string>): string {
    "/" + Join(comps, '/')
  }

  predicate CleanName(c: string) { c != "" && c != "." && c != ".." && '/' !in c && '\\' !in c }

  predicate Clean(comps: seq<string>) { forall c :: c in comps ==> CleanName(c) }

  lemma {:induction false} PushAllIsClean(stack: seq<string>, comps: seq<string>)
    requires Clean(stack) && forall c :: c in comps ==> '/' !in c && '\\' !in c
    ensures Clean(PushAll(stack, comps, true))
    decreases |comps|
  {
    if comps != [] {
      var next := PushComponent(stack, comps[0], true);
      assert comps[0] in comps;
      assert stack != [] ==> stack[|stack| - 1] in stack;
      assert forall c :: c in next ==> c in stack || c == comps[0];
      PushAllIsClean(next, comps[1..]);
    }
  }

  lemma {:induction false} PushAllKeepsClean(stack: seq<string>, comps: seq<string>)
    requires Clean(comps)
    ensures PushAll(stack, comps, true) == stack + comps
    decreases |comps|
  {
    if comps != [] {
      assert comps[0] in comps;
      PushAllKeepsClean(stack + [comps[0]], comps[1..]);
      assert stack + [comps[0]] + comps[1..] == stack + comps;
    }
  }

  lemma {:induction false} SplitHasNoBackslash(s: string)
    requires '\\' !in s
    ensures forall i :: 0 <= i < |Split(s, '/')| ==> '\\' !in Split(s, '/')[i]
  {
    if s != "" { SplitHasNoBackslash(s[1..]); }
  }

  lemma ComponentsAreClean(path: string)
    requires Absolute(path)
    ensures Clean(Components(path)) && NormPath(path) == Render(Components(path))
  {
    PartsAreFree(path, '/');
    SplitHasNoBackslash(path);
    PushAllIsClean([], Split(path, '/'));
    assert seq(1, _ => '/') == "/";
  }

  // ---------- other paths

  /** A parent reference takes back the name before it; where there is none, it is kept in a relative path
      and dropped at the root. */
  lemma ParentsTakeBackNames(stack: seq<string>, name: string, absolute: bool)
    requires name != ".." && name != "." && name != ""
    ensures PushComponent(PushComponent(stack, name, absolute), "..", absolute) == stack
    ensures PushComponent([], "..", absolute) == if absolute then [] else [".."]
    ensures PushComponent(stack + [".."], "..", absolute) == stack + ["..", ".."]
  {
    assert stack + [".."] + [".."] == stack + ["..", ".."];
  }

  lemma {:induction false} PushAllHasNames(stack: seq<string>, comps: seq<string>, absolute: bool)
    requires forall c :: c in stack || c in comps ==> '/' !in c
    requires forall c :: c in stack ==> c != ""
    ensures forall c :: c in PushAll(stack, comps, absolute) ==> c != "" && '/' !in c
    decreases |comps|
  {
    if comps != [] {
      var next := PushComponent(stack, comps[0], absolute);
      assert comps[0] in comps;
      assert forall c :: c in next ==> c in stack || (c == comps[0] && c != "");
      PushAllHasNames(next, comps[1..], absolute);
    }
  }

  lemma {:induction false} JoinBeginsWithAName(comps: seq<string>)
    requires forall c :: c in comps ==> c != "" && '/' !in c
    ensures comps == [] ==> Join(comps, '/') == ""
    ensures comps != [] ==> Join(comps, '/') != "" && Join(comps, '/')[0] != '/'
  {
    if comps != [] { assert comps[0] in comps && comps[0][0] in comps[0]; }
  }

  /** A path keeps its leading slash, and two of them only when it has exactly two. */
  lemma LeadingSlashesStay(path: string)
    ensures NormPath(path) != ""
    ensures NormPath(path)[0] == '/' <==> path != "" && path[0] == '/'
    ensures |NormPath(path)| > 1 && NormPath(path)[1] == '/' && NormPath(path)[0] == '/' <==>
            "//" <= path && !("///" <= path)
    ensures |NormPath(path)| > 2 && NormPath(path)[0] == '/' && NormPath(path)[1] == '/' ==> NormPath(path)[2] != '/'
  {
    var n := LeadingSlashes(path);
    var comps := PushAll([], Split(path, '/'), n > 0);
    PartsAreFree(path, '/');
    PushAllHasNames([], Split(path, '/'), n > 0);
    JoinBeginsWithAName(comps);
    hide PushAll;
    hide Split;
    hide Join;
    assert "//" <= path <==> |path| >= 2 && path[0] == '/' && path[1] == '/';
    assert "///" <= path <==> |path| >= 3 && path[0] == '/' && path[1] == '/' && path[2] == '/';
    assert path != "" ==> NormPath(path) == (var j := seq(n, _ => '/') + Join(comps, '/'); if j == "" then "." else j);
  }

  lemma {:induction false} JoinSplits(comps: seq<string>)
    requires comps != [] && Clean(comps)
    ensures Split(Join(comps, '/'), '/') == comps
  {
    assert comps[0] in comps;
    SplitNothing(comps[0], '/');
    if |comps| > 1 {
      JoinSplits(comps[1..]);
      SplitConcat(comps[0], Join(comps[1..], '/'), '/');
    }
  }

  lemma {:induction false} JoinHasNoBackslash(comps: seq<string>)
    requires Clean(comps)
    ensures '\\' !in Join(comps, '/') && (comps != [] ==> Join(comps, '/') != "" && Join(comps, '/')[0] != '/')
  {
    if comps != [] {
      assert comps[0] in comps && comps[0][0] in comps[0];
      JoinHasNoBackslash(comps[1..]);
    }
  }

  /** Rendering clean components gives an absolute path with just those components. */
  lemma RenderedComponents(comps: seq<string>)
    requires Clean(comps)
    ensures Absolute(Render(comps)) && Components(Render(comps)) == comps
  {
    JoinHasNoBackslash(comps);
    var text := Join(comps, '/');
    SplitConcat("", text, '/');
    assert "" + ['/'] + text == Render(comps);
    assert Split(Render(comps), '/') == [""] + Split(text, '/');
    assert PushAll([], [""] + Split(text, '/'), true) == PushAll([], Split(text, '/'), true) by {
      assert ([""] + Split(text, '/'))[1..] == Split(text, '/');
    }
    if comps != [] {
      JoinSplits(comps);
      PushAllKeepsClean([], comps);
      assert [] + comps == comps;
    } else {
      assert Split("", '/') == [""] && PushAll([], [""], true) == PushAll([], [""][1..], true);
    }
  }

  /** Normalising twice is normalising once. */
  lemma NormalizationIsIdempotent(path: string)
    requires Absolute(path)
    ensures Absolute(NormPath(path)) && NormPath(NormPath(path)) == NormPath(path)
    ensures Components(NormPath(path)) == Components(path)
  {
    ComponentsAreClean(path);
    RenderedComponents(Components(path));
    ComponentsAreClean(NormPath(path));
  }

  lemma {:induction false} PushAllConcat(stack: seq<string>, a: seq<string>, b: seq<string>)
    ensures PushAll(stack, a + b, true) == PushAll(PushAll(stack, a, true), b, true)
    decreases |a|
  {
    if a == [] {
      assert [] + b == b;
    } else {
      PushAllConcat(PushComponent(stack, a[0], true), a[1..], b);
      assert (a + b)[1..] == a[1..] + b;
    }
  }

  /** The root directory has no components. */
  lemma RootIsEmpty()
    ensures Components("/") == [] && Absolute("/")
  {
    assert "/" == "" + ['/'] + "";
    SplitConcat("", "", '/');
    assert Split("/", '/') == ["", ""] && ["", ""][1..] == [""] && [""][1..] == [];
    assert PushAll([], [""], true) == PushAll([], [], true) == [];
  }

  /** What the components mean: a name descends, `..` goes back up, and `.` and doubled slashes
      stay. */
  lemma ComponentsDescend(path: string, name: string)
    requires Absolute(path) && '/' !in name && '\\' !in name
    ensures Components(path + "/" + name) ==
            if name == "" || name == "." then Components(path)
            else if name != ".." then Components(path) + [name]
            else if Components(path) == [] then [] else Components(path)[..|Components(path)| - 1]
  {
    assert path + ['/'] + name == path + "/" + name;
    SplitConcat(path, name, '/');
    SplitNothing(name, '/');
    PushAllConcat([], Split(path, '/'), [name]);
    ComponentsAreClean(path);
    var stack := Components(path);
    assert PushAll(stack, [name], true) == PushAll(PushComponent(stack, name, true), [name][1..], true);
    assert stack != [] ==> stack[|stack| - 1] in stack;
  }

  // ---------- encoded grants

  datatype PathGrantScope = EXACT | DIRECTORY_RECURSIVE

  const GRANT_PREFIX := "vibe-path"

  function ScopeValue(scope: PathGrantScope): string {
    match scope case EXACT => "exact" case DIRECTORY_RECURSIVE => "directory_recursive"
  }

  function ParseScope(value: string): Option<PathGrantScope> {
    if value == "exact" then Some(EXACT)
    else if value == "directory_recursive" then Some(DIRECTORY_RECURSIVE)
    else None
  }

  /** `path_grant_pattern`. */
  function PathGrantPattern(path: string, scope: PathGrantScope): string {
    GRANT_PREFIX + [':'] + (ScopeValue(scope) + [':'] + NormPath(path))
  }

  /** `_parse_path_grant_pattern`. */
  function ParsePathGrantPattern(pattern: string): Option<(PathGrantScope, string)> {
    match Partition(pattern, ':')
    case None => None
    case Some((prefix, remainder)) =>
      if prefix != GRANT_PREFIX then None
      else match Partition(remainder, ':')
        case None => None
        case Some((rawScope, path)) =>
          match ParseScope(rawScope)
          case None => None
          case Some(scope) => Some((scope, NormPath(path)))
  }

  /** Encoding then parsing gives back the scope and the normalised path, whatever characters the
      path holds. */
  lemma GrantRoundTrip(path: string, scope: PathGrantScope)
    requires Absolute(path)
    ensures ParsePathGrantPattern(PathGrantPattern(path, scope)) == Some((scope, NormPath(path)))
  {
    NoColons(scope);
    PartitionConcat(GRANT_PREFIX, ScopeValue(scope) + [':'] + NormPath(path), ':');
    PartitionConcat(ScopeValue(scope), NormPath(path), ':');
    NormalizationIsIdempotent(path);
  }

  lemma NoColons(scope: PathGrantScope)
    ensures ':' !in GRANT_PREFIX && ':' !in ScopeValue(scope) && ParseScope(ScopeValue(scope)) == Some(scope)
  {
    assert GRANT_PREFIX == ['v', 'i', 'b', 'e', '-', 'p', 'a', 't', 'h'];
    assert "exact" == ['e', 'x', 'a', 'c', 't'];
    assert "directory_recursive" ==
      ['d', 'i', 'r', 'e', 'c', 't', 'o', 'r', 'y', '_', 'r', 'e', 'c', 'u', 'r', 's', 'i', 'v', 'e'];
    assert |"exact"| != |"directory_recursive"|;
  }

  /** `path_pattern_matches`, for encoded grants; the legacy globs it also takes answer None. */
  function PathPatternMatches(path: string, pattern: string): Option<bool> {
    var normalized := NormPath(path);
    match ParsePathGrantPattern(pattern)
    case None => None
    case Some((scope, granted)) =>
      if scope == EXACT then Some(normalized == granted)
      else Some(normalized == granted || TrimRight(granted, '/') + "/" <= normalized)
  }

  // ---------- what a grant covers

  /** The path the components spell, each behind its own slash. */
  function Spell(comps: seq<string>): string {
    if comps == [] then "" else "/" + comps[0] + Spell(comps[1..])
  }

  lemma {:induction false} SpellIsRender(comps: seq<string>)
    requires comps != []
    ensures Spell(comps) == Render(comps)
  {
    if |comps| > 1 { SpellIsRender(comps[1..]); }
    else { assert Spell(comps[1..]) == ""; }
  }

  /** A slash-free name followed by a slash is a prefix of another such only when they agree. */
  lemma FirstNameAgrees(a: string, b: string, s: string, t: string)
    requires '/' !in a && '/' !in b && a + "/" + s <= b + "/" + t
    ensures a == b && s <= t
  {
    var left, right := a + "/" + s, b + "/" + t;
    assert left[|a|] == '/' && right[|b|] == '/';
    assert left[|a|] == right[|a|] && (|b| < |left| ==> left[|b|] == right[|b|]);
    assert forall i :: 0 <= i < |a| ==> left[i] == a[i] && a[i] != '/';
    assert forall i :: 0 <= i < |b| ==> right[i] == b[i] && b[i] != '/';
    assert |a| == |b|;
    assert left[|a| + 1..] == s && right[|b| + 1..] == t;
  }

  /** The same with the slashes in front: the rests begin with them. */
  lemma FirstNamesAgree(a: string, b: string, restA: string, restB: string)
    requires '/' !in a && '/' !in b && restA != "" && restA[0] == '/' && restB != "" && restB[0] == '/'
    ensures "/" + (a + restA) <= "/" + (b + restB) <==> a == b && restA <= restB
  {
    var left, right := "/" + (a + restA), "/" + (b + restB);
    StartsWithSlash(restA);
    StartsWithSlash(restB);
    assert left[1..] == a + "/" + restA[1..] && right[1..] == b + "/" + restB[1..];
    if left <= right {
      assert left[1..] <= right[1..];
      FirstNameAgrees(a, b, restA[1..], restB[1..]);
    }
    if a == b && restA <= restB {
      assert right == left + restB[|restA|..];
    }
  }

  lemma SpelledFirst(comps: seq<string>)
    requires comps != []
    ensures Spell(comps) + "/" == "/" + (comps[0] + (Spell(comps[1..]) + "/"))
    ensures (Spell(comps[1..]) + "/")[0] == '/'
  {
    ConcatAssociates("/", comps[0], Spell(comps[1..]));
    ConcatAssociates("/", comps[0] + Spell(comps[1..]), "/");
    ConcatAssociates(comps[0], Spell(comps[1..]), "/");
    if |comps| > 1 { ConcatAssociates("/", comps[1], Spell(comps[2..])); }
  }

  /** Prefixes of spelled paths, read with a closing slash, are prefixes of their components. */
  lemma {:induction false} SpellPrefix(roots: seq<string>, comps: seq<string>)
    requires Clean(roots) && Clean(comps)
    ensures Spell(roots) + "/" <= Spell(comps) + "/" <==> roots <= comps
  {
    if roots == [] {
      if comps != [] { SpelledFirst(comps); }
    } else {
      assert roots[0] in roots;
      SpelledFirst(roots);
      if comps != [] {
        assert comps[0] in comps;
        SpelledFirst(comps);
        SpellPrefix(roots[1..], comps[1..]);
        FirstNamesAgree(roots[0], comps[0], Spell(roots[1..]) + "/", Spell(comps[1..]) + "/");
        ConsPrefix(roots, comps);
      } else {
        assert |Spell(roots) + "/"| > 1 && Spell(comps) + "/" == "/";
      }
    }
  }

  lemma ConsPrefix(a: seq<string>, b: seq<string>)
    requires a != [] && b != []
    ensures a <= b <==> a[0] == b[0] && a[1..] <= b[1..]
  {
    if a[0] == b[0] && a[1..] <= b[1..] {
      assert a == [a[0]] + a[1..] && b == [b[0]] + b[1..];
    }
  }

  lemma StartsWithSlash(s: string)
    requires s != "" && s[0] == '/'
    ensures s == "/" + s[1..]
  {}

  lemma {:induction false} SpellEndsInName(comps: seq<string>)
    requires comps != [] && Clean(comps)
    ensures Spell(comps) != "" && Spell(comps)[|Spell(comps)| - 1] != '/'
  {
    assert comps[0] in comps;
    if |comps| > 1 {
      SpellEndsInName(comps[1..]);
    } else {
      var name := comps[0];
      assert Spell(comps[1..]) == "" && Spell(comps) == "/" + name;
      assert name[|name| - 1] in name;
    }
  }

  /** An exact grant covers a path exactly when both name the same components. */
  lemma ExactGrantCovers(root: string, path: string)
    requires Absolute(root) && Absolute(path)
    ensures PathPatternMatches(path, PathGrantPattern(root, EXACT)) == Some(Components(path) == Components(root))
  {
    GrantRoundTrip(root, EXACT);
    ComponentsAreClean(root);
    ComponentsAreClean(path);
    RenderedComponents(Components(root));
    RenderedComponents(Components(path));
  }

  /** A recursive grant covers a path exactly when the root's components are a prefix of the
      path's: never half a name, and everything from the root directory. */
  lemma DirectoryGrantCovers(root: string, path: string)
    requires Absolute(root) && Absolute(path)
    ensures PathPatternMatches(path, PathGrantPattern(root, DIRECTORY_RECURSIVE)) ==
            Some(Components(root) <= Components(path))
  {
    GrantRoundTrip(root, DIRECTORY_RECURSIVE);
    ComponentsAreClean(root);
    ComponentsAreClean(path);
    var roots, comps := Components(root), Components(path);
    var granted, normalized := Render(roots), Render(comps);
    if roots == [] {
      assert granted == "/";
      assert TrimRight("/", '/') == TrimRight("/"[..0], '/') == "";
      assert "" + "/" <= normalized;
    } else {
      SpellIsRender(roots);
      SpellEndsInName(roots);
      SpellPrefix(roots, comps);
      assert TrimRight(granted, '/') == granted;
      if comps == [] {
        assert |granted| >= 1 && normalized == "/";
        assert granted[|granted| - 1] != normalized[0];
      } else {
        SpellIsRender(comps);
        PrefixOrEqual(granted, normalized);
      }
    }
  }

  /** "Equal, or a prefix once a slash follows" is being a prefix when a slash follows both. */
  lemma PrefixOrEqual(a: string, b: string)
    ensures a == b || a + "/" <= b <==> a + "/" <= b + "/"
  {
    if a + "/" <= b + "/" {
      assert (b + "/")[..|a|] == a;
      if |a| < |b| { assert a + "/" == (b + "/")[..|a| + 1] == b[..|a| + 1]; }
    }
  }

  /** Coverage is reflexive and transitive. */
  lemma DirectoryCoverageNests(outer: string, inner: string, path: string)
    requires Absolute(outer) && Absolute(inner) && Absolute(path)
    requires PathPatternMatches(inner, PathGrantPattern(outer, DIRECTORY_RECURSIVE)) == Some(true)
    requires PathPatternMatches(path, PathGrantPattern(inner, DIRECTORY_RECURSIVE)) == Some(true)
    ensures PathPatternMatches(outer, PathGrantPattern(outer, DIRECTORY_RECURSIVE)) == Some(true)
    ensures PathPatternMatches(path, PathGrantPattern(outer, DIRECTORY_RECURSIVE)) == Some(true)
  {
    DirectoryGrantCovers(outer, outer);
    DirectoryGrantCovers(outer, inner);
    DirectoryGrantCovers(inner, path);
    DirectoryGrantCovers(outer, path);
  }
}
