/**
 From a permission request to the grant the server records, after vibe/permissions.py,
 vibe/app_server/_approval_permissions.py, vibe/acp/utils.py and vibe/acp/agent.py: which path
 scopes are offered, which options a client sees, what its pick decodes to, and what is granted.
 */
module Approval {
  import opened Common
  import opened Permissions

  datatype PermissionScope = COMMAND_PATTERN | OUTSIDE_DIRECTORY | FILE_PATTERN | URL_PATTERN

  datatype RequiredPermission = RequiredPermission(
    scope: PermissionScope, invocation: string, session: string, caption: string, literal: bool, pathScopeRoot: Option<string>)
  {
    predicate Outside() { scope == OUTSIDE_DIRECTORY }
  }

  // ---------- the server: what is offered, and what a choice grants

  /** The path a scope grants for one outside-directory permission. */
  function GrantRoot(p: RequiredPermission, scope: PathGrantScope): string {
    var target := NormPath(p.invocation);
    if scope == EXACT then target
    else NormPath(if p.pathScopeRoot.Some? && p.pathScopeRoot.value != "" then p.pathScopeRoot.value else target)
  }

  function Scoped(p: RequiredPermission, scope: PathGrantScope): RequiredPermission {
    if p.Outside() then p.(session := PathGrantPattern(GrantRoot(p, scope), scope)) else p
  }

  function ScopeAll(required: seq<RequiredPermission>, scope: PathGrantScope): (r: seq<RequiredPermission>)
    ensures |r| == |required| && forall i :: 0 <= i < |r| ==> r[i] == Scoped(required[i], scope)
  {
    seq(|required|, i requires 0 <= i < |required| => Scoped(required[i], scope))
  }

  method ScopeRequiredPermissions(required: seq<RequiredPermission>, scope: PathGrantScope)
    returns (scoped: seq<RequiredPermission>)
    ensures scoped == ScopeAll(required, scope)
  {
    scoped := [];
    for k := 0 to |required|
      invariant |scoped| == k && forall i :: 0 <= i < k ==> scoped[i] == Scoped(required[i], scope)
    {
      var permission := required[k];
      if permission.scope != OUTSIDE_DIRECTORY {
        scoped := scoped + [permission];
        continue;
      }
      var target := NormPath(permission.invocation);
      var root := target;
      if scope != EXACT {
        root := NormPath(if permission.pathScopeRoot.Some? && permission.pathScopeRoot.value != ""
                         then permission.pathScopeRoot.value else target);
      }
      scoped := scoped + [permission.(session := PathGrantPattern(root, scope))];
    }
  }

  /** The invocation is itself the directory the permission could be widened to. */
  predicate NamesItsRoot(p: RequiredPermission) {
    && p.pathScopeRoot.Some?
    && PathPatternMatches(p.pathScopeRoot.value, PathGrantPattern(p.invocation, EXACT)) == Some(true)
  }

  /** `available_path_scopes`. */
  function AvailablePathScopes(required: seq<RequiredPermission>): seq<PathGrantScope> {
    if forall p :: p in required ==> !p.Outside() then []
    else if forall p :: p in required && p.Outside() ==> NamesItsRoot(p) then [DIRECTORY_RECURSIVE]
    else [EXACT]
  }

  /** The directory scope is offered, and then alone, if and only if some permission is for a path outside
      and each such path is, name for name, the directory it could be widened to. */
  lemma DirectoryOfferedExactlyWhen(required: seq<RequiredPermission>)
    requires forall p :: p in required && p.scope == OUTSIDE_DIRECTORY ==>
               Absolute(p.invocation) && (p.pathScopeRoot.Some? ==> Absolute(p.pathScopeRoot.value))
    ensures var offered := AvailablePathScopes(required);
            var outside := exists p :: p in required && p.scope == OUTSIDE_DIRECTORY;
            && (offered == [] <==> !outside)
            && (DIRECTORY_RECURSIVE in offered <==>
                  outside && forall p :: p in required && p.scope == OUTSIDE_DIRECTORY ==>
                    p.pathScopeRoot.Some? && Components(p.pathScopeRoot.value) == Components(p.invocation))
            && (EXACT in offered <==> outside && DIRECTORY_RECURSIVE !in offered)
            && |offered| <= 1
  {
    forall p | p in required && p.scope == OUTSIDE_DIRECTORY
      ensures NamesItsRoot(p) <==> p.pathScopeRoot.Some? && Components(p.pathScopeRoot.value) == Components(p.invocation)
    {
      if p.pathScopeRoot.Some? { ExactGrantCovers(p.invocation, p.pathScopeRoot.value); }
    }
    hide NamesItsRoot;
  }

  datatype ApprovalError = ScopeWithoutPaths | ScopeNotOffered

  /** `approval_grant_permissions`. */
  function ApprovalGrant(required: seq<RequiredPermission>, offered: seq<PathGrantScope>, chosen: Option<PathGrantScope>)
    : Result<seq<RequiredPermission>, ApprovalError>
  {
    if offered == [] then
      if chosen.Some? then Err(ScopeWithoutPaths) else Ok(required)
    else match chosen
      case None => Ok(ScopeAll(required, EXACT))
      case Some(scope) => if scope !in offered then Err(ScopeNotOffered) else Ok(ScopeAll(required, scope))
  }

  // ---------- the client: what it may pick, and what the pick means

  datatype ToolOption =
    | ALLOW_ONCE | ALLOW_ALWAYS | ALLOW_ALWAYS_PERMANENT | REJECT_ONCE
    | ALLOW_SESSION_EXACT | ALLOW_SESSION_DIRECTORY_RECURSIVE
    | ALLOW_PERMANENT_EXACT | ALLOW_PERMANENT_DIRECTORY_RECURSIVE

  function SessionOption(scope: PathGrantScope): ToolOption {
    match scope case EXACT => ALLOW_SESSION_EXACT case DIRECTORY_RECURSIVE => ALLOW_SESSION_DIRECTORY_RECURSIVE
  }

  function PermanentOption(scope: PathGrantScope): ToolOption {
    match scope case EXACT => ALLOW_PERMANENT_EXACT case DIRECTORY_RECURSIVE => ALLOW_PERMANENT_DIRECTORY_RECURSIVE
  }

  /** The ids `build_permission_options` offers, in order. */
  function PermissionOptions(offered: seq<PathGrantScope>): seq<ToolOption> {
    if offered == [] then [ALLOW_ONCE, ALLOW_ALWAYS, ALLOW_ALWAYS_PERMANENT, REJECT_ONCE]
    else [ALLOW_ONCE]
         + seq(|offered|, i requires 0 <= i < |offered| => SessionOption(offered[i]))
         + seq(|offered|, i requires 0 <= i < |offered| => PermanentOption(offered[i]))
         + [REJECT_ONCE]
  }

  datatype DecisionType = DENY | APPROVE | APPROVE_FOR_SESSION | APPROVE_PERMANENTLY

  /** The option that offers a decision, with its scope if it has one. */
  function OptionFor(decision: DecisionType, scope: Option<PathGrantScope>): ToolOption {
    match decision
    case DENY => REJECT_ONCE
    case APPROVE => ALLOW_ONCE
    case APPROVE_FOR_SESSION => if scope.None? then ALLOW_ALWAYS else SessionOption(scope.value)
    case APPROVE_PERMANENTLY => if scope.None? then ALLOW_ALWAYS_PERMANENT else PermanentOption(scope.value)
  }

  /** The decision and scope a pick stands for: a denial when nothing or the refusal is picked, and
      otherwise the one that the option is for. */
  predicate StandsFor(picked: Option<ToolOption>, decision: DecisionType, scope: Option<PathGrantScope>) {
    if picked.None? || picked == Some(REJECT_ONCE) then decision == DENY && scope.None?
    else decision != DENY && (decision == APPROVE ==> scope.None?) && OptionFor(decision, scope) == picked.value
  }

  ghost function Decoded(picked: Option<ToolOption>): (r: (DecisionType, Option<PathGrantScope>))
    ensures StandsFor(picked, r.0, r.1)
  {
    SomethingIsMeant(picked);
    var d, s :| StandsFor(picked, d, s);
    (d, s)
  }

  lemma SomethingIsMeant(picked: Option<ToolOption>)
    ensures exists d, s :: StandsFor(picked, d, s)
  {
    match picked
    case None => assert StandsFor(picked, DENY, None);
    case Some(REJECT_ONCE) => assert StandsFor(picked, DENY, None);
    case Some(ALLOW_ONCE) => assert StandsFor(picked, APPROVE, None);
    case Some(ALLOW_ALWAYS) => assert StandsFor(picked, APPROVE_FOR_SESSION, None);
    case Some(ALLOW_ALWAYS_PERMANENT) => assert StandsFor(picked, APPROVE_PERMANENTLY, None);
    case Some(ALLOW_SESSION_EXACT) => assert StandsFor(picked, APPROVE_FOR_SESSION, Some(EXACT));
    case Some(ALLOW_SESSION_DIRECTORY_RECURSIVE) => assert StandsFor(picked, APPROVE_FOR_SESSION, Some(DIRECTORY_RECURSIVE));
    case Some(ALLOW_PERMANENT_EXACT) => assert StandsFor(picked, APPROVE_PERMANENTLY, Some(EXACT));
    case Some(ALLOW_PERMANENT_DIRECTORY_RECURSIVE) => assert StandsFor(picked, APPROVE_PERMANENTLY, Some(DIRECTORY_RECURSIVE));
  }

  /** A pick stands for one decision. */
  lemma OneMeaning(picked: Option<ToolOption>, d: DecisionType, s: Option<PathGrantScope>)
    requires StandsFor(picked, d, s)
    ensures Decoded(picked) == (d, s)
  {}

  /** `_answer_callback`: undoes the building of the options.  An option that is none of them is no
      pick. */
  method DecodeChoice(picked: Option<ToolOption>) returns (decision: DecisionType, pathScope: Option<PathGrantScope>)
    ensures StandsFor(picked, decision, pathScope)
  {
    decision, pathScope := DENY, None;
    if picked.Some? {
      match picked.value
      case ALLOW_ONCE => decision := APPROVE;
      case ALLOW_ALWAYS => decision := APPROVE_FOR_SESSION;
      case ALLOW_ALWAYS_PERMANENT => decision := APPROVE_PERMANENTLY;
      case ALLOW_SESSION_EXACT => decision, pathScope := APPROVE_FOR_SESSION, Some(EXACT);
      case ALLOW_SESSION_DIRECTORY_RECURSIVE => decision, pathScope := APPROVE_FOR_SESSION, Some(DIRECTORY_RECURSIVE);
      case ALLOW_PERMANENT_EXACT => decision, pathScope := APPROVE_PERMANENTLY, Some(EXACT);
      case ALLOW_PERMANENT_DIRECTORY_RECURSIVE => decision, pathScope := APPROVE_PERMANENTLY, Some(DIRECTORY_RECURSIVE);
      case REJECT_ONCE =>
    }
  }

  // ---------- end to end

  /** Outside-directory permissions name absolute paths. */
  predicate PathsAreAbsolute(required: seq<RequiredPermission>) {
    forall p :: p in required && p.scope == OUTSIDE_DIRECTORY ==> Absolute(p.invocation)
  }

  /** What a scope chosen from those offered grants one outside-directory permission. */
  lemma ScopedCovers(required: seq<RequiredPermission>, p: RequiredPermission, scope: PathGrantScope, path: string)
    requires PathsAreAbsolute(required) && p in required && p.scope == OUTSIDE_DIRECTORY && Absolute(path)
    requires scope == EXACT || scope in AvailablePathScopes(required)
    ensures PathPatternMatches(path, Scoped(p, scope).session) ==
            Some(if scope == EXACT then Components(path) == Components(p.invocation)
                 else Components(p.invocation) <= Components(path))
  {
    var target := NormPath(p.invocation);
    NormalizationIsIdempotent(p.invocation);
    if scope == EXACT {
      ExactGrantCovers(target, path);
    } else {
      assert NamesItsRoot(p);
      GrantRoundTrip(p.invocation, EXACT);
      assert GrantRoot(p, scope) == target;
      DirectoryGrantCovers(target, path);
    }
  }

  /** A directory scope reaches everything below the directory the permission could be widened to, and
      below its own path where none is named. */
  lemma WidenedCovers(p: RequiredPermission, path: string)
    requires p.scope == OUTSIDE_DIRECTORY && Absolute(p.invocation) && Absolute(path)
    requires p.pathScopeRoot.Some? && p.pathScopeRoot.value != "" ==> Absolute(p.pathScopeRoot.value)
    ensures var root := if p.pathScopeRoot.Some? && |p.pathScopeRoot.value| > 0 then p.pathScopeRoot.value else p.invocation;
            PathPatternMatches(path, Scoped(p, DIRECTORY_RECURSIVE).session) == Some(Components(root) <= Components(path))
  {
    var root := if p.pathScopeRoot.Some? && |p.pathScopeRoot.value| > 0 then p.pathScopeRoot.value else p.invocation;
    NormalizationIsIdempotent(root);
    if root == p.invocation { assert GrantRoot(p, DIRECTORY_RECURSIVE) == NormPath(root); }
    DirectoryGrantCovers(NormPath(root), path);
  }

  /** Every option but a refusal decodes to an approval, with no scope or an offered one. */
  lemma OfferedOptionsDecode(required: seq<RequiredPermission>, option: ToolOption)
    requires option in PermissionOptions(AvailablePathScopes(required)) && option != REJECT_ONCE
    ensures var (decision, chosen) := Decoded(Some(option));
            && decision != DENY && (decision == APPROVE <==> option == ALLOW_ONCE)
            && (chosen.Some? ==> chosen.value in AvailablePathScopes(required))
  {
    var offered := AvailablePathScopes(required);
    assert |offered| <= 1;
    hide AvailablePathScopes;
    OptionsDecode(offered, option);
  }

  lemma OptionsDecode(offered: seq<PathGrantScope>, option: ToolOption)
    requires |offered| <= 1 && option in PermissionOptions(offered) && option != REJECT_ONCE
    ensures var (decision, chosen) := Decoded(Some(option));
            && decision != DENY && (decision == APPROVE <==> option == ALLOW_ONCE)
            && (chosen.Some? ==> chosen.value in offered)
  {
    OfferedOptions(offered);
    hide PermissionOptions;
    if option == ALLOW_ONCE {
      OneMeaning(Some(option), APPROVE, None);
    } else if option == ALLOW_ALWAYS {
      OneMeaning(Some(option), APPROVE_FOR_SESSION, None);
    } else if option == ALLOW_ALWAYS_PERMANENT {
      OneMeaning(Some(option), APPROVE_PERMANENTLY, None);
    } else if option == SessionOption(offered[0]) {
      OneMeaning(Some(option), APPROVE_FOR_SESSION, Some(offered[0]));
    } else {
      OneMeaning(Some(option), APPROVE_PERMANENTLY, Some(offered[0]));
    }
  }

  lemma OfferedOptions(offered: seq<PathGrantScope>)
    ensures offered == [] ==> PermissionOptions(offered) == [ALLOW_ONCE, ALLOW_ALWAYS, ALLOW_ALWAYS_PERMANENT, REJECT_ONCE]
    ensures |offered| == 1 ==>
              PermissionOptions(offered) == [ALLOW_ONCE, SessionOption(offered[0]), PermanentOption(offered[0]), REJECT_ONCE]
  {}

  /** A grant leaves every permission inside the workspace as it was, and gives each other one a
      pattern for its own path, reaching below it only for a directory scope. */
  predicate Grants(required: seq<RequiredPermission>, grant: seq<RequiredPermission>, i: nat)
    requires |grant| == |required| && i < |required|
  {
    grant[i] == if required[i].scope == OUTSIDE_DIRECTORY then required[i].(session := grant[i].session) else required[i]
  }

  lemma ScopedGrantCovers(required: seq<RequiredPermission>, scope: PathGrantScope, i: nat)
    requires PathsAreAbsolute(required) && i < |required|
    requires scope == EXACT || scope in AvailablePathScopes(required)
    ensures Grants(required, ScopeAll(required, scope), i)
    ensures required[i].scope == OUTSIDE_DIRECTORY ==>
              CoversFrom(ScopeAll(required, scope)[i].session, required[i].invocation, scope == DIRECTORY_RECURSIVE)
  {
    assert required[i] in required;
    if required[i].scope == OUTSIDE_DIRECTORY {
      forall path | Absolute(path)
        ensures PathPatternMatches(path, Scoped(required[i], scope).session) ==
                Some(if scope == DIRECTORY_RECURSIVE then Components(required[i].invocation) <= Components(path)
                     else Components(path) == Components(required[i].invocation))
      {
        ScopedCovers(required, required[i], scope, path);
      }
    }
  }

  /** Whatever option is picked, the server accepts it.  Its grant leaves every other permission
      as it was; an outside-directory permission covers its own invocation path, and beyond it
      only what lies below it when a directory scope was offered and picked. */
  lemma EveryOfferedOptionIsGranted(required: seq<RequiredPermission>, option: ToolOption)
    requires PathsAreAbsolute(required)
    requires option in PermissionOptions(AvailablePathScopes(required)) && option != REJECT_ONCE
    ensures var chosen := Decoded(Some(option)).1;
            var answer := ApprovalGrant(required, AvailablePathScopes(required), chosen);
            && answer.Ok? && |answer.value| == |required|
            && forall i :: 0 <= i < |required| ==>
                 && Grants(required, answer.value, i)
                 && (required[i].scope == OUTSIDE_DIRECTORY ==>
                       CoversFrom(answer.value[i].session, required[i].invocation, chosen == Some(DIRECTORY_RECURSIVE)))
  {
    OfferedOptionsDecode(required, option);
    var offered, chosen := AvailablePathScopes(required), Decoded(Some(option)).1;
    if offered != [] {
      var scope := if chosen.Some? then chosen.value else EXACT;
      forall i | 0 <= i < |required|
        ensures Grants(required, ScopeAll(required, scope), i)
        ensures required[i].scope == OUTSIDE_DIRECTORY ==>
                  CoversFrom(ScopeAll(required, scope)[i].session, required[i].invocation, scope == DIRECTORY_RECURSIVE)
      {
        ScopedGrantCovers(required, scope, i);
      }
    } else {
      assert forall i :: 0 <= i < |required| ==> required[i] in required && required[i].scope != OUTSIDE_DIRECTORY;
    }
  }

  /** The pattern covers exactly `root`, and with `below` everything under it too. */
  ghost predicate CoversFrom(pattern: string, root: string, below: bool) {
    forall path :: Absolute(path) ==>
      PathPatternMatches(path, pattern) ==
      Some(if below then Components(root) <= Components(path) else Components(path) == Components(root))
  }

  /** The two refusals the server can make are never provoked by an option it offered, but a scope
      it did not offer is always refused. */
  lemma OnlyOfferedScopesAreGranted(required: seq<RequiredPermission>, scope: PathGrantScope)
    ensures ApprovalGrant(required, AvailablePathScopes(required), Some(scope)).Ok? <==>
            (exists o :: o in PermissionOptions(AvailablePathScopes(required)) && Decoded(Some(o)).1 == Some(scope))
  {
    var offered := AvailablePathScopes(required);
    assert offered == [] || offered == [EXACT] || offered == [DIRECTORY_RECURSIVE];
    hide AvailablePathScopes;
    ScopesOfOptions(offered, scope);
  }

  lemma ScopesOfOptions(offered: seq<PathGrantScope>, scope: PathGrantScope)
    requires |offered| <= 1
    ensures scope in offered <==> exists o :: o in PermissionOptions(offered) && Decoded(Some(o)).1 == Some(scope)
  {
    OfferedOptions(offered);
    hide PermissionOptions;
    if scope in offered {
      assert SessionOption(scope) in PermissionOptions(offered) && Decoded(Some(SessionOption(scope))).1 == Some(scope);
    }
  }
}
