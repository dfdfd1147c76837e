/**
 The service object of vibe/app_server/_mcp_auth.py: its dictionaries, and the methods that
 update them.  Every method says which run of McpAuthProtocol steps it is for each name, so what
 is proved there about runs holds of every sequence of calls.

 The keyring, the OAuth flow and the environment are outside: what they answer arrives as
 arguments.  A call that would wait for a name's lock is made when the lock is free.
 */
module McpAuthService {
  import opened Common
  import opened McpAuthProtocol
  import opened McpAuthCatalogs

  // ---------- what the world answers

  datatype Tokens = Tokens(kind: string, access: string)

  datatype Refresh = InvalidGrant | RefreshFailed | Refreshed(tokens: Option<Tokens>)

  /** What the keyring holds under a name, whether the token has expired, and how a refresh goes. */
  datatype Keyring =
    | Headless
    | Stored(saved: Option<Fingerprint>, tokens: Option<Tokens>, expired: bool, refresh: Refresh)

  // ---------- what the service answers

  datatype Reason = Missing | Expired | RejectedReason | Invalid

  datatype Revision = Revision(fingerprint: Option<Fingerprint>, generation: nat)

  datatype Answer =
    | Snapshot(headers: Headers, connection: nat, descriptor: Revision)
    | Required(reason: Reason, descriptor: Revision, observed: Option<nat>)

  datatype AuthError = UnknownServer | UnsupportedReason | NotOAuth | FlowFailed

  datatype AuthReference = AuthReference(name: Name, reference: Reference, owner: Kind)

  // ---------- resolution, as a function of one name's entry

  function Bearer(declared: Headers, t: Tokens): Headers {
    declared["Authorization" := t.kind + " " + t.access]
  }

  /** `_late_bound_oauth`: a plugin's static server can still be logged into. */
  function LateBound(server: Server, pluginOwned: bool): Option<Server> {
    if pluginOwned && server.transport == StaticRemote then Some(server.(transport := OAuthRemote)) else None
  }

  datatype Attempt = Usable(headers: Headers) | Unusable(reason: Reason, advance: bool)

  /** `_resolve_oauth` up to the point where it has headers to offer. */
  function OAuthAttempt(server: Server, declared: Headers, keyring: Keyring, shared: bool): Attempt {
    match keyring
    case Headless => Unusable(Missing, false)
    case Stored(saved, tokens, expired, refresh) =>
      if saved != Some(server.Fingerprint()) then Unusable(Invalid, (tokens.Some? || saved.Some?) && !shared)
      else if tokens.None? then Unusable(Missing, false)
      else if !expired then Usable(Bearer(declared, tokens.value))
      else match refresh
        case InvalidGrant => Unusable(Expired, true)
        case RefreshFailed => Unusable(Expired, false)
        case Refreshed(None) => Unusable(Expired, false)
        case Refreshed(Some(t)) => Usable(Bearer(declared, t))
  }

  /** Headers to offer after the steps `before`, or the reason there are none. */
  datatype Offer = Offer(before: seq<Step>, headers: Option<Headers>, reason: Reason)

  function OfferOf(a: Attempt): Offer {
    match a
    case Usable(h) => Offer([], Some(h), RejectedReason)
    case Unusable(reason, advance) => Offer(if advance then [Advance] else [], None, reason)
  }

  /** What `_resolve_locked` offers for a remote server once the reference is honoured. */
  function OfferFor(server: Server, pluginOwned: bool, declared: Headers, keyring: Keyring, shared: bool): Offer {
    if server.transport == StaticRemote then
      var late := LateBound(server, pluginOwned);
      if late.None? then Offer([], Some(declared), RejectedReason)
      else
        var attempt := OAuthAttempt(late.value, declared, keyring, shared);
        if attempt.Unusable? && (attempt.reason == Missing || attempt.reason == Invalid)
        then OfferOf(attempt).(headers := Some(declared), reason := RejectedReason)
        else OfferOf(attempt)
    else OfferOf(OAuthAttempt(server, declared, keyring, shared))
  }

  function OfferSteps(e: Entry, offer: Offer): seq<Step> {
    offer.before + if offer.headers.Some? && !e.Refuses(offer.headers.value) then [IssueHeaders(offer.headers.value)] else []
  }

  function OfferAnswer(e: Entry, after: Entry, offer: Offer): Answer {
    if offer.headers.Some? && !e.Refuses(offer.headers.value)
    then Snapshot(offer.headers.value, after.connection, RevisionOf(after))
    else Required(offer.reason, RevisionOf(after), None)
  }

  lemma AttemptSteps(e: Entry, a: Attempt)
    ensures OfferSteps(e, OfferOf(a)) ==
            match a
            case Usable(h) => if e.Refuses(h) then [] else [IssueHeaders(h)]
            case Unusable(_, advance) => if advance then [Advance] else []
  {}

  /** The steps of a resolution: dead credentials advance the name, usable headers are issued. */
  function ResolveSteps(e: Entry, server: Server, r: AuthReference, declared: Headers, keyring: Keyring, shared: bool): seq<Step> {
    if !Honours(e, r.reference) || !server.Remote() then []
    else
      OfferSteps(e, OfferFor(server, r.owner == Plugin, declared, keyring, shared))
  }

  function RevisionOf(e: Entry): Revision { Revision(e.fingerprint, e.descriptor) }

  /** The answer to a resolution that found the entry `e` and left it as `after`. */
  function ResolveAnswer(e: Entry, after: Entry, server: Server, r: AuthReference, declared: Headers, keyring: Keyring, shared: bool): Answer {
    if !Honours(e, r.reference) then Required(Invalid, RevisionOf(after), None)
    else if !server.Remote() then Snapshot(map[], after.connection, RevisionOf(after))
    else
      OfferAnswer(e, after, OfferFor(server, r.owner == Plugin, declared, keyring, shared))
  }

  lemma RunOne(m: Machine, s: Step)
    requires Enabled(m, s)
    ensures Runs(m, [s]) && Run(m, [s]) == Next(m, s)
  {
    assert [s][1..] == [];
    assert Runs(Next(m, s), []);
  }

  lemma RunTwo(m: Machine, s: Step, t: Step)
    requires Enabled(m, s) && Enabled(Next(m, s), t)
    ensures Runs(m, [s, t]) && Run(m, [s, t]) == Next(Next(m, s), t)
  {
    RunOne(Next(m, s), t);
    assert [s, t][1..] == [t];
  }

  lemma RejectionRuns(m: Machine)
    requires Sound(m) && m.window.None?
    ensures var after := Next(Next(m, RecordRejection), FinishRejection);
            && Runs(m, [RecordRejection, FinishRejection]) && Run(m, [RecordRejection, FinishRejection]) == after
            && Sound(after)
  {
    RunTwo(m, RecordRejection, FinishRejection);
    StepKeepsSound(m, RecordRejection);
    StepKeepsSound(Next(m, RecordRejection), FinishRejection);
  }

  /** Installing a fingerprint declares it, and a changed one starts the name over. */
  lemma InstallRuns(m: Machine, f: Fingerprint)
    requires Runs(m, InstallSteps(m.entry, f))
    ensures Enabled(m, Declare(f))
    ensures var changed := m.entry.fingerprint.Some? && m.entry.fingerprint != Some(f);
            && (changed ==> Enabled(Next(m, Declare(f)), Replaced))
            && Run(m, InstallSteps(m.entry, f)) ==
               if changed then Next(Next(m, Declare(f)), Replaced) else Next(m, Declare(f))
  {
    var steps := InstallSteps(m.entry, f);
    if m.entry.fingerprint.Some? && m.entry.fingerprint != Some(f) {
      assert steps[1..] == [Replaced] && Runs(Next(m, Declare(f)), [Replaced]);
      RunTwo(m, Declare(f), Replaced);
    } else {
      RunOne(m, Declare(f));
    }
  }

  lemma {:induction false} RunConcat(m: Machine, a: seq<Step>, b: seq<Step>)
    requires Runs(m, a) && Runs(Run(m, a), b)
    ensures Runs(m, a + b) && Run(m, a + b) == Run(Run(m, a), b)
    decreases |a|
  {
    if a == [] {
      assert [] + b == b;
    } else {
      RunConcat(Next(m, a[0]), a[1..], b);
      assert (a + b)[1..] == a[1..] + b;
    }
  }

  lemma OffersAdvanceAtMost(server: Server, pluginOwned: bool, declared: Headers, keyring: Keyring, shared: bool)
    ensures var before := OfferFor(server, pluginOwned, declared, keyring, shared).before;
            before == [] || before == [Advance]
  {}

  /** Headers a remote server's snapshot carries are on record under the revision it names, so
      RevisionIsFaithful speaks of every snapshot a client sees. */
  lemma SnapshotIsOnRecord(m: Machine, server: Server, r: AuthReference, declared: Headers, keyring: Keyring, shared: bool)
    requires m.window.None? && server.Remote()
    requires Runs(m, ResolveSteps(m.entry, server, r, declared, keyring, shared))
    ensures var after := Run(m, ResolveSteps(m.entry, server, r, declared, keyring, shared));
            var a := ResolveAnswer(m.entry, after.entry, server, r, declared, keyring, shared);
            a.Snapshot? ==> Honours(m.entry, r.reference) && Issue(a.connection, a.headers) in after.issued
  {
    var offer := OfferFor(server, r.owner == Plugin, declared, keyring, shared);
    OffersAdvanceAtMost(server, r.owner == Plugin, declared, keyring, shared);
    hide OfferFor;
    hide Honours;
    if Honours(m.entry, r.reference) && offer.headers.Some? && !m.entry.Refuses(offer.headers.value) {
      var issue := IssueHeaders(offer.headers.value);
      if offer.before == [Advance] {
        RunTwo(m, Advance, issue);
        assert [Advance] + [issue] == [Advance, issue];
      } else {
        RunOne(m, issue);
        assert [] + [issue] == [issue];
      }
    }
  }

  // ---------- which headers a snapshot carries, and why there is none

  /** The stored login's server: a plugin's static one is looked up as if it did OAuth. */
  function LoginFingerprint(server: Server): Fingerprint {
    FingerprintOf(server.name, OAuthRemote, server.definition)
  }

  /** The keyring's grant was made for this server and holds a token. */
  predicate GrantStands(server: Server, keyring: Keyring) {
    keyring.Stored? && keyring.saved == Some(LoginFingerprint(server)) && keyring.tokens.Some?
  }

  /** `t` is the token a request would carry now: the stored one, or the one a refresh brought. */
  predicate TokenInUse(server: Server, keyring: Keyring, t: Tokens) {
    && GrantStands(server, keyring)
    && (if keyring.expired then keyring.refresh == Refreshed(Some(t)) else keyring.tokens == Some(t))
  }

  /** The declared headers with the token laid over them. */
  predicate Authorized(headers: Headers, declared: Headers, t: Tokens) {
    && headers.Keys == declared.Keys + {"Authorization"}
    && headers["Authorization"] == t.kind + " " + t.access
    && forall k :: k in declared && k != "Authorization" ==> headers[k] == declared[k]
  }

  /** A remote server's snapshot carries every declared header; where a token is in use and the server
      does OAuth, or is a plugin's, exactly those and the token; otherwise just those declared. */
  lemma SnapshotHeaders(e: Entry, after: Entry, server: Server, r: AuthReference, declared: Headers, keyring: Keyring, shared: bool)
    requires server.Remote()
    ensures var a := ResolveAnswer(e, after, server, r, declared, keyring, shared);
            a.Snapshot? ==>
              && (forall k :: k in declared && k != "Authorization" ==> k in a.headers && a.headers[k] == declared[k])
              && (server.transport == OAuthRemote ==> exists t :: TokenInUse(server, keyring, t))
              && (forall t :: TokenInUse(server, keyring, t) && (server.transport == OAuthRemote || r.owner == Plugin) ==>
                    Authorized(a.headers, declared, t))
              && ((server.transport == StaticRemote && (r.owner == Config || !GrantStands(server, keyring))) ==> a.headers == declared)
  {
    var a := ResolveAnswer(e, after, server, r, declared, keyring, shared);
    if a.Snapshot? && server.transport == OAuthRemote {
      var t := if keyring.expired then keyring.refresh.tokens.value else keyring.tokens.value;
      assert TokenInUse(server, keyring, t);
    }
  }

  /** Who asks the keyring: a server that does OAuth, and a plugin's static one. */
  predicate AsksKeyring(server: Server, r: AuthReference) {
    server.transport == OAuthRemote || (server.transport == StaticRemote && r.owner == Plugin)
  }

  /** The keyring holds something under the name, and it was minted for another server. */
  predicate Foreign(server: Server, keyring: Keyring) {
    keyring.Stored? && keyring.saved != Some(LoginFingerprint(server)) && (keyring.saved.Some? || keyring.tokens.Some?)
  }

  /** The grant has run out, and refreshing it brought no token. */
  predicate GrantRanOut(server: Server, keyring: Keyring) {
    GrantStands(server, keyring) && keyring.expired && !(keyring.refresh.Refreshed? && keyring.refresh.tokens.Some?)
  }

  /** For a reference that is honoured, the name advances exactly for a foreign grant on an alias nobody
      shares and for a grant that turns out invalid, and headers are issued exactly when the answer has
      them. */
  lemma ResolutionTakesSteps(e: Entry, after: Entry, server: Server, r: AuthReference, declared: Headers, keyring: Keyring, shared: bool)
    requires server.Remote() && Honours(e, r.reference)
    ensures var a := ResolveAnswer(e, after, server, r, declared, keyring, shared);
            var steps := ResolveSteps(e, server, r, declared, keyring, shared);
            var dead := GrantStands(server, keyring) && keyring.expired && keyring.refresh == InvalidGrant;
            && (Advance in steps <==> (AsksKeyring(server, r) && ((Foreign(server, keyring) && !shared) || dead)))
            && (forall h :: IssueHeaders(h) in steps <==> a.Snapshot? && a.headers == h)
            && (forall s :: s in steps ==> s == Advance || s.IssueHeaders?)
  {
    OffersAdvanceExactlyWhen(server, r, declared, keyring, shared);
    hide OfferFor;
    hide Honours;
    hide GrantStands;
    hide Foreign;
    hide AsksKeyring;
  }

  lemma OffersAdvanceExactlyWhen(server: Server, r: AuthReference, declared: Headers, keyring: Keyring, shared: bool)
    requires server.Remote()
    ensures var before := OfferFor(server, r.owner == Plugin, declared, keyring, shared).before;
            var dead := GrantStands(server, keyring) && keyring.expired && keyring.refresh == InvalidGrant;
            before == if AsksKeyring(server, r) && ((Foreign(server, keyring) && !shared) || dead) then [Advance] else []
  {}

  /** Why there are no headers, when they were not refused before. */
  lemma ReasonsForNoHeaders(e: Entry, after: Entry, server: Server, r: AuthReference, declared: Headers, keyring: Keyring, shared: bool)
    requires server.Remote() && Honours(e, r.reference)
    ensures var a := ResolveAnswer(e, after, server, r, declared, keyring, shared);
            var oauth := server.transport == OAuthRemote;
            && (a.Required? ==> a.observed.None? && a.descriptor == RevisionOf(after))
            && ((a.Required? && a.reason == Expired) <==> (AsksKeyring(server, r) && GrantRanOut(server, keyring)))
            && ((a.Required? && a.reason == Invalid) <==>
                (oauth && keyring.Stored? && keyring.saved != Some(LoginFingerprint(server))))
            && ((a.Required? && a.reason == Missing) <==>
                (oauth && (keyring.Headless? || (keyring.saved == Some(LoginFingerprint(server)) && keyring.tokens.None?))))
  {}

  /** And when they were: the headers that would be sent now are those on record as refused. */
  lemma RefusedHeaders(e: Entry, after: Entry, server: Server, r: AuthReference, declared: Headers, keyring: Keyring, shared: bool, h: Headers)
    requires server.Remote() && Honours(e, r.reference)
    requires if AsksKeyring(server, r) && GrantStands(server, keyring)
             then exists t :: TokenInUse(server, keyring, t) && Authorized(h, declared, t)
             else server.transport == StaticRemote && h == declared
    ensures var a := ResolveAnswer(e, after, server, r, declared, keyring, shared);
            if e.Refuses(h) then a == Required(RejectedReason, RevisionOf(after), None)
            else a == Snapshot(h, after.connection, RevisionOf(after))
  {
    if AsksKeyring(server, r) && GrantStands(server, keyring) {
      var t :| TokenInUse(server, keyring, t) && Authorized(h, declared, t);
      assert h == Bearer(declared, t);
    }
  }

  /** A reference taken before a rejection, a login, a logout or a replacement of the server is
      answered with a requirement ever after, and never with headers. */
  lemma StaleReferenceIsRefused(m: Machine, steps: seq<Step>, f: Fingerprint, server: Server, r: AuthReference,
                                declared: Headers, keyring: Keyring, shared: bool)
    requires Sound(m) && Runs(m, steps) && m.window.None? && Run(m, steps).window.None?
    requires exists s :: s in steps && Invalidates(s)
    requires r.reference == TakeReference(m, f)
    ensures var e := Run(m, steps).entry;
            && ResolveSteps(e, server, r, declared, keyring, shared) == []
            && ResolveAnswer(e, e, server, r, declared, keyring, shared) == Required(Invalid, RevisionOf(e), None)
  {
    ReferenceHonouredExactlyWhen(m, steps, f);
  }

  lemma OnlyAdvances(m: Machine, steps: seq<Step>)
    requires (steps == [] || steps == [Advance]) && Runs(m, steps)
    ensures forall h :: Run(m, steps).entry.Refuses(h) <==> m.entry.Refuses(h)
  {
    if steps == [Advance] { RunOne(m, Advance); }
  }

  // ---------- a binding, as steps for one name

  function InstallSteps(e: Entry, f: Fingerprint): seq<Step> {
    if e.fingerprint.None? || e.fingerprint == Some(f) then [Declare(f)] else [Declare(f), Replaced]
  }

  function BindSteps(e: Entry, b: Bindings, kind: Kind, key: Owner, active: map<Name, Server>, n: Name): seq<Step> {
    var f := BoundFingerprint(b, kind, key, active, n);
    if n !in active && n !in Owned(b.Of(kind), key) then []
    else if f.Some? then InstallSteps(e, f.value)
    else [Undeclare]
  }

  /** What `_authorization_state` saves: each dictionary's value, or its absence. */
  datatype SavedState = SavedState(
    descriptor: Option<nat>, connection: Option<nat>, accepted: Option<Headers>, rejection: Option<Rejection>)

  /** What a credential removal under way keeps: the saved state, and how far it has come. */
  datatype Removal = Removal(saved: SavedState, deleted: bool)

  function Generation(g: Option<nat>): nat { if g.Some? then g.value else 0 }

  function Holders(catalogs: Catalogs, n: Name): nat {
    if catalogs == [] then 0
    else (if n in catalogs[0].servers then 1 else 0) + Holders(catalogs[1..], n)
  }

  lemma {:induction false} HoldersConcat(a: Catalogs, b: Catalogs, n: Name)
    ensures Holders(a + b, n) == Holders(a, n) + Holders(b, n)
  {
    if a == [] {
      assert [] + b == b;
    } else {
      HoldersConcat(a[1..], b, n);
      assert (a + b)[1..] == a[1..] + b;
    }
  }

  lemma {:induction false} HoldersSome(catalogs: Catalogs, n: Name)
    ensures Holders(catalogs, n) > 0 <==> exists i :: 0 <= i < |catalogs| && n in catalogs[i].servers
  {
    if catalogs != [] {
      HoldersSome(catalogs[1..], n);
      if i :| 0 <= i < |catalogs| - 1 && n in catalogs[1..][i].servers { assert n in catalogs[i + 1].servers; }
      if i :| 0 <= i < |catalogs| && n in catalogs[i].servers && i > 0 { assert n in catalogs[1..][i - 1].servers; }
    }
  }

  lemma {:induction false} HoldersTwo(catalogs: Catalogs, n: Name)
    ensures Holders(catalogs, n) > 1 <==>
            exists i, j :: 0 <= i < j < |catalogs| && n in catalogs[i].servers && n in catalogs[j].servers
  {
    if catalogs != [] {
      var rest := catalogs[1..];
      HoldersTwo(rest, n);
      HoldersSome(rest, n);
      if i, j :| 0 <= i < j < |rest| && n in rest[i].servers && n in rest[j].servers {
        assert n in catalogs[i + 1].servers && n in catalogs[j + 1].servers;
      }
      if i, j :| 0 <= i < j < |catalogs| && n in catalogs[i].servers && n in catalogs[j].servers {
        assert n in rest[j - 1].servers;
        if i > 0 { assert n in rest[i - 1].servers; }
      }
      if j :| 0 <= j < |rest| && n in rest[j].servers { assert n in catalogs[j + 1].servers; }
    }
  }

  /** `_restore_entry`. */
  function RestoreEntry<V>(values: map<Name, V>, n: Name, previous: Option<V>): (r: map<Name, V>)
    ensures Lookup(r, n) == previous && forall m :: m != n ==> Lookup(r, m) == Lookup(values, m)
  {
    if previous.Some? then values[n := previous.value] else values - {n}
  }

  class MCPAuthenticationService {
    var configCatalogs: Catalogs
    var pluginCatalogs: Catalogs
    var fingerprints: map<Name, Fingerprint>
    var descriptorGenerations: map<Name, nat>
    var connectionGenerations: map<Name, nat>
    var authorizationMaterial: map<Name, Headers>
    var rejectedMaterial: map<Name, Rejection>
    var removals: map<Name, Removal>  // the names whose lock a credential removal holds
    ghost var issued: map<Name, set<Issue>>

    function EntryOf(n: Name): Entry
      reads this
    {
      Entry(Lookup(fingerprints, n), Generation(Lookup(descriptorGenerations, n)),
            Generation(Lookup(connectionGenerations, n)), Lookup(authorizationMaterial, n), Lookup(rejectedMaterial, n))
    }

    function WindowOf(n: Name): Option<Window>
      reads this
    {
      if n !in removals then None
      else
        var saved := removals[n].saved;
        Some(Window(Entry(None, Generation(saved.descriptor), Generation(saved.connection), saved.accepted, saved.rejection),
                    removals[n].deleted))
    }

    ghost function Issued(n: Name): set<Issue>
      reads this
    {
      if n in issued then issued[n] else {}
    }

    ghost function MachineOf(n: Name): Machine
      reads this
    {
      Machine(EntryOf(n), WindowOf(n), Issued(n))
    }

    function CurrentBindings(): Bindings
      reads this
    {
      Bindings(configCatalogs, pluginCatalogs, fingerprints)
    }

    ghost predicate Valid()
      reads this
    {
      forall n :: Sound(MachineOf(n))
    }

    constructor ()
      ensures Valid() && CurrentBindings() == NO_BINDINGS && removals == map[]
      ensures forall n :: MachineOf(n) == START
    {
      configCatalogs, pluginCatalogs, fingerprints := [], [], map[];
      descriptorGenerations, connectionGenerations := map[], map[];
      authorizationMaterial, rejectedMaterial := map[], map[];
      removals, issued := map[], map[];
    }

    /** The bindings and every other name stay as they were. */
    twostate predicate OnlyTouches(n: Name)
      reads this
    {
      CurrentBindings() == old(CurrentBindings()) && forall m :: m != n ==> MachineOf(m) == old(MachineOf(m))
    }

    /** Only the name's own entry changed, to `e`. */
    twostate predicate EntryBecomes(n: Name, e: Entry)
      reads this
    {
      && OnlyTouches(n) && removals == old(removals)
      && MachineOf(n) == old(MachineOf(n)).(entry := e)
    }

    /** The call amounts to these steps of the name's machine. */
    twostate predicate Performs(n: Name, steps: seq<Step>)
      reads this
    {
      && OnlyTouches(n)
      && Runs(old(MachineOf(n)), steps) && MachineOf(n) == Run(old(MachineOf(n)), steps)
    }

    method AdvanceDescriptor(n: Name)
      modifies this
      ensures EntryBecomes(n, old(EntryOf(n)).(descriptor := old(EntryOf(n)).descriptor + 1))
    {
      descriptorGenerations := descriptorGenerations[n := Generation(Lookup(descriptorGenerations, n)) + 1];
    }

    method AdvanceConnection(n: Name)
      modifies this
      ensures EntryBecomes(n, old(EntryOf(n)).(connection := old(EntryOf(n)).connection + 1))
    {
      connectionGenerations := connectionGenerations[n := Generation(Lookup(connectionGenerations, n)) + 1];
    }

    /** Both dictionaries drop the name. */
    method ForgetMaterial(n: Name)
      modifies this
      ensures EntryBecomes(n, old(EntryOf(n)).Forget())
    {
      authorizationMaterial := authorizationMaterial - {n};
      rejectedMaterial := rejectedMaterial - {n};
    }

    method AcceptMaterial(n: Name, h: Headers)
      modifies this
      ensures EntryBecomes(n, old(EntryOf(n)).Accept(h))
    {
      if Lookup(authorizationMaterial, n) == Some(h) { return; }
      authorizationMaterial := authorizationMaterial[n := h];
      rejectedMaterial := rejectedMaterial - {n};
      AdvanceConnection(n);
    }

    /** The tail `_resolve_static` and `_resolve_oauth` share: refuse headers on record as
        rejected, otherwise accept them and hand them out. */
    method HandOut(n: Name, h: Headers) returns (a: Answer)
      requires Valid() && n !in removals
      modifies this
      ensures Valid() && removals == old(removals)
      ensures Performs(n, if old(EntryOf(n)).Refuses(h) then [] else [IssueHeaders(h)])
      ensures a == if old(EntryOf(n)).Refuses(h) then Required(RejectedReason, RevisionOf(EntryOf(n)), None)
                   else Snapshot(h, EntryOf(n).connection, RevisionOf(EntryOf(n)))
    {
      ghost var before := MachineOf(n);
      if Lookup(rejectedMaterial, n) == Some(Rejected(h)) {
        return Required(RejectedReason, RevisionOf(EntryOf(n)), None);
      }
      AcceptMaterial(n, h);
      issued := issued[n := Issued(n) + {Issue(EntryOf(n).connection, h)}];
      RunOne(before, IssueHeaders(h));
      StepKeepsSound(before, IssueHeaders(h));
      assert MachineOf(n) == Next(before, IssueHeaders(h));
      forall m ensures Sound(MachineOf(m)) {
        assert m != n ==> MachineOf(m) == old(MachineOf(m));
      }
      a := Snapshot(h, EntryOf(n).connection, RevisionOf(EntryOf(n)));
    }

    /** Credentials that turned out dead or foreign make everything issued for the name stale. */
    method AdvanceBoth(n: Name)
      requires Valid() && n !in removals
      modifies this
      ensures Valid() && removals == old(removals) && Performs(n, [Advance])
    {
      ghost var before := MachineOf(n);
      AdvanceDescriptor(n);
      AdvanceConnection(n);
      RunOne(before, Advance);
      StepKeepsSound(before, Advance);
      assert MachineOf(n) == Next(before, Advance);
      forall m ensures Sound(MachineOf(m)) {
        assert m != n ==> MachineOf(m) == old(MachineOf(m));
      }
    }

    /** Two catalogs anywhere in the process answer to the name. */
    function AliasIsShared(n: Name): bool
      reads this
    {
      Holders(configCatalogs, n) + Holders(pluginCatalogs, n) > 1
    }

    /** Several catalogs, of either kind, bind the name. */
    lemma SharedExactlyWhen(n: Name)
      ensures AliasIsShared(n) <==>
              exists i, j :: 0 <= i < j < |configCatalogs + pluginCatalogs|
                && n in (configCatalogs + pluginCatalogs)[i].servers && n in (configCatalogs + pluginCatalogs)[j].servers
    {
      HoldersConcat(configCatalogs, pluginCatalogs, n);
      HoldersTwo(configCatalogs + pluginCatalogs, n);
    }

    /** `_owned_server`: never falls back to the other kind of catalog. */
    function OwnedServer(r: AuthReference): Option<Server>
      reads this
    {
      CurrentBindings().View(r.owner, r.name)
    }

    method ResolveOAuth(n: Name, server: Server, declared: Headers, keyring: Keyring) returns (a: Answer)
      requires Valid() && n !in removals
      modifies this
      ensures Valid() && removals == old(removals)
      ensures var offer := OfferOf(OAuthAttempt(server, declared, keyring, old(AliasIsShared(n))));
              && Performs(n, OfferSteps(old(EntryOf(n)), offer))
              && a == OfferAnswer(old(EntryOf(n)), EntryOf(n), offer)
    {
      hide Sound;
      hide Next;
      hide Enabled;
      assert Runs(MachineOf(n), []) && Run(MachineOf(n), []) == MachineOf(n);
      hide Runs;
      hide Run;
      AttemptSteps(EntryOf(n), OAuthAttempt(server, declared, keyring, AliasIsShared(n)));
      hide OfferSteps;
      match keyring
      case Headless => a := Required(Missing, RevisionOf(EntryOf(n)), None);
      case Stored(saved, tokens, expired, refresh) =>
        if saved != Some(server.Fingerprint()) {
          var stale := tokens.Some? || saved.Some?;
          if stale && !AliasIsShared(n) {
            AdvanceBoth(n);
          }
          return Required(Invalid, RevisionOf(EntryOf(n)), None);
        }
        if tokens.None? {
          return Required(Missing, RevisionOf(EntryOf(n)), None);
        }
        var current := tokens;
        if expired {
          match refresh
          case InvalidGrant =>
            AdvanceBoth(n);
            return Required(Expired, RevisionOf(EntryOf(n)), None);
          case RefreshFailed =>
            return Required(Expired, RevisionOf(EntryOf(n)), None);
          case Refreshed(after) =>
            current := after;
        }
        if current.None? {
          return Required(Expired, RevisionOf(EntryOf(n)), None);
        }
        a := HandOut(n, Bearer(declared, current.value));
    }

    method ResolveDeclaredStatic(n: Name, server: Server, pluginOwned: bool, declared: Headers, keyring: Keyring)
      returns (a: Answer)
      requires Valid() && n !in removals && server.transport == StaticRemote
      modifies this
      ensures Valid() && removals == old(removals)
      ensures var offer := OfferFor(server, pluginOwned, declared, keyring, old(AliasIsShared(n)));
              && Performs(n, OfferSteps(old(EntryOf(n)), offer))
              && a == OfferAnswer(old(EntryOf(n)), EntryOf(n), offer)
    {
      hide Sound;
      hide Next;
      hide Enabled;
      ghost var before, shared := MachineOf(n), AliasIsShared(n);
      var late := LateBound(server, pluginOwned);
      ghost var issue := if before.entry.Refuses(declared) then [] else [IssueHeaders(declared)];
      if late.None? {
        a := HandOut(n, declared);
        assert [] + issue == issue;
        return;
      }
      a := ResolveOAuth(n, late.value, declared, keyring);
      if a.Required? && (a.reason == Missing || a.reason == Invalid) {
        ghost var attempt := OAuthAttempt(late.value, declared, keyring, shared);
        ghost var between := MachineOf(n);
        assert OfferSteps(before.entry, OfferOf(attempt)) == OfferOf(attempt).before;
        OnlyAdvances(before, OfferOf(attempt).before);
        a := HandOut(n, declared);
        RunConcat(before, OfferOf(attempt).before, issue);
      }
    }

    /** `_resolve_locked`. */
    method ResolveLocked(r: AuthReference, declared: Headers, keyring: Keyring) returns (a: Result<Answer, AuthError>)
      requires Valid() && r.name !in removals
      modifies this
      ensures Valid() && removals == old(removals)
      ensures a.Err? <==> old(OwnedServer(r)).None?
      ensures a.Err? ==> a.error == UnknownServer && Performs(r.name, [])
      ensures a.Ok? ==> Resolved(r, declared, keyring, a.value)
    {
      hide Sound;
      hide Next;
      hide Enabled;
      var owned := OwnedServer(r);
      if owned.None? { return Err(UnknownServer); }
      var server, n := owned.value, r.name;
      if r.reference.declared != Lookup(fingerprints, n)
         || r.reference.descriptor != Generation(Lookup(descriptorGenerations, n)) {
        return Ok(Required(Invalid, RevisionOf(EntryOf(n)), None));
      }
      if Some(r.reference.server) != Lookup(fingerprints, n) {
        return Ok(Required(Invalid, RevisionOf(EntryOf(n)), None));
      }
      if !server.Remote() {
        return Ok(Snapshot(map[], EntryOf(n).connection, RevisionOf(EntryOf(n))));
      }
      var answer: Answer;
      if server.transport == StaticRemote {
        answer := ResolveDeclaredStatic(n, server, r.owner == Plugin, declared, keyring);
      } else {
        answer := ResolveOAuth(n, server, declared, keyring);
      }
      a := Ok(answer);
    }

    /** The call did to the name, and answered, what a resolution of `r` does. */
    twostate predicate Resolved(r: AuthReference, declared: Headers, keyring: Keyring, a: Answer)
      requires old(OwnedServer(r)).Some?
      reads this
    {
      var e, server, shared := old(EntryOf(r.name)), old(OwnedServer(r)).value, old(AliasIsShared(r.name));
      && Performs(r.name, ResolveSteps(e, server, r, declared, keyring, shared))
      && a == ResolveAnswer(e, EntryOf(r.name), server, r, declared, keyring, shared)
    }

    method Resolve(r: AuthReference, declared: Headers, keyring: Keyring) returns (a: Result<Answer, AuthError>)
      requires Valid() && r.name !in removals
      modifies this
      ensures Valid() && removals == old(removals)
      ensures a.Err? <==> old(OwnedServer(r)).None?
      ensures a.Err? ==> a.error == UnknownServer && Performs(r.name, [])
      ensures a.Ok? ==> Resolved(r, declared, keyring, a.value)
    {
      a := ResolveLocked(r, declared, keyring);
    }

    /** The second half of a rejection: the record, then both generations. */
    method RejectCurrent(n: Name)
      requires Valid() && n !in removals
      modifies this
      ensures Valid() && removals == old(removals)
      ensures Performs(n, [RecordRejection, FinishRejection])
    {
      hide Run;
      hide Runs;
      hide Sound;
      ghost var before := MachineOf(n);
      var material := Lookup(authorizationMaterial, n);
      rejectedMaterial := rejectedMaterial[n := if material.Some? then Rejected(material.value) else RejectedNothing];
      assert MachineOf(n) == Next(before, RecordRejection);
      AdvanceDescriptor(n);
      AdvanceConnection(n);
      RejectionRuns(before);
      assert forall m :: m != n ==> MachineOf(m) == old(MachineOf(m));
    }

    /** A client reports that the headers it was given were refused.  Newer headers are answered
        as they are; otherwise the present ones go on record and everything held is stale. */
    method Reject(r: AuthReference, observed: nat, reason: string, declared: Headers, keyring: Keyring)
      returns (a: Result<Answer, AuthError>)
      requires Valid() && r.name !in removals
      modifies this
      ensures Valid() && removals == old(removals)
      ensures a == Err(UnsupportedReason) <==> reason != "http_unauthorized" && reason != "mcp_unauthorized"
      ensures a == Err(UnknownServer) <==> a != Err(UnsupportedReason) && old(OwnedServer(r)).None?
      ensures a.Err? ==> Performs(r.name, []) && (a.error == UnsupportedReason || a.error == UnknownServer)
      ensures a.Ok? ==> Rejects(r, observed, declared, keyring, a.value)
      ensures a.Ok? && a.value.Snapshot? ==> a.value.connection != observed
      ensures a.Ok? && a.value.Required? ==>
                a.value.reason == RejectedReason && a.value.observed == Some(observed) && EntryOf(r.name).rejection.Some?
    {
      if reason != "http_unauthorized" && reason != "mcp_unauthorized" { return Err(UnsupportedReason); }
      var n := r.name;
      ghost var before := MachineOf(n);
      var resolved := ResolveLocked(r, declared, keyring);
      if resolved.Err? { return resolved; }
      ghost var between := MachineOf(n);
      if resolved.value.Snapshot? && resolved.value.connection != observed { return resolved; }
      RejectCurrent(n);
      a := Ok(Required(RejectedReason, RevisionOf(EntryOf(n)), Some(observed)));
      RunConcat(before, ResolveSteps(before.entry, old(OwnedServer(r)).value, r, declared, keyring, old(AliasIsShared(n))),
                [RecordRejection, FinishRejection]);
    }

    twostate predicate Rejects(r: AuthReference, observed: nat, declared: Headers, keyring: Keyring, a: Answer)
      requires old(OwnedServer(r)).Some?
      reads this
    {
      var m, server, shared := old(MachineOf(r.name)), old(OwnedServer(r)).value, old(AliasIsShared(r.name));
      var steps := ResolveSteps(m.entry, server, r, declared, keyring, shared);
      && Runs(m, steps)
      && var current := ResolveAnswer(m.entry, Run(m, steps).entry, server, r, declared, keyring, shared);
      if current.Snapshot? && current.connection != observed
      then a == current && Performs(r.name, steps)
      else a == Required(RejectedReason, RevisionOf(EntryOf(r.name)), Some(observed))
           && Performs(r.name, steps + [RecordRejection, FinishRejection])
    }

    /** `_require_oauth_server`, for the server `_bound` finds. */
    function OAuthServer(n: Name, owner: Option<Owner>): Option<Server>
      reads this
    {
      var (server, pluginOwned) := Bound(n, owner);
      if server.None? then None
      else if server.value.transport == OAuthRemote then server
      else LateBound(server.value, pluginOwned)
    }

    /** `_bound`: inside the asking owner's own catalog, or across all of them with config first. */
    function Bound(n: Name, owner: Option<Owner>): (Option<Server>, bool)
      reads this
    {
      if owner.Some? && Binds(pluginCatalogs, owner.value) then (Lookup(Owned(pluginCatalogs, owner.value), n), true)
      else if owner.Some? && Binds(configCatalogs, owner.value) then (Lookup(Owned(configCatalogs, owner.value), n), false)
      else if Meaning(configCatalogs, n).Some? then (Meaning(configCatalogs, n), false)
      else (Meaning(pluginCatalogs, n), true)
    }

    /** A reference is looked up among the catalogs of its own kind, where the last to bind the name
        decides; the other kind is never asked. */
    lemma OwnedServerIsOfItsKind(r: AuthReference)
      ensures var catalogs := if r.owner == Plugin then pluginCatalogs else configCatalogs;
              && (OwnedServer(r).None? <==> forall i :: 0 <= i < |catalogs| ==> r.name !in catalogs[i].servers)
              && (forall i :: LastWith(catalogs, r.name, i) ==> OwnedServer(r) == Some(catalogs[i].servers[r.name]))
    {
      var catalogs := if r.owner == Plugin then pluginCatalogs else configCatalogs;
      MeaningNone(catalogs, r.name);
      forall i | LastWith(catalogs, r.name, i) ensures Meaning(catalogs, r.name) == Some(catalogs[i].servers[r.name]) {
        MeaningIsLast(catalogs, r.name, i);
      }
    }

    /** One can log in to a server that does OAuth, and to a plugin's static one as if it did. */
    lemma LoginServerExactlyWhen(n: Name, owner: Option<Owner>)
      ensures var (server, pluginOwned) := Bound(n, owner);
              && (OAuthServer(n, owner).Some? <==>
                    server.Some?
                    && (server.value.transport == OAuthRemote || (server.value.transport == StaticRemote && pluginOwned)))
              && (OAuthServer(n, owner).Some? ==> OAuthServer(n, owner).value == server.value.(transport := OAuthRemote))
    {}

    /** For a session that has bound a catalog the name means what that catalog says, whoever else has the
        name; for anybody else it is the configured server bound last, and a plugin's only where no
        configuration has one. */
    lemma BoundMeans(n: Name, owner: Option<Owner>, c: Catalog)
      requires WellFormed(CurrentBindings())
      ensures owner == Some(c.owner) && (c in pluginCatalogs || c in configCatalogs) ==>
                Bound(n, owner) == (if n in c.servers then Some(c.servers[n]) else None, c in pluginCatalogs)
      ensures (owner.None? || !(Binds(pluginCatalogs, owner.value) || Binds(configCatalogs, owner.value))) ==>
                && (Bound(n, owner).1 <==> forall i :: 0 <= i < |configCatalogs| ==> n !in configCatalogs[i].servers)
                && (forall i :: LastWith(configCatalogs, n, i) ==> Bound(n, owner).0 == Some(configCatalogs[i].servers[n]))
                && (forall i :: Bound(n, owner).1 && LastWith(pluginCatalogs, n, i) ==>
                      Bound(n, owner).0 == Some(pluginCatalogs[i].servers[n]))
    {
      if c in pluginCatalogs { OwnedIs(pluginCatalogs, c); } else if c in configCatalogs { OwnedIs(configCatalogs, c); }
      if owner == Some(c.owner) && c in configCatalogs { OnlyConfig(c); }
      MeaningNone(configCatalogs, n);
      forall i | LastWith(configCatalogs, n, i) ensures Meaning(configCatalogs, n) == Some(configCatalogs[i].servers[n]) {
        MeaningIsLast(configCatalogs, n, i);
      }
      forall i | LastWith(pluginCatalogs, n, i) ensures Meaning(pluginCatalogs, n) == Some(pluginCatalogs[i].servers[n]) {
        MeaningIsLast(pluginCatalogs, n, i);
      }
    }

    lemma OnlyConfig(c: Catalog)
      requires WellFormed(CurrentBindings()) && c in configCatalogs
      ensures !Binds(pluginCatalogs, c.owner)
    {
      var j :| 0 <= j < |configCatalogs| && configCatalogs[j] == c;
      forall i | 0 <= i < |pluginCatalogs| ensures pluginCatalogs[i].owner != c.owner {
        assert configCatalogs[j].owner != pluginCatalogs[i].owner;
      }
    }

    /** What a login and a deletion of credentials do once they succeeded. */
    method StartOver(n: Name)
      requires Valid() && n !in removals
      modifies this
      ensures Valid() && removals == old(removals) && Performs(n, [Forget])
    {
      ghost var before := MachineOf(n);
      AdvanceDescriptor(n);
      AdvanceConnection(n);
      ForgetMaterial(n);
      RunOne(before, Forget);
      StepKeepsSound(before, Forget);
      assert MachineOf(n) == Next(before, Forget);
      forall m ensures Sound(MachineOf(m)) {
        assert m != n ==> MachineOf(m) == old(MachineOf(m));
      }
    }

    method Login(n: Name, owner: Option<Owner>, flowCompletes: bool) returns (a: Result<Revision, AuthError>)
      requires Valid() && n !in removals
      modifies this
      ensures Valid() && removals == old(removals)
      ensures a.Ok? <==> old(OAuthServer(n, owner)).Some? && flowCompletes
      ensures Performs(n, if a.Ok? then [Forget] else [])
      ensures a.Ok? ==> a.value == RevisionOf(EntryOf(n))
    {
      if OAuthServer(n, owner).None? { return Err(NotOAuth); }
      if !flowCompletes { return Err(FlowFailed); }
      StartOver(n);
      a := Ok(RevisionOf(EntryOf(n)));
    }

    method Logout(n: Name, owner: Option<Owner>, deleted: bool) returns (a: Result<Revision, AuthError>)
      requires Valid() && n !in removals
      modifies this
      ensures Valid() && removals == old(removals)
      ensures a.Ok? <==> old(OAuthServer(n, owner)).Some? && deleted
      ensures Performs(n, if a.Ok? then [Forget] else [])
      ensures a.Ok? ==> a.value == RevisionOf(EntryOf(n))
    {
      if OAuthServer(n, owner).None? { return Err(NotOAuth); }
      if !deleted { return Err(FlowFailed); }
      StartOver(n);
      a := Ok(RevisionOf(EntryOf(n)));
    }

    // ---------- credential removal, whose caller runs while the lock is held

    /** The state is saved before the deletion is awaited. */
    method EnterCredentialRemoval(n: Name, owner: Option<Owner>) returns (a: Result<(), AuthError>)
      requires Valid() && n !in removals
      modifies this
      ensures Valid() && removals.Keys == old(removals.Keys) + if a.Ok? then {n} else {}
      ensures a.Ok? <==> old(OAuthServer(n, owner)).Some?
      ensures a.Err? ==> a.error == NotOAuth
      ensures Performs(n, if a.Ok? then [OpenRemoval] else [])
    {
      if OAuthServer(n, owner).None? { return Err(NotOAuth); }
      hide Run;
      hide Runs;
      hide Sound;
      ghost var before := MachineOf(n);
      var previous := SavedState(Lookup(descriptorGenerations, n), Lookup(connectionGenerations, n),
                                 Lookup(authorizationMaterial, n), Lookup(rejectedMaterial, n));
      removals := removals[n := Removal(previous, false)];
      a := Ok(());
      RunOne(before, OpenRemoval);
      StepKeepsSound(before, OpenRemoval);
      assert MachineOf(n) == Next(before, OpenRemoval);
      forall m ensures Sound(MachineOf(m)) {
        assert m != n ==> MachineOf(m) == old(MachineOf(m));
      }
    }

    /** The deletion returned: the name starts over, and the caller is given its new revision. */
    method DeleteForRemoval(n: Name) returns (a: Revision)
      requires Valid() && n in removals && !removals[n].deleted
      modifies this
      ensures Valid() && removals.Keys == old(removals.Keys)
      ensures Performs(n, [Step.DeleteForRemoval])
      ensures a == RevisionOf(EntryOf(n))
    {
      hide Run;
      hide Runs;
      hide Sound;
      ghost var before := MachineOf(n);
      AdvanceDescriptor(n);
      AdvanceConnection(n);
      ForgetMaterial(n);
      removals := removals[n := removals[n].(deleted := true)];
      a := RevisionOf(EntryOf(n));
      RunOne(before, Step.DeleteForRemoval);
      StepKeepsSound(before, Step.DeleteForRemoval);
      assert MachineOf(n) == Next(before, Step.DeleteForRemoval);
      forall m ensures Sound(MachineOf(m)) {
        assert m != n ==> MachineOf(m) == old(MachineOf(m));
      }
    }

    method CompleteCredentialRemoval(n: Name)
      requires Valid() && n in removals && removals[n].deleted
      modifies this
      ensures Valid() && removals == old(removals) - {n}
      ensures Performs(n, [CommitRemoval])
    {
      hide Run;
      hide Runs;
      hide Sound;
      ghost var before := MachineOf(n);
      removals := removals - {n};
      RunOne(before, CommitRemoval);
      StepKeepsSound(before, CommitRemoval);
      assert MachineOf(n) == Next(before, CommitRemoval);
      forall m ensures Sound(MachineOf(m)) {
        assert m != n ==> MachineOf(m) == old(MachineOf(m));
      }
    }

    /** The deletion or the configuration removal raised: `_restore_authorization_state`. */
    method AbortCredentialRemoval(n: Name)
      requires Valid() && n in removals
      modifies this
      ensures Valid() && removals == old(removals) - {n}
      ensures Performs(n, [AbortRemoval])
    {
      hide Run;
      hide Runs;
      hide Sound;
      ghost var before := MachineOf(n);
      var state := removals[n].saved;
      descriptorGenerations := RestoreEntry(descriptorGenerations, n, state.descriptor);
      connectionGenerations := RestoreEntry(connectionGenerations, n, state.connection);
      authorizationMaterial := RestoreEntry(authorizationMaterial, n, state.accepted);
      rejectedMaterial := RestoreEntry(rejectedMaterial, n, state.rejection);
      removals := removals - {n};
      RunOne(before, AbortRemoval);
      StepKeepsSound(before, AbortRemoval);
      assert MachineOf(n) == Next(before, AbortRemoval);
      forall m ensures Sound(MachineOf(m)) {
        assert m != n ==> MachineOf(m) == old(MachineOf(m));
      }
    }

    // ---------- binding

    twostate predicate OnlyFingerprintOf(n: Name)
      reads this
    {
      && configCatalogs == old(configCatalogs) && pluginCatalogs == old(pluginCatalogs) && removals == old(removals)
      && forall m :: m != n ==> MachineOf(m) == old(MachineOf(m))
    }

    /** The half of `_install_fingerprint` that does not wait for the lock. */
    method WriteFingerprint(n: Name, f: Fingerprint) returns (replaced: bool)
      modifies this
      ensures OnlyFingerprintOf(n)
      ensures MachineOf(n) == Next(old(MachineOf(n)), Declare(f))
      ensures replaced <==> old(EntryOf(n)).fingerprint.Some? && old(EntryOf(n)).fingerprint != Some(f)
    {
      var previous := Lookup(fingerprints, n);
      fingerprints := fingerprints[n := f];
      replaced := previous.Some? && previous != Some(f);
    }

    /** Both halves, the lock being free for the second. */
    method InstallFingerprint(n: Name, f: Fingerprint)
      requires Runs(MachineOf(n), InstallSteps(EntryOf(n), f))
      modifies this
      ensures OnlyFingerprintOf(n)
      ensures MachineOf(n) == Run(old(MachineOf(n)), InstallSteps(old(EntryOf(n)), f))
    {
      ghost var before := MachineOf(n);
      InstallRuns(before, f);
      hide Run;
      hide Runs;
      var replaced := WriteFingerprint(n, f);
      if replaced {
        AdvanceDescriptor(n);
        AdvanceConnection(n);
        ForgetMaterial(n);
        assert MachineOf(n) == Next(Next(before, Declare(f)), Replaced);
      }
    }

    method Undeclare(n: Name)
      modifies this
      ensures OnlyFingerprintOf(n)
      ensures Runs(old(MachineOf(n)), [Step.Undeclare]) && MachineOf(n) == Run(old(MachineOf(n)), [Step.Undeclare])
    {
      ghost var before := MachineOf(n);
      fingerprints := fingerprints - {n};
      authorizationMaterial := authorizationMaterial - {n};
      rejectedMaterial := rejectedMaterial - {n};
      RunOne(before, Step.Undeclare);
      assert MachineOf(n) == Next(before, Step.Undeclare);
    }

    /** `_bind_owned`: the owner's catalog moves to the end with exactly these servers, every name
        it has or had gets the fingerprint of the server that now answers to it, and a name whose
        fingerprint changed starts over. */
    method BindOwned(kind: Kind, key: Owner, servers: seq<Server>)
      requires Valid()
      requires forall n :: Runs(MachineOf(n), BindSteps(EntryOf(n), CurrentBindings(), kind, key, ByName(servers), n))
      modifies this
      ensures Valid() && removals == old(removals)
      ensures CurrentBindings() == Bind(old(CurrentBindings()), kind, key, servers)
      ensures forall n ::
                MachineOf(n) == Run(old(MachineOf(n)), BindSteps(old(EntryOf(n)), old(CurrentBindings()), kind, key, ByName(servers), n))
    {
      ghost var b := CurrentBindings();
      var owned := Owned(CurrentBindings().Of(kind), key);
      var survivors := Survivors(key);
      var active := CollectByName(servers);
      if kind == Config {
        configCatalogs := Without(configCatalogs, key) + [Catalog(key, active)];
      } else {
        pluginCatalogs := Without(pluginCatalogs, key) + [Catalog(key, active)];
      }
      assert forall n :: MachineOf(n) == old(MachineOf(n));
      BindServers(b, kind, key, owned, survivors, active);
      forall n ensures Sound(MachineOf(n)) && Lookup(fingerprints, n) == Lookup(Bind(b, kind, key, servers).fingerprints, n) {
        RunKeepsSound(old(MachineOf(n)), BindSteps(old(EntryOf(n)), b, kind, key, active, n));
        BindStepsInstall(old(MachineOf(n)), b, kind, key, active, n);
        BindFingerprint(b, kind, key, servers, n);
        assert MachineOf(n).entry.fingerprint == Lookup(fingerprints, n);
      }
      SameLookups(fingerprints, Bind(b, kind, key, servers).fingerprints);
    }

    method Survivors(key: Owner) returns (survivors: map<Name, Server>)
      ensures forall n :: Lookup(survivors, n) == CurrentBindings().Survivor(key, n)
    {
      var configured := Merged(configCatalogs, key);
      var plugins := Merged(pluginCatalogs, key);
      survivors := plugins + configured;
      forall n ensures Lookup(survivors, n) == CurrentBindings().Survivor(key, n) {
        assert Lookup(configured, n) == Meaning(Without(configCatalogs, key), n);
        assert Lookup(plugins, n) == Meaning(Without(pluginCatalogs, key), n);
      }
    }

    static method CollectByName(servers: seq<Server>) returns (active: map<Name, Server>)
      ensures active == ByName(servers)
    {
      active := map[];
      for k := 0 to |servers|
        invariant active == ByName(servers[..k])
      {
        assert servers[..k + 1][..k] == servers[..k];
        active := active[servers[k].name := servers[k]];
      }
      assert servers[..|servers|] == servers;
    }

    /** `_bind`, over the bindings `b` that were in place before the catalog moved. */
    method BindServers(ghost b: Bindings, ghost kind: Kind, ghost key: Owner,
                       owned: map<Name, Server>, survivors: map<Name, Server>, active: map<Name, Server>)
      requires owned == Owned(b.Of(kind), key)
      requires forall n :: Lookup(survivors, n) == b.Survivor(key, n)
      requires forall n :: Runs(MachineOf(n), BindSteps(EntryOf(n), b, kind, key, active, n))
      modifies this
      ensures configCatalogs == old(configCatalogs) && pluginCatalogs == old(pluginCatalogs) && removals == old(removals)
      ensures forall n :: MachineOf(n) == Run(old(MachineOf(n)), BindSteps(old(EntryOf(n)), b, kind, key, active, n))
    {
      forall n ensures BindSteps(EntryOf(n), b, kind, key, active, n) ==
          if n in active then InstallSteps(EntryOf(n), active[n].Fingerprint())
          else if n in owned then DropSteps(EntryOf(n), survivors, n)
          else []
      {
        assert Lookup(survivors, n) == b.Survivor(key, n);
      }
      InstallAll(active);
      DropAll(owned.Keys - active.Keys, survivors);
    }

    /** The first loop of `_bind`. */
    method InstallAll(active: map<Name, Server>)
      requires forall n :: n in active ==> Runs(MachineOf(n), InstallSteps(EntryOf(n), active[n].Fingerprint()))
      modifies this
      ensures configCatalogs == old(configCatalogs) && pluginCatalogs == old(pluginCatalogs) && removals == old(removals)
      ensures forall n :: n !in active ==> MachineOf(n) == old(MachineOf(n))
      ensures forall n :: n in active ==>
                MachineOf(n) == Run(old(MachineOf(n)), InstallSteps(old(EntryOf(n)), active[n].Fingerprint()))
    {
      hide Run;
      hide Runs;
      hide InstallSteps;
      var todo := active.Keys;
      while todo != {}
        invariant todo <= active.Keys
        invariant configCatalogs == old(configCatalogs) && pluginCatalogs == old(pluginCatalogs) && removals == old(removals)
        invariant forall n :: n !in active || n in todo ==> MachineOf(n) == old(MachineOf(n))
        invariant forall n :: n in active && n !in todo ==>
                    MachineOf(n) == Run(old(MachineOf(n)), InstallSteps(old(EntryOf(n)), active[n].Fingerprint()))
        decreases todo
      {
        var n :| n in todo;
        InstallFingerprint(n, active[n].Fingerprint());
        todo := todo - {n};
      }
    }

    /** What the second loop of `_bind` does to a name the owner no longer binds. */
    static function DropSteps(e: Entry, survivors: map<Name, Server>, n: Name): seq<Step> {
      if n in survivors then InstallSteps(e, survivors[n].Fingerprint()) else [Step.Undeclare]
    }

    /** The second loop of `_bind`: hand each dropped name back to a survivor, or forget it. */
    method DropAll(names: set<Name>, survivors: map<Name, Server>)
      requires forall n :: n in names ==> Runs(MachineOf(n), DropSteps(EntryOf(n), survivors, n))
      modifies this
      ensures configCatalogs == old(configCatalogs) && pluginCatalogs == old(pluginCatalogs) && removals == old(removals)
      ensures forall n :: n !in names ==> MachineOf(n) == old(MachineOf(n))
      ensures forall n :: n in names ==> MachineOf(n) == Run(old(MachineOf(n)), DropSteps(old(EntryOf(n)), survivors, n))
    {
      var removed := names;
      while removed != {}
        invariant removed <= names
        invariant configCatalogs == old(configCatalogs) && pluginCatalogs == old(pluginCatalogs) && removals == old(removals)
        invariant forall n :: n !in names || n in removed ==> MachineOf(n) == old(MachineOf(n))
        invariant forall n :: n in names && n !in removed ==>
                    MachineOf(n) == Run(old(MachineOf(n)), DropSteps(old(EntryOf(n)), survivors, n))
        decreases removed
      {
        var n :| n in removed;
        if n in survivors {
          InstallFingerprint(n, survivors[n].Fingerprint());
        } else {
          Undeclare(n);
        }
        removed := removed - {n};
      }
    }
  }


  lemma BindStepsInstall(m: Machine, b: Bindings, kind: Kind, key: Owner, active: map<Name, Server>, n: Name)
    requires m.entry.fingerprint == Lookup(b.fingerprints, n)
    requires Runs(m, BindSteps(m.entry, b, kind, key, active, n))
    ensures Run(m, BindSteps(m.entry, b, kind, key, active, n)).entry.fingerprint == BoundFingerprint(b, kind, key, active, n)
  {
    var f := BoundFingerprint(b, kind, key, active, n);
    if n in active || n in Owned(b.Of(kind), key) {
      if f.None? {
        RunOne(m, Undeclare);
      } else {
        RunOne(m, Declare(f.value));
        if |InstallSteps(m.entry, f.value)| == 2 {
          assert [Declare(f.value), Replaced][1..] == [Replaced];
          assert Runs(Next(m, Declare(f.value)), [Replaced]);
          RunTwo(m, Declare(f.value), Replaced);
        }
      }
    }
  }
}
