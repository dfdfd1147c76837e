/**
 The life of one server name in the MCP authorization service, after vibe/app_server/_mcp_auth.py.

 Every dictionary of the service is keyed by server name, so what it knows about one name is a
 record.  The service runs on one event loop: control changes hands only at an `await`, so a run
 is a sequence of the synchronous segments between awaits.  Each such segment is a step here.
 Segments that run under the name's lock cannot happen while a credential removal holds it; the
 bookkeeping of a catalog binding does not take the lock and can happen at any time.
 */
module McpAuthProtocol {
  import opened Common

  type Name = string

  /** Request headers.  A header map stands for its own digest ("material"). */
  type Headers = map<string, string>

  datatype Transport = Stdio | StaticRemote | OAuthRemote

  /** A server definition without the secret values, which are read when it is resolved. */
  datatype Server = Server(name: Name, transport: Transport, definition: string) {
    predicate Remote() { transport != Stdio }
    /** The digest of the definition, taken to be injective. */
    function Fingerprint(): Fingerprint { FingerprintOf(name, transport, definition) }
  }

  datatype Fingerprint = FingerprintOf(name: Name, transport: Transport, definition: string)

  /** What `_rejected_material` records: the accepted headers, or nothing if none were. */
  datatype Rejection = RejectedNothing | Rejected(headers: Headers)

  /** The service's five dictionaries, read at one name. */
  datatype Entry = Entry(
    fingerprint: Option<Fingerprint>,
    descriptor: nat,
    connection: nat,
    accepted: Option<Headers>,
    rejection: Option<Rejection>)
  {
    function AdvanceBoth(): Entry { this.(descriptor := descriptor + 1, connection := connection + 1) }
    function Forget(): Entry { this.(accepted := None, rejection := None) }
    predicate Refuses(h: Headers) { rejection == Some(Rejected(h)) }
    /** `_accept_material`: new headers get a new connection revision. */
    function Accept(h: Headers): Entry {
      if accepted == Some(h) then this
      else this.(accepted := Some(h), rejection := None, connection := connection + 1)
    }
    function RecordRejection(): Entry {
      this.(rejection := Some(if accepted.Some? then Rejected(accepted.value) else RejectedNothing))
    }
    /** `_restore_authorization_state`: everything but the fingerprint goes back. */
    function RestoreFrom(saved: Entry): Entry { saved.(fingerprint := fingerprint) }
  }

  const FRESH := Entry(None, 0, 0, None, None)

  /** Headers handed out for a remote server, with the connection revision they carried. */
  datatype Issue = Issue(connection: nat, headers: Headers)

  /** A running credential removal: the state it would restore, and whether the credentials are
      deleted yet. */
  datatype Window = Window(saved: Entry, deleted: bool)

  /** A name's entry, the credential removal under way, if any, and every issue so far. */
  datatype Machine = Machine(entry: Entry, window: Option<Window>, issued: set<Issue>)

  const START := Machine(FRESH, None, {})

  datatype Step =
    | Declare(fingerprint: Fingerprint)  // a binding writes the name's fingerprint
    | Undeclare                          // the last binding of the name is dropped
    | Replaced                           // locked: the fingerprint written was a different one
    | Advance                            // locked: the stored grant proved dead or foreign
    | IssueHeaders(headers: Headers)     // locked: headers not on record as rejected are handed out
    | RecordRejection                    // locked: a client reports the current headers refused
    | FinishRejection                    // locked: ... and both generations move on
    | Forget                             // locked: a login or a logout completed
    | OpenRemoval                        // locked: the state is saved, the lock kept from here on
    | DeleteForRemoval                   // the credentials are deleted
    | CommitRemoval                      // the configuration removal went through
    | AbortRemoval                       // it failed: the saved state is restored

  predicate Locked(s: Step) {
    !s.Declare? && !s.Undeclare? && !s.DeleteForRemoval? && !s.CommitRemoval? && !s.AbortRemoval?
  }

  predicate Enabled(m: Machine, s: Step) {
    && (Locked(s) ==> m.window.None?)
    && (s.DeleteForRemoval? ==> m.window.Some? && !m.window.value.deleted)
    && (s.CommitRemoval? ==> m.window.Some? && m.window.value.deleted)
    && (s.AbortRemoval? ==> m.window.Some?)
    && (s.IssueHeaders? ==> !m.entry.Refuses(s.headers))
  }

  function Next(m: Machine, s: Step): Machine
    requires Enabled(m, s)
  {
    var e := m.entry;
    match s
    case Declare(fp) => m.(entry := e.(fingerprint := Some(fp)))
    case Undeclare => m.(entry := e.Forget().(fingerprint := None))
    case Replaced => m.(entry := e.AdvanceBoth().Forget())
    case Advance => m.(entry := e.AdvanceBoth())
    case IssueHeaders(h) =>
      var accepted := e.Accept(h);
      m.(entry := accepted, issued := m.issued + {Issue(accepted.connection, h)})
    case RecordRejection => m.(entry := e.RecordRejection())
    case FinishRejection => m.(entry := e.AdvanceBoth())
    case Forget => m.(entry := e.AdvanceBoth().Forget())
    case OpenRemoval => m.(window := Some(Window(e.(fingerprint := None), false)))
    case DeleteForRemoval => m.(entry := e.AdvanceBoth().Forget(), window := Some(m.window.value.(deleted := true)))
    case CommitRemoval => m.(window := None)
    case AbortRemoval => m.(entry := e.RestoreFrom(m.window.value.saved), window := None)
  }

  predicate Runs(m: Machine, steps: seq<Step>)
    decreases |steps|
  {
    steps == [] || (Enabled(m, steps[0]) && Runs(Next(m, steps[0]), steps[1..]))
  }

  function Run(m: Machine, steps: seq<Step>): Machine
    requires Runs(m, steps)
    decreases |steps|
  {
    if steps == [] then m else Run(Next(m, steps[0]), steps[1..])
  }

  // ---------- a connection revision names one set of headers

  /** Nothing was issued under a later revision, and what was issued under the present one is
      what is on record as accepted, if anything is. */
  predicate Faithful(e: Entry, issued: set<Issue>) {
    forall i :: i in issued ==>
      i.connection <= e.connection
      && (i.connection == e.connection && e.accepted.Some? ==> e.accepted.value == i.headers)
  }

  predicate OneHeadersPerRevision(issued: set<Issue>) {
    forall i, j :: i in issued && j in issued && i.connection == j.connection ==> i.headers == j.headers
  }

  predicate Sound(m: Machine) {
    && Faithful(m.entry, m.issued)
    && OneHeadersPerRevision(m.issued)
    && RejectsOnlyAccepted(m.entry)
    && (m.window.Some? ==> SoundWindow(m.entry, m.window.value, m.issued))
  }

  /** Nothing is issued during a removal, and its generations are those saved or one on. */
  predicate SoundWindow(e: Entry, w: Window, issued: set<Issue>) {
    && Faithful(w.saved, issued) && RejectsOnlyAccepted(w.saved)
    && e.descriptor == w.saved.descriptor + (if w.deleted then 1 else 0)
    && e.connection == w.saved.connection + (if w.deleted then 1 else 0)
    && (w.deleted ==> e.accepted.None?)
  }

  /** Only the headers last accepted are ever on record as rejected. */
  predicate RejectsOnlyAccepted(e: Entry) {
    e.rejection.Some? && e.rejection.value.Rejected? ==> e.accepted == Some(e.rejection.value.headers)
  }

  lemma StepKeepsSound(m: Machine, s: Step)
    requires Sound(m) && Enabled(m, s)
    ensures Sound(Next(m, s))
  {}

  lemma {:induction false} RunKeepsSound(m: Machine, steps: seq<Step>)
    requires Sound(m) && Runs(m, steps)
    ensures Sound(Run(m, steps))
    decreases |steps|
  {
    if steps != [] {
      StepKeepsSound(m, steps[0]);
      RunKeepsSound(Next(m, steps[0]), steps[1..]);
    }
  }

  /** Over every run, headers issued for a name under one connection revision are the same. */
  lemma RevisionIsFaithful(steps: seq<Step>, i: Issue, j: Issue)
    requires Runs(START, steps)
    requires i in Run(START, steps).issued && j in Run(START, steps).issued
    requires i.connection == j.connection
    ensures i.headers == j.headers
  {
    RunKeepsSound(START, steps);
  }

  // ---------- references go stale, and stay so

  /** `reference_for`: the server it was built from and the descriptor revision it saw. */
  datatype Reference = Reference(server: Fingerprint, declared: Option<Fingerprint>, descriptor: nat)

  function TakeReference(m: Machine, server: Fingerprint): Reference {
    Reference(server, m.entry.fingerprint, m.entry.descriptor)
  }

  /** The two checks `_resolve_locked` makes before it looks at any credential. */
  predicate Honours(e: Entry, r: Reference) {
    && r.declared == e.fingerprint && r.descriptor == e.descriptor
    && e.fingerprint == Some(r.server)
  }

  /** The steps that make what clients hold about a name out of date. */
  predicate Invalidates(s: Step) {
    s.Replaced? || s.Advance? || s.FinishRejection? || s.Forget? || s.CommitRemoval?
  }

  /** The descriptor generation an aborted removal would return to. */
  function Settled(m: Machine): nat {
    if m.window.Some? then m.window.value.saved.descriptor else m.entry.descriptor
  }

  lemma {:induction false} GenerationCountsInvalidations(m: Machine, steps: seq<Step>)
    requires Sound(m) && Runs(m, steps)
    ensures Settled(Run(m, steps)) >= Settled(m)
    ensures Settled(Run(m, steps)) == Settled(m) <==> forall s :: s in steps ==> !Invalidates(s)
    decreases |steps|
  {
    if steps != [] {
      StepKeepsSound(m, steps[0]);
      var next := Next(m, steps[0]);
      assert Settled(next) == Settled(m) + if Invalidates(steps[0]) then 1 else 0;
      GenerationCountsInvalidations(next, steps[1..]);
      assert forall s :: s in steps <==> s == steps[0] || s in steps[1..];
    }
  }

  /** A reference taken while no removal was under way is honoured later exactly when it was
      taken for the declared server, that server is declared again now, and nothing invalidating
      happened in between.  An aborted removal in between does not count. */
  lemma ReferenceHonouredExactlyWhen(m: Machine, steps: seq<Step>, server: Fingerprint)
    requires Sound(m) && Runs(m, steps)
    requires m.window.None? && Run(m, steps).window.None?
    ensures Honours(Run(m, steps).entry, TakeReference(m, server)) <==>
            && m.entry.fingerprint == Some(server) == Run(m, steps).entry.fingerprint
            && forall s :: s in steps ==> !Invalidates(s)
  {
    GenerationCountsInvalidations(m, steps);
  }

  /** Dropping a server, binding another under its name and binding the first again is not a
      replacement: the first server's old references are honoured once more. */
  lemma UnbindingBetweenKeepsReferences(m: Machine, a: Fingerprint, b: Fingerprint)
    requires m.window.None? && m.entry.fingerprint == Some(a)
    ensures var steps := [Undeclare, Declare(b), Undeclare, Declare(a)];
            Runs(m, steps) && Honours(Run(m, steps).entry, TakeReference(m, a))
  {
    var m1 := Next(m, Undeclare);
    var m2 := Next(m1, Declare(b));
    var m3 := Next(m2, Undeclare);
    var m4 := Next(m3, Declare(a));
    var s1, s2, s3 := [Declare(a)], [Undeclare, Declare(a)], [Declare(b), Undeclare, Declare(a)];
    assert s1[1..] == [] && s2[1..] == s1 && s3[1..] == s2;
    assert [Undeclare, Declare(b), Undeclare, Declare(a)][1..] == s3;
    assert Runs(m4, []) && Run(m4, []) == m4;
    assert Runs(m3, s1) && Run(m3, s1) == m4;
    assert Runs(m2, s2) && Run(m2, s2) == m4;
    assert Runs(m1, s3) && Run(m1, s3) == m4;
  }

  /** The connection generation an aborted removal would return to. */
  function SettledConnection(m: Machine): nat {
    if m.window.Some? then m.window.value.saved.connection else m.entry.connection
  }

  lemma {:induction false} ConnectionGrows(m: Machine, steps: seq<Step>)
    requires Sound(m) && Runs(m, steps)
    ensures SettledConnection(Run(m, steps)) >= SettledConnection(m)
    ensures (exists s :: s in steps && Invalidates(s)) ==> SettledConnection(Run(m, steps)) > SettledConnection(m)
    decreases |steps|
  {
    if steps != [] {
      StepKeepsSound(m, steps[0]);
      ConnectionGrows(Next(m, steps[0]), steps[1..]);
      assert forall s :: s in steps <==> s == steps[0] || s in steps[1..];
    }
  }

  /** Headers handed out after a rejection, a login, a logout, a replacement or a dead grant carry a later
      connection revision than any handed out before. */
  lemma InvalidationStartsANewRevision(m: Machine, steps: seq<Step>, i: Issue, h: Headers)
    requires Sound(m) && m.window.None? && i in m.issued
    requires Runs(m, steps) && Enabled(Run(m, steps), IssueHeaders(h)) && exists s :: s in steps && Invalidates(s)
    ensures var after := Next(Run(m, steps), IssueHeaders(h));
            Issue(after.entry.connection, h) in after.issued && after.entry.connection > i.connection
  {
    ConnectionGrows(m, steps);
  }

  // ---------- what an aborted removal undoes

  /** Nothing but bindings, and the deletion itself, can happen in the window; when it is aborted the
      entry is what it was when the window opened, but for the fingerprint. */
  lemma {:induction false} AbortUndoes(m: Machine, steps: seq<Step>, saved: Entry)
    requires m.window.Some? && m.window.value.saved == saved && Runs(m, steps)
    requires forall s :: s in steps ==> !s.CommitRemoval? && !s.AbortRemoval?
    ensures Run(m, steps).window.Some? && Run(m, steps).window.value.saved == saved
    ensures Run(m, steps).issued == m.issued && Enabled(Run(m, steps), AbortRemoval)
    decreases |steps|
  {
    if steps != [] {
      assert steps[0] in steps && forall s :: s in steps[1..] ==> s in steps;
      AbortUndoes(Next(m, steps[0]), steps[1..], saved);
    }
  }

  lemma AbortedRemovalLeavesNoTrace(m: Machine, steps: seq<Step>)
    requires Enabled(m, OpenRemoval) && Runs(Next(m, OpenRemoval), steps)
    requires forall s :: s in steps ==> !s.CommitRemoval? && !s.AbortRemoval?
    ensures var z := Run(Next(m, OpenRemoval), steps);
            && Enabled(z, AbortRemoval)
            && var e, after := m.entry, Next(z, AbortRemoval);
               && after.window.None? && after.issued == m.issued && after.entry.fingerprint == z.entry.fingerprint
               && after.entry.descriptor == e.descriptor && after.entry.connection == e.connection
               && after.entry.accepted == e.accepted && after.entry.rejection == e.rejection
  {
    AbortUndoes(Next(m, OpenRemoval), steps, m.entry.(fingerprint := None));
  }

  // ---------- rejected headers stay refused

  /** A rejection puts on record the headers last accepted, and no others. */
  lemma RejectionIsOfTheAccepted(m: Machine, h: Headers)
    requires m.window.None?
    ensures var after := Next(Next(m, RecordRejection), FinishRejection).entry;
            && after.rejection.Some?
            && (after.Refuses(h) <==> m.entry.accepted == Some(h)) && after.accepted == m.entry.accepted
            && after.fingerprint == m.entry.fingerprint
            && after.descriptor > m.entry.descriptor && after.connection > m.entry.connection
  {}


  /** The steps that clear or supersede a record that `h` was rejected. */
  predicate Lifts(s: Step, h: Headers) {
    || s.Replaced? || s.Forget? || s.Undeclare? || s.CommitRemoval?
    || (s.IssueHeaders? && s.headers != h)
  }

  /** The rejection record, or the one an aborted removal would bring back. */
  predicate RemembersRejection(m: Machine, h: Headers) {
    if m.window.Some? then m.window.value.saved.Refuses(h) else m.entry.Refuses(h)
  }

  lemma {:induction false} RejectionIsRemembered(m: Machine, steps: seq<Step>, h: Headers)
    requires Sound(m) && Runs(m, steps) && RemembersRejection(m, h)
    requires forall s :: s in steps ==> !Lifts(s, h)
    ensures RemembersRejection(Run(m, steps), h) && Run(m, steps).issued == m.issued
    decreases |steps|
  {
    if steps != [] {
      StepKeepsSound(m, steps[0]);
      assert steps[0] in steps && forall s :: s in steps[1..] ==> s in steps;
      assert RemembersRejection(Next(m, steps[0]), h);
      RejectionIsRemembered(Next(m, steps[0]), steps[1..], h);
    }
  }

  lemma {:induction false} PrefixRuns(m: Machine, steps: seq<Step>, k: nat)
    requires Runs(m, steps) && k <= |steps|
    ensures Runs(m, steps[..k]) && Runs(Run(m, steps[..k]), steps[k..])
    ensures Run(Run(m, steps[..k]), steps[k..]) == Run(m, steps)
    decreases k
  {
    if k == 0 {
      assert steps[..0] == [] && steps[0..] == steps;
    } else {
      var next := Next(m, steps[0]);
      PrefixRuns(next, steps[1..], k - 1);
      assert steps[..k][1..] == steps[1..][..k - 1] && steps[1..][k - 1..] == steps[k..];
    }
  }

  /** Headers on record as rejected are handed out again only after different headers were, or a
      login, a logout, a replacement, an unbinding or a completed removal cleared the record. */
  lemma RejectedHeadersAreNotReissued(m: Machine, steps: seq<Step>, h: Headers, k: nat)
    requires Sound(m) && Runs(m, steps) && m.window.None? && m.entry.Refuses(h)
    requires k < |steps| && steps[k] == IssueHeaders(h)
    ensures exists j :: 0 <= j < k && Lifts(steps[j], h)
  {
    PrefixRuns(m, steps, k);
    assert steps[k..][0] == steps[k];
    if forall s :: s in steps[..k] ==> !Lifts(s, h) {
      RejectionIsRemembered(m, steps[..k], h);
    } else {
      var s :| s in steps[..k] && Lifts(s, h);
      var j :| 0 <= j < k && steps[..k][j] == s;
    }
  }
}
