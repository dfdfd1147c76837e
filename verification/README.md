# Verified models of the Vibe app server

Dafny models of the stateful parts of the Vibe app server, with proofs about whole runs, round
trips and rewritings. `dafny verify dfyconfig.toml` checks everything.

| files | what they model |
|---|---|
| McpAuthProtocol, McpAuthCatalogs, McpAuthInterleaving, McpAuthService | the MCP authorization service: one name's protocol as a state machine, the catalogs and their shared fingerprints, bindings that interleave, and the object whose dictionaries implement the protocol and the catalogs |
| DeferredConfig | configuration parked while a turn runs: an interleaving machine of callers, turns and cancellations, and the object that implements its steps |
| ProviderAuth | redaction of credentials in every percent-encoded spelling |
| Permissions, Approval | path normalisation, encoded grants and what they cover; from required permissions to options, to the client's pick, to the grant |
| JsonPatch, JsonEdits | rewriting a diff into the operations the wire carries; what an edit does and leaves alone |
| HistoryProjection, HistoryByMessage | stored transcripts folded into public history, and what each message comes to in it |
| ConfigWrite, ConfigWriteMeaning | field writes folded into one upsert a model, and what applying them does |
| SessionRoots, SessionListing, Encoding | roots of session forests, the session list's cursors and walks over it, and the encodings the cursors use |
| TurnsPaging | paging through turns in both directions |
| EventStream, EventBackend | the numbered event stream after a snapshot, and the projection that decides what is put in its queue |
| Relocation, Execution | sessions moving between worktrees while others delete them |
| Common, Strings | shared vocabulary and the few string operations needed |

Classes follow the objects whose fields the code updates; each of their methods is tied to a step,
or a run of steps, of the machine the theorems are about. Pure code is functions and lemmas, loops
are loops.

Where the code does not keep what its comments or documentation say, the model follows the code, a
lemma shows the failing case, and the theorem carries the condition under which the promise holds:

* A name unbound between two bindings has no fingerprint to be replaced, so references to the first
  server come alive again when it is bound again (UnbindingBetweenKeepsReferences).
* `mark_applied`, or cancelling a caller that queues, loses a write exactly when nothing else keeps
  it: the session does not run it, it is not parked, and no other call carries it
  (StepKeepsWritesExactlyWhen, NoWriteIsLostExactlyWhen).
* Two bindings that meet at a name, one waiting for a lock while the other goes ahead, can leave it a
  fingerprint that no view gives (FollowsViewsExactlyWhen, DepartedSurvivorKeepsTheName,
  OvertakenInstallIsNotTheView).
* A secret that is part of the word in the marker shows in a redacted value, and one that ends as the
  marker begins can (RedactionIsCompleteExactlyWhen for secrets without square brackets,
  BracketedSecretSurvives; NoSpellingSurvives for every secret that does not overlap the marker).
* A move or copy is rewritten with the source document's value even where an earlier operation has
  changed it (ShiftedMoveCarriesTheWrongValue, RewriteOneExactlyWhen,
  RewritingAgreesThroughoutExactlyWhen).
* Leaving the target layer out and naming the default layer are different keys of one fold, so a
  model written both ways can lose a field (FoldedBatchIsOneAtATimeExactlyWhen,
  TwoNamesForOneLayerDropAWrite).
* A session list walk misses a session exactly when one a cursor names is updated or deleted first
  (DriftMissesExactlyWhen).
* An update of an entry the projection does not hold uses up an event number that is never queued,
  and a handoff may carry a number past one; what comes next, though in sequence, is reported to the
  subscriber as a gap (NoGapExactlyWhen, UnshownUpdateMakesAGap, LateHandoffMakesAGap).
* A session that is left and come back to can have its events given again (OnceExactlyWhen).
* A hold on a worktree without a record takes no mark, and a removal that has taken its last look
  cannot be stopped by a mark (LateRaiseStrands, LateRemovalStrands, SafeExactlyWhen).
* The program's own documentation (its README.md, line 1214) says a killed process leaves its marker
  behind; the code in vibe/core/git/worktree/record.py:333-393 discards markers whose file lock is
  gone, and the model follows it. The comment at vibe/app_server/_handler.py:1484-1488 calls a second
  hold a no-op; holds are counted.

## Model

| member | source | states |
|---|---|---|
| McpAuthProtocol.StepKeepsSound | vibe/app_server/_mcp_auth.py:199-280 | every stretch of code between two awaits keeps: nothing is on record under a later connection revision, what is on record under the present one is what is accepted, one revision names one set of headers, only the headers last accepted are on record as rejected, and all of that again for the state a removal has saved |
| McpAuthProtocol.RunKeepsSound | vibe/app_server/_mcp_auth.py:169-280 | the same over every run |
| McpAuthProtocol.RevisionIsFaithful | vibe/app_server/_mcp_auth.py:410-450 | over every run of bindings, resolutions, rejections, logins, logouts and removals that complete or abort, two snapshots issued for a remote server of that name under one connection revision carry the same headers |
| McpAuthProtocol.GenerationCountsInvalidations | vibe/app_server/_mcp_auth.py:263-285 | the descriptor generation an aborted removal would return to never falls, and stands still exactly while nothing invalidating happens |
| McpAuthProtocol.ReferenceHonouredExactlyWhen | vibe/app_server/_mcp_auth.py:287-294 | a reference taken outside a removal is honoured later if and only if it was taken for the server then and now declared and no rejection, login, logout, completed removal, dead grant or replacement happened in between; an aborted removal does not count |
| McpAuthProtocol.UnbindingBetweenKeepsReferences | vibe/app_server/_mcp_auth.py:165-174 | where the promise fails: dropping a server, binding another under its name and binding the first again leaves the first one's old references honoured, because a name without a fingerprint has nothing to be replaced |
| McpAuthProtocol.RejectionIsRemembered | vibe/app_server/_mcp_auth.py:324-326 | while nothing lifts a rejection the record of it survives every run, through aborted removals too, and nothing at all is issued |
| McpAuthProtocol.RejectedHeadersAreNotReissued | vibe/app_server/_mcp_auth.py:376-385 | if headers on record as rejected are issued again, then in between other headers were issued, or a login, logout, replacement, unbinding or completed removal cleared the record |
| McpAuthProtocol.PrefixRuns | vibe/app_server/_mcp_auth.py:195-280 | a run can be cut anywhere: its first part is a run, and the rest is a run from where that part ends |
| McpAuthProtocol.InvalidationStartsANewRevision | vibe/app_server/_mcp_auth.py:442-450 | headers handed out after a rejection, a login, a logout, a replacement or a dead grant carry a later connection revision than any handed out before |
| McpAuthProtocol.RejectionIsOfTheAccepted | vibe/app_server/_mcp_auth.py:215-225 | a rejection puts the headers last accepted on record, and no others, and moves both generations |
| McpAuthProtocol.AbortedRemovalLeavesNoTrace | vibe/app_server/_mcp_auth.py:263-281 | whatever happened in the window, an aborted removal leaves generations, accepted headers and rejection as they were when it opened; the fingerprint is the present one |
| McpAuthCatalogs.Merged | vibe/app_server/_mcp_auth.py:586-592 | the loop gives each name the server of the last catalog that binds it, the excluded owner left out |
| McpAuthCatalogs.SurvivorRanks | vibe/app_server/_mcp_auth.py:127-133 | a departing owner's name goes to the configured server bound last among the others, and to a plugin's only where none of them configures it |
| McpAuthCatalogs.BindKeepsConsistent | vibe/app_server/_mcp_auth.py:117-179 | a completed binding, with its evictions and its hand-back to survivors, keeps every name's fingerprint that of a server one of the two views gives, and absent exactly when neither gives one |
| McpAuthCatalogs.BindKeepsWellFormed | vibe/app_server/_mcp_auth.py:117-125 | an owner stands once in the catalogs of its kind, whatever is rebound |
| McpAuthCatalogs.RunIsWellFormed | vibe/app_server/_mcp_auth.py:105-125 | over every run of bindings in which each owner keeps to one kind, owners are distinct within and across the two kinds |
| McpAuthCatalogs.FingerprintsFollowViews | vibe/app_server/_mcp_auth.py:117-179 | after every such run a name has a fingerprint if and only if some owner binds it, and it is that of the server the configuration view or the plugin view gives |
| McpAuthCatalogs.LoneViewDecides | vibe/app_server/_mcp_auth.py:127-139 | when only one view gives the name a server, the fingerprint is exactly that server's |
| McpAuthInterleaving.UninterruptedIsBind | vibe/app_server/_mcp_auth.py:117-167 | a binding begun and gone through with nobody in between, in whatever order it takes its names, leaves the catalogs and fingerprints of one completed binding |
| McpAuthInterleaving.TreatSettlesExactlyWhen | vibe/app_server/_mcp_auth.py:141-167 | installing or dropping a name, in any reachable interleaving, leaves it the fingerprint of a server a view gives, and none when neither gives one, if and only if the binding is up to date: no catalog bound since has another server under the name, or the survivor it looked up still answers |
| McpAuthInterleaving.FollowsViewsExactlyWhen | vibe/app_server/_mcp_auth.py:117-167 | however bindings interleave, a name's fingerprint follows the views once all are through with it if and only if the last one to install or drop the name was up to date when it did |
| McpAuthInterleaving.ApartBindingsFollowViews | vibe/app_server/_mcp_auth.py:117-167 | that holds for every name at which no binding begins while another has it yet to install or drop, whatever happens at other names in between |
| McpAuthInterleaving.DepartedSurvivorKeepsTheName | vibe/app_server/_mcp_auth.py:152-164 | where it fails: the survivor looked up before a wait has let go of the name meanwhile, and its fingerprint is put under a name that nobody binds |
| McpAuthInterleaving.OvertakenInstallIsNotTheView | vibe/app_server/_mcp_auth.py:147-150 | and here: a binding waits at one name while another binds the next one, and then installs a fingerprint that is not that of the server the view gives |
| McpAuthService.SnapshotIsOnRecord | vibe/app_server/_mcp_auth.py:410-418 | headers a remote server's snapshot carries are on record under the revision it names, so RevisionIsFaithful speaks of every snapshot a client sees, and the reference was honoured |
| McpAuthService.StaleReferenceIsRefused | vibe/app_server/_mcp_auth.py:287-294 | a reference older than a rejection, login, logout or replacement is answered with the requirement "invalid" ever after, whatever the keyring holds, and the answer changes nothing |
| McpAuthService.SnapshotHeaders | vibe/app_server/_mcp_auth.py:303-375 | every declared header but the authorization is in a remote server's snapshot with its declared value; where a stored or refreshed token is in use, the snapshot has just those and that token's kind, a space and its access text; otherwise just what was declared |
| McpAuthService.ResolutionTakesSteps | vibe/app_server/_mcp_auth.py:329-371 | the name advances exactly for a grant minted for another server under an alias nobody shares, and for one whose refresh says it is invalid; headers are issued exactly when the answer has them |
| McpAuthService.ReasonsForNoHeaders | vibe/app_server/_mcp_auth.py:329-371 | which of missing, invalid and expired is answered, by what the keyring holds and by whether the server does OAuth, is a plugin's, or is neither |
| McpAuthService.RefusedHeaders | vibe/app_server/_mcp_auth.py:321-385 | the headers that would be sent are answered with "rejected" exactly when they are on record as refused, and otherwise handed out |
| McpAuthService.InstallRuns | vibe/app_server/_mcp_auth.py:169-179 | installing a fingerprint is a declaration, followed under the lock by starting the name over exactly when a different one was there |
| McpAuthService.BindStepsInstall | vibe/app_server/_mcp_auth.py:141-167 | the steps a binding takes for a name leave it the fingerprint the catalogs say |
| McpAuthService.MCPAuthenticationService.constructor | vibe/app_server/_mcp_auth.py:79-92 | a new service has no bindings, and every name is at the start of its protocol |
| McpAuthService.MCPAuthenticationService.AcceptMaterial | vibe/app_server/_mcp_auth.py:435-440 | only this name changes: headers already accepted change nothing, new ones clear the rejection and get a new connection revision |
| McpAuthService.MCPAuthenticationService.OwnedServerIsOfItsKind | vibe/app_server/_mcp_auth.py:509-519 | a reference is looked up among the catalogs of its own kind, the last to bind the name deciding, and never in the other kind |
| McpAuthService.MCPAuthenticationService.BoundMeans | vibe/app_server/_mcp_auth.py:490-507 | for a session with a catalog the name means what that catalog says; for anybody else, the configured server bound last, and a plugin's only where nobody configures one |
| McpAuthService.MCPAuthenticationService.LoginServerExactlyWhen | vibe/app_server/_mcp_auth.py:527-568 | one can log in to a server that does OAuth, and to a plugin's static one as if it did, and to no other |
| McpAuthService.MCPAuthenticationService.SharedExactlyWhen | vibe/app_server/_mcp_auth.py:570-583 | an alias is shared if and only if two catalogs, of either kind, bind the name |
| McpAuthService.MCPAuthenticationService.HandOut | vibe/app_server/_mcp_auth.py:321-327 | headers on record as rejected are refused and change nothing; any others are issued, in one step of the name's protocol |
| McpAuthService.MCPAuthenticationService.ResolveOAuth | vibe/app_server/_mcp_auth.py:329-385 | for every answer of the keyring and of a refresh: the steps taken for the name, the headers or the reason given, and every other name untouched; a shared alias is never advanced |
| McpAuthService.MCPAuthenticationService.ResolveDeclaredStatic | vibe/app_server/_mcp_auth.py:303-319 | a plugin's static server is offered the stored login and falls back to its declared headers when that is missing or invalid, and only then |
| McpAuthService.MCPAuthenticationService.ResolveLocked | vibe/app_server/_mcp_auth.py:287-301 | a resolution is the run of steps and the answer specified for the entry it finds; it fails exactly when the reference's own view has no such server |
| McpAuthService.MCPAuthenticationService.Resolve | vibe/app_server/_mcp_auth.py:195-197 | the same, under the name's lock |
| McpAuthService.MCPAuthenticationService.RejectCurrent | vibe/app_server/_mcp_auth.py:215-225 | the present headers go on record as rejected and both generations advance, as two steps of the protocol |
| McpAuthService.MCPAuthenticationService.Reject | vibe/app_server/_mcp_auth.py:199-226 | an unsupported reason and an unknown server are errors that change nothing; newer headers than the client observed are answered as they are; otherwise the rejection is recorded and the answer is a requirement |
| McpAuthService.MCPAuthenticationService.Login | vibe/app_server/_mcp_auth.py:243-255 | a login that completes starts the name over; one that fails changes nothing |
| McpAuthService.MCPAuthenticationService.Logout | vibe/app_server/_mcp_auth.py:257-261 | a logout starts the name over |
| McpAuthService.MCPAuthenticationService.EnterCredentialRemoval | vibe/app_server/_mcp_auth.py:263-272 | the removal window opens with the previous state saved and the entry as it was, before the deletion is awaited; a name without an OAuth server is an error that changes nothing |
| McpAuthService.MCPAuthenticationService.DeleteForRemoval | vibe/app_server/_mcp_auth.py:452-457 | once the deletion returns the name starts over inside the window, whatever was unbound or declared meanwhile |
| McpAuthService.MCPAuthenticationService.CompleteCredentialRemoval | vibe/app_server/_mcp_auth.py:263-280 | the window closes and the saved state is given up |
| McpAuthService.MCPAuthenticationService.AbortCredentialRemoval | vibe/app_server/_mcp_auth.py:275-280 | the window closes with every dictionary, present or absent, as it was saved; the fingerprint stays as it is now |
| McpAuthService.MCPAuthenticationService.WriteFingerprint | vibe/app_server/_mcp_auth.py:169-174 | without waiting for the lock the name gets its fingerprint and nothing else changes; a different one is reported as a replacement |
| McpAuthService.MCPAuthenticationService.InstallFingerprint | vibe/app_server/_mcp_auth.py:169-179 | the dictionaries do for the name what InstallSteps says, and nothing to any other |
| McpAuthService.MCPAuthenticationService.BindOwned | vibe/app_server/_mcp_auth.py:117-167 | for every name at once, a binding is the run BindSteps gives, and the catalogs and fingerprints end as Bind says |
| McpAuthService.MCPAuthenticationService.BindServers | vibe/app_server/_mcp_auth.py:141-167 | the two loops together are, for every name, the run BindSteps gives over the bindings that were in place |
| McpAuthService.MCPAuthenticationService.InstallAll | vibe/app_server/_mcp_auth.py:147-150 | each name bound gets its server's fingerprint, once, and no other name changes |
| McpAuthService.MCPAuthenticationService.DropAll | vibe/app_server/_mcp_auth.py:151-167 | each name no longer bound is handed back to its survivor or forgotten, and no other name changes |
| McpAuthService.MCPAuthenticationService.CollectByName | vibe/app_server/_mcp_auth.py:147-147 | of two servers with one name the later is bound |
| McpAuthService.MCPAuthenticationService.Survivors | vibe/app_server/_mcp_auth.py:127-133 | among the other owners a configured server outranks a plugin's |
| DeferredConfig.StepKeepsLock | vibe/app_server/_deferred_config.py:67-103 | in every step exactly the lock's holder is inside the locked section |
| DeferredConfig.StepKeepsConsistent | vibe/app_server/_deferred_config.py:79-103 | every step keeps versions in flight between what runs and what is persisted, and never moves the running version back |
| DeferredConfig.RunningNeverGoesBack | vibe/app_server/_deferred_config.py:67-77 | under any interleaving of any number of callers, writes, turns, failures and cancellations the session never returns to an older configuration |
| DeferredConfig.ExclusiveLandsWhatItRead | vibe/app_server/_deferred_config.py:56-65 | a caller with the lock for itself that pushes and adopts what it read brings just that to the session |
| DeferredConfig.AnyCallCanBeInterrupted | vibe/app_server/_deferred_config.py:67-103 | a call that queues can be cancelled, and one in the lock can fail at any await |
| DeferredConfig.TrueMeansRunning | vibe/app_server/_deferred_config.py:102-103 | a call answers True only when running and adopted are both the derivation it pushed, which is no older than what was persisted when the call began |
| DeferredConfig.PlainFormsYieldToATurn | vibe/app_server/_deferred_config.py:79-103 | in every run: a call that came in by apply or settle and finds a turn running when its derivation returns parks the change and is gone, the session untouched; the forms with a push of their own, and the plain ones between turns, bring the session what they derived |
| DeferredConfig.SettlingLooksAtTheFlag | vibe/app_server/_deferred_config.py:126-157 | in every run: once it has the lock an apply always derives and clears the flag, a settle only what is parked, and the plain settle only between turns; otherwise nothing changes and the call is gone |
| DeferredConfig.StepKeepsWritesExactlyWhen | vibe/app_server/_deferred_config.py:48-103 | a step keeps the last write running, parked or carried by a call if and only if it is harmless: marking applied needs the session to run what is persisted or a call that will bring it, giving up in the queue needs that, the flag, or another such call |
| DeferredConfig.OrdinaryRunKeepsWrites | vibe/app_server/_deferred_config.py:67-157 | nothing is lost, through failures and cancellations in the lock, in any run in which nobody marks anything applied and no writer is cancelled while it queues |
| DeferredConfig.LosesExactlyWhen | vibe/app_server/_deferred_config.py:67-157 | from any consistent state, some such run leaves the last write neither running nor parked with nothing in progress if and only if nothing keeps it now |
| DeferredConfig.NoWriteIsLostExactlyWhen | vibe/app_server/_deferred_config.py:67-157 | no point of a run is about to lose a write if and only if every step of it was harmless |
| DeferredConfig.NoWriteIsLost | vibe/app_server/_deferred_config.py:67-157 | after a harmless run, whenever no call is in progress, the session runs the last persisted configuration or the flag is set |
| DeferredConfig.MarkingAppliedCarelesslyLosesAWrite | vibe/app_server/_deferred_config.py:52-65 | a run from the start: an exclusive caller that, between turns, pushes what it read before a write was parked and marks that applied loses the write |
| DeferredConfig.CancellingAQueuedWriterLosesAWrite | vibe/app_server/_deferred_config.py:67-77 | another: a writer cancelled while it queues for the lock leaves its write neither running nor parked |
| DeferredConfig.SettleLandsWhatIsParked | vibe/app_server/_deferred_config.py:140-157 | at a boundary, with the lock free, a settle can bring what is parked to the session and clear the flag |
| DeferredConfig.DeferredConfiguration.constructor | vibe/app_server/_deferred_config.py:28-41 | a new object has nothing parked, persisted or running |
| DeferredConfig.DeferredConfiguration.Park | vibe/app_server/_deferred_config.py:48-50 | one step of the protocol: the flag is set, nothing else changes |
| DeferredConfig.DeferredConfiguration.MarkApplied | vibe/app_server/_deferred_config.py:52-54 | one step of the protocol: the flag is cleared, nothing else changes |
| DeferredConfig.DeferredConfiguration.ApplyWhenIdle | vibe/app_server/_deferred_config.py:105-110 | during a turn the change is parked and the answer is False; between turns the call queues |
| DeferredConfig.DeferredConfiguration.EnterLocked | vibe/app_server/_deferred_config.py:79-86 | the settling forms answer False without deriving when nothing is parked, and the plain one during a turn; otherwise the flag is cleared before deriving |
| DeferredConfig.DeferredConfiguration.DerivationReads | vibe/app_server/_deferred_config.py:87-87 | the derivation is of the version persisted at that moment |
| DeferredConfig.DeferredConfiguration.AfterDerive | vibe/app_server/_deferred_config.py:88-91 | a turn that started meanwhile parks the change, in the plain forms only |
| DeferredConfig.DeferredConfiguration.PushLands | vibe/app_server/_deferred_config.py:91-91 | the session takes the version that was derived |
| DeferredConfig.DeferredConfiguration.AfterRaise | vibe/app_server/_deferred_config.py:92-101 | a conflict, an error or a cancellation sets the flag and gives the lock back |
| DeferredConfig.DeferredConfiguration.AfterPush | vibe/app_server/_deferred_config.py:102-103 | the version pushed is adopted and the answer is True |
| ProviderAuth.SecretPattern | vibe/app_server/_provider_auth.py:32-47 | the loop builds one group for each character |
| ProviderAuth.PercentEncodeDecodes | vibe/app_server/_provider_auth.py:42-42 | matching a character's encoding without regard to case is percent decoding (RFC 3986, section 2.1) to its UTF-8 bytes |
| ProviderAuth.MatchIsSpelling | vibe/app_server/_provider_auth.py:33-39 | what the backtracking search matches is a spelling of the secret |
| ProviderAuth.SpellingIsMatched | vibe/app_server/_provider_auth.py:33-39 | wherever a spelling starts the search matches |
| ProviderAuth.MatchesExactlySpellings | vibe/app_server/_provider_auth.py:33-39 | the pattern matches at a place if and only if a raw, percent-encoded, mixed, plus-for-space or case-varied spelling starts there |
| ProviderAuth.OccurrenceInOutput | vibe/app_server/_provider_auth.py:59-59 | a spelling of any secret found in the output was in the input at a place the scan stepped over, unless the secret agrees with the marker in some way of laying one over the other |
| ProviderAuth.RedactSecrets | vibe/app_server/_provider_auth.py:50-60 | the loop redacts one secret after the other, longest first, skipping empty ones |
| ProviderAuth.NoSpellingSurvives | vibe/app_server/_provider_auth.py:50-60 | for every input and every collection of secrets, no spelling of a nonempty secret occurs in the result unless that secret, laid over the marker in some way, agrees with it wherever they meet |
| ProviderAuth.OverlapsWithoutBrackets | vibe/app_server/_provider_auth.py:57-59 | for a nonempty secret without square brackets, agreeing with the marker in that way is being, in some case, part of its text |
| ProviderAuth.MarkerTextSurvives | vibe/app_server/_provider_auth.py:57-59 | a secret that is part of the marker shows in every output that had something to redact for it |
| ProviderAuth.RedactionIsCompleteExactlyWhen | vibe/app_server/_provider_auth.py:50-60 | for a nonempty bracket-free secret, redaction removes it from every input if and only if it is not, in some case, part of the marker's text |
| ProviderAuth.BracketedSecretSurvives | vibe/app_server/_provider_auth.py:57-59 | why overlaps are excluded: redacting a secret that ends as the marker begins can put it together again from the marker and what stood before it |
| ProviderAuth.SameLengthIsRedactedExactlyWhen | vibe/app_server/_provider_auth.py:50-60 | by code points: a value as long as the secret becomes the marker if and only if each character is the secret's, that letter in the other case, or a plus for a space; otherwise it is unchanged |
| ProviderAuth.PercentEncodedIsRedacted | vibe/app_server/_provider_auth.py:40-47 | by code points: a value that begins with an ASCII secret in percent encoding, hexadecimal digits in either case, is redacted from its start |
| ProviderAuth.FoldForgetsCase | vibe/app_server/_provider_auth.py:57-59 | matching without regard to case equates a letter with its other case and nothing else |
| ProviderAuth.SubstituteIsRedaction | vibe/app_server/_provider_auth.py:59-59 | the result is the input scanned from the left with each spelling met replaced by the marker, and nothing else changed |
| ProviderAuth.UntouchedWithoutSecrets | vibe/app_server/_provider_auth.py:50-60 | a value in which no secret is spelled is returned as it is |
| ProviderAuth.LongestFirst | vibe/app_server/_provider_auth.py:51-54 | the secrets are a permutation of those given, in descending length |
| ProviderAuth.TiesKeepTheirOrder | vibe/app_server/_provider_auth.py:51-54 | secrets of one length keep their order |
| ProviderAuth.WholeSecretShowsTheMarker | vibe/app_server/_provider_auth.py:51-60 | a value that is one of the secrets, in any case, shows the marker and nothing else, whatever shorter secrets it contains |
| ProviderAuth.ShortestFirstLeavesARemainder | vibe/app_server/_provider_auth.py:51-54 | why the order: taken shortest first, a contained secret splits the containing one and its remainder stays on screen |
| Permissions.NormPathLoop | vibe/permissions.py:67-70 | the component loop of the POSIX normaliser computes the specified path |
| Permissions.NormalizationIsIdempotent | vibe/permissions.py:67-70 | normalising twice is normalising once, for absolute paths without backslashes |
| Permissions.ComponentsDescend | vibe/permissions.py:67-70 | a path continued with further names has the components of the path followed by those names |
| Permissions.LeadingSlashesStay | vibe/permissions.py:67-70 | of any path: a leading slash stays, and two of them exactly when there are exactly two |
| Permissions.ParentsTakeBackNames | vibe/permissions.py:67-70 | a parent reference takes back the name before it; where there is none it stays in a relative path and goes at the root |
| Permissions.GrantRoundTrip | vibe/permissions.py:73-88 | parsing an encoded grant gives back its scope and the normalised path, colons and glob characters included |
| Permissions.ExactGrantCovers | vibe/permissions.py:91-97 | an exact grant covers a path if and only if both have the same components |
| Permissions.DirectoryGrantCovers | vibe/permissions.py:98-101 | a recursive grant covers a path if and only if the root's components are a prefix of the path's: everything from `/`, and never `/a/bc` from `/a/b` |
| Permissions.SpellPrefix | vibe/permissions.py:99-101 | the string-prefix test on spelled paths is the prefix test on components |
| Permissions.DirectoryCoverageNests | vibe/permissions.py:91-101 | coverage is reflexive and transitive |
| Permissions.RootIsEmpty | vibe/permissions.py:67-70 | the root directory has no components |
| Approval.ScopeRequiredPermissions | vibe/permissions.py:140-160 | the loop rewrites each outside-directory permission's session pattern and leaves every other permission as it is |
| Approval.DecodeChoice | vibe/acp/agent.py:888-916 | undoes the building of the options: a denial exactly for no pick or the refusal, and otherwise the one decision and scope whose option was picked |
| Approval.OneMeaning | vibe/acp/utils.py:60-118 | no two decisions share an option, so a pick stands for one decision and scope |
| Approval.ScopedCovers | vibe/permissions.py:149-159 | the pattern put on a permission covers exactly its own invocation path, or with a directory scope exactly what lies under it |
| Approval.WidenedCovers | vibe/permissions.py:149-159 | a directory scope reaches everything below the directory named for widening, and below the own path where none is |
| Approval.OfferedOptionsDecode | vibe/acp/utils.py:45-120 | every option but the refusal decodes to an approval whose scope, if any, is one that was offered; only "allow once" is a one-time approval |
| Approval.DirectoryOfferedExactlyWhen | vibe/app_server/_approval_permissions.py:16-35 | the directory scope is offered, and then alone, if and only if some path lies outside and each such path is, component by component, the directory it could be widened to; otherwise the exact scope; nothing without such paths |
| Approval.EveryOfferedOptionIsGranted | vibe/app_server/_approval_permissions.py:38-56 | whatever offered option is picked the server accepts it; every outside-directory permission of the grant covers its own invocation path, and beyond it only below a directory that was offered and picked; every other permission passes unchanged |
| Approval.OnlyOfferedScopesAreGranted | vibe/app_server/_approval_permissions.py:42-55 | the server accepts a scope if and only if some offered option decodes to it |
| JsonPatch.ApplyJsonPatch | vibe/app_server/_patch.py:14-25 | the loop applies the operations in order and stops at the first that fails |
| JsonPatch.EditReadsBack | vibe/app_server/_patch.py:106-111 | an added or replaced value is what its pointer then finds (RFC 6902, sections 4.1 and 4.3) |
| JsonPatch.AddThenRemove | vibe/app_server/_patch.py:104-111 | removing what was added at a free place gives the document back, in objects and by shifting in arrays (sections 4.1 and 4.2) |
| JsonPatch.EditTellsValuesApart | vibe/app_server/_patch.py:106-111 | whether an addition or replacement succeeds does not depend on its value, and different values give different documents |
| JsonEdits.IndexIsDecimal | vibe/app_server/_patch.py:92-95 | a token names an array element if and only if it is its number in decimal (RFC 6901, section 4) |
| JsonEdits.EditDoes | vibe/app_server/_patch.py:14-25 | an edit succeeds if and only if its pointer's front finds a container with room for it or with what it removes or replaces; an object then differs at that name alone, and an array has one element more, fewer or changed, the others in their order (RFC 6902, sections 4.1 to 4.3) |
| JsonEdits.EditLeavesAlone | vibe/app_server/_patch.py:14-25 | whatever stands apart from an edit is found as before, an element behind an addition or removal in the same array one index further or nearer |
| JsonEdits.TestLooks | vibe/app_server/_patch.py:106-111 | a test changes nothing and passes if and only if the value is there |
| JsonEdits.AppendJoins | vibe/app_server/_patch.py:92-103 | an append succeeds exactly for two strings, joins them with the old one in front, and leaves everything else |
| JsonEdits.MoveOntoItself | vibe/app_server/_patch.py:38-47 | a move onto its own place changes nothing, and one into what it moves fails (section 4.4) |
| JsonEdits.MoveBrings | vibe/app_server/_patch.py:38-52 | a move or copy puts at its path what it found where it came from (sections 4.4 and 4.5) |
| JsonPatch.MakeJsonPatch | vibe/app_server/_patch.py:58-88 | the loop gives the rewriting of the raw patch, or fails where a location is missing in the source |
| JsonPatch.RewriteOneExactlyWhen | vibe/app_server/_patch.py:28-88 | where a raw operation succeeds, its rewriting gives the same document if and only if the location whose source value it relies on still holds that value |
| JsonPatch.AppendExactlyWhen | vibe/app_server/_patch.py:92-103 | sending only the growth of a string equals replacing it if and only if the document still holds the string it grew from |
| JsonPatch.RewritingPreservesPatches | vibe/app_server/_patch.py:28-88 | a whole patch, rewritten and applied, gives what RFC 6902 gives for the raw one, when each location still holds its source value as its turn comes |
| JsonPatch.RewritingAgreesThroughoutExactlyWhen | vibe/app_server/_patch.py:28-88 | for any raw patch that succeeds, every beginning of it, rewritten and applied, gives what that beginning gives by RFC 6902, if and only if each location still holds its source value as its turn comes |
| JsonPatch.DiffThenApply | vibe/app_server/_patch.py:14-88 | so diffing, rewriting and applying yields the target |
| JsonPatch.ShiftedMoveCarriesTheWrongValue | vibe/app_server/_patch.py:39-47 | why the condition: a move after a removal that shifted its array carries the removed element's value |
| HistoryByMessage.HistoryIsByMessage | vibe/app_server/_history_projection.py:82-293 | the history is the worktree's entry and then, message by message, in the messages' own terms: nothing for a system message; a checkpoint for a compaction; the shell command, if any, of an injected one; a user's message; an assistant's reasoning, text and calls, in that order and where present; a tool message's own entry only if no earlier call has its id; with ids and times, and each call with the last answer before its id is used again |
| HistoryByMessage.AnsweredOrNot | vibe/app_server/_history_projection.py:264-293 | every call has such a last answer, or none |
| HistoryByMessage.AnswerIsShown | vibe/app_server/_history_projection.py:366-425 | an answer shows as failed, cancelled or completed by its tag and result, with its text or the tool's name, or what the tool presented, and the time it took |
| HistoryByMessage.OutputIsShown | vibe/app_server/_history_projection.py:406-422 | a completed call shows the output the tool projected, before the plain one, under the presented kind |
| HistoryProjection.PersistedEffectState | vibe/app_server/_history_projection.py:366-422 | a call without an outcome is cancelled, one is failed exactly on the error tag, and none completes that carries a cancellation |
| HistoryProjection.StepComputesMeaning | vibe/app_server/_history_projection.py:109-150 | one more event keeps the one-pass entries and index equal to the declarative reading |
| HistoryProjection.FoldComputesMeaning | vibe/app_server/_history_projection.py:82-106 | for every transcript the fold's entries are: all entries in order, each call with the last outcome addressed to it before its id is declared again, each unmatched tool message on its own; every index is in range and points at the effect with that id |
| HistoryProjection.LastOutcomeIs | vibe/app_server/_history_projection.py:264-293 | what "last outcome before redeclaration" picks, stated by positions |
| HistoryProjection.NoOutcomeBeforeRedeclared | vibe/app_server/_history_projection.py:369-375 | and when there is none, so that the call is cancelled |
| HistoryProjection.AppendingKeepsEntries | vibe/app_server/_history_projection.py:82-106 | appending messages never changes the id, order or detail of an entry already projected |
| HistoryProjection.Projection.AppendToolCalls | vibe/app_server/_history_projection.py:248-261 | the loop declares each call in order, indexing it at its entry |
| HistoryProjection.Projection.AppendAssistantHistory | vibe/app_server/_history_projection.py:215-261 | reasoning, then text, then calls, each only when present |
| HistoryProjection.Projection.ApplyToolHistory | vibe/app_server/_history_projection.py:264-293 | the shared list and index change as the fold says: the call's state in place, or a new entry |
| HistoryProjection.Projection.ProjectStoredMessage | vibe/app_server/_history_projection.py:109-150 | system messages, compactions and injected messages first, then by role |
| HistoryProjection.Projection.ProjectMessages | vibe/app_server/_history_projection.py:96-105 | the loop folds the transcript |
| HistoryProjection.ProjectMessageHistory | vibe/app_server/_history_projection.py:82-106 | what is returned is the declarative history, after the worktree entry if there is one |
| ConfigWrite.EscapeRoundTrip | vibe/core/config/patch.py:104-111 | a pointer token reads back as the value it was written for (RFC 6901, sections 3 and 4), `~` and `/` included |
| ConfigWrite.FieldPathRoundTrip | vibe/app_server/_config_write.py:92-104 | the path written for a model's field parses back to that alias and field, whatever characters the alias holds |
| ConfigWrite.ModelConfigWriteOps | vibe/app_server/_config_write.py:36-66 | a pick fails exactly for an unknown nonempty alias, and otherwise writes the pick and the thinking, in that order |
| ConfigWrite.ThinkingFollowsThePick | vibe/app_server/_config_write.py:27-33 | the thinking is read back as that of the model active after the write: the one picked, the default one for an empty pick, the present one for none |
| ConfigWrite.FieldWritesFold | vibe/app_server/_config_write.py:123-141 | a write of an offered model's field is folded, under its layer and model, unless a durable layer has the model, and then passed on as it is |
| ConfigWrite.OnlyFieldWritesFold | vibe/app_server/_config_write.py:92-141 | nothing else is folded, and what is passed on keeps its kind, path, value and layer |
| ConfigWrite.UpsertsHoldModels | vibe/app_server/_config_write.py:143-159 | each target gets one upsert at its model's path and in its layer, holding what was written and, of the three fields a stored model needs, where they were not, the offered model's own |
| ConfigWrite.CollectWrite | vibe/app_server/_config_write.py:123-141 | one round of the loop keeps the operations passed on and the fields pending for each target |
| ConfigWrite.ConfigWriteOpsToPatches | vibe/app_server/_config_write.py:107-152 | the two loops give the other operations in order followed by the upserts |
| ConfigWrite.OneUpsertPerTarget | vibe/app_server/_config_write.py:120-150 | there is one upsert for each layer and model written, and no other |
| ConfigWrite.LastWriteWins | vibe/app_server/_config_write.py:130-135 | a field of an upsert holds the last value written for it |
| ConfigWrite.UnwrittenFieldsStay | vibe/app_server/_config_write.py:155-159 | a field nobody wrote is not overridden |
| ConfigWrite.OthersAreKept | vibe/app_server/_config_write.py:123-141 | every other operation is passed on, in its place |
| ConfigWriteMeaning.ModelPathParses | vibe/app_server/_config_write.py:146-146 | an upsert's path addresses exactly that model's entry |
| ConfigWriteMeaning.EditAvoids | vibe/app_server/_config_write.py:137-141 | an operation elsewhere neither reads nor changes the models' entries |
| ConfigWriteMeaning.FieldWriteExtends | vibe/app_server/_config_write.py:130-135 | made on its own, a field write leaves each model the entry its writes so far give, the first for a model with its required fields |
| ConfigWriteMeaning.LayersPartTheBatch | vibe/core/config/orchestrator.py:380-390 | what a batch over any number of layers sends to one of them is the fold of the writes for that layer alone |
| ConfigWriteMeaning.FoldedBatchIsOneAtATimeExactlyWhen | vibe/app_server/_config_write.py:107-152 | for every batch and every layer, default or named, the folded operations leave the layer's document as its writes made one at a time would if and only if, for each model, the name of the layer it was first written under last shows each field as it was written last under any name; or the layer's other operations fail, and both do |
| ConfigWriteMeaning.OneNameDropsNothing | vibe/app_server/_config_write.py:120-135 | that holds when each model is written under one name of the layer |
| ConfigWriteMeaning.NamedLayersHaveOneName | vibe/app_server/_config_write.py:120-135 | and in every layer but the default, which alone has two names |
| ConfigWriteMeaning.FoldedBatchIsOneAtATime | vibe/app_server/_config_write.py:107-152 | so a batch equals its writes one at a time in every layer, failing exactly when they would, unless a model is written under both names of the default layer; only the layer's own other operations have to leave its models alone |
| ConfigWriteMeaning.TwoNamesForOneLayerDropAWrite | vibe/app_server/_config_write.py:120-134 | where it fails: a model written in different fields under both names of the default layer keeps both fields when written one at a time, and loses the first in the batch |
| SessionRoots.SessionRoot | vibe/app_server/_host.py:803-812 | the inner walk ends on every parent map, at the last listed ancestor, or at the session itself when its chain meets a cycle |
| SessionRoots.SessionRoots | vibe/app_server/_host.py:800-813 | every listed session gets such a root, and no other |
| SessionRoots.RepeatNeverEnds | vibe/app_server/_host.py:807-809 | an ancestor met twice means the chain never ends |
| SessionRoots.RootIsUnique | vibe/app_server/_host.py:800-813 | the two cases exclude each other and give one root |
| SessionRoots.ParentSharesRoot | vibe/app_server/_host.py:800-813 | a session off any cycle and its listed parent have the same root |
| Encoding.Utf8RoundTrip | vibe/app_server/_host.py:817-826 | UTF-8 decoding gives back every text that was encoded |
| Encoding.DigitsDecode | vibe/app_server/_host.py:818-826 | base64 decoding (RFC 4648, section 5) gives back every byte sequence that was encoded |
| Encoding.Utf8DecodeIsStrict | vibe/app_server/_host.py:827-830 | what decodes is the encoding of what it decodes to: no overlong form, stray byte or surrogate is read (RFC 3629, section 3) |
| Encoding.ThreeBytesAreFourDigits | vibe/app_server/_host.py:816-818 | three bytes are one number, and the four digits for them its sextets, first to last (RFC 4648, sections 4 and 5) |
| Encoding.PaddingComesBack | vibe/app_server/_host.py:818-824 | stripping the padding and putting it back by length changes nothing (section 3.2) |
| Encoding.UnpaddedRoundTrip | vibe/app_server/_host.py:816-826 | so unpadded text decodes to the bytes it was made from |
| SessionListing.ListedIsSorted | vibe/app_server/_host.py:705-719 | the listing holds exactly the sessions asked for, in strictly descending order of timestamp and id |
| SessionListing.LaterIsListedFirst | vibe/app_server/_host.py:717-719 | a session updated later is listed before one updated earlier, and of two as late the one with the greater id, strings compared by the first character that differs |
| SessionListing.LessIsComesBefore | vibe/app_server/_host.py:717-719 | the order of strings: a beginning before what it begins, otherwise by the code point at the first difference |
| SessionListing.PageFits | vibe/app_server/_host.py:720-746 | a page holds as many sessions as asked for, or what is left, in their places, and has a next cursor exactly when something is left behind it |
| SessionListing.UnreadableCursorEndsTheWalk | vibe/app_server/_host.py:821-830 | a cursor that does not decode gives an empty last page |
| SessionListing.CursorRoundTrip | vibe/app_server/_host.py:816-827 | a cursor decodes to the timestamp and id it was printed for, when the timestamp holds no NUL |
| SessionListing.CursorIndexIsNext | vibe/app_server/_host.py:821-838 | and is read as the index just after that session |
| SessionListing.WalkShowsAll | vibe/app_server/_host.py:717-749 | following `next_cursor` ends, having shown every session from the cursor on exactly once and in order |
| SessionListing.DriftNeverRepeats | vibe/app_server/_host.py:720-746 | however the listing changes between requests, what is shown descends strictly, so nothing is shown twice |
| SessionListing.DriftMissesExactlyWhen | vibe/app_server/_host.py:720-746 | a walk that reached its end missed a session that stayed listed throughout if and only if the session a cursor named was updated or deleted before its turn came |
| SessionListing.LostMarkEndsTheWalk | vibe/app_server/_host.py:827-838 | a cursor whose session was updated or deleted gives an empty last page |
| TurnsPaging.CutPage | vibe/app_server/_handler.py:1175-1206 | the index arithmetic of both directions cuts out the window at the cursor's edge |
| TurnsPaging.SessionTurnsList | vibe/app_server/_handler.py:1167-1212 | the page is that window, with a cursor on each side that has more, swapped by direction |
| TurnsPaging.WalkCoversTheRest | vibe/app_server/_handler.py:1167-1212 | following `next_cursor` in either direction ends, and the pages partition the turns beyond the starting point |
| TurnsPaging.WalkCoversAll | vibe/app_server/_handler.py:1167-1212 | from the start, either direction gathers every turn once and in order |
| TurnsPaging.PreviousAdjoins | vibe/app_server/_handler.py:1205-1212 | `previous_cursor` asked in the opposite direction gives exactly the turns adjoining the page, and exists exactly when a page with turns has some there |
| TurnsPaging.ThereAndBack | vibe/app_server/_handler.py:1167-1212 | going on to the next page and turning round gives back the very page one came from |
| TurnsPaging.UnknownCursorGivesNothing | vibe/app_server/_handler.py:1179-1203 | a cursor that names no turn gives an empty page without cursors, in both directions |
| EventBackend.LegacySessionBackend.constructor | vibe/app_server/_legacy_session_backend.py:263-278 | a new backend has no subscriber, nothing queued and follows no session |
| EventBackend.LegacySessionBackend.Subscribe | vibe/app_server/_legacy_session_backend.py:668-691 | a foreign session and a second subscriber are errors that change nothing; otherwise the queue is emptied, and projection and stream both start at the snapshot's event |
| EventBackend.LegacySessionBackend.AdoptState | vibe/app_server/_legacy_session_backend.py:585-586 | the projection starts anew from the state; the queue and the stream's place stay |
| EventBackend.LegacySessionBackend.Publish | vibe/app_server/_legacy_session_backend.py:588-628 | a notification is queued exactly when there is a subscriber and the projection shows it, and then the projection has moved to it; one out of sequence replaces the queue by the close marker and ends the projection; one that cannot be applied raises and changes nothing; anything else is not queued |
| EventBackend.LegacySessionBackend.PublishCallback | vibe/app_server/_legacy_session_backend.py:630-638 | a callback is queued unnumbered exactly when there is a subscriber and a projection |
| EventBackend.LegacySessionBackend.Close | vibe/app_server/_legacy_session_backend.py:931-933 | what is queued is replaced by the close marker, when there is a subscriber |
| EventBackend.LegacySessionBackend.Read | vibe/app_server/_legacy_session_backend.py:834-871 | the generator's loop yields, ends and leaves its place as specified for the queue it reads; ending in any way ends the subscription |
| EventBackend.QueuedFromOne | vibe/app_server/events.py:450-453 | whatever is published or adopted, no event numbered zero is ever queued |
| EventBackend.NoticeIsQueued | vibe/app_server/_legacy_session_backend.py:588-628 | a warning, an error or a retry is always queued, unnumbered, with its payload, and moves nothing |
| EventBackend.OutOfSequenceExactlyWhen | vibe/app_server/events.py:450-496 | an event is out of sequence unless it is of the session followed, its number the next or an earlier one and at least one, and a state it carries its own; a handoff, unless it leads from that session to another, from a positive number |
| EventBackend.ShownIsItsOwn | vibe/app_server/events.py:401-416 | what is shown is the notification's own session, number and payload, and the projection moves to it; a number met before changes nothing |
| EventBackend.YieldsAllExactlyWhen | vibe/app_server/events.py:401-416 | the stream yields everything queued, with no gap and nothing dropped, if and only if each numbered event the projection shows is the next one for the stream, whatever is published or adopted; and an event without a session never stops it |
| EventBackend.NoGapExactlyWhen | vibe/app_server/events.py:401-416 | while only notifications move the projection, the stream meets no gap if and only if each handoff carries the first number of its session and no update of an entry the projection does not hold is followed by an event to show, a handoff apart; and then it yields everything queued |
| EventBackend.UnshownUpdateMakesAGap | vibe/app_server/events.py:554-558 | from any place: such an update uses up a number that is never queued, and the next event, though in sequence, is reported as a gap |
| EventBackend.LateHandoffMakesAGap | vibe/app_server/events.py:477-496 | from any place: a handoff the projection accepts whose number is past one is reported as a gap from one |
| EventStream.StreamIsIncremental | vibe/app_server/_legacy_session_backend.py:838-871 | it does not matter when events are queued relative to the reader |
| EventStream.StreamKeepsOrder | vibe/app_server/_legacy_session_backend.py:843-865 | nothing is reordered or made up, and unnumbered events are all handed on in their place |
| EventStream.YieldedExactlyWhen | vibe/app_server/_legacy_session_backend.py:843-865 | an event of any queue is yielded if and only if the stream was open up to it and it is unnumbered or of some session and one above the highest number met |
| EventStream.YieldsGrow | vibe/app_server/_legacy_session_backend.py:838-865 | what was yielded for a part of the queue is the beginning of what is yielded for all of it |
| EventStream.ConsecutiveExactlyWhen | vibe/app_server/_legacy_session_backend.py:849-864 | for every queue, the numbered events yielded follow one another, from the snapshot's number plus one and from one after a session change, if and only if no event numbered one of the session last yielded comes after the stream has forgotten its place there |
| EventStream.FromOneIsConsecutive | vibe/app_server/_legacy_session_backend.py:849-864 | so they always do when numbers count from one |
| EventStream.ForeignZeroReplays | vibe/app_server/_legacy_session_backend.py:849-853 | of the generator alone, on a queue the backend never builds: at any point of an open stream an event numbered zero of another session would make it forget its place and yield the first event of the session it followed again |
| EventStream.PlaceIsHighest | vibe/app_server/_legacy_session_backend.py:852-864 | while the stream is open its place is the highest number met |
| EventStream.OpenExactlyWhen | vibe/app_server/_legacy_session_backend.py:838-863 | the stream is still open if and only if no close marker and no sessionless number has come and no event skipped a number |
| EventStream.GapNamesTheNextNumber | vibe/app_server/_legacy_session_backend.py:854-863 | a gap error names the first skip met and the number after the highest met since the session followed last changed, and everything before it was yielded |
| EventStream.StreamKeepsLedger | vibe/app_server/_legacy_session_backend.py:849-865 | over any queue: a session's first event is accounted for, by the snapshot or as given, if any of its events is; and while nothing was given twice nothing above the stream's place is |
| EventStream.OnceExactlyWhen | vibe/app_server/_legacy_session_backend.py:849-865 | for every queue, no numbered event is given twice and none that the snapshot holds, if and only if event one of a session never comes when the stream has no number for that session though the event was given or lies in the snapshot: a session left and come back to |
| EventStream.OneSessionIsGivenOnce | vibe/app_server/_legacy_session_backend.py:843-865 | so it never happens while the snapshot's session is the only one |
| EventStream.SnapshotAndStream | vibe/app_server/_legacy_session_backend.py:668-691 | a snapshot of the first events and the stream after it give the session's log once each and in order, however often and in whatever order events are queued |
| Execution.SessionExecution.Begin | vibe/app_server/_execution.py:65-74 | the slot is taken exactly when it is free; otherwise the holder is reported and nothing changes |
| Execution.SessionExecution.Finish | vibe/app_server/_execution.py:76-78 | only the execution that holds the slot frees it |
| Execution.SessionExecution.RequireIdle | vibe/app_server/_execution.py:88-92 | fails exactly while the slot is taken, naming the holder |
| Relocation.StepKeepsSafe | vibe/app_server/_handler.py:1358-1426 | every timely step of any session or remover keeps each session on ground it holds: where it stands, what it is about to enter, and what it may be put back to |
| Relocation.StepKeepsSafeExactlyWhen | vibe/app_server/_handler.py:1358-1426 | a step keeps everybody safe if and only if a removal spares the sessions that rely on the worktree and none is raised under a move that has just found nothing to hold |
| Relocation.TimelySpares | vibe/core/git/worktree/repository.py:1355-1366 | what the marks show is enough for that: a removal of an unmarked worktree spares everybody in a safe world |
| Relocation.SafeExactlyWhen | vibe/app_server/_handler.py:1376-1426 | and it is the least there is: a world is safe if and only if no run of timely steps leaves a session in a removed worktree |
| Relocation.RunStrandsNobody | vibe/app_server/_handler.py:1376-1420 | in every interleaving, at every point of it, no session stands in a removed worktree, as long as removers' last looks are up to date and no worktree is raised between a hold that found none and the move |
| Relocation.LateRemovalStrands | vibe/core/git/worktree/repository.py:1355-1366 | the first condition is needed: a remover whose look is out of date strands a session that has moved in, holding the worktree |
| Relocation.LateRaiseStrands | vibe/core/git/worktree/repository.py:834-845 | so is the second: a hold that finds no record takes no mark, and a worktree raised before the loop looks is entered unheld |
| Relocation.RemovalFollowsALook | vibe/core/git/worktree/repository.py:1355-1366 | a worktree is removed only after a look that found no mark on it, with nothing raised or removed there since |
| Relocation.CancelledHoldLeaks | vibe/app_server/_handler.py:1376-1380 | a hold cancelled while it is taken leaves the session where it was, with one mark too many exactly where the target is another worktree with a record |
| Relocation.AnyMoveCanBeInterrupted | vibe/app_server/_handler.py:1376-1420 | a relocation can be refused until it moves, fail once it has, and be cancelled at its hold and its release |
| Relocation.StepKeepsExact | vibe/app_server/_handler.py:1386-1420 | every step that does not leak keeps the session's marks exactly those its place calls for, whatever the other sessions do |
| Relocation.IdleSessionHoldsWhereItStands | vibe/app_server/_handler.py:1386-1420 | after each relocation, moved, refused or failed, a session holds the worktree it stands in once and nothing else; only its own cancelled hold or release can leave more |
| Relocation.HoldsAreCounted | vibe/core/git/worktree/record.py:292-331 | a hold counts one more and a release one fewer, never below none, and no other mark changes |
| Relocation.OpenIsExact | vibe/core/session/worktrees.py:324-337 | a session opened without marks holds just where it starts |
| Relocation.LeavingTakesAllMarks | vibe/core/git/worktree/record.py:315-331 | closing it, or the end of its process, leaves no mark |
| Relocation.ScriptRuns | vibe/app_server/_handler.py:1358-1426 | the steps of one request can be run and leave the place and marks said |
| Relocation.SessionHandler.Relocate | vibe/app_server/_handler.py:1358-1426 | a request that finds the slot taken is a conflict and changes nothing; otherwise what it leaves, on each way out, is what its steps make of the world, and the slot is free again; it stands in the target exactly when the answer is a move, which names both places, and no other session is touched |

## Left out

- Keyring storage, OAuth flows, token refresh and HTTP in `_mcp_auth.py`: what they answer arrives as an argument of each call; failures of the keyring other than a headless host are not modelled.
- Digests: a server's fingerprint and a header map's digest are taken to be injective, and the 16 characters of the fingerprint in a descriptor revision to identify it; the OAuth identity digest is the server's own.
- The object's methods run a binding without interruption, under free locks; bindings that wait are in McpAuthInterleaving, where an owner has one binding under way at a time and a wait may end at any moment after it began.
- The collection of owners that are gone: owners live through the run.
- asyncio's scheduling and fairness: control changes hands at awaits only, and no liveness is claimed beyond termination and SettleLandsWhatIsParked.
- URL parsing, control characters and `sanitize_api_base` in `_provider_auth.py`; case is folded for ASCII only, where the regular expression engine also folds other letters.
- Windows paths, drive letters, `fnmatch` and legacy globs in `permissions.py`; paths have one leading slash and no backslash.
- Option labels, metadata and telemetry of the approval flow.
- The diff builder of the `jsonpatch` package: its raw patch is an input whose plain application gives the target; Python's equality between numbers and booleans in `test`.
- Reading the tag of a tool message out of its text, `project_message_content`, argument parsing and effect displays: their results are fields of the message; ids and phrases the projection composes are functions it is given.
- Layer resolution, parent creation, validation and saving around config patches; which models are durable is an input.
- Base64 text that no cursor printer makes: the library skips foreign characters and stops at early padding where the model reports a failure; such a cursor is outside every statement here.
- Reading the sessions of a directory, titles, previews and the session to continue with.
- Child sessions and callbacks of the turn and event handlers, the queue's capacity, and the authorization notices of `_legacy_session_backend.py:412-426`, which are unnumbered and queued without looking for a subscriber. What applying an event does to the projected state is left out but for its session, its number and whether there is something to show; a session update whose own patch changes the session's id is not modelled.
- Git, the claim directory, trust grants and snapshots around worktrees: a worktree is present or not, and holds are counted marks; a session leaves at the moment its close begins, though the loop takes a while to stop; checkpointing after a move.
- McpAuthService.MCPAuthenticationService.InstallFingerprint: a replacement while a removal holds the name's lock waits in the source; the method is for a free lock, WriteFingerprint is the half that does not wait, and the protocol's runs have any interleaving of the two halves, and the interleaving of bindings has the wait between one name and the next.
- McpAuthService.MCPAuthenticationService.BindOwned: a binding that would have to wait for a held lock part way is not one call of the method; McpAuthInterleaving has it.
- McpAuthService.MCPAuthenticationService.BindServers: the same, for its two loops together.
- McpAuthService.MCPAuthenticationService.InstallAll: the same, for the first loop.
- McpAuthService.MCPAuthenticationService.DropAll: the same, for the second loop.
- McpAuthService.MCPAuthenticationService.ResolveOAuth: keyring failures other than a headless host raise in the source and are not modelled; what another task does between its awaits is in the protocol's runs, not in the method.
- McpAuthService.MCPAuthenticationService.Login: the authorization flow itself is a flag that says whether it succeeded.
- Relocation.SessionHandler.Relocate: what the loop refuses on merit and where re-rooting fails are an argument; interference between its awaits is in the machine's runs, not in the method.
- Request dispatch, wire models, accounts, voice and the other plumbing of the app server, which would only add easy members.
