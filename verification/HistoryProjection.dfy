/**
 Stored transcripts as public history, after vibe/app_server/_history_projection.py.

 The code makes one pass, appending entries and overwriting the effects that tool messages settle,
 found through an index by call id.  What it is meant to compute is said without the index: every
 entry in transcript order, each tool call with the outcome of the last tool message addressed to
 it.  An empty string stands for an absent one, as the code's `or` treats them alike.
 */
module HistoryProjection {
  import opened Common

  // ---------- stored messages

  datatype Role = System | User | Assistant | Tool

  /** How a tool presented itself; only subagents carry a child session. */
  datatype Presentation = Presentation(kind: string, display: string, projectedOutput: Option<string>)

  const SUBAGENT := "subagent"
  const GENERIC := "generic"

  datatype ToolCall = ToolCall(id: string, name: string, arguments: Option<string>, presentation: Option<Presentation>)

  /** What TaggedText reads off a tool message's content. */
  datatype Tag = NoTag | CancellationTag | ToolErrorTag | OtherTag

  datatype ToolResult = ToolResult(cancelled: bool, durationMs: int, output: Option<string>, presentation: Option<Presentation>)

  datatype Shell = Shell(operationId: string, createdAt: int, command: string)

  datatype Message = Message(
    role: Role, compaction: bool, injected: bool, shell: Option<Shell>,
    messageId: string, reasoningId: string, reasoning: string, content: string,
    toolCalls: seq<ToolCall>, toolCallId: string, name: string,
    tag: Tag, text: string, result: Option<ToolResult>)

  // ---------- public entries

  datatype Detail = Detail(toolName: string, arguments: Option<string>, kind: string, childSession: Option<string>)

  datatype EffectState =
    | NeverCompleted  // cancelled because the session ended first, with a fixed reason
    | Cancelled(reason: string, outputText: string, durationMs: int)
    | Failed(error: string, outputText: string)
    | Completed(output: Option<(string, Option<string>)>, outputText: string, durationMs: int, message: string)

  datatype Entry =
    | Checkpoint(id: string, createdAt: int)
    | Reasoning(id: string, createdAt: int, text: string)
    | Said(id: string, createdAt: int, role: Role, message: Message)
    | ShellEffect(id: string, createdAt: int, command: string)
    | Worktree(id: string, createdAt: int)
    | Effect(id: string, createdAt: int, detail: Detail, state: EffectState)

  function Or(a: string, b: string): string { if a == "" then b else a }

  /** The words that end an id made up from a message's position. */
  datatype Suffix = CompactionId | UserId | AssistantId | ReasoningId | EffectId

  /** What a projection is given besides the messages: the child session of each subagent call, and
      how the texts it composes are spelled: `history:{index}:{suffix}`, `checkpoint:compaction:{id}`
      and `{tool} completed`. */
  datatype Context = Context(
    children: map<string, string>,
    historyId: (nat, Suffix) -> string,
    checkpointId: string -> string,
    completed: string -> string)

  /** `_persisted_effect_state`. */
  function PersistedEffectState(ctx: Context, detail: Detail, outcome: Option<Message>): (state: EffectState)
    ensures state.NeverCompleted? <==> outcome.None?
    ensures state.Failed? <==> outcome.Some? && outcome.value.tag == ToolErrorTag
    ensures state.Completed? ==>
              outcome.value.tag != CancellationTag && (outcome.value.result.Some? ==> !outcome.value.result.value.cancelled)
  {
    if outcome.None? then NeverCompleted
    else
      var m := outcome.value;
      var display := Or(m.text, ctx.completed(detail.toolName));
      if m.tag == CancellationTag then Cancelled(display, m.text, 0)
      else if m.tag == ToolErrorTag then Failed(display, m.text)
      else match m.result
        case None => Completed(None, m.text, 0, display)
        case Some(r) =>
          var shown := if r.presentation.Some? then r.presentation.value.display else display;
          if r.cancelled then Cancelled(shown, m.text, r.durationMs)
          else
            var kind := if r.presentation.Some? then r.presentation.value.kind else detail.kind;
            var output := if r.presentation.Some? && r.presentation.value.projectedOutput.Some?
                          then r.presentation.value.projectedOutput else r.output;
            Completed(Some((kind, output)), m.text, r.durationMs, shown)
  }

  /** `_history_effect`. */
  function HistoryEffect(ctx: Context, id: string, name: string, arguments: Option<string>, createdAt: int, outcome: Option<Message>,
                         presentation: Option<Presentation>, child: Option<string>): Entry {
    var kind := if presentation.Some? then presentation.value.kind else GENERIC;
    var detail := Detail(name, arguments, kind, if kind == SUBAGENT then child else None);
    Effect(id, createdAt, detail, PersistedEffectState(ctx, detail, outcome))
  }

  function ChildOf(ctx: Context, id: string): Option<string> {
    if id in ctx.children then Some(ctx.children[id]) else None
  }

  // ---------- the transcript as events

  /** What a message contributes: finished entries, declared tool calls, and outcomes. */
  datatype Event =
    | Fixed(entry: Entry)
    | Declares(id: string, createdAt: int, call: ToolCall)
    | Outcome(id: string, index: nat, createdAt: int, message: Message)

  /** A tool call's entry with the outcome it ends up with. */
  function CallEntry(e: Event, outcome: Option<Message>, ctx: Context): Entry
    requires e.Declares?
  {
    HistoryEffect(ctx, e.id, Or(e.call.name, "unknown"), e.call.arguments, e.createdAt, outcome, e.call.presentation,
                  ChildOf(ctx, e.id))
  }

  /** The entry of a tool message that no call was declared for. */
  function StrayEntry(e: Event, ctx: Context): Entry
    requires e.Outcome?
  {
    HistoryEffect(ctx, Or(e.id, ctx.historyId(e.index, EffectId)), Or(e.message.name, "tool"), None, e.createdAt, Some(e.message), None,
                  ChildOf(ctx, e.id))
  }

  function CallEvents(calls: seq<ToolCall>, index: nat, createdAt: int, ctx: Context): seq<Event> {
    if calls == [] then []
    else CallEvents(calls[..|calls| - 1], index, createdAt, ctx)
         + [Declares(Or(calls[|calls| - 1].id, ctx.historyId(index, EffectId)), createdAt, calls[|calls| - 1])]
  }

  function EventsOf(m: Message, index: nat, createdAt: int, ctx: Context): seq<Event> {
    if m.role == System then []
    else if m.compaction then
      [Fixed(Checkpoint(ctx.checkpointId(Or(m.messageId, ctx.historyId(index, CompactionId))), createdAt))]
    else if m.injected then
      if m.shell.Some? then [Fixed(ShellEffect(m.shell.value.operationId, m.shell.value.createdAt, m.shell.value.command))] else []
    else match m.role
      case User => [Fixed(Said(Or(m.messageId, ctx.historyId(index, UserId)), createdAt, User, m))]
      case Tool => [Outcome(m.toolCallId, index, createdAt, m)]
      case Assistant =>
        (if m.reasoning != "" then [Fixed(Reasoning(Or(m.reasoningId, ctx.historyId(index, ReasoningId)), createdAt, m.reasoning))] else [])
        + (if m.content != "" then [Fixed(Said(Or(m.messageId, ctx.historyId(index, AssistantId)), createdAt, Assistant, m))] else [])
        + CallEvents(m.toolCalls, index, createdAt, ctx)
      case System => []
  }

  /** Each message's events; messages are a millisecond apart. */
  function EventsByMessage(messages: seq<Message>, now: int, ctx: Context): (r: seq<seq<Event>>)
    ensures |r| == |messages|
    ensures forall i :: 0 <= i < |r| ==> r[i] == EventsOf(messages[i], i, now + i, ctx)
  {
    seq(|messages|, i requires 0 <= i < |messages| => EventsOf(messages[i], i, now + i, ctx))
  }

  function TranscriptEvents(messages: seq<Message>, now: int, ctx: Context): seq<Event> {
    Flatten(EventsByMessage(messages, now, ctx), |messages|)
  }

  // ---------- what the history means

  predicate IsDeclaration(e: Event, id: string) { e.Declares? && e.id == id }

  predicate IsOutcome(e: Event, id: string) { e.Outcome? && e.id == id }

  predicate DeclaredIn(events: seq<Event>, id: string) {
    exists k :: 0 <= k < |events| && IsDeclaration(events[k], id)
  }

  /** The last tool message addressed to `id` from `k` on, before `id` is declared again. */
  function LastOutcome(events: seq<Event>, id: string, k: nat): Option<Message>
    requires k <= |events|
    decreases |events| - k
  {
    if k == |events| || IsDeclaration(events[k], id) then None
    else
      var later := LastOutcome(events, id, k + 1);
      if later.Some? then later else if IsOutcome(events[k], id) then Some(events[k].message) else None
  }

  /** The entry an event stands for, given the whole transcript; an outcome that found its call
      stands for none of its own. */
  function EntryOf(events: seq<Event>, k: nat, ctx: Context): seq<Entry>
    requires k < |events|
  {
    match events[k]
    case Fixed(entry) => [entry]
    case Declares(id, _, _) => [CallEntry(events[k], LastOutcome(events, id, k + 1), ctx)]
    case Outcome(id, _, _, _) => if DeclaredIn(events[..k], id) then [] else [StrayEntry(events[k], ctx)]
  }

  /** The entries of the first `n` events, in transcript order. */
  function Meaning(events: seq<Event>, n: nat, ctx: Context): seq<Entry>
    requires n <= |events|
  {
    if n == 0 then [] else Meaning(events, n - 1, ctx) + EntryOf(events, n - 1, ctx)
  }

  function History(events: seq<Event>, ctx: Context): seq<Entry> {
    Meaning(events, |events|, ctx)
  }

  // ---------- the one-pass fold

  datatype Fold = Fold(entries: seq<Entry>, indices: map<string, nat>)

  const EMPTY := Fold([], map[])

  function StepFold(f: Fold, e: Event, ctx: Context): Fold {
    match e
    case Fixed(entry) => f.(entries := f.entries + [entry])
    case Declares(id, _, _) =>
      Fold(f.entries + [CallEntry(e, None, ctx)], f.indices[id := |f.entries|])
    case Outcome(id, _, _, m) =>
      if id !in f.indices then f.(entries := f.entries + [StrayEntry(e, ctx)])
      else if f.indices[id] >= |f.entries| || !f.entries[f.indices[id]].Effect? then f
      else
        var effect := f.entries[f.indices[id]];
        f.(entries := f.entries[f.indices[id] := effect.(state := PersistedEffectState(ctx, effect.detail, Some(m)))])
  }

  function FoldAll(f: Fold, events: seq<Event>, ctx: Context): Fold
    decreases |events|
  {
    if events == [] then f else FoldAll(StepFold(f, events[0], ctx), events[1..], ctx)
  }

  lemma {:induction false} FoldSnoc(f: Fold, events: seq<Event>, e: Event, ctx: Context)
    ensures FoldAll(f, events + [e], ctx) == StepFold(FoldAll(f, events, ctx), e, ctx)
    decreases |events|
  {
    if events == [] {
      assert [] + [e] == [e] && [e][1..] == [];
    } else {
      TailOfConcat(events, [e]);
      FoldSnoc(StepFold(f, events[0], ctx), events[1..], e, ctx);
    }
  }

  lemma {:induction false} FoldConcat(f: Fold, a: seq<Event>, b: seq<Event>, ctx: Context)
    ensures FoldAll(f, a + b, ctx) == FoldAll(FoldAll(f, a, ctx), b, ctx)
    decreases |a|
  {
    if a == [] {
      assert [] + b == b;
    } else {
      TailOfConcat(a, b);
      FoldConcat(StepFold(f, a[0], ctx), a[1..], b, ctx);
    }
  }

  // ---------- the fold computes the meaning

  /** The position of the last declaration of `id`. */
  function LastDeclaration(events: seq<Event>, id: string): (k: nat)
    requires DeclaredIn(events, id)
    ensures k < |events| && IsDeclaration(events[k], id)
    ensures forall j :: k < j < |events| ==> !IsDeclaration(events[j], id)
  {
    var last := |events| - 1;
    if IsDeclaration(events[last], id) then last else LastDeclaration(events[..last], id)
  }

  /** The index knows exactly the declared ids, and points each at the entry of its last
      declaration. */
  predicate IndexRight(events: seq<Event>, id: string, f: Fold, ctx: Context) {
    && (id in f.indices <==> DeclaredIn(events, id))
    && (id in f.indices ==>
          && f.indices[id] == |Meaning(events, LastDeclaration(events, id), ctx)|
          && f.indices[id] < |f.entries|
          && f.entries[f.indices[id]].Effect? && f.entries[f.indices[id]].id == id)
  }

  ghost predicate FoldIsMeaning(events: seq<Event>, f: Fold, ctx: Context) {
    && f.entries == History(events, ctx)
    && forall id :: IndexRight(events, id, f, ctx)
  }

  /** One more event changes the outcome of a call only if it is a tool message for it. */
  lemma {:induction false} LastOutcomeSnoc(events: seq<Event>, e: Event, id: string, k: nat)
    requires k <= |events|
    ensures LastOutcome(events + [e], id, k) ==
            if IsOutcome(e, id) && !DeclaredIn(events[k..], id) then Some(e.message) else LastOutcome(events, id, k)
    decreases |events| - k
  {
    var all := events + [e];
    if k == |events| {
      assert events[k..] == [];
      assert all[k] == e;
      assert LastOutcome(all, id, k + 1) == None;
    } else {
      assert all[k] == events[k];
      LastOutcomeSnoc(events, e, id, k + 1);
      DeclaredInTail(events, id, k);
    }
  }

  lemma DeclaredInTail(events: seq<Event>, id: string, k: nat)
    requires k < |events|
    ensures DeclaredIn(events[k..], id) <==> IsDeclaration(events[k], id) || DeclaredIn(events[k + 1..], id)
  {
    var tail, rest := events[k..], events[k + 1..];
    assert tail[0] == events[k];
    assert forall i :: 0 <= i < |rest| ==> rest[i] == tail[i + 1];
    if DeclaredIn(tail, id) && !IsDeclaration(events[k], id) {
      var i :| 0 <= i < |tail| && IsDeclaration(tail[i], id);
      assert rest[i - 1] == tail[i];
    }
    if DeclaredIn(rest, id) {
      var i :| 0 <= i < |rest| && IsDeclaration(rest[i], id);
      assert IsDeclaration(tail[i + 1], id);
    }
  }

  lemma LastDeclarationTail(events: seq<Event>, id: string, k: nat)
    requires k < |events| && IsDeclaration(events[k], id)
    ensures DeclaredIn(events, id) && (k == LastDeclaration(events, id) <==> !DeclaredIn(events[k + 1..], id))
  {
    var tail := events[k + 1..];
    assert forall i :: 0 <= i < |tail| ==> tail[i] == events[k + 1 + i];
    var last := LastDeclaration(events, id);
    if k < last { assert IsDeclaration(tail[last - k - 1], id); }
  }

  /** The outcome is for the call declared at `k`. */
  predicate Settles(events: seq<Event>, e: Event, k: nat) {
    e.Outcome? && DeclaredIn(events, e.id) && k == LastDeclaration(events, e.id)
  }

  /** What an earlier event stands for after one more: the last call an outcome is for is settled
      by it, and everything else is as before. */
  lemma EntrySnoc(events: seq<Event>, e: Event, k: nat, ctx: Context)
    requires k < |events|
    ensures Settles(events, e, k) ==> EntryOf(events + [e], k, ctx) == [CallEntry(events[k], Some(e.message), ctx)]
    ensures !Settles(events, e, k) ==> EntryOf(events + [e], k, ctx) == EntryOf(events, k, ctx)
  {
    var all := events + [e];
    assert all[k] == events[k] && all[..k] == events[..k];
    if events[k].Declares? {
      var id := events[k].id;
      LastOutcomeSnoc(events, e, id, k + 1);
      LastDeclarationTail(events, id, k);
    }
  }

  lemma {:induction false} MeaningSame(a: seq<Event>, b: seq<Event>, n: nat, ctx: Context)
    requires n <= |a| && n <= |b| && forall k :: 0 <= k < n ==> EntryOf(a, k, ctx) == EntryOf(b, k, ctx)
    ensures Meaning(a, n, ctx) == Meaning(b, n, ctx)
  {
    if n > 0 { MeaningSame(a, b, n - 1, ctx); }
  }

  lemma {:induction false} MeaningChanged(a: seq<Event>, b: seq<Event>, n: nat, k: nat, x: Entry, y: Entry, ctx: Context)
    requires k < n <= |a| && n <= |b|
    requires forall j :: 0 <= j < n && j != k ==> EntryOf(a, j, ctx) == EntryOf(b, j, ctx)
    requires EntryOf(a, k, ctx) == [x] && EntryOf(b, k, ctx) == [y]
    ensures var at := |Meaning(a, k, ctx)|;
            && at < |Meaning(a, n, ctx)| && Meaning(a, n, ctx)[at] == x
            && Meaning(b, n, ctx) == Meaning(a, n, ctx)[at := y]
  {
    var before, entries := Meaning(a, n - 1, ctx), EntryOf(a, n - 1, ctx);
    if n == k + 1 {
      MeaningSame(a, b, k, ctx);
      assert (before + [x])[|before| := y] == before + [y];
    } else {
      MeaningChanged(a, b, n - 1, k, x, y, ctx);
      UpdateBeforeTail(before, entries, |Meaning(a, k, ctx)|, y);
    }
  }

  /** One more event that settles nothing leaves every entry alone. */
  lemma MeaningUnsettled(events: seq<Event>, e: Event, n: nat, ctx: Context)
    requires n <= |events| && forall k :: 0 <= k < n ==> !Settles(events, e, k)
    ensures Meaning(events + [e], n, ctx) == Meaning(events, n, ctx)
  {
    forall k | 0 <= k < n ensures EntryOf(events + [e], k, ctx) == EntryOf(events, k, ctx) {
      EntrySnoc(events, e, k, ctx);
    }
    MeaningSame(events + [e], events, n, ctx);
  }

  /** An outcome changes the entry of the call it is for, and no other. */
  lemma MeaningSettled(events: seq<Event>, e: Event, n: nat, k: nat, ctx: Context)
    requires k < n <= |events| && Settles(events, e, k)
    ensures var at := |Meaning(events, k, ctx)|;
            && at < |Meaning(events, n, ctx)|
            && Meaning(events, n, ctx)[at] == CallEntry(events[k], LastOutcome(events, e.id, k + 1), ctx)
            && Meaning(events + [e], n, ctx) ==
               Meaning(events, n, ctx)[at := CallEntry(events[k], Some(e.message), ctx)]
  {
    forall j | 0 <= j < n && j != k ensures EntryOf(events + [e], j, ctx) == EntryOf(events, j, ctx) {
      EntrySnoc(events, e, j, ctx);
    }
    EntrySnoc(events, e, k, ctx);
    assert IsDeclaration(events[k], e.id);
    MeaningChanged(events, events + [e], n, k, CallEntry(events[k], LastOutcome(events, e.id, k + 1), ctx),
                   CallEntry(events[k], Some(e.message), ctx), ctx);
  }

  lemma MeaningSnocLength(events: seq<Event>, e: Event, n: nat, ctx: Context)
    requires n <= |events|
    ensures |Meaning(events + [e], n, ctx)| == |Meaning(events, n, ctx)|
  {
    if k :| 0 <= k < n && Settles(events, e, k) {
      MeaningSettled(events, e, n, k, ctx);
    } else {
      MeaningUnsettled(events, e, n, ctx);
    }
  }

  lemma {:induction false} MeaningGrows(events: seq<Event>, k: nat, n: nat, ctx: Context)
    requires k <= n <= |events|
    ensures Meaning(events, k, ctx) <= Meaning(events, n, ctx)
  {
    if k < n { MeaningGrows(events, k, n - 1, ctx); }
  }

  lemma DeclaredSnoc(events: seq<Event>, e: Event, id: string)
    ensures DeclaredIn(events + [e], id) <==> IsDeclaration(e, id) || DeclaredIn(events, id)
    ensures IsDeclaration(e, id) ==> LastDeclaration(events + [e], id) == |events|
    ensures !IsDeclaration(e, id) && DeclaredIn(events, id) ==> LastDeclaration(events + [e], id) == LastDeclaration(events, id)
  {
    var all := events + [e];
    assert all[|events|] == e && all[..|events|] == events;
    if DeclaredIn(events, id) {
      var k :| 0 <= k < |events| && IsDeclaration(events[k], id);
      assert IsDeclaration(all[k], id);
    }
  }

  /** The entries after one more event. */
  lemma HistorySnoc(events: seq<Event>, f: Fold, e: Event, ctx: Context)
    requires FoldIsMeaning(events, f, ctx)
    ensures StepFold(f, e, ctx).entries == History(events + [e], ctx)
  {
    var all, n := events + [e], |events|;
    assert all[n] == e && all[..n] == events;
    assert History(all, ctx) == Meaning(all, n, ctx) + EntryOf(all, n, ctx);
    match e
    case Fixed(_) => MeaningUnsettled(events, e, n, ctx);
    case Declares(id, _, _) =>
      MeaningUnsettled(events, e, n, ctx);
      assert LastOutcome(all, id, n + 1) == None;
    case Outcome(id, _, _, _) =>
      assert IndexRight(events, id, f, ctx);
      if DeclaredIn(events, id) {
        MeaningSettled(events, e, n, LastDeclaration(events, id), ctx);
      } else {
        MeaningUnsettled(events, e, n, ctx);
      }
  }

  lemma IndexSnoc(events: seq<Event>, f: Fold, e: Event, id: string, ctx: Context)
    requires FoldIsMeaning(events, f, ctx)
    ensures IndexRight(events + [e], id, StepFold(f, e, ctx), ctx)
  {
    var all := events + [e];
    assert IndexRight(events, id, f, ctx);
    HistorySnoc(events, f, e, ctx);
    DeclaredSnoc(events, e, id);
    if IsDeclaration(e, id) {
      MeaningSnocLength(events, e, |events|, ctx);
    } else if DeclaredIn(events, id) {
      var k := LastDeclaration(events, id);
      MeaningSnocLength(events, e, k, ctx);
      if e.Outcome? { assert IndexRight(events, e.id, f, ctx); }
    }
  }

  lemma StepComputesMeaning(events: seq<Event>, f: Fold, e: Event, ctx: Context)
    requires FoldIsMeaning(events, f, ctx)
    ensures FoldIsMeaning(events + [e], StepFold(f, e, ctx), ctx)
  {
    HistorySnoc(events, f, e, ctx);
    forall id ensures IndexRight(events + [e], id, StepFold(f, e, ctx), ctx) {
      IndexSnoc(events, f, e, id, ctx);
    }
  }

  lemma {:induction false} FoldComputesMeaning(events: seq<Event>, ctx: Context)
    ensures FoldIsMeaning(events, FoldAll(EMPTY, events, ctx), ctx)
    decreases |events|
  {
    if events != [] {
      var front, last := events[..|events| - 1], events[|events| - 1];
      FoldComputesMeaning(front, ctx);
      assert events == front + [last];
      FoldSnoc(EMPTY, front, last, ctx);
      StepComputesMeaning(front, FoldAll(EMPTY, front, ctx), last, ctx);
    }
  }

  /** What "the last outcome before the id is declared again" picks. */
  lemma {:induction false} LastOutcomeIs(events: seq<Event>, id: string, k: nat, j: nat)
    requires k <= j < |events| && IsOutcome(events[j], id)
    requires forall i :: k <= i <= j ==> !IsDeclaration(events[i], id)
    requires forall i :: j < i < |events| && IsOutcome(events[i], id) ==> exists d :: j < d < i && IsDeclaration(events[d], id)
    ensures LastOutcome(events, id, k) == Some(events[j].message)
    decreases j - k
  {
    if k < j {
      LastOutcomeIs(events, id, k + 1, j);
    } else {
      NoOutcomeBeforeRedeclared(events, id, j + 1);
    }
  }

  lemma {:induction false} NoOutcomeBeforeRedeclared(events: seq<Event>, id: string, k: nat)
    requires k <= |events|
    requires forall i :: k <= i < |events| && IsOutcome(events[i], id) ==> exists d :: k <= d < i && IsDeclaration(events[d], id)
    ensures LastOutcome(events, id, k) == None
    decreases |events| - k
  {
    if k < |events| && !IsDeclaration(events[k], id) {
      forall i | k + 1 <= i < |events| && IsOutcome(events[i], id)
        ensures exists d :: k + 1 <= d < i && IsDeclaration(events[d], id)
      {
        var d :| k <= d < i && IsDeclaration(events[d], id);
      }
      NoOutcomeBeforeRedeclared(events, id, k + 1);
    }
  }

  // ---------- later messages do not disturb earlier entries

  /** An entry with its outcome left out. */
  function Shape(e: Entry): Entry {
    if e.Effect? then e.(state := NeverCompleted) else e
  }

  /** The entries of `a` are the first ones of `b`, outcomes aside. */
  predicate KeepsShapes(a: seq<Entry>, b: seq<Entry>) {
    |a| <= |b| && forall i :: 0 <= i < |a| ==> Shape(a[i]) == Shape(b[i])
  }

  lemma ShapesSnoc(events: seq<Event>, e: Event, ctx: Context)
    ensures KeepsShapes(History(events, ctx), History(events + [e], ctx))
  {
    var n := |events|;
    var before, after := Meaning(events, n, ctx), Meaning(events + [e], n, ctx);
    assert KeepsShapes(before, after) by {
      if k :| 0 <= k < n && Settles(events, e, k) {
        MeaningSettled(events, e, n, k, ctx);
      } else {
        MeaningUnsettled(events, e, n, ctx);
      }
    }
    assert History(events + [e], ctx) == after + EntryOf(events + [e], n, ctx);
  }

  lemma {:induction false} ShapesArePrefix(events: seq<Event>, more: seq<Event>, ctx: Context)
    ensures KeepsShapes(History(events, ctx), History(events + more, ctx))
  {
    if more == [] {
      assert events + more == events;
    } else {
      var front, last := more[..|more| - 1], more[|more| - 1];
      ShapesArePrefix(events, front, ctx);
      ShapesSnoc(events + front, last, ctx);
      assert events + more == events + front + [last];
    }
  }

  lemma TranscriptGrows(messages: seq<Message>, more: seq<Message>, now: int, ctx: Context)
    ensures TranscriptEvents(messages, now, ctx) <= TranscriptEvents(messages + more, now, ctx)
  {
    var early, all := EventsByMessage(messages, now, ctx), EventsByMessage(messages + more, now, ctx);
    forall i | 0 <= i < |messages| ensures early[i] == all[i] {
      assert (messages + more)[i] == messages[i];
    }
    FlattenAgrees(early, all, |messages|);
    FlattenGrows(all, |messages|, |messages + more|);
  }

  /** Appending messages never changes the id, the order or the detail of an entry already
      projected: only a call's outcome can change. */
  lemma AppendingKeepsEntries(before: seq<Event>, messages: seq<Message>, more: seq<Message>, now: int, ctx: Context)
    ensures KeepsShapes(History(before + TranscriptEvents(messages, now, ctx), ctx),
                        History(before + TranscriptEvents(messages + more, now, ctx), ctx))
  {
    TranscriptGrows(messages, more, now, ctx);
    LongerTranscriptKeepsShapes(before, TranscriptEvents(messages, now, ctx), TranscriptEvents(messages + more, now, ctx), ctx);
  }

  lemma LongerTranscriptKeepsShapes(before: seq<Event>, early: seq<Event>, all: seq<Event>, ctx: Context)
    requires early <= all
    ensures KeepsShapes(History(before + early, ctx), History(before + all, ctx))
  {
    var added := all[|early|..];
    ShapesArePrefix(before + early, added, ctx);
    ConcatAssociates(before, early, added);
    assert early + added == all;
  }

  lemma TranscriptParts(messages: seq<Message>, now: int, ctx: Context) returns (parts: seq<seq<Event>>)
    ensures |parts| == |messages| && Flatten(parts, |parts|) == TranscriptEvents(messages, now, ctx)
    ensures forall i :: 0 <= i < |parts| ==> IsPart(parts, messages, i, now, ctx)
  {
    parts := EventsByMessage(messages, now, ctx);
  }

  /** Part `i` is what message `i` contributes. */
  predicate IsPart(parts: seq<seq<Event>>, messages: seq<Message>, i: nat, now: int, ctx: Context)
    requires i < |parts| == |messages|
  {
    parts[i] == EventsOf(messages[i], i, now + i, ctx)
  }

  // ---------- the projection itself

  /** The list and the index that the projection's functions share and update in place. */
  class Projection {
    var entries: seq<Entry>
    var effectIndices: map<string, nat>
    const ctx: Context

    function View(): Fold
      reads this
    {
      Fold(entries, effectIndices)
    }

    constructor (ctx: Context)
      ensures View() == EMPTY && this.ctx == ctx
    {
      entries, effectIndices := [], map[];
      this.ctx := ctx;
    }

    method AppendEntry(entry: Entry)
      modifies this
      ensures View() == StepFold(old(View()), Fixed(entry), ctx)
    {
      entries := entries + [entry];
    }

    method AppendToolCalls(calls: seq<ToolCall>, index: nat, createdAt: int)
      modifies this
      ensures View() == FoldAll(old(View()), CallEvents(calls, index, createdAt, ctx), ctx)
    {
      for k := 0 to |calls|
        invariant View() == FoldAll(old(View()), CallEvents(calls[..k], index, createdAt, ctx), ctx)
      {
        var call := calls[k];
        var id := Or(call.id, ctx.historyId(index, EffectId));
        assert calls[..k + 1][..k] == calls[..k];
        FoldSnoc(old(View()), CallEvents(calls[..k], index, createdAt, ctx), Declares(id, createdAt, call), ctx);
        effectIndices := effectIndices[id := |entries|];
        entries := entries + [HistoryEffect(ctx, id, Or(call.name, "unknown"), call.arguments, createdAt, None,
                                            call.presentation, ChildOf(ctx, id))];
      }
      assert calls[..|calls|] == calls;
    }

    /** `_append_assistant_history`. */
    method AppendAssistantHistory(m: Message, index: nat, createdAt: int)
      requires m.role == Assistant && !m.compaction && !m.injected
      modifies this
      ensures View() == FoldAll(old(View()), EventsOf(m, index, createdAt, ctx), ctx)
    {
      ghost var events: seq<Event> := [];
      if m.reasoning != "" {
        var entry := Reasoning(Or(m.reasoningId, ctx.historyId(index, ReasoningId)), createdAt, m.reasoning);
        AppendEntry(entry);
        FoldSnoc(old(View()), events, Fixed(entry), ctx);
        events := events + [Fixed(entry)];
      }
      if m.content != "" {
        var entry := Said(Or(m.messageId, ctx.historyId(index, AssistantId)), createdAt, Assistant, m);
        AppendEntry(entry);
        FoldSnoc(old(View()), events, Fixed(entry), ctx);
        events := events + [Fixed(entry)];
      }
      AppendToolCalls(m.toolCalls, index, createdAt);
      FoldConcat(old(View()), events, CallEvents(m.toolCalls, index, createdAt, ctx), ctx);
      assert EventsOf(m, index, createdAt, ctx) == events + CallEvents(m.toolCalls, index, createdAt, ctx);
    }

    /** `_apply_tool_history`. */
    method ApplyToolHistory(m: Message, index: nat, createdAt: int)
      modifies this
      ensures View() == StepFold(old(View()), Outcome(m.toolCallId, index, createdAt, m), ctx)
    {
      var id := m.toolCallId;
      if id !in effectIndices {
        entries := entries + [HistoryEffect(ctx, Or(id, ctx.historyId(index, EffectId)), Or(m.name, "tool"), None, createdAt, Some(m),
                                            None, ChildOf(ctx, id))];
        return;
      }
      var at := effectIndices[id];
      if at >= |entries| || !entries[at].Effect? { return; }
      entries := entries[at := entries[at].(state := PersistedEffectState(ctx, entries[at].detail, Some(m)))];
    }

    /** `_project_stored_message`. */
    method ProjectStoredMessage(m: Message, index: nat, createdAt: int)
      modifies this
      ensures View() == FoldAll(old(View()), EventsOf(m, index, createdAt, ctx), ctx)
    {
      FoldOne(View(), EventsOf(m, index, createdAt, ctx), ctx);
      if m.role == System { return; }
      if m.compaction {
        AppendEntry(Checkpoint(ctx.checkpointId(Or(m.messageId, ctx.historyId(index, CompactionId))), createdAt));
        return;
      }
      if m.injected {
        if m.shell.Some? {
          AppendEntry(ShellEffect(m.shell.value.operationId, m.shell.value.createdAt, m.shell.value.command));
        }
        return;
      }
      match m.role
      case User => AppendEntry(Said(Or(m.messageId, ctx.historyId(index, UserId)), createdAt, User, m));
      case Assistant => AppendAssistantHistory(m, index, createdAt);
      case Tool => ApplyToolHistory(m, index, createdAt);
    }

    /** One message more on top of those already folded. */
    method ProjectNext(messages: seq<Message>, k: nat, now: int, ghost start: Fold, ghost parts: seq<seq<Event>>)
      requires k < |messages| == |parts| && IsPart(parts, messages, k, now, ctx)
      requires View() == FoldAll(start, Flatten(parts, k), ctx)
      modifies this
      ensures View() == FoldAll(start, Flatten(parts, k + 1), ctx)
    {
      ProjectStoredMessage(messages[k], k, now + k);
      FoldConcat(start, Flatten(parts, k), parts[k], ctx);
    }

    /** The loop of `project_message_history`. */
    method ProjectMessages(messages: seq<Message>, now: int)
      modifies this
      ensures View() == FoldAll(old(View()), TranscriptEvents(messages, now, ctx), ctx)
    {
      ghost var parts := TranscriptParts(messages, now, ctx);
      for k := 0 to |messages|
        invariant View() == FoldAll(old(View()), Flatten(parts, k), ctx)
      {
        ProjectNext(messages, k, now, old(View()), parts);
      }
    }
  }

  lemma FoldOne(f: Fold, events: seq<Event>, ctx: Context)
    ensures events == [] ==> FoldAll(f, events, ctx) == f
    ensures |events| == 1 ==> FoldAll(f, events, ctx) == StepFold(f, events[0], ctx)
  {
    if |events| == 1 { assert events[1..] == []; }
  }

  /** `project_message_history`: the entries are what the transcript means, after the session's
      worktree if it created one. */
  method ProjectMessageHistory(messages: seq<Message>, now: int, worktree: Option<Entry>, ctx: Context)
    returns (entries: seq<Entry>)
    ensures entries ==
            History((if worktree.Some? then [Fixed(worktree.value)] else []) + TranscriptEvents(messages, now, ctx), ctx)
  {
    ghost var start := if worktree.Some? then [Fixed(worktree.value)] else [];
    var projection := new Projection(ctx);
    if worktree.Some? {
      projection.AppendEntry(worktree.value);
    }
    FoldOne(EMPTY, start, ctx);
    projection.ProjectMessages(messages, now);
    FoldConcat(EMPTY, start, TranscriptEvents(messages, now, ctx), ctx);
    FoldComputesMeaning(start + TranscriptEvents(messages, now, ctx), ctx);
    entries := projection.entries;
  }
}
