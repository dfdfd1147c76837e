/**
 What each stored message comes to in the public history, in the message's own terms: which entries,
 with which ids and times, and whose answer a tool call shows.
 */
module HistoryByMessage {
  import opened Common
  import opened HistoryProjection

  // ---------- messages, calls and answers

  predicate OrdinaryAssistant(m: Message) { m.role == Assistant && !m.compaction && !m.injected }

  predicate OrdinaryTool(m: Message) { m.role == Tool && !m.compaction && !m.injected }

  /** The id a call goes by: its own, or one made up from the message's position. */
  function CallId(call: ToolCall, i: nat, ctx: Context): string {
    if call.id != "" then call.id else ctx.historyId(i, EffectId)
  }

  /** Call `c` of message `i` goes by this id. */
  predicate CallsBy(messages: seq<Message>, i: int, c: int, id: string, ctx: Context) {
    && 0 <= i < |messages| && OrdinaryAssistant(messages[i]) && 0 <= c < |messages[i].toolCalls|
    && CallId(messages[i].toolCalls[c], i, ctx) == id
  }

  /** Message `j` is a tool message addressed to this id. */
  predicate AnswersTo(messages: seq<Message>, j: int, id: string) {
    0 <= j < |messages| && OrdinaryTool(messages[j]) && messages[j].toolCallId == id
  }

  /** The id is used again after call `c` of message `i` and before message `j`. */
  ghost predicate CalledBetween(messages: seq<Message>, i: int, c: int, j: int, id: string, ctx: Context) {
    exists i2, c2 :: (i2 > i || (i2 == i && c2 > c)) && i2 < j && CallsBy(messages, i2, c2, id, ctx)
  }

  /** Message `j` is the last to answer the call, before its id is used again. */
  ghost predicate AnsweredBy(messages: seq<Message>, i: nat, c: nat, j: int, id: string, ctx: Context) {
    && j > i && AnswersTo(messages, j, id) && !CalledBetween(messages, i, c, j, id, ctx)
    && forall j2 :: j2 > j && AnswersTo(messages, j2, id) ==> CalledBetween(messages, i, c, j2, id, ctx)
  }

  ghost predicate Unanswered(messages: seq<Message>, i: nat, c: nat, id: string, ctx: Context) {
    forall j :: j > i && AnswersTo(messages, j, id) ==> CalledBetween(messages, i, c, j, id, ctx)
  }

  /** Every call has such a last answer, or none. */
  lemma {:induction false} AnsweredOrNot(messages: seq<Message>, i: nat, c: nat, id: string, ctx: Context, n: nat)
    requires n <= |messages| && forall j :: j >= n && AnswersTo(messages, j, id) ==> CalledBetween(messages, i, c, j, id, ctx)
    ensures Unanswered(messages, i, c, id, ctx) || exists j :: AnsweredBy(messages, i, c, j, id, ctx)
    decreases n
  {
    hide CalledBetween;
    if n > i + 1 {
      if AnswersTo(messages, n - 1, id) && !CalledBetween(messages, i, c, n - 1, id, ctx) {
        assert AnsweredBy(messages, i, c, n - 1, id, ctx);
      } else {
        AnsweredOrNot(messages, i, c, id, ctx, n - 1);
      }
    }
  }

  /** What the answer says is shown: its text, or the tool's name where it has none, unless the tool
      presented itself; how long it took; and the output it projected, before the plain one. */
  lemma AnswerIsShown(ctx: Context, d: Detail, m: Message)
    ensures var st, tagged := PersistedEffectState(ctx, d, Some(m)), m.tag == CancellationTag || m.tag == ToolErrorTag;
            var said := if m.text != "" then m.text else ctx.completed(d.toolName);
            var shown := if !tagged && m.result.Some? && m.result.value.presentation.Some?
                         then m.result.value.presentation.value.display else said;
            var took := if !tagged && m.result.Some? then m.result.value.durationMs else 0;
            && (st.Failed? <==> m.tag == ToolErrorTag)
            && (st.Cancelled? <==> m.tag == CancellationTag || (!tagged && m.result.Some? && m.result.value.cancelled))
            && (st.Failed? ==> st.error == said && st.outputText == m.text)
            && (st.Cancelled? ==> st.reason == shown && st.outputText == m.text && st.durationMs == took)
            && (st.Completed? ==> st.message == shown && st.outputText == m.text && st.durationMs == took)
            && (!st.Failed? && !st.Cancelled? ==> st.Completed?)
  {}

  lemma OutputIsShown(ctx: Context, d: Detail, m: Message)
    ensures var st := PersistedEffectState(ctx, d, Some(m));
            st.Completed? ==>
              && (st.output.None? <==> m.result.None?)
              && (m.result.Some? && m.result.value.presentation.None? ==> st.output == Some((d.kind, m.result.value.output)))
              && (m.result.Some? && m.result.value.presentation.Some? ==>
                    var p := m.result.value.presentation.value;
                    st.output == Some((p.kind, if p.projectedOutput.Some? then p.projectedOutput else m.result.value.output)))
  {}

  // ---------- what a message contributes

  /** The entry of call `c` of message `i`. */
  ghost predicate ShowsCall(messages: seq<Message>, i: nat, c: nat, at: int, ctx: Context, e: Entry)
    requires i < |messages| && c < |messages[i].toolCalls|
  {
    var call := messages[i].toolCalls[c];
    var id := CallId(call, i, ctx);
    && e.Effect? && e.id == id && e.createdAt == at
    && e.detail.toolName == (if call.name != "" then call.name else "unknown") && e.detail.arguments == call.arguments
    && e.detail.kind == (if call.presentation.Some? then call.presentation.value.kind else GENERIC)
    && e.detail.childSession == (if e.detail.kind == SUBAGENT && id in ctx.children then Some(ctx.children[id]) else None)
    && (forall j :: AnsweredBy(messages, i, c, j, id, ctx) ==>
          e.state == PersistedEffectState(ctx, e.detail, Some(messages[j])))
    && (Unanswered(messages, i, c, id, ctx) ==> e.state == NeverCompleted)
  }

  /** An assistant message: its reasoning, then its text, then its calls in order. */
  ghost predicate ShowsAssistant(messages: seq<Message>, i: nat, at: int, ctx: Context, es: seq<Entry>)
    requires i < |messages|
  {
    var m := messages[i];
    var r := if m.reasoning != "" then 1 else 0;
    var t := if m.content != "" then 1 else 0;
    && |es| == r + t + |m.toolCalls|
    && (r == 1 ==> es[0] == Reasoning(if m.reasoningId != "" then m.reasoningId else ctx.historyId(i, ReasoningId), at, m.reasoning))
    && (t == 1 ==> es[r] == Said(if m.messageId != "" then m.messageId else ctx.historyId(i, AssistantId), at, Assistant, m))
    && var calls := es[r + t..];
       forall c :: 0 <= c < |m.toolCalls| ==> ShowsCall(messages, i, c, at, ctx, calls[c])
  }

  /** A tool message no call before it was waiting for. */
  predicate ShowsStray(m: Message, i: nat, at: int, ctx: Context, e: Entry) {
    && e.Effect? && e.id == (if m.toolCallId != "" then m.toolCallId else ctx.historyId(i, EffectId)) && e.createdAt == at
    && e.detail == Detail(if m.name != "" then m.name else "tool", None, GENERIC, None)
    && e.state == PersistedEffectState(ctx, e.detail, Some(m))
  }

  /** What message `i` contributes, a millisecond for each message before it. */
  ghost predicate Contributes(messages: seq<Message>, i: nat, now: int, ctx: Context, es: seq<Entry>)
    requires i < |messages|
  {
    var m, at := messages[i], now + i;
    if m.role == System then es == []
    else if m.compaction then
      es == [Checkpoint(ctx.checkpointId(if m.messageId != "" then m.messageId else ctx.historyId(i, CompactionId)), at)]
    else if m.injected then
      (match m.shell
       case None => es == []
       case Some(shell) => es == [ShellEffect(shell.operationId, shell.createdAt, shell.command)])
    else match m.role
      case User => es == [Said(if m.messageId != "" then m.messageId else ctx.historyId(i, UserId), at, User, m)]
      case Assistant => ShowsAssistant(messages, i, at, ctx, es)
      case Tool =>
        if exists i2, c2 :: i2 < i && CallsBy(messages, i2, c2, m.toolCallId, ctx) then es == []
        else |es| == 1 && ShowsStray(m, i, at, ctx, es[0])
      case System => true
  }

  // ---------- where a message's events stand

  /** A transcript's events by message, behind those that stand before it. */
  datatype Script = Script(start: seq<Event>, parts: seq<seq<Event>>, messages: seq<Message>, now: int, ctx: Context) {
    function All(): seq<Event> { start + Flatten(parts, |parts|) }

    /** What stands before declares and settles nothing; every part is its message's. */
    predicate Plain() {
      && (forall x :: 0 <= x < |start| ==> start[x].Fixed?)
      && |parts| == |messages| && forall i :: 0 <= i < |messages| ==> IsPart(parts, messages, i, now, ctx)
    }

    /** Where the events of message `i` begin. */
    function Off(i: nat): nat
      requires i <= |parts|
    {
      |start| + |Flatten(parts, i)|
    }

    /** Where call `c` of message `i` is declared. */
    function At(i: nat, c: nat): nat
      requires i < |messages| == |parts|
    {
      Off(i) + Before(messages[i]) + c
    }
  }

  lemma OffGrows(s: Script, i: nat, j: nat)
    requires i <= j <= |s.parts|
    ensures s.Off(i) <= s.Off(j)
  {
    FlattenGrows(s.parts, i, j);
  }

  lemma PartAt(s: Script, i: nat)
    requires i < |s.parts|
    ensures s.Off(i + 1) == s.Off(i) + |s.parts[i]| <= |s.All()|
    ensures forall y :: 0 <= y < |s.parts[i]| ==> s.All()[s.Off(i) + y] == s.parts[i][y]
  {
    FlattenGrows(s.parts, i + 1, |s.parts|);
    PartOf(s.start, Flatten(s.parts, |s.parts|), Flatten(s.parts, i), s.parts[i]);
    hide Flatten;
  }

  lemma PartOf(start: seq<Event>, whole: seq<Event>, front: seq<Event>, part: seq<Event>)
    requires front + part <= whole
    ensures |start| + |front| + |part| <= |start + whole|
    ensures forall y :: 0 <= y < |part| ==> (start + whole)[|start| + |front| + y] == part[y]
  {
    forall y | 0 <= y < |part| ensures (start + whole)[|start| + |front| + y] == part[y] {
      assert (front + part)[|front| + y] == whole[|front| + y];
    }
  }

  /** Every event behind the start belongs to some message. */
  lemma {:induction false} Locate(s: Script, n: nat, x: nat) returns (i: nat)
    requires n <= |s.parts| && |s.start| <= x < s.Off(n)
    ensures i < n && s.Off(i) <= x < s.Off(i + 1)
    decreases n
  {
    if x >= s.Off(n - 1) {
      i := n - 1;
    } else {
      i := Locate(s, n - 1, x);
    }
  }

  // ---------- what a message's events are

  function Before(m: Message): nat { (if m.reasoning != "" then 1 else 0) + (if m.content != "" then 1 else 0) }

  lemma {:induction false} CallEventsAre(calls: seq<ToolCall>, index: nat, at: int, ctx: Context)
    ensures |CallEvents(calls, index, at, ctx)| == |calls|
    ensures forall c :: 0 <= c < |calls| ==>
              CallEvents(calls, index, at, ctx)[c] == Declares(CallId(calls[c], index, ctx), at, calls[c])
  {
    if calls != [] { CallEventsAre(calls[..|calls| - 1], index, at, ctx); }
  }

  lemma AssistantEvents(m: Message, i: nat, at: int, ctx: Context)
    requires OrdinaryAssistant(m)
    ensures var es := EventsOf(m, i, at, ctx);
            var r := if m.reasoning != "" then 1 else 0;
            && |es| == Before(m) + |m.toolCalls|
            && (forall y :: 0 <= y < Before(m) ==> es[y].Fixed?)
            && (r == 1 ==>
                  es[0].entry == Reasoning(if m.reasoningId != "" then m.reasoningId else ctx.historyId(i, ReasoningId), at, m.reasoning))
            && (m.content != "" ==>
                  es[r].entry == Said(if m.messageId != "" then m.messageId else ctx.historyId(i, AssistantId), at, Assistant, m))
            && (forall y :: Before(m) <= y < |es| ==> es[y].Declares?)
            && forall c :: 0 <= c < |m.toolCalls| ==>
                 es[Before(m) + c] == Declares(CallId(m.toolCalls[c], i, ctx), at, m.toolCalls[c])
  {
    CallEventsAre(m.toolCalls, i, at, ctx);
  }

  lemma DeclaredByCall(messages: seq<Message>, i: nat, at: int, ctx: Context, y: nat, id: string)
    requires i < |messages| && y < |EventsOf(messages[i], i, at, ctx)| && IsDeclaration(EventsOf(messages[i], i, at, ctx)[y], id)
    ensures y >= Before(messages[i]) && CallsBy(messages, i, y - Before(messages[i]), id, ctx)
  {
    if OrdinaryAssistant(messages[i]) { AssistantEvents(messages[i], i, at, ctx); }
  }

  lemma OutcomeOfTool(messages: seq<Message>, i: nat, at: int, ctx: Context, y: nat, id: string)
    requires i < |messages| && y < |EventsOf(messages[i], i, at, ctx)| && IsOutcome(EventsOf(messages[i], i, at, ctx)[y], id)
    ensures AnswersTo(messages, i, id) && y == 0
  {
    if OrdinaryAssistant(messages[i]) { AssistantEvents(messages[i], i, at, ctx); }
  }

  // ---------- calls and answers by position

  lemma CallAt(s: Script, i: nat, c: nat, id: string)
    requires s.Plain() && CallsBy(s.messages, i, c, id, s.ctx)
    ensures s.Off(i) <= s.At(i, c) < s.Off(i + 1) <= |s.All()|
    ensures s.All()[s.At(i, c)] == Declares(id, s.now + i, s.messages[i].toolCalls[c])
  {
    PartAt(s, i);
    assert IsPart(s.parts, s.messages, i, s.now, s.ctx);
    AssistantEvents(s.messages[i], i, s.now + i, s.ctx);
    hide EventsOf;
    assert s.parts[i][Before(s.messages[i]) + c] == Declares(id, s.now + i, s.messages[i].toolCalls[c]);
  }

  lemma AnswerAt(s: Script, j: nat, id: string)
    requires s.Plain() && AnswersTo(s.messages, j, id)
    ensures s.Off(j) + 1 == s.Off(j + 1) <= |s.All()|
    ensures s.All()[s.Off(j)] == Outcome(id, j, s.now + j, s.messages[j])
  {
    PartAt(s, j);
    assert IsPart(s.parts, s.messages, j, s.now, s.ctx);
    assert s.parts[j] == [Outcome(id, j, s.now + j, s.messages[j])];
    assert s.All()[s.Off(j) + 0] == s.parts[j][0];
  }

  lemma LastOff(s: Script)
    ensures s.Off(|s.parts|) == |s.All()|
  {}

  lemma CallFrom(s: Script, x: nat, id: string) returns (i: nat, c: nat)
    requires s.Plain() && x < |s.All()| && IsDeclaration(s.All()[x], id)
    ensures CallsBy(s.messages, i, c, id, s.ctx) && x == s.At(i, c)
  {
    LastOff(s);
    i := Locate(s, |s.parts|, x);
    PartAt(s, i);
    assert IsPart(s.parts, s.messages, i, s.now, s.ctx) && s.parts[i][x - s.Off(i)] == s.All()[s.Off(i) + (x - s.Off(i))];
    hide EventsOf;
    DeclaredByCall(s.messages, i, s.now + i, s.ctx, x - s.Off(i), id);
    c := x - s.Off(i) - Before(s.messages[i]);
  }

  lemma AnswerFrom(s: Script, x: nat, id: string) returns (j: nat)
    requires s.Plain() && x < |s.All()| && IsOutcome(s.All()[x], id)
    ensures AnswersTo(s.messages, j, id) && x == s.Off(j)
  {
    hide EventsOf;
    LastOff(s);
    j := Locate(s, |s.parts|, x);
    PartAt(s, j);
    var y := x - s.Off(j);
    assert IsPart(s.parts, s.messages, j, s.now, s.ctx) && s.parts[j][y] == s.All()[s.Off(j) + y];
    hide IsOutcome;
    assert IsOutcome(EventsOf(s.messages[j], j, s.now + j, s.ctx)[y], id);
    hide *;
    OutcomeOfTool(s.messages, j, s.now + j, s.ctx, y, id);
  }

  /** Calls stand in the order of their messages, and in a message in their own. */
  lemma CallOrder(s: Script, i: nat, c: nat, i2: nat, c2: nat, id: string)
    requires s.Plain() && CallsBy(s.messages, i, c, id, s.ctx) && CallsBy(s.messages, i2, c2, id, s.ctx)
    ensures s.At(i, c) < s.At(i2, c2) <==> i < i2 || (i == i2 && c < c2)
  {
    CallAt(s, i, c, id);
    CallAt(s, i2, c2, id);
    if i < i2 { OffGrows(s, i + 1, i2); }
    if i2 < i { OffGrows(s, i2 + 1, i); }
  }

  lemma CallBeforeMessage(s: Script, i: nat, c: nat, j: nat, id: string)
    requires s.Plain() && CallsBy(s.messages, i, c, id, s.ctx) && j <= |s.messages|
    ensures s.At(i, c) < s.Off(j) <==> i < j
  {
    CallAt(s, i, c, id);
    if i < j { OffGrows(s, i + 1, j); } else { OffGrows(s, j, i); }
  }

  lemma UsedBetween(s: Script, i: nat, c: nat, j: nat, id: string, d: nat)
    requires s.Plain() && CallsBy(s.messages, i, c, id, s.ctx) && j <= |s.messages|
    requires s.At(i, c) < d < |s.All()| && d < s.Off(j) && IsDeclaration(s.All()[d], id)
    ensures CalledBetween(s.messages, i, c, j, id, s.ctx)
  {
    var i2, c2 := CallFrom(s, d, id);
    hide CallsBy;
    CallOrder(s, i, c, i2, c2, id);
    CallBeforeMessage(s, i2, c2, j, id);
  }

  lemma BetweenIsUsed(s: Script, i: nat, c: nat, j: nat, id: string) returns (d: nat)
    requires s.Plain() && CallsBy(s.messages, i, c, id, s.ctx) && j <= |s.messages| && CalledBetween(s.messages, i, c, j, id, s.ctx)
    ensures s.At(i, c) < d < |s.All()| && d < s.Off(j) && IsDeclaration(s.All()[d], id)
  {
    var i2: int, c2: int :| (i2 > i || (i2 == i && c2 > c)) && i2 < j && CallsBy(s.messages, i2, c2, id, s.ctx);
    CallOrder(s, i, c, i2, c2, id);
    CallBeforeMessage(s, i2, c2, j, id);
    CallAt(s, i2, c2, id);
    d := s.At(i2, c2);
  }

  // ---------- whose answer a call shows

  lemma NothingBetween(s: Script, i: nat, c: nat, j: nat, id: string)
    requires s.Plain() && CallsBy(s.messages, i, c, id, s.ctx) && AnswersTo(s.messages, j, id) && j > i
    requires !CalledBetween(s.messages, i, c, j, id, s.ctx)
    ensures s.At(i, c) < s.Off(j) < |s.All()|
    ensures forall d :: s.At(i, c) < d <= s.Off(j) ==> !IsDeclaration(s.All()[d], id)
  {
    CallBeforeMessage(s, i, c, j, id);
    AnswerAt(s, j, id);
    hide CallsBy;
    hide AnswersTo;
    hide CalledBetween;
    forall d | s.At(i, c) < d <= s.Off(j) ensures !IsDeclaration(s.All()[d], id) {
      if d < s.Off(j) && IsDeclaration(s.All()[d], id) { UsedBetween(s, i, c, j, id, d); }
    }
  }

  lemma LaterIsAfterReuse(s: Script, i: nat, c: nat, from: nat, id: string, y: nat) returns (d: nat)
    requires s.Plain() && CallsBy(s.messages, i, c, id, s.ctx) && s.At(i, c) < y < |s.All()| && IsOutcome(s.All()[y], id)
    requires from <= |s.messages| && s.Off(from) <= y
    requires forall j :: j >= from && j > i && AnswersTo(s.messages, j, id) ==> CalledBetween(s.messages, i, c, j, id, s.ctx)
    ensures s.At(i, c) < d < y && IsDeclaration(s.All()[d], id)
  {
    var j := AnswerFrom(s, y, id);
    CallBeforeMessage(s, i, c, j, id);
    AnswerAt(s, j, id);
    if j < from { OffGrows(s, j + 1, from); }
    d := BetweenIsUsed(s, i, c, j, id);
  }

  lemma AnsweredIsLastOutcome(s: Script, i: nat, c: nat, j: nat, id: string)
    requires s.Plain() && CallsBy(s.messages, i, c, id, s.ctx) && AnsweredBy(s.messages, i, c, j, id, s.ctx)
    ensures s.At(i, c) < |s.All()| && LastOutcome(s.All(), id, s.At(i, c) + 1) == Some(s.messages[j])
  {
    NothingBetween(s, i, c, j, id);
    AnswerAt(s, j, id);
    var all, at := s.All(), s.Off(j);
    assert all[at].message == s.messages[j] && IsOutcome(all[at], id);
    forall y | at < y < |all| && IsOutcome(all[y], id) ensures exists d :: at < d < y && IsDeclaration(all[d], id) {
      var d := LaterIsAfterReuse(s, i, c, j + 1, id, y);
      assert d > at;
    }
    hide *;
    LastOutcomeIs(all, id, s.At(i, c) + 1, at);
  }

  lemma UnansweredHasNone(s: Script, i: nat, c: nat, id: string)
    requires s.Plain() && CallsBy(s.messages, i, c, id, s.ctx) && Unanswered(s.messages, i, c, id, s.ctx)
    ensures s.At(i, c) < |s.All()| && LastOutcome(s.All(), id, s.At(i, c) + 1) == None
  {
    CallAt(s, i, c, id);
    var all, x := s.All(), s.At(i, c) + 1;
    OffGrows(s, 0, i);
    forall y | x <= y < |all| && IsOutcome(all[y], id) ensures exists d :: x <= d < y && IsDeclaration(all[d], id) {
      var d := LaterIsAfterReuse(s, i, c, 0, id, y);
    }
    hide *;
    NoOutcomeBeforeRedeclared(all, id, x);
  }

  lemma CalledBefore(s: Script, j: nat, id: string)
    requires s.Plain() && j <= |s.messages|
    ensures s.Off(j) <= |s.All()|
    ensures DeclaredIn(s.All()[..s.Off(j)], id) <==> exists i2, c2 :: i2 < j && CallsBy(s.messages, i2, c2, id, s.ctx)
  {
    LastOff(s);
    OffGrows(s, j, |s.messages|);
    var prefix := s.All()[..s.Off(j)];
    if DeclaredIn(prefix, id) {
      var x :| 0 <= x < |prefix| && IsDeclaration(prefix[x], id);
      var i2, c2 := CallFrom(s, x, id);
      CallBeforeMessage(s, i2, c2, j, id);
    }
    if i2: int, c2: int :| i2 < j && CallsBy(s.messages, i2, c2, id, s.ctx) {
      CallAt(s, i2, c2, id);
      CallBeforeMessage(s, i2, c2, j, id);
      assert IsDeclaration(prefix[s.At(i2, c2)], id);
    }
  }

  // ---------- the entries of each message

  /** What the events from `a` to `b` stand for. */
  function Segment(all: seq<Event>, a: nat, b: nat, ctx: Context): seq<Entry>
    requires a <= b <= |all|
  {
    if a == b then [] else Segment(all, a, b - 1, ctx) + EntryOf(all, b - 1, ctx)
  }

  /** What message `i` contributes. */
  function Entries(s: Script, i: nat): seq<Entry>
    requires s.Plain() && i < |s.messages|
  {
    PartAt(s, i);
    Segment(s.All(), s.Off(i), s.Off(i + 1), s.ctx)
  }

  lemma {:induction false} MeaningSplits(all: seq<Event>, a: nat, b: nat, ctx: Context)
    requires a <= b <= |all|
    ensures Meaning(all, b, ctx) == Meaning(all, a, ctx) + Segment(all, a, b, ctx)
  {
    hide EntryOf;
    if a < b {
      MeaningSplits(all, a, b - 1, ctx);
      ConcatAssociates(Meaning(all, a, ctx), Segment(all, a, b - 1, ctx), EntryOf(all, b - 1, ctx));
    }
  }

  lemma {:induction false} SegmentOfSingles(all: seq<Event>, a: nat, b: nat, ctx: Context)
    requires a <= b <= |all| && forall k :: a <= k < b ==> |EntryOf(all, k, ctx)| == 1
    ensures |Segment(all, a, b, ctx)| == b - a
    ensures forall k :: a <= k < b ==> [Segment(all, a, b, ctx)[k - a]] == EntryOf(all, k, ctx)
  {
    hide EntryOf;
    if a < b { SegmentOfSingles(all, a, b - 1, ctx); }
  }

  lemma CallShown(s: Script, i: nat, c: nat)
    requires s.Plain() && i < |s.messages| && OrdinaryAssistant(s.messages[i]) && c < |s.messages[i].toolCalls|
    ensures s.At(i, c) < |s.All()| && |EntryOf(s.All(), s.At(i, c), s.ctx)| == 1
    ensures ShowsCall(s.messages, i, c, s.now + i, s.ctx, EntryOf(s.All(), s.At(i, c), s.ctx)[0])
  {
    var x, id := s.At(i, c), CallId(s.messages[i].toolCalls[c], i, s.ctx);
    CallAt(s, i, c, id);
    var e := EntryOf(s.All(), x, s.ctx)[0];
    assert e == CallEntry(s.All()[x], LastOutcome(s.All(), id, x + 1), s.ctx);
    forall j | AnsweredBy(s.messages, i, c, j, id, s.ctx) ensures e.state == PersistedEffectState(s.ctx, e.detail, Some(s.messages[j])) {
      AnsweredIsLastOutcome(s, i, c, j, id);
    }
    if Unanswered(s.messages, i, c, id, s.ctx) { UnansweredHasNone(s, i, c, id); }
    hide AnsweredBy;
    hide Unanswered;
    hide LastOutcome;
    hide EventsOf;
  }

  /** Each event of an assistant message stands for one entry. */
  lemma AssistantSegment(s: Script, i: nat)
    requires s.Plain() && i < |s.messages| && OrdinaryAssistant(s.messages[i])
    ensures s.Off(i + 1) == s.Off(i) + Before(s.messages[i]) + |s.messages[i].toolCalls| <= |s.All()|
    ensures var es := Entries(s, i);
            && |es| == Before(s.messages[i]) + |s.messages[i].toolCalls|
            && forall y :: 0 <= y < |es| ==> [es[y]] == EntryOf(s.All(), s.Off(i) + y, s.ctx)
  {
    var a, b, m, all := s.Off(i), s.Off(i + 1), s.messages[i], s.All();
    var part := s.parts[i];
    PartAt(s, i);
    AssistantEvents(m, i, s.now + i, s.ctx);
    assert IsPart(s.parts, s.messages, i, s.now, s.ctx);
    hide EventsOf;
    forall k | a <= k < b ensures |EntryOf(all, k, s.ctx)| == 1 {
      assert all[a + (k - a)] == part[k - a];
    }
    hide IsPart;
    hide EntryOf;
    SegmentOfSingles(all, a, b, s.ctx);
    var es := Segment(all, a, b, s.ctx);
    forall y | 0 <= y < |es| ensures [es[y]] == EntryOf(all, a + y, s.ctx) {
      assert [es[a + y - a]] == EntryOf(all, a + y, s.ctx);
    }
  }

  lemma FixedInSegment(s: Script, i: nat, y: nat)
    requires s.Plain() && i < |s.messages| && OrdinaryAssistant(s.messages[i]) && y < |s.parts[i]| && s.parts[i][y].Fixed?
    ensures var es := Entries(s, i); y < |es| && es[y] == s.parts[i][y].entry
  {
    AssistantSegment(s, i);
    PartAt(s, i);
    hide IsPart;
    hide Segment;
    hide OrdinaryAssistant;
    FixedShown(s.All(), s.Off(i) + y, s.ctx);
    hide EntryOf;
    assert [Entries(s, i)[y]] == EntryOf(s.All(), s.Off(i) + y, s.ctx);
  }

  lemma InSegment(s: Script, i: nat, y: nat)
    requires s.Plain() && i < |s.messages| && OrdinaryAssistant(s.messages[i])
    requires y < Before(s.messages[i]) + |s.messages[i].toolCalls|
    ensures s.Off(i) + y < |s.All()|
    ensures var es := Entries(s, i);
            y < |es| && EntryOf(s.All(), s.Off(i) + y, s.ctx) == [es[y]]
  {
    AssistantSegment(s, i);
    hide *;
  }

  /** Behind the texts, entry `c` is that of call `c`. */
  ghost predicate CallFits(messages: seq<Message>, i: nat, c: nat, at: int, ctx: Context, es: seq<Entry>)
    requires i < |messages| && c < |messages[i].toolCalls|
  {
    Before(messages[i]) + c < |es| && ShowsCall(messages, i, c, at, ctx, es[Before(messages[i]) + c])
  }

  lemma CallInSegment(s: Script, i: nat, c: nat)
    requires s.Plain() && i < |s.messages| && OrdinaryAssistant(s.messages[i]) && c < |s.messages[i].toolCalls|
    ensures CallFits(s.messages, i, c, s.now + i, s.ctx, Entries(s, i))
  {
    InSegment(s, i, Before(s.messages[i]) + c);
    CallShown(s, i, c);
    assert s.At(i, c) == s.Off(i) + (Before(s.messages[i]) + c);
    hide ShowsCall;
    hide EntryOf;
    hide Entries;
    hide IsPart;
  }

  lemma TextInSegment(s: Script, i: nat)
    requires s.Plain() && i < |s.messages| && OrdinaryAssistant(s.messages[i])
    ensures var m, at, es := s.messages[i], s.now + i, Entries(s, i);
            var r := if m.reasoning != "" then 1 else 0;
            && |es| == Before(m) + |m.toolCalls|
            && (m.reasoning != "" ==>
                  es[0] == Reasoning(if m.reasoningId != "" then m.reasoningId else s.ctx.historyId(i, ReasoningId), at, m.reasoning))
            && (m.content != "" ==>
                  es[r] == Said(if m.messageId != "" then m.messageId else s.ctx.historyId(i, AssistantId), at, Assistant, m))
  {
    AssistantSegment(s, i);
    var m := s.messages[i];
    AssistantEvents(m, i, s.now + i, s.ctx);
    assert IsPart(s.parts, s.messages, i, s.now, s.ctx);
    hide EventsOf;
    hide EntryOf;
    hide Segment;
    if m.reasoning != "" { FixedInSegment(s, i, 0); }
    if m.content != "" { FixedInSegment(s, i, if m.reasoning != "" then 1 else 0); }
  }

  lemma AssistantFits(messages: seq<Message>, i: nat, at: int, ctx: Context, es: seq<Entry>)
    requires i < |messages| && |es| == Before(messages[i]) + |messages[i].toolCalls|
    requires var m := messages[i];
             var r := if m.reasoning != "" then 1 else 0;
             && (m.reasoning != "" ==>
                   es[0] == Reasoning(if m.reasoningId != "" then m.reasoningId else ctx.historyId(i, ReasoningId), at, m.reasoning))
             && (m.content != "" ==>
                   es[r] == Said(if m.messageId != "" then m.messageId else ctx.historyId(i, AssistantId), at, Assistant, m))
    requires forall c :: 0 <= c < |messages[i].toolCalls| ==> CallFits(messages, i, c, at, ctx, es)
    ensures ShowsAssistant(messages, i, at, ctx, es)
  {
    hide ShowsCall;
    var calls := es[Before(messages[i])..];
    forall c | 0 <= c < |messages[i].toolCalls| ensures ShowsCall(messages, i, c, at, ctx, calls[c]) {
      assert CallFits(messages, i, c, at, ctx, es);
    }
  }

  lemma AssistantShown(s: Script, i: nat)
    requires s.Plain() && i < |s.messages| && OrdinaryAssistant(s.messages[i])
    ensures ShowsAssistant(s.messages, i, s.now + i, s.ctx, Entries(s, i))
  {
    TextInSegment(s, i);
    var at, es := s.now + i, Entries(s, i);
    forall c | 0 <= c < |s.messages[i].toolCalls| ensures CallFits(s.messages, i, c, at, s.ctx, es) {
      CallInSegment(s, i, c);
    }
    hide *;
    AssistantFits(s.messages, i, at, s.ctx, es);
  }

  lemma FixedShown(all: seq<Event>, k: nat, ctx: Context)
    requires k < |all| && all[k].Fixed?
    ensures EntryOf(all, k, ctx) == [all[k].entry]
  {}

  lemma NoneOrOne(s: Script, i: nat)
    requires s.Plain() && i < |s.messages|
    ensures |s.parts[i]| == 0 ==> Entries(s, i) == []
    ensures |s.parts[i]| == 1 ==>
              s.Off(i) < |s.All()| && s.All()[s.Off(i)] == s.parts[i][0] && Entries(s, i) == EntryOf(s.All(), s.Off(i), s.ctx)
  {
    hide IsPart;
    hide EntryOf;
    var a, all := s.Off(i), s.All();
    PartAt(s, i);
    if |s.parts[i]| == 1 {
      assert all[a + 0] == s.parts[i][0];
      assert Segment(all, a, a + 1, s.ctx) == [] + EntryOf(all, a, s.ctx) == EntryOf(all, a, s.ctx);
    }
  }

  lemma ToolShown(s: Script, i: nat)
    requires s.Plain() && i < |s.messages| && OrdinaryTool(s.messages[i])
    ensures Contributes(s.messages, i, s.now, s.ctx, Entries(s, i))
  {
    var m := s.messages[i];
    NoneOrOne(s, i);
    assert IsPart(s.parts, s.messages, i, s.now, s.ctx);
    assert s.parts[i] == [Outcome(m.toolCallId, i, s.now + i, m)];
    hide EventsOf;
    hide IsPart;
    hide Entries;
    CalledBefore(s, i, m.toolCallId);
    assert Entries(s, i) == if DeclaredIn(s.All()[..s.Off(i)], m.toolCallId) then [] else [StrayEntry(s.parts[i][0], s.ctx)];
    hide EntryOf;
    hide CallsBy;
    hide DeclaredIn;
  }

  lemma OthersShown(s: Script, i: nat)
    requires s.Plain() && i < |s.messages| && !OrdinaryAssistant(s.messages[i]) && !OrdinaryTool(s.messages[i])
    ensures Contributes(s.messages, i, s.now, s.ctx, Entries(s, i))
  {
    NoneOrOne(s, i);
    assert IsPart(s.parts, s.messages, i, s.now, s.ctx);
    if |s.parts[i]| == 1 { FixedShown(s.All(), s.Off(i), s.ctx); }
    hide CallsBy;
    hide Entries;
    hide EntryOf;
  }

  lemma AssistantContributes(messages: seq<Message>, i: nat, now: int, ctx: Context, es: seq<Entry>)
    requires i < |messages| && OrdinaryAssistant(messages[i]) && ShowsAssistant(messages, i, now + i, ctx, es)
    ensures Contributes(messages, i, now, ctx, es)
  {
    hide ShowsAssistant;
    hide CallsBy;
  }

  lemma MessageShown(s: Script, i: nat)
    requires s.Plain() && i < |s.messages|
    ensures Contributes(s.messages, i, s.now, s.ctx, Entries(s, i))
  {
    if OrdinaryAssistant(s.messages[i]) {
      AssistantShown(s, i);
      hide *;
      AssistantContributes(s.messages, i, s.now, s.ctx, Entries(s, i));
    } else if OrdinaryTool(s.messages[i]) {
      ToolShown(s, i);
      hide *;
    } else {
      OthersShown(s, i);
      hide *;
    }
  }

  lemma MeaningGrowsBy(s: Script, i: nat)
    requires s.Plain() && i < |s.messages|
    ensures s.Off(i + 1) <= |s.All()| && s.Off(i) <= |s.All()|
    ensures Meaning(s.All(), s.Off(i + 1), s.ctx) == Meaning(s.All(), s.Off(i), s.ctx) + Entries(s, i)
  {
    PartAt(s, i);
    MeaningSplits(s.All(), s.Off(i), s.Off(i + 1), s.ctx);
  }

  lemma {:induction false} MessagesShown(s: Script, n: nat) returns (shown: seq<seq<Entry>>)
    requires s.Plain() && n <= |s.messages|
    ensures |shown| == n && s.Off(n) <= |s.All()|
    ensures forall i :: 0 <= i < n ==> Contributes(s.messages, i, s.now, s.ctx, shown[i])
    ensures Meaning(s.All(), s.Off(n), s.ctx) == Meaning(s.All(), |s.start|, s.ctx) + Flatten(shown, n)
    decreases n
  {
    hide Contributes;
    hide Meaning;
    hide IsPart;
    hide Entries;
    if n == 0 {
      shown := [];
    } else {
      var front := MessagesShown(s, n - 1);
      MessageShown(s, n - 1);
      MeaningGrowsBy(s, n - 1);
      ConcatAssociates(Meaning(s.All(), |s.start|, s.ctx), Flatten(front, n - 1), Entries(s, n - 1));
      shown := front + [Entries(s, n - 1)];
      FlattenAgrees(front, shown, n - 1);
    }
  }

  /** The history is the session's worktree, if it created one, and then what each message contributes, in
      the messages' order. */
  lemma HistoryIsByMessage(messages: seq<Message>, now: int, worktree: Option<Entry>, ctx: Context) returns (shown: seq<seq<Entry>>)
    ensures |shown| == |messages|
    ensures forall i :: 0 <= i < |messages| ==> Contributes(messages, i, now, ctx, shown[i])
    ensures History((if worktree.Some? then [Fixed(worktree.value)] else []) + TranscriptEvents(messages, now, ctx), ctx) ==
            (if worktree.Some? then [worktree.value] else []) + Flatten(shown, |shown|)
  {
    var parts := TranscriptParts(messages, now, ctx);
    var s := Script(if worktree.Some? then [Fixed(worktree.value)] else [], parts, messages, now, ctx);
    hide IsPart;
    shown := MessagesShown(s, |messages|);
    LastOff(s);
    hide Contributes;
    StartShown(s);
  }

  lemma StartShown(s: Script)
    requires |s.start| <= 1 && s.Plain()
    ensures |s.start| <= |s.All()| && Meaning(s.All(), |s.start|, s.ctx) == if s.start == [] then [] else [s.start[0].entry]
  {
    if s.start != [] {
      FixedShown(s.All(), 0, s.ctx);
      assert Meaning(s.All(), 1, s.ctx) == Meaning(s.All(), 0, s.ctx) + EntryOf(s.All(), 0, s.ctx);
    }
  }
}
