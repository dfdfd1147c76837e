/**
 The session event stream, after `_event_stream` in vibe/app_server/_legacy_session_backend.py.

 A subscriber takes a snapshot and then reads a queue.  The generator hands each queued event on,
 drops what it accounts for already, and stops with an error at the first event that does not
 follow.
 */
module EventStream {
  import opened Common

  datatype Event = Event(session: Option<string>, id: Option<nat>, payload: string)

  datatype Queued = Closed | Item(event: Event)

  /** Waiting for more, closed, stopped at a gap, or stopped at a numbered event of no session. */
  datatype Outcome = Waiting | Finished | Gap(expected: nat, received: nat) | NoSession

  /** Where the generator stands: the session it follows and the last number it accounts for. */
  datatype Place = Place(session: string, after: nat)

  datatype Run = Run(given: seq<Event>, outcome: Outcome, place: Place)

  // ---------- one event

  /** The place as the event finds it: a new session starts from zero. */
  function Turn(place: Place, session: string): Place {
    if session == place.session then place else Place(session, 0)
  }

  datatype Verdict = Yield(place: Place) | Drop(place: Place) | Stop(outcome: Outcome, place: Place)

  function Judge(queued: Queued, place: Place): Verdict {
    if queued.Closed? then Stop(Finished, place)
    else if queued.event.id.None? then Yield(place)
    else if queued.event.session.None? then Stop(NoSession, place)
    else
      var id, turned := queued.event.id.value, Turn(place, queued.event.session.value);
      if id <= turned.after then Drop(turned)
      else if id != turned.after + 1 then Stop(Gap(turned.after + 1, id), turned)
      else Yield(turned.(after := id))
  }

  // ---------- a whole queue

  function Stream(queue: seq<Queued>, place: Place): Run {
    if queue == [] then Run([], Waiting, place)
    else match Judge(queue[0], place)
      case Stop(outcome, p) => Run([], outcome, p)
      case Drop(p) => Stream(queue[1..], p)
      case Yield(p) => var rest := Stream(queue[1..], p); rest.(given := [queue[0].event] + rest.given)
  }

  /** Reading a queue in two goes is reading it in one, so it does not matter when the producer puts
      an event relative to the reader. */
  lemma {:induction false} StreamIsIncremental(first: seq<Queued>, second: seq<Queued>, place: Place)
    ensures var head := Stream(first, place);
            Stream(first + second, place) ==
            if head.outcome != Waiting then head
            else var tail := Stream(second, head.place); tail.(given := head.given + tail.given)
  {
    if first == [] {
      assert first + second == second;
    } else {
      assert (first + second)[0] == first[0] && (first + second)[1..] == first[1..] + second;
      var verdict := Judge(first[0], place);
      if !verdict.Stop? {
        StreamIsIncremental(first[1..], second, verdict.place);
        if verdict.Yield? {
          ConcatAssociates([first[0].event], Stream(first[1..], verdict.place).given,
                           Stream(second, Stream(first[1..], verdict.place).place).given);
        }
      }
    }
  }

  // ---------- what the subscriber sees

  function Unnumbered(events: seq<Event>): seq<Event> {
    if events == [] then []
    else (if events[0].id.None? then [events[0]] else []) + Unnumbered(events[1..])
  }

  /** The events in front of the close marker. */
  function Open(queue: seq<Queued>): seq<Event> {
    if queue == [] || queue[0].Closed? then [] else [queue[0].event] + Open(queue[1..])
  }

  /** Each numbered event follows the last of its session, and a new session starts at one. */
  predicate Consecutive(events: seq<Event>, place: Place) {
    if events == [] then true
    else if events[0].id.None? then Consecutive(events[1..], place)
    else
      && events[0].session.Some?
      && events[0].id.value == Turn(place, events[0].session.value).after + 1
      && Consecutive(events[1..], Place(events[0].session.value, events[0].id.value))
  }

  /** `some` is `all` with events left out. */
  ghost predicate Subsequence(some: seq<Event>, all: seq<Event>) {
    if some == [] then true
    else if all == [] then false
    else (some[0] == all[0] && Subsequence(some[1..], all[1..])) || Subsequence(some, all[1..])
  }

  /** Unnumbered events are all handed on; nothing is reordered or made up. */
  lemma {:induction false} StreamKeepsOrder(queue: seq<Queued>, place: Place)
    ensures Subsequence(Stream(queue, place).given, Open(queue))
    ensures Unnumbered(Stream(queue, place).given) <= Unnumbered(Open(queue))
    ensures Stream(queue, place).outcome in {Waiting, Finished} ==>
              Unnumbered(Stream(queue, place).given) == Unnumbered(Open(queue))
  {
    if queue != [] && !Judge(queue[0], place).Stop? {
      var p := Judge(queue[0], place).place;
      StreamKeepsOrder(queue[1..], p);
      var rest, open := Stream(queue[1..], p).given, Open(queue[1..]);
      assert ([queue[0].event] + rest)[1..] == rest && ([queue[0].event] + open)[1..] == open;
    }
  }

  // ---------- nothing missed, nothing twice

  /** The highest number met so far of the session now followed. */
  function Highest(queue: seq<Queued>, place: Place): Place {
    if queue == [] then place
    else Raise(Highest(queue[..|queue| - 1], place), queue[|queue| - 1])
  }

  function Raise(place: Place, queued: Queued): Place {
    if queued.Closed? || queued.event.id.None? || queued.event.session.None? then place
    else
      var turned := Turn(place, queued.event.session.value);
      if turned.after < queued.event.id.value then turned.(after := queued.event.id.value) else turned
  }

  /** An event above the number after the highest met since the session followed last changed. */
  predicate Skips(queue: seq<Queued>, i: nat, place: Place)
    requires i < |queue|
  {
    && queue[i].Item? && queue[i].event.id.Some? && queue[i].event.session.Some?
    && queue[i].event.id.value > Turn(Highest(queue[..i], place), queue[i].event.session.value).after + 1
  }

  /** Something that ends the stream in good order or for want of a session. */
  predicate Ends(queued: Queued) {
    queued.Closed? || (queued.event.id.Some? && queued.event.session.None?)
  }

  /** While the stream is open its place is the highest number it has met. */
  lemma {:induction false} PlaceIsHighest(queue: seq<Queued>, place: Place)
    requires Stream(queue, place).outcome == Waiting
    ensures Stream(queue, place).place == Highest(queue, place)
  {
    if queue != [] {
      var n := |queue| - 1;
      LastOf(queue, place);
      PlaceIsHighest(queue[..n], place);
    }
  }

  lemma LastOf(queue: seq<Queued>, place: Place)
    requires queue != []
    ensures var n := |queue| - 1;
            var head := Stream(queue[..n], place);
            Stream(queue, place) ==
            if head.outcome != Waiting then head
            else match Judge(queue[n], head.place)
              case Stop(outcome, p) => Run(head.given, outcome, p)
              case Drop(p) => Run(head.given, Waiting, p)
              case Yield(p) => Run(head.given + [queue[n].event], Waiting, p)
  {
    var n := |queue| - 1;
    var head := Stream(queue[..n], place);
    assert queue == queue[..n] + [queue[n]];
    StreamIsIncremental(queue[..n], [queue[n]], place);
    assert [queue[n]][1..] == [];
    assert Stream([], head.place).given == [] && head.given + [] == head.given;
  }

  /** The stream is still open exactly when nothing has ended it and no event skipped a number. */
  lemma {:induction false} OpenExactlyWhen(queue: seq<Queued>, place: Place)
    ensures Stream(queue, place).outcome == Waiting <==>
            forall i :: 0 <= i < |queue| ==> !Ends(queue[i]) && !Skips(queue, i, place)
  {
    if queue != [] {
      var n := |queue| - 1;
      OpenExactlyWhen(queue[..n], place);
      LastOf(queue, place);
      SkipsInPrefix(queue, n, place);
      if Stream(queue[..n], place).outcome == Waiting {
        PlaceIsHighest(queue[..n], place);
        assert Judge(queue[n], Highest(queue[..n], place)).Stop? <==> Ends(queue[n]) || Skips(queue, n, place);
      }
    }
  }

  lemma SkipsInPrefix(queue: seq<Queued>, n: nat, place: Place)
    requires n <= |queue|
    ensures forall i :: 0 <= i < n ==> Skips(queue[..n], i, place) == Skips(queue, i, place)
  {
    forall i | 0 <= i < n ensures Skips(queue[..n], i, place) == Skips(queue, i, place) {
      assert queue[..n][..i] == queue[..i];
    }
  }

  /** What a gap reports: the first skip met, and the number after the highest met since the session
      followed last changed. */
  lemma {:induction false} GapNamesTheNextNumber(queue: seq<Queued>, place: Place)
    requires Stream(queue, place).outcome.Gap?
    ensures exists i :: 0 <= i < |queue| && GapAt(queue, i, place) && Stream(queue, place).given == Stream(queue[..i], place).given
  {
    var n := |queue| - 1;
    LastOf(queue, place);
    if Stream(queue[..n], place).outcome == Waiting {
      PlaceIsHighest(queue[..n], place);
      assert GapAt(queue, n, place);
    } else {
      GapNamesTheNextNumber(queue[..n], place);
      var i :| 0 <= i < n && GapAt(queue[..n], i, place)
               && Stream(queue[..n], place).given == Stream(queue[..n][..i], place).given;
      assert queue[..n][..i] == queue[..i];
      SkipsInPrefix(queue, n, place);
      assert GapAt(queue, i, place);
    }
  }

  /** The stream was open up to `i`, and the event there skips the number it reports as expected. */
  predicate GapAt(queue: seq<Queued>, i: nat, place: Place)
    requires i < |queue|
  {
    && Stream(queue[..i], place).outcome == Waiting
    && Skips(queue, i, place)
    && Stream(queue, place).outcome ==
       Gap(Turn(Highest(queue[..i], place), queue[i].event.session.value).after + 1, queue[i].event.id.value)
  }

  // ---------- which events are yielded, and when their numbers are consecutive

  /** The event is unnumbered, or carries the number after the highest met. */
  predicate Follows(queue: seq<Queued>, i: nat, place: Place)
    requires i < |queue|
  {
    && queue[i].Item?
    && (queue[i].event.id.Some? ==>
          && queue[i].event.session.Some?
          && queue[i].event.id.value == Turn(Highest(queue[..i], place), queue[i].event.session.value).after + 1)
  }

  /** An event is yielded if and only if the stream was open up to it and it follows. */
  lemma YieldedExactlyWhen(queue: seq<Queued>, i: nat, place: Place)
    requires i < |queue|
    ensures Stream(queue[..i + 1], place).given ==
            Stream(queue[..i], place).given
            + if Stream(queue[..i], place).outcome == Waiting && Follows(queue, i, place) then [queue[i].event] else []
  {
    var prefix := queue[..i + 1];
    assert prefix[..i] == queue[..i] && prefix[i] == queue[i];
    LastOf(prefix, place);
    var head := Stream(queue[..i], place);
    assert head.given + [] == head.given;
    if head.outcome == Waiting { PlaceIsHighest(queue[..i], place); }
  }

  /** What was yielded stays yielded. */
  lemma {:induction false} YieldsGrow(queue: seq<Queued>, n: nat, place: Place)
    requires n <= |queue|
    ensures Stream(queue[..n], place).given <= Stream(queue, place).given
    decreases |queue| - n
  {
    if n == |queue| {
      assert queue[..n] == queue;
    } else {
      YieldedExactlyWhen(queue, n, place);
      YieldsGrow(queue, n + 1, place);
    }
  }

  /** The place the numbered events yielded have come to. */
  function Trail(given: seq<Event>, place: Place): Place {
    if given == [] then place
    else
      var front, last := Trail(given[..|given| - 1], place), given[|given| - 1];
      if last.id.Some? && last.session.Some? then Place(last.session.value, last.id.value) else front
  }

  lemma {:induction false} ConsecutiveSnoc(given: seq<Event>, e: Event, place: Place)
    ensures Consecutive(given + [e], place) <==>
            && Consecutive(given, place)
            && (e.id.Some? ==> e.session.Some? && e.id.value == Turn(Trail(given, place), e.session.value).after + 1)
    decreases |given|
  {
    if given == [] {
      assert [] + [e] == [e] && [e][1..] == [];
    } else {
      TailOfConcat(given, [e]);
      if given[0].id.None? {
        ConsecutiveSnoc(given[1..], e, place);
        TrailCons(given, place, place);
      } else if given[0].session.Some? {
        var next := Place(given[0].session.value, given[0].id.value);
        ConsecutiveSnoc(given[1..], e, next);
        TrailCons(given, place, next);
      }
    }
  }

  lemma {:induction false} TrailCons(given: seq<Event>, place: Place, next: Place)
    requires given != []
    requires next == if given[0].id.Some? && given[0].session.Some? then Place(given[0].session.value, given[0].id.value) else place
    ensures Trail(given, place) == Trail(given[1..], next)
    decreases |given|
  {
    if |given| > 1 {
      var front := given[..|given| - 1];
      TrailCons(front, place, next);
      assert front[1..] == given[1..][..|given| - 2];
    } else {
      assert given[..0] == [] && given[1..] == [];
    }
  }

  lemma TrailSnoc(given: seq<Event>, e: Event, place: Place)
    ensures Trail(given + [e], place) ==
            if e.id.Some? && e.session.Some? then Place(e.session.value, e.id.value) else Trail(given, place)
  {
    assert (given + [e])[..|given|] == given;
  }

  /** An event numbered one of the session yielded last comes back after some of that session were
      accounted for, while the stream has forgotten how many. */
  predicate Replays(queue: seq<Queued>, i: nat, place: Place)
    requires i < |queue|
  {
    && Stream(queue[..i], place).outcome == Waiting
    && queue[i].Item? && queue[i].event.id == Some(1)
    && var trail := Trail(Stream(queue[..i], place).given, place);
       && queue[i].event.session == Some(trail.session) && trail.after > 0
       && Turn(Highest(queue[..i], place), trail.session).after == 0
  }

  lemma TrailStep(given: seq<Event>, at: Place, queued: Queued, place: Place)
    requires (at == Trail(given, place) || at.after == 0) && !Judge(queued, at).Stop?
    ensures var verdict := Judge(queued, at);
            var more := if verdict.Yield? then given + [queued.event] else given;
            verdict.place == Trail(more, place) || verdict.place.after == 0
  {
    TrailSnoc(given, queued.event, place);
    hide Trail;
  }

  /** An open stream stands where its numbered events have brought it, or has forgotten. */
  lemma {:induction false} PlaceIsTrailOrForgotten(queue: seq<Queued>, place: Place)
    requires Stream(queue, place).outcome == Waiting
    ensures var run := Stream(queue, place); run.place == Trail(run.given, place) || run.place.after == 0
  {
    if queue != [] {
      var n := |queue| - 1;
      LastOf(queue, place);
      var head := Stream(queue[..n], place);
      PlaceIsTrailOrForgotten(queue[..n], place);
      TrailStep(head.given, head.place, queue[n], place);
      hide *;
    }
  }

  /** The next event yielded keeps the numbers consecutive exactly when it is no replay. */
  lemma NextIsConsecutiveExactlyWhen(given: seq<Event>, e: Event, at: Place, place: Place)
    requires Consecutive(given, place) && (at == Trail(given, place) || at.after == 0)
    requires e.id.Some? ==> e.session.Some? && e.id.value == Turn(at, e.session.value).after + 1
    ensures var trail := Trail(given, place);
            Consecutive(given + [e], place) <==>
            !(e.id == Some(1) && e.session == Some(trail.session) && trail.after > 0 && Turn(at, trail.session).after == 0)
  {
    ConsecutiveSnoc(given, e, place);
    hide Consecutive;
    hide Trail;
  }

  /** The numbered events yielded are consecutive, from the snapshot's number plus one and from one
      after a session change, if and only if none of them is such a replay. */
  lemma {:induction false} ConsecutiveExactlyWhen(queue: seq<Queued>, place: Place)
    ensures Consecutive(Stream(queue, place).given, place) <==> forall i :: 0 <= i < |queue| ==> !Replays(queue, i, place)
  {
    if queue != [] {
      var n := |queue| - 1;
      var front := queue[..n];
      var head := Stream(front, place);
      ConsecutiveExactlyWhen(front, place);
      ReplaysInPrefix(queue, n, place);
      LastOf(queue, place);
      hide Stream;
      hide Consecutive;
      hide Trail;
      if head.outcome == Waiting {
        PlaceIsHighest(front, place);
        PlaceIsTrailOrForgotten(front, place);
        hide Highest;
        if Judge(queue[n], head.place).Yield? {
          var e, trail := queue[n].event, Trail(head.given, place);
          assert Replays(queue, n, place) <==>
                 e.id == Some(1) && e.session == Some(trail.session) && trail.after > 0 && Turn(head.place, trail.session).after == 0;
          hide Replays;
          assert Stream(queue, place).given == head.given + [e];
          if Consecutive(head.given, place) {
            NextIsConsecutiveExactlyWhen(head.given, queue[n].event, head.place, place);
          } else {
            ConsecutiveSnoc(head.given, queue[n].event, place);
          }
        }
      }
    }
  }

  lemma ReplaysInPrefix(queue: seq<Queued>, n: nat, place: Place)
    requires n <= |queue|
    ensures forall i :: 0 <= i < n ==> Replays(queue[..n], i, place) == Replays(queue, i, place)
  {
    forall i | 0 <= i < n ensures Replays(queue[..n], i, place) == Replays(queue, i, place) {
      assert queue[..n][..i] == queue[..i];
    }
  }

  /** Event numbers count from one. */
  predicate FromOne(queue: seq<Queued>) {
    forall q :: q in queue ==> q.Closed? || q.event.id != Some(0)
  }

  lemma {:induction false} FromOneNeverForgets(queue: seq<Queued>, place: Place)
    requires FromOne(queue) && Stream(queue, place).outcome == Waiting
    ensures Stream(queue, place).place == Trail(Stream(queue, place).given, place)
  {
    if queue != [] {
      var n := |queue| - 1;
      assert queue[n] in queue && forall q :: q in queue[..n] ==> q in queue;
      LastOf(queue, place);
      FromOneNeverForgets(queue[..n], place);
      TrailSnoc(Stream(queue[..n], place).given, queue[n].event, place);
    }
  }

  /** When numbers count from one there are no replays. */
  lemma FromOneIsConsecutive(queue: seq<Queued>, place: Place)
    requires FromOne(queue)
    ensures Consecutive(Stream(queue, place).given, place)
  {
    forall i | 0 <= i < |queue| ensures !Replays(queue, i, place) {
      if Stream(queue[..i], place).outcome == Waiting {
        assert forall q :: q in queue[..i] ==> q in queue;
        FromOneNeverForgets(queue[..i], place);
        PlaceIsHighest(queue[..i], place);
      }
    }
    ConsecutiveExactlyWhen(queue, place);
  }

  /** Of the generator alone: at any point an event numbered zero of another session would make it
      forget its place, and the first event of the session it followed would be yielded again.  No
      such event is ever queued (EventBackend.QueuedFromOne). */
  lemma ForeignZeroReplays(queue: seq<Queued>, place: Place, zero: Event, again: Event)
    requires Stream(queue, place).outcome == Waiting
    requires zero.id == Some(0) && zero.session.Some? && zero.session.value != Stream(queue, place).place.session
    requires again.id == Some(1) && again.session == Some(Stream(queue, place).place.session)
    ensures Stream(queue + [Item(zero), Item(again)], place).given == Stream(queue, place).given + [again]
  {
    var run, more := Stream(queue, place), [Item(zero), Item(again)];
    StreamIsIncremental(queue, more, place);
    assert more[1..] == [Item(again)] && [Item(again)][1..] == [];
    var forgotten, back := Place(zero.session.value, 0), Place(run.place.session, 1);
    assert Judge(Item(zero), run.place) == Drop(forgotten);
    assert Judge(Item(again), forgotten) == Yield(back);
    assert Stream([], back) == Run([], Waiting, back);
    assert Stream([Item(again)], forgotten).given == [again];
  }

  // ---------- snapshot and stream together

  function Numbered(events: seq<Event>): seq<Event> {
    if events == [] then []
    else (if events[0].id.Some? then [events[0]] else []) + Numbered(events[1..])
  }

  lemma {:induction false} NumberedSnoc(events: seq<Event>, e: Event)
    ensures Numbered(events + [e]) == Numbered(events) + if e.id.Some? then [e] else []
  {
    if events == [] {
      assert [] + [e] == [e] && [e][1..] == [];
    } else {
      var last := if e.id.Some? then [e] else [];
      TailOfConcat(events, [e]);
      NumberedSnoc(events[1..], e);
      ConcatAssociates(if events[0].id.Some? then [events[0]] else [], Numbered(events[1..]), last);
    }
  }

  /** The queue carries events of one session's log, each under its own number, as often and in
      whatever order it likes; a zero numbers none of them. */
  predicate FromLog(queue: seq<Queued>, session: string, log: seq<Event>) {
    && (forall q :: q in queue && q.Item? && q.event.id.Some? ==>
          && q.event.session == Some(session)
          && q.event.id.value <= |log| && (q.event.id.value > 0 ==> q.event == log[q.event.id.value - 1]))
  }

  /** A snapshot of the first `k` events and the stream after it give the log's events once each, in
      order, up to the stream's place; and an open stream has passed every event it was sent. */
  lemma {:induction false} SnapshotAndStream(queue: seq<Queued>, session: string, log: seq<Event>, k: nat)
    requires k <= |log| && FromLog(queue, session, log)
    ensures var run := Stream(queue, Place(session, k));
            && run.place.session == session && k <= run.place.after <= |log|
            && log[..k] + Numbered(run.given) == log[..run.place.after]
            && (run.outcome == Waiting ==>
                  forall q :: q in queue && q.Item? && q.event.id.Some? ==> q.event.id.value <= run.place.after)
  {
    if queue != [] {
      var n, place := |queue| - 1, Place(session, k);
      var head := Stream(queue[..n], place);
      assert forall q :: q in queue[..n] ==> q in queue;
      assert FromLog(queue[..n], session, log);
      SnapshotAndStream(queue[..n], session, log, k);
      LastOf(queue, place);
      assert queue[n] in queue;
      assert forall q :: q in queue ==> q in queue[..n] || q == queue[n] by {
        assert queue == queue[..n] + [queue[n]];
      }
      hide Stream;
      hide Numbered;
      if head.outcome == Waiting && Judge(queue[n], head.place).Yield? {
        NumberedSnoc(head.given, queue[n].event);
        LogGrows(log, k, head.place.after, Numbered(head.given), queue[n].event);
      }
    }
  }

  lemma LogGrows(log: seq<Event>, k: nat, after: nat, numbered: seq<Event>, e: Event)
    requires k <= |log| && after <= |log| && log[..k] + numbered == log[..after]
    ensures e.id.None? ==> log[..k] + (numbered + []) == log[..after]
    ensures after < |log| && e == log[after] ==> log[..k] + (numbered + [e]) == log[..after + 1]
  {
    ConcatAssociates(log[..k], numbered, [e]);
    assert numbered + [] == numbered;
  }

  // ---------- each event once

  predicate Carries(e: Event, session: string, id: nat) { e.session == Some(session) && e.id == Some(id) }

  /** The snapshot holds the event, or it was given. */
  predicate Accounted(given: seq<Event>, place: Place, session: string, id: nat) {
    (session == place.session && id <= place.after) || exists i :: 0 <= i < |given| && Carries(given[i], session, id)
  }

  /** No numbered event is given that the snapshot holds or that was given before. */
  predicate Once(given: seq<Event>, place: Place) {
    if given == [] then true
    else
      var front, last := given[..|given| - 1], given[|given| - 1];
      Once(front, place)
      && (last.id.Some? && last.session.Some? ==> !Accounted(front, place, last.session.value, last.id.value))
  }

  /** The first event of a session comes when the stream has no number for that session, though the
      event is accounted for: the session was followed before, left, and come back to. */
  predicate Returns(queue: seq<Queued>, i: nat, place: Place)
    requires i < |queue|
  {
    && Stream(queue[..i], place).outcome == Waiting
    && queue[i].Item? && queue[i].event.id == Some(1) && queue[i].event.session.Some?
    && ComesBack(Stream(queue[..i], place).given, Highest(queue[..i], place), queue[i].event.session.value, place)
  }

  predicate ComesBack(given: seq<Event>, at: Place, session: string, place: Place) {
    Turn(at, session).after == 0 && Accounted(given, place, session, 1)
  }

  lemma AccountedSnoc(given: seq<Event>, e: Event, place: Place, session: string, id: nat)
    ensures Accounted(given + [e], place, session, id) <==> Accounted(given, place, session, id) || Carries(e, session, id)
  {
    if Accounted(given, place, session, id) && !(session == place.session && id <= place.after) {
      var i :| 0 <= i < |given| && Carries(given[i], session, id);
      assert Carries((given + [e])[i], session, id);
    }
    if Carries(e, session, id) { assert Carries((given + [e])[|given|], session, id); }
  }

  /** What the stream knows of what it gave: a session's first event is accounted for if any is, its
      place's number is, and while nothing was given twice nothing above that number is. */
  ghost predicate Ledger(given: seq<Event>, at: Place, place: Place) {
    && (forall s, k | k > 0 && Accounted(given, place, s, k) :: Accounted(given, place, s, 1))
    && (at.after > 0 ==> Accounted(given, place, at.session, at.after))
    && (Once(given, place) && at.after > 0 ==> forall k | k > at.after :: !Accounted(given, place, at.session, k))
  }

  lemma LedgerStep(given: seq<Event>, at: Place, e: Event, place: Place)
    requires Ledger(given, at, place)
    requires e.id.Some? && e.session.Some? && e.id.value == Turn(at, e.session.value).after + 1
    ensures Ledger(given + [e], Place(e.session.value, e.id.value), place)
    ensures Once(given + [e], place) <==>
            Once(given, place) && !(e.id == Some(1) && ComesBack(given, at, e.session.value, place))
  {
    var s, id := e.session.value, e.id.value;
    assert (given + [e])[..|given|] == given && (given + [e])[|given|] == e;
    hide Once;
    forall t, k ensures Accounted(given + [e], place, t, k) <==> Accounted(given, place, t, k) || Carries(e, t, k) {
      AccountedSnoc(given, e, place, t, k);
    }
    hide Accounted;
  }

  lemma {:induction false} StreamKeepsLedger(queue: seq<Queued>, place: Place)
    requires Stream(queue, place).outcome == Waiting
    ensures Ledger(Stream(queue, place).given, Stream(queue, place).place, place)
  {
    if queue != [] {
      var n := |queue| - 1;
      LastOf(queue, place);
      var head := Stream(queue[..n], place);
      StreamKeepsLedger(queue[..n], place);
      LedgerNext(head.given, head.place, queue[n], place);
      hide *;
    }
  }

  lemma LedgerNext(given: seq<Event>, at: Place, queued: Queued, place: Place)
    requires Ledger(given, at, place) && !Judge(queued, at).Stop?
    ensures var verdict := Judge(queued, at);
            Ledger(if verdict.Yield? then given + [queued.event] else given, verdict.place, place)
    ensures queued.event.id.None? ==> (Once(given + [queued.event], place) <==> Once(given, place))
  {
    if queued.event.id.Some? {
      if Judge(queued, at).Yield? { LedgerStep(given, at, queued.event, place); }
    } else {
      var e := queued.event;
      assert (given + [e])[..|given|] == given && (given + [e])[|given|] == e;
      hide Once;
      forall s, k ensures Accounted(given + [e], place, s, k) <==> Accounted(given, place, s, k) {
        AccountedSnoc(given, e, place, s, k);
      }
      hide Accounted;
    }
  }

  /** For every queue, each numbered event is given at most once, and none that the snapshot accounts
      for, if and only if no session is come back to. */
  lemma {:induction false} OnceExactlyWhen(queue: seq<Queued>, place: Place)
    ensures Once(Stream(queue, place).given, place) <==> forall i :: 0 <= i < |queue| ==> !Returns(queue, i, place)
  {
    if queue != [] {
      var n := |queue| - 1;
      var front := queue[..n];
      var head := Stream(front, place);
      OnceExactlyWhen(front, place);
      ReturnsInPrefix(queue, n, place);
      LastOf(queue, place);
      hide Stream;
      hide Once;
      if head.outcome == Waiting {
        PlaceIsHighest(front, place);
        StreamKeepsLedger(front, place);
        FirstIsYielded(head.place, queue[n]);
        hide Highest;
        hide Ledger;
        assert Returns(queue, n, place) <==>
               queue[n].Item? && queue[n].event.id == Some(1) && queue[n].event.session.Some?
               && ComesBack(head.given, head.place, queue[n].event.session.value, place);
        assert Returns(queue, n, place) ==> Judge(queue[n], head.place).Yield?;
        hide Returns;
        hide ComesBack;
        if Judge(queue[n], head.place).Yield? {
          if queue[n].event.id.Some? {
            LedgerStep(head.given, head.place, queue[n].event, place);
          } else {
            LedgerNext(head.given, head.place, queue[n], place);
          }
        }
      }
    }
  }

  lemma FirstIsYielded(at: Place, queued: Queued)
    ensures queued.Item? && queued.event.id == Some(1) && queued.event.session.Some? && Turn(at, queued.event.session.value).after == 0
            ==> Judge(queued, at).Yield?
  {}

  lemma ReturnsInPrefix(queue: seq<Queued>, n: nat, place: Place)
    requires n <= |queue|
    ensures forall i :: 0 <= i < n ==> Returns(queue[..n], i, place) == Returns(queue, i, place)
  {
    forall i | 0 <= i < n ensures Returns(queue[..n], i, place) == Returns(queue, i, place) {
      assert queue[..n][..i] == queue[..i];
    }
  }

  /** A queue of one session's events. */
  predicate Alone(queue: seq<Queued>, session: string) {
    forall q :: q in queue && q.Item? && q.event.id.Some? ==> q.event.session == Some(session)
  }

  lemma {:induction false} AloneKeepsCount(queue: seq<Queued>, place: Place)
    requires Alone(queue, place.session) && Stream(queue, place).outcome == Waiting
    ensures var run := Stream(queue, place);
            && run.place.session == place.session
            && (Accounted(run.given, place, place.session, 1) ==> run.place.after > 0)
  {
    if queue != [] {
      var n := |queue| - 1;
      assert queue[n] in queue && forall q :: q in queue[..n] ==> q in queue;
      LastOf(queue, place);
      AloneKeepsCount(queue[..n], place);
      hide Stream;
      if queue[n].Item? { AccountedSnoc(Stream(queue[..n], place).given, queue[n].event, place, place.session, 1); }
      hide Accounted;
    }
  }

  /** As long as the snapshot's session is the only one, each of its events is given once, and none that
      the snapshot holds. */
  lemma OneSessionIsGivenOnce(queue: seq<Queued>, place: Place)
    requires Alone(queue, place.session)
    ensures Once(Stream(queue, place).given, place)
  {
    forall i | 0 <= i < |queue| ensures !Returns(queue, i, place) {
      if Stream(queue[..i], place).outcome == Waiting {
        assert queue[i] in queue && forall q :: q in queue[..i] ==> q in queue;
        AloneKeepsCount(queue[..i], place);
        PlaceIsHighest(queue[..i], place);
      }
    }
    OnceExactlyWhen(queue, place);
  }
}
