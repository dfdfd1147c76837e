/**
 What reaches the session event stream, after `subscribe`, `adopt_state` and `publish_notification`
 in vibe/app_server/_legacy_session_backend.py, and `ClientProjection.consume` in
 vibe/app_server/events.py.

 What is published goes through a projection of the session first, which shows it, keeps it to
 itself or ends the stream.
 */
module EventBackend {
  import opened Common
  import opened EventStream

  // ---------- the projection in front of the queue

  /** What becomes of a numbered event that follows: an event to show, nothing to show because it
      updates an entry the projection does not hold, or an error in applying it. */
  datatype Effect = Shown | Unshown | Unfit

  datatype Notification =
    | Notice(payload: string)   // a warning, an error, a retry, an authorization: never numbered
    | Unknown
    | Change(session: string, id: nat, effect: Effect, payload: string)
    | Snapshot(session: string, id: nat, state: Place, payload: string)
    | Handoff(session: string, id: nat, previous: string, state: Place, payload: string)

  /** Whether a numbered event follows the projection's place (`_next_event_id`). */
  datatype Sequel = Next | Repeated | Broken

  function SequelOf(p: Place, session: string, id: nat): Sequel {
    if id == 0 || session != p.session then Broken
    else if id <= p.after then Repeated
    else if id == p.after + 1 then Next
    else Broken
  }

  /** A handoff replaces the session followed by another, from the state it carries. */
  predicate HandsOver(p: Place, n: Notification)
    requires n.Handoff?
  {
    n.previous == p.session && n.session != n.previous && n.state == Place(n.session, n.id) && n.id > 0
  }

  datatype Reading =
    | Shows(event: Event, place: Place)
    | Silent(place: Place)   // nothing to queue, though the place may move on
    | OutOfSequence
    | Raises

  function EventOf(session: string, id: nat, payload: string): Event { Event(Some(session), Some(id), payload) }

  /** `consume`. */
  function Consume(p: Place, n: Notification): Reading {
    match n
    case Notice(payload) => Shows(Event(None, None, payload), p)
    case Unknown => Silent(p)
    case Handoff(session, id, _, state, payload) =>
      if HandsOver(p, n) then Shows(EventOf(session, id, payload), state) else OutOfSequence
    case Snapshot(session, id, state, payload) =>
      if state != Place(session, id) then OutOfSequence
      else (match SequelOf(p, session, id)
            case Broken => OutOfSequence
            case Repeated => Silent(p)
            case Next => Shows(EventOf(session, id, payload), state))
    case Change(session, id, effect, payload) =>
      match SequelOf(p, session, id)
      case Broken => OutOfSequence
      case Repeated => Silent(p)
      case Next =>
        match effect
        case Shown => Shows(EventOf(session, id, payload), Place(session, id))
        case Unshown => Silent(Place(session, id))
        case Unfit => Raises
  }

  /** A numbered event is out of sequence unless it is of the session followed and its number is the next
      one or an earlier one, no less than one; a handoff, unless it leads from the session followed to
      another, from a positive number.  The state either carries has to be its own. */
  lemma OutOfSequenceExactlyWhen(p: Place, n: Notification)
    ensures Consume(p, n).OutOfSequence? <==>
            match n
            case Change(session, id, _, _) => session != p.session || id < 1 || id > p.after + 1
            case Snapshot(session, id, state, _) =>
              state.session != session || state.after != id || session != p.session || id < 1 || id > p.after + 1
            case Handoff(session, id, previous, state, _) =>
              state.session != session || state.after != id || previous != p.session || session == p.session || id < 1
            case _ => false
  {}

  /** What is shown is the notification's own event, and the projection moves to it; a number met before
      changes nothing. */
  lemma ShownIsItsOwn(p: Place, n: Notification)
    ensures var read := Consume(p, n);
            && (read.Shows? && n.Change? ==>
                  read.event == Event(Some(n.session), Some(n.id), n.payload) && read.place == Place(n.session, n.id) && n.id == p.after + 1)
            && (read.Shows? && n.Snapshot? ==>
                  read.event == Event(Some(n.session), Some(n.id), n.payload) && read.place == Place(n.session, n.id) && n.id == p.after + 1)
            && (read.Shows? && n.Handoff? ==>
                  read.event == Event(Some(n.session), Some(n.id), n.payload) && read.place == Place(n.session, n.id))
            && ((n.Change? || n.Snapshot?) && read.Silent? && read.place != p ==> n.Change? && n.effect == Unshown)
            && ((n.Change? || n.Snapshot?) && 1 <= n.id <= p.after && !read.OutOfSequence? ==> read == Silent(p))
            && (n.Change? && !read.OutOfSequence? && n.id == p.after + 1 ==> (read.Shows? <==> n.effect == Shown))
            && (n.Snapshot? && !read.OutOfSequence? && n.id == p.after + 1 ==> read.Shows?)
            && (n.Handoff? && !read.OutOfSequence? ==> read.Shows?)
  {}

  // ---------- the backend

  datatype SubscribeError = NotFound | Conflict

  datatype PublishError = CannotApply

  class LegacySessionBackend {
    const sessionId: string
    var events: seq<Queued>
    var subscribed: bool
    var idle: bool
    /** Where the client projection stands, while it follows the session. */
    var projection: Option<Place>
    /** The generator's own variables. */
    var place: Place

    constructor (sessionId: string)
      ensures this.sessionId == sessionId && events == [] && !subscribed && idle && projection == None
    {
      this.sessionId := sessionId;
      events, subscribed, idle, projection, place := [], false, true, None, Place(sessionId, 0);
    }

    /** A snapshot of a session, accounting for its events up to a number; what was queued before it
        goes, and projection and generator both start from it. */
    method Subscribe(requested: string, snapshot: Place) returns (r: Result<(), SubscribeError>)
      modifies this
      ensures requested != sessionId ==> r == Err(NotFound)
      ensures requested == sessionId && old(subscribed) ==> r == Err(Conflict)
      ensures requested == sessionId && !old(subscribed) ==>
                r == Ok(()) && events == [] && idle && subscribed && projection == Some(snapshot) && place == snapshot
      ensures r.Err? ==>
                events == old(events) && subscribed == old(subscribed) && idle == old(idle) && place == old(place)
                && projection == old(projection)
    {
      if requested != sessionId { return Err(NotFound); }
      if subscribed { return Err(Conflict); }
      projection := Some(snapshot);
      events := [];
      idle := true;
      subscribed := true;
      place := snapshot;
      r := Ok(());
    }

    /** `adopt_state`: a request answered with a state of its own, and the projection starts anew from
        it; nothing is queued for that. */
    method AdoptState(state: Place)
      modifies this`projection
      ensures projection == Some(state)
    {
      projection := Some(state);
    }

    /** A notification is queued if there is a subscriber and the projection shows it.  One that is
        out of sequence ends the stream: what is queued goes, and so does the projection. */
    method Publish(n: Notification) returns (r: Result<bool, PublishError>)
      modifies this`events, this`idle, this`projection
      ensures !subscribed || old(projection).None? ==>
                r == Ok(false) && events == old(events) && projection == old(projection) && idle == old(idle)
      ensures subscribed && old(projection).Some? ==>
                var read := Consume(old(projection).value, n);
                && (read.Shows? ==>
                      r == Ok(true) && events == old(events) + [Item(read.event)] && projection == Some(read.place) && !idle)
                && (read.Silent? ==>
                      r == Ok(false) && events == old(events) && projection == Some(read.place) && idle == old(idle))
                && (read.OutOfSequence? ==> r == Ok(false) && events == [Closed] && projection == None && !idle)
                && (n.Notice? ==> r == Ok(true) && events == old(events) + [Item(Event(None, None, n.payload))])
                && (read.Raises? ==>
                      r == Err(CannotApply) && events == old(events) && projection == old(projection) && idle == old(idle))
    {
      if !subscribed || projection.None? { return Ok(false); }
      match Consume(projection.value, n)
      case Shows(event, p) =>
        projection := Some(p);
        idle := false;
        events := events + [Item(event)];
        r := Ok(true);
      case Silent(p) =>
        projection := Some(p);
        r := Ok(false);
      case OutOfSequence =>
        projection := None;
        idle := false;
        events := [Closed];
        r := Ok(false);
      case Raises =>
        r := Err(CannotApply);
    }

    /** A callback is queued without a number. */
    method PublishCallback(payload: string) returns (taken: bool)
      modifies this`events, this`idle
      ensures taken <==> subscribed && projection.Some?
      ensures events == if taken then old(events) + [Item(Event(None, None, payload))] else old(events)
    {
      if !subscribed || projection.None? { return false; }
      idle := false;
      events := events + [Item(Event(None, None, payload))];
      taken := true;
    }

    /** Throw away what is queued and tell the subscriber it is over. */
    method Close()
      modifies this`events, this`idle
      ensures events == if subscribed then [Closed] else old(events)
    {
      if subscribed {
        idle := false;
        events := [Closed];
      }
    }

    /** Run the generator until it ends, fails, or has to wait for the queue. */
    method Read() returns (given: seq<Event>, outcome: Outcome)
      modifies this
      ensures Run(given, outcome, place) == Stream(old(events), old(place))
      ensures outcome == Waiting ==> events == [] && subscribed == old(subscribed)
      ensures outcome != Waiting ==> !subscribed
      ensures old(events) != [] && events == [] ==> idle
    {
      given := [];
      ghost var read: seq<Queued> := [];
      while events != []
        invariant read + events == old(events)
        invariant Run(given, Waiting, place) == Stream(read, old(place))
        invariant subscribed == old(subscribed)
        invariant read != [] && events == [] ==> idle
        decreases |events|
      {
        var queued := events[0];
        events := events[1..];
        var verdict := Judge(queued, place);
        ghost var before := read;
        read := read + [queued];
        assert read + events == old(events);
        StreamIsIncremental(before, [queued], old(place));
        StreamIsIncremental(read, events, old(place));
        assert [queued][1..] == [];
        place := verdict.place;
        if events == [] { idle := true; }
        if verdict.Stop? {
          subscribed := false;
          assert given + [] == given;
          return given, verdict.outcome;
        }
        if verdict.Yield? { given := given + [queued.event]; }
        else { assert given + [] == given; }
      }
      assert read + [] == read;
      outcome := Waiting;
    }
  }

  // ---------- projection and generator together

  /** What moves the projection: something published, or a state adopted. */
  datatype Move = Told(n: Notification) | Adopts(state: Place)

  /** What is put in the queue from a projection's place on, up to a close. */
  function QueueOf(p: Place, moves: seq<Move>): seq<Queued>
    decreases |moves|
  {
    if moves == [] then []
    else if moves[0].Adopts? then QueueOf(moves[0].state, moves[1..])
    else match Consume(p, moves[0].n)
      case Shows(event, q) => [Item(event)] + QueueOf(q, moves[1..])
      case Silent(q) => QueueOf(q, moves[1..])
      case OutOfSequence => [Closed]
      case Raises => QueueOf(p, moves[1..])
  }

  /** Nothing the projection shows is numbered zero, whatever is published or adopted. */
  lemma {:induction false} QueuedFromOne(p: Place, moves: seq<Move>)
    ensures FromOne(QueueOf(p, moves))
    decreases |moves|
  {
    if moves != [] {
      if moves[0].Adopts? {
        QueuedFromOne(moves[0].state, moves[1..]);
      } else {
        match Consume(p, moves[0].n)
        case Shows(event, q) => QueuedFromOne(q, moves[1..]);
        case Silent(q) => QueuedFromOne(q, moves[1..]);
        case OutOfSequence =>
        case Raises => QueuedFromOne(p, moves[1..]);
      }
    }
  }

  /** Each numbered event shown is the next one for a generator that stands at `at`. */
  predicate InStep(at: Place, p: Place, moves: seq<Move>)
    decreases |moves|
  {
    moves == []
    || if moves[0].Adopts? then InStep(at, moves[0].state, moves[1..])
       else match Consume(p, moves[0].n)
         case Shows(event, q) =>
           if event.id.None? then InStep(at, q, moves[1..])
           else q.after == Turn(at, q.session).after + 1 && InStep(q, q, moves[1..])
         case Silent(q) => InStep(at, q, moves[1..])
         case OutOfSequence => true
         case Raises => InStep(at, p, moves[1..])
  }

  lemma ShownAt(p: Place, n: Notification)
    requires Consume(p, n).Shows?
    ensures var read := Consume(p, n);
            if read.event.id.None? then read.place == p
            else read.event.session == Some(read.place.session) && read.event.id == Some(read.place.after)
  {}

  /** A warning, an error or a retry is always queued, unnumbered and with its payload, and moves nothing. */
  lemma NoticeIsQueued(p: Place, payload: string, rest: seq<Move>)
    ensures QueueOf(p, [Told(Notice(payload))] + rest) == [Item(Event(None, None, payload))] + QueueOf(p, rest)
  {
    assert ([Told(Notice(payload))] + rest)[1..] == rest;
  }

  /** The stream yields everything queued, without a gap and without dropping anything, if and only if
      projection and generator are in step. */
  lemma {:induction false} YieldsAllExactlyWhen(at: Place, p: Place, moves: seq<Move>)
    ensures var queue := QueueOf(p, moves);
            var run := Stream(queue, at);
            && run.outcome != NoSession
            && (!run.outcome.Gap? && run.given == Open(queue) <==> InStep(at, p, moves))
            && |run.given| <= |Open(queue)|
    decreases |moves|
  {
    if moves != [] {
      var rest := moves[1..];
      if moves[0].Adopts? {
        YieldsAllExactlyWhen(at, moves[0].state, rest);
      } else {
        match Consume(p, moves[0].n)
        case Shows(event, q) =>
          ShownAt(p, moves[0].n);
          var next := if event.id.None? then at else q;
          YieldsAllExactlyWhen(next, q, rest);
          YieldsAllExactlyWhen(Turn(at, q.session), q, rest);
          ShownFirst(event, QueueOf(q, rest), at);
          SameTail(event, Stream(QueueOf(q, rest), next).given, Open(QueueOf(q, rest)));
        case Silent(q) => YieldsAllExactlyWhen(at, q, rest);
        case OutOfSequence => assert [Closed][1..] == [];
        case Raises => YieldsAllExactlyWhen(at, p, rest);
      }
    }
  }

  lemma SameTail(e: Event, a: seq<Event>, b: seq<Event>)
    ensures [e] + a == [e] + b <==> a == b
  {
    assert ([e] + a)[1..] == a && ([e] + b)[1..] == b;
  }

  lemma ShownFirst(event: Event, rest: seq<Queued>, at: Place)
    ensures var queue := [Item(event)] + rest;
            && Open(queue) == [event] + Open(rest)
            && var verdict := Judge(Item(event), at);
               var later := Stream(rest, verdict.place);
               Stream(queue, at) ==
               if verdict.Stop? then Run([], verdict.outcome, verdict.place)
               else if verdict.Drop? then later
               else Run([event] + later.given, later.outcome, later.place)
  {
    assert ([Item(event)] + rest)[1..] == rest;
  }

  // ---------- as long as only notifications move the projection

  /** Every handoff carries the first number of its session, and no event that updates an entry the
      projection does not hold is followed by one to show, unless a handoff comes between. */
  predicate KeepsUp(p: Place, behind: bool, moves: seq<Move>)
    decreases |moves|
  {
    moves == []
    || (moves[0].Told? &&
        match Consume(p, moves[0].n)
        case Shows(event, q) =>
          if event.id.None? then KeepsUp(q, behind, moves[1..])
          else (if moves[0].n.Handoff? then moves[0].n.id == 1 else !behind) && KeepsUp(q, false, moves[1..])
        case Silent(q) => KeepsUp(q, behind || q != p, moves[1..])
        case OutOfSequence => true
        case Raises => KeepsUp(p, behind, moves[1..]))
  }

  predicate OnlyTold(moves: seq<Move>) { forall m :: m in moves ==> m.Told? }

  lemma {:induction false} KeepsUpIsInStep(at: Place, p: Place, behind: bool, moves: seq<Move>)
    requires OnlyTold(moves) && at.session == p.session && at.after <= p.after && (behind <==> at.after < p.after)
    ensures InStep(at, p, moves) <==> KeepsUp(p, behind, moves)
    ensures Stream(QueueOf(p, moves), at).given == Open(QueueOf(p, moves)) || Stream(QueueOf(p, moves), at).outcome.Gap?
    decreases |moves|
  {
    if moves != [] {
      var n, rest := moves[0].n, moves[1..];
      assert moves[0] in moves && OnlyTold(rest);
      match Consume(p, n)
      case Shows(event, q) =>
        ShownAt(p, n);
        if event.id.None? { KeepsUpIsInStep(at, p, behind, rest); } else { KeepsUpIsInStep(q, q, false, rest); }
        ShownFirst(event, QueueOf(q, rest), at);
      case Silent(q) => KeepsUpIsInStep(at, q, behind || q != p, rest);
      case OutOfSequence => assert [Closed][1..] == [];
      case Raises => KeepsUpIsInStep(at, p, behind, rest);
    }
  }

  /** From a subscription on, the stream meets no gap, and yields everything queued, if and only if
      handoffs start their sessions at one and nothing follows an update that is not shown. */
  lemma NoGapExactlyWhen(p: Place, moves: seq<Move>)
    requires OnlyTold(moves)
    ensures var queue := QueueOf(p, moves);
            var run := Stream(queue, p);
            && (!run.outcome.Gap? <==> KeepsUp(p, false, moves))
            && (!run.outcome.Gap? ==> run.given == Open(queue))
  {
    KeepsUpIsInStep(p, p, false, moves);
    YieldsAllExactlyWhen(p, p, moves);
  }

  /** An update of an entry the projection does not hold uses up a number that is never queued, so the
      next event, though it follows, is reported as a gap. */
  lemma UnshownUpdateMakesAGap(p: Place, first: string, second: string)
    ensures var moves := [Told(Change(p.session, p.after + 1, Unshown, first)), Told(Change(p.session, p.after + 2, Shown, second))];
            Stream(QueueOf(p, moves), p) == Run([], Gap(p.after + 1, p.after + 2), p)
  {
    var one, two := Change(p.session, p.after + 1, Unshown, first), Change(p.session, p.after + 2, Shown, second);
    var event, q := EventOf(p.session, p.after + 2, second), Place(p.session, p.after + 1);
    assert Consume(p, one) == Silent(q) && Consume(q, two) == Shows(event, Place(p.session, p.after + 2));
    hide *;
    assert [Told(one)] + [Told(two)] == [Told(one), Told(two)] && [Told(two)] + [] == [Told(two)];
    QueueOfSilent(p, one, q, [Told(two)]);
    QueueOfShown(q, two, event, Place(p.session, p.after + 2));
    SkippedAlone(p, event);
  }

  lemma QueueOfSilent(p: Place, n: Notification, q: Place, rest: seq<Move>)
    requires Consume(p, n) == Silent(q)
    ensures QueueOf(p, [Told(n)] + rest) == QueueOf(q, rest)
  {
    hide Consume;
    assert ([Told(n)] + rest)[1..] == rest;
  }

  lemma QueueOfShown(p: Place, n: Notification, event: Event, q: Place)
    requires Consume(p, n) == Shows(event, q)
    ensures QueueOf(p, [Told(n)] + []) == [Item(event)]
  {
    hide Consume;
    assert ([Told(n)] + [])[1..] == [] && QueueOf(q, []) == [] && [Item(event)] + [] == [Item(event)];
  }

  lemma SkippedAlone(p: Place, event: Event)
    requires event.session == Some(p.session) && event.id == Some(p.after + 2)
    ensures Stream([Item(event)], p) == Run([], Gap(p.after + 1, p.after + 2), p)
  {}

  /** And a handoff whose state is past its first event is reported as a gap from one. */
  lemma LateHandoffMakesAGap(p: Place, session: string, id: nat, payload: string)
    requires session != p.session && id > 1
    ensures var moves := [Told(Handoff(session, id, p.session, Place(session, id), payload))];
            Stream(QueueOf(p, moves), p).outcome == Gap(1, id)
  {
    var move := Told(Handoff(session, id, p.session, Place(session, id), payload));
    assert [move][1..] == [] && Consume(p, move.n) == Shows(EventOf(session, id, payload), Place(session, id));
    ShownFirst(EventOf(session, id, payload), [], p);
    assert QueueOf(Place(session, id), []) == [];
    assert QueueOf(p, [move]) == [Item(EventOf(session, id, payload))] + [];
  }
}
