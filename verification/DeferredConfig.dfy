/**
 Configuration a running turn cannot read, after vibe/app_server/_deferred_config.py.

 Deriving and pushing a configuration are two awaits under one lock, and writers, turns and
 cancellations come in between.  A configuration is modelled by its version: the number of writes
 persisted when it was derived.  A step is what one task does between two awaits, so a run is any
 interleaving of any number of callers with turns that start and end.
 */
module DeferredConfig {
  import opened Common

  type Task = nat
  type Version = nat

  /** The ways into the locked section.  The first two push unconditionally. */
  datatype Entrance = Apply | ApplyThrough | Settle | SettleThrough {
    /** `check_turn`: only the plain forms look for a turn once more after deriving. */
    predicate ChecksTurn() { Apply? || Settle? }
    predicate Unconditional() { Apply? || ApplyThrough? }
  }

  /** Where a call stands. `since` is the version persisted when it began. */
  datatype Call =
    | Wrote                                                        // a write is persisted, its apply is still to come
    | Waiting(entrance: Entrance, writer: bool, since: Version)    // queueing for the lock
    | Deriving(entrance: Entrance, since: Version)                 // in the lock, flag cleared
    | Derived(entrance: Entrance, since: Version, version: Version)
    | Pushing(since: Version, version: Version)
    | Landed(since: Version, version: Version)                     // the session took it, the push has not returned
    | Owning(own: Option<Version>)                                 // in `exclusive`, pushing for itself
  {
    predicate InLock() { !Wrote? && !Waiting? }
  }

  datatype State = State(
    persisted: Version,
    running: Version,
    adopted: Version,
    parked: bool,
    turn: bool,
    holder: Option<Task>,
    calls: map<Task, Call>)

  const INITIAL := State(0, 0, 0, false, false, None, map[])

  datatype Step =
    | TurnStarts
    | TurnEnds
    | Write(task: Task)
    | CallApply(task: Task, entrance: Entrance)
    | CallWhenIdle(task: Task)
    | CallSettle(task: Task, entrance: Entrance)
    | CancelWaiting(task: Task)
    | Enter(task: Task)
    | Read(task: Task)
    | DeriveReturns(task: Task)
    | Land(task: Task)
    | Raise(task: Task)       // a turn conflict, any other exception, or a cancellation
    | Finish(task: Task)
    | EnterExclusive(task: Task)
    | OwnRead(task: Task)
    | OwnPush(task: Task)
    | OwnAdopt(task: Task)
    | MarkApplied(task: Task)
    | Park
    | LeaveExclusive(task: Task)

  predicate Enabled(s: State, step: Step) {
    match step
    case TurnStarts => !s.turn
    case TurnEnds => s.turn
    case Park => true
    case Write(t) => t !in s.calls
    case CallApply(t, e) => e.Unconditional() && (t !in s.calls || s.calls[t].Wrote?)
    case CallWhenIdle(t) => t !in s.calls || s.calls[t].Wrote?
    case CallSettle(t, e) => !e.Unconditional() && t !in s.calls
    case CancelWaiting(t) => t in s.calls && s.calls[t].Waiting?
    case Enter(t) => s.holder == None && t in s.calls && s.calls[t].Waiting?
    case Read(t) => t in s.calls && s.calls[t].Deriving?
    case DeriveReturns(t) => t in s.calls && s.calls[t].Derived?
    case Land(t) => t in s.calls && s.calls[t].Pushing?
    case Raise(t) => t in s.calls && (s.calls[t].Deriving? || s.calls[t].Derived? || s.calls[t].Pushing? || s.calls[t].Landed?)
    case Finish(t) => t in s.calls && s.calls[t].Landed?
    case EnterExclusive(t) => s.holder == None && t !in s.calls
    case OwnRead(t) => t in s.calls && s.calls[t].Owning?
    case OwnPush(t) => t in s.calls && s.calls[t].Owning? && s.calls[t].own.Some?
    case OwnAdopt(t) => t in s.calls && s.calls[t].Owning? && s.calls[t].own.Some?
    case MarkApplied(t) => t in s.calls && s.calls[t].Owning?
    case LeaveExclusive(t) => t in s.calls && s.calls[t].Owning?
  }

  /** The call is over and has let go of whatever it held. */
  function Leave(s: State, t: Task): State {
    s.(calls := s.calls - {t}, holder := if s.holder == Some(t) then None else s.holder)
  }

  function Goes(s: State, t: Task, c: Call): State { s.(calls := s.calls[t := c]) }

  function Next(s: State, step: Step): State
    requires Enabled(s, step)
  {
    match step
    case TurnStarts => s.(turn := true)
    case TurnEnds => s.(turn := false)
    case Park => s.(parked := true)
    case Write(t) => Goes(s.(persisted := s.persisted + 1), t, Wrote)
    case CallApply(t, e) => Goes(s, t, Waiting(e, t in s.calls, s.persisted))
    case CallWhenIdle(t) =>
      if s.turn then Leave(s.(parked := true), t) else Goes(s, t, Waiting(Apply, t in s.calls, s.persisted))
    case CallSettle(t, e) => Goes(s, t, Waiting(e, false, s.persisted))
    case CancelWaiting(t) => Leave(s, t)
    case Enter(t) =>
      var e := s.calls[t].entrance;
      if (!e.Unconditional() && !s.parked) || (e.Settle? && s.turn) then Leave(s, t)
      else Goes(s.(holder := Some(t), parked := false), t, Deriving(e, s.calls[t].since))
    case Read(t) => Goes(s, t, Derived(s.calls[t].entrance, s.calls[t].since, s.persisted))
    case DeriveReturns(t) =>
      if s.calls[t].entrance.ChecksTurn() && s.turn then Leave(s.(parked := true), t)
      else Goes(s, t, Pushing(s.calls[t].since, s.calls[t].version))
    case Land(t) => Goes(s.(running := s.calls[t].version), t, Landed(s.calls[t].since, s.calls[t].version))
    case Raise(t) => Leave(s.(parked := true), t)
    case Finish(t) => Leave(s.(adopted := s.calls[t].version), t)
    case EnterExclusive(t) => Goes(s.(holder := Some(t)), t, Owning(None))
    case OwnRead(t) => Goes(s, t, Owning(Some(s.persisted)))
    case OwnPush(t) => s.(running := s.calls[t].own.value)
    case OwnAdopt(t) => s.(adopted := s.calls[t].own.value)
    case MarkApplied(t) => s.(parked := false)
    case LeaveExclusive(t) => Leave(s, t)
  }

  predicate Runs(s: State, steps: seq<Step>)
    decreases |steps|
  {
    steps == [] || (Enabled(s, steps[0]) && Runs(Next(s, steps[0]), steps[1..]))
  }

  function Run(s: State, steps: seq<Step>): State
    requires Runs(s, steps)
    decreases |steps|
  {
    if steps == [] then s else Run(Next(s, steps[0]), steps[1..])
  }

  // ---------- the lock

  /** A call is in the lock exactly when it holds it. */
  predicate OneInLock(s: State) {
    && (s.holder.Some? ==> s.holder.value in s.calls)
    && forall t :: t in s.calls ==> (s.calls[t].InLock() <==> s.holder == Some(t))
  }

  /** Versions in flight lie between what runs and what is persisted, and are no older than the
      call that carries them. */
  predicate Consistent(s: State) {
    && OneInLock(s)
    && s.adopted <= s.persisted && s.running <= s.persisted
    && forall t :: t in s.calls ==> InFlight(s, s.calls[t])
  }

  predicate InFlight(s: State, c: Call) {
    match c
    case Wrote => true
    case Waiting(e, writer, since) => since <= s.persisted && (writer ==> e.Unconditional())
    case Deriving(_, since) => since <= s.persisted
    case Derived(_, since, v) => since <= v <= s.persisted && s.running <= v
    case Pushing(since, v) => since <= v <= s.persisted && s.running <= v
    case Landed(since, v) => since <= v <= s.persisted && s.running == v
    case Owning(v) => v.Some? ==> s.running <= v.value <= s.persisted
  }

  lemma StepKeepsLock(s: State, step: Step)
    requires OneInLock(s) && Enabled(s, step)
    ensures OneInLock(Next(s, step))
  {}

  lemma VersionsMoveForward(s: State, step: Step)
    requires Consistent(s) && Enabled(s, step)
    ensures var after := Next(s, step);
            s.persisted <= after.persisted && s.running <= after.running <= after.persisted && after.adopted <= after.persisted
  {
    if step.Land? || step.OwnPush? || step.Finish? || step.OwnAdopt? { assert InFlight(s, s.calls[step.task]); }
  }

  /** Only the call in the lock moves the session, so no other has a version in flight. */
  lemma BystanderStaysInFlight(s: State, step: Step, t: Task)
    requires Consistent(s) && Enabled(s, step) && t in s.calls && t in Next(s, step).calls
    requires Next(s, step).calls[t] == s.calls[t]
    ensures InFlight(Next(s, step), s.calls[t])
  {
    VersionsMoveForward(s, step);
    assert InFlight(s, s.calls[t]);
    if step.Land? || step.OwnPush? {
      assert s.calls[step.task].InLock() && s.holder == Some(step.task);
      assert s.calls[t].InLock() <==> s.holder == Some(t);
    }
  }

  lemma ActorStaysInFlight(s: State, step: Step, t: Task)
    requires Consistent(s) && Enabled(s, step) && t in Next(s, step).calls
    requires t in s.calls ==> Next(s, step).calls[t] != s.calls[t]
    ensures InFlight(Next(s, step), Next(s, step).calls[t])
  {
    VersionsMoveForward(s, step);
    if t in s.calls { assert InFlight(s, s.calls[t]); }
  }

  lemma StepKeepsConsistent(s: State, step: Step)
    requires Consistent(s) && Enabled(s, step)
    ensures Consistent(Next(s, step))
    ensures s.running <= Next(s, step).running
  {
    hide InFlight;
    StepKeepsLock(s, step);
    VersionsMoveForward(s, step);
    var after := Next(s, step);
    hide Next;
    hide Enabled;
    forall t | t in after.calls ensures InFlight(after, after.calls[t]) {
      if t in s.calls && after.calls[t] == s.calls[t] {
        BystanderStaysInFlight(s, step, t);
      } else {
        ActorStaysInFlight(s, step, t);
      }
    }
  }

  lemma {:induction false} RunKeepsConsistent(s: State, steps: seq<Step>)
    requires Consistent(s) && Runs(s, steps)
    ensures Consistent(Run(s, steps)) && s.running <= Run(s, steps).running
    decreases |steps|
  {
    if steps != [] {
      StepKeepsConsistent(s, steps[0]);
      RunKeepsConsistent(Next(s, steps[0]), steps[1..]);
    }
  }

  /** Under any interleaving, whether callers are careful or not, the session never goes back to
      an older configuration. */
  lemma RunningNeverGoesBack(before: seq<Step>, after: seq<Step>)
    requires Runs(INITIAL, before) && Runs(Run(INITIAL, before), after)
    ensures Run(INITIAL, before).running <= Run(Run(INITIAL, before), after).running <= Run(Run(INITIAL, before), after).persisted
  {
    RunKeepsConsistent(INITIAL, before);
    RunKeepsConsistent(Run(INITIAL, before), after);
  }

  /** A call answers True only with its own derivation both running and adopted, and that
      derivation is at least as new as what was persisted when the call began. */
  lemma TrueMeansRunning(steps: seq<Step>, t: Task)
    requires Runs(INITIAL, steps) && Enabled(Run(INITIAL, steps), Finish(t))
    ensures var s := Run(INITIAL, steps);
            var after := Next(s, Finish(t));
            && after.running == after.adopted == s.calls[t].version
            && s.calls[t].since <= after.running
            && after.parked == s.parked && t !in after.calls && after.holder == None
  {
    RunKeepsConsistent(INITIAL, steps);
  }

  // ---------- what each way in looks at

  /** The step is the task coming in, by this entrance. */
  predicate ComesIn(step: Step, t: Task, e: Entrance) {
    match step
    case CallApply(u, f) => u == t && f == e
    case CallSettle(u, f) => u == t && f == e
    case CallWhenIdle(u) => u == t && e == Apply
    case _ => false
  }

  /** As long as the task's call waits or derives, this is how it came in. */
  predicate CameInBy(s: State, t: Task, e: Entrance) {
    t in s.calls && (s.calls[t].Waiting? || s.calls[t].Deriving? || s.calls[t].Derived?) ==> s.calls[t].entrance == e
  }

  lemma {:induction false} EntranceStays(s: State, steps: seq<Step>, t: Task, e: Entrance)
    requires Runs(s, steps) && CameInBy(s, t, e)
    requires forall step, f :: step in steps ==> !ComesIn(step, t, f)
    ensures CameInBy(Run(s, steps), t, e)
    decreases |steps|
  {
    if steps != [] {
      assert steps[0] in steps && forall step :: step in steps[1..] ==> step in steps;
      assert forall f :: !ComesIn(steps[0], t, f);
      StepKeepsEntrance(s, steps[0], t, e);
      EntranceStays(Next(s, steps[0]), steps[1..], t, e);
    }
  }

  lemma StepKeepsEntrance(s: State, step: Step, t: Task, e: Entrance)
    requires Enabled(s, step) && CameInBy(s, t, e) && forall f :: !ComesIn(step, t, f)
    ensures CameInBy(Next(s, step), t, e)
  {
    if step.CallApply? { assert !ComesIn(step, t, step.entrance); }
    if step.CallSettle? { assert !ComesIn(step, t, step.entrance); }
    if step.CallWhenIdle? { assert !ComesIn(step, t, Apply); }
  }

  /** In every run, a call that came in by `e` and now has its derivation: a plain form that finds a turn
      running parks the change and is gone, the session untouched; the forms with a push of their own,
      and the plain ones between turns, go on and bring the session what they derived. */
  lemma PlainFormsYieldToATurn(before: seq<Step>, coming: Step, t: Task, e: Entrance, mid: seq<Step>)
    requires Runs(INITIAL, before) && ComesIn(coming, t, e) && Enabled(Run(INITIAL, before), coming)
    requires Runs(Next(Run(INITIAL, before), coming), mid) && forall step, f :: step in mid ==> !ComesIn(step, t, f)
    requires Enabled(Run(Next(Run(INITIAL, before), coming), mid), DeriveReturns(t))
    ensures var s := Run(Next(Run(INITIAL, before), coming), mid);
            var after := Next(s, DeriveReturns(t));
            && after.running == s.running && after.adopted == s.adopted && after.persisted == s.persisted
            && (s.turn && (e == Apply || e == Settle) ==> after.parked && t !in after.calls && after.holder == None)
            && (!s.turn || e == ApplyThrough || e == SettleThrough ==>
                  && after.parked == s.parked && Enabled(after, Land(t)) && after.holder == Some(t)
                  && Next(after, Land(t)).running == s.calls[t].version)
  {
    var s0 := Next(Run(INITIAL, before), coming);
    RunKeepsConsistent(INITIAL, before);
    StepKeepsConsistent(Run(INITIAL, before), coming);
    RunKeepsConsistent(s0, mid);
    EntranceStays(s0, mid, t, e);
  }

  /** When the lock is free for a call that came in by `e`: the applying forms always derive, clearing the
      flag; the settling forms only what is parked, and the plain one only at a boundary. */
  lemma SettlingLooksAtTheFlag(before: seq<Step>, coming: Step, t: Task, e: Entrance, mid: seq<Step>)
    requires Runs(INITIAL, before) && ComesIn(coming, t, e) && Enabled(Run(INITIAL, before), coming)
    requires Runs(Next(Run(INITIAL, before), coming), mid) && forall step, f :: step in mid ==> !ComesIn(step, t, f)
    requires Enabled(Run(Next(Run(INITIAL, before), coming), mid), Enter(t))
    ensures var s := Run(Next(Run(INITIAL, before), coming), mid);
            var after := Next(s, Enter(t));
            var derives := (match e
              case Apply => true
              case ApplyThrough => true
              case Settle => s.parked && !s.turn
              case SettleThrough => s.parked);
            && after.running == s.running
            && (derives ==> Enabled(after, Read(t)) && !after.parked && after.holder == Some(t))
            && (!derives ==> t !in after.calls && after.parked == s.parked && after.holder == None)
  {
    EntranceStays(Next(Run(INITIAL, before), coming), mid, t, e);
  }

  /** A call that queues can be cancelled, one that derives or pushes can fail at any await, and one in
      `exclusive` can mark what it did as applied, or leave, at any time. */
  lemma AnyCallCanBeInterrupted(s: State, t: Task)
    requires t in s.calls
    ensures s.calls[t].Waiting? ==> Enabled(s, CancelWaiting(t))
    ensures s.calls[t].InLock() && !s.calls[t].Owning? ==> Enabled(s, Raise(t))
    ensures s.calls[t].Owning? ==> Enabled(s, MarkApplied(t)) && Enabled(s, LeaveExclusive(t)) && Enabled(s, OwnRead(t))
  {}

  /** A caller in `exclusive` that pushes and adopts what it read brings just that to the session. */
  lemma ExclusiveLandsWhatItRead(s: State, t: Task)
    requires Enabled(s, OwnRead(t))
    ensures var read := Next(s, OwnRead(t));
            && Enabled(read, OwnPush(t)) && Enabled(read, OwnAdopt(t))
            && read.running == s.running && read.adopted == s.adopted
            && Next(read, OwnPush(t)).running == s.persisted && Next(read, OwnPush(t)).adopted == s.adopted
            && Next(read, OwnAdopt(t)).adopted == s.persisted && Next(read, OwnAdopt(t)).running == s.running
  {}

  // ---------- no write is lost

  /** The call will still bring the persisted version to the session, or park it. */
  predicate Carries(s: State, t: Task) {
    t in s.calls && match s.calls[t]
      case Wrote => true
      case Waiting(_, writer, _) => writer
      case Deriving(_, _) => true
      case Derived(_, _, v) => v == s.persisted
      case Pushing(_, v) => v == s.persisted
      case Landed(_, v) => v == s.persisted
      case Owning(_) => false
  }

  /** The persisted version runs, or the flag is set, or some call carries it. */
  predicate Kept(s: State) {
    s.running == s.persisted || s.parked || exists t | t in s.calls :: Carries(s, t)
  }

  /** The two steps that can drop a write, and when they do not: marking applied needs the session to
      run what is persisted, or a call that will bring it; cancelling a caller that queues needs
      that, the flag, or another such call. */
  predicate Harmless(s: State, step: Step) {
    match step
    case MarkApplied(_) => s.running == s.persisted || exists t | t in s.calls :: Carries(s, t)
    case CancelWaiting(c) => s.running == s.persisted || s.parked || exists t | t in s.calls :: t != c && Carries(s, t)
    case _ => true
  }

  predicate RunsHarmlessly(s: State, steps: seq<Step>)
    requires Runs(s, steps)
    decreases |steps|
  {
    steps == [] || (Harmless(s, steps[0]) && RunsHarmlessly(Next(s, steps[0]), steps[1..]))
  }

  /** A call that carries the write still does after a step, or the step settled the matter. */
  lemma CarrierStays(s: State, step: Step, t: Task)
    requires Consistent(s) && Enabled(s, step) && Carries(s, t)
    requires !step.Write? && !step.MarkApplied? && !step.CancelWaiting?
    ensures var after := Next(s, step); after.running == after.persisted || after.parked || Carries(after, t)
  {}

  lemma OtherStepsKeepWrites(s: State, step: Step)
    requires Consistent(s) && Kept(s) && Enabled(s, step) && !step.MarkApplied? && !step.CancelWaiting?
    ensures Kept(Next(s, step))
  {
    if step.Write? {
      assert Carries(Next(s, step), step.task);
    } else if s.running != s.persisted && !s.parked {
      var t :| t in s.calls && Carries(s, t);
      CarrierStays(s, step, t);
    } else if step.Enter? && s.parked && !Next(s, step).parked {
      assert Carries(Next(s, step), step.task);
    }
  }

  /** Marking applied and cancelling leave every other call as it was. */
  lemma OthersCarryOn(s: State, step: Step, t: Task)
    requires Enabled(s, step) && (step.MarkApplied? || step.CancelWaiting?)
    ensures Carries(Next(s, step), t) <==> Carries(s, t) && !(step.CancelWaiting? && t == step.task)
  {}

  /** A step keeps the last write if and only if it is harmless. */
  lemma StepKeepsWritesExactlyWhen(s: State, step: Step)
    requires Consistent(s) && Kept(s) && Enabled(s, step)
    ensures Kept(Next(s, step)) <==> Harmless(s, step)
  {
    if step.MarkApplied? || step.CancelWaiting? {
      forall t ensures Carries(Next(s, step), t) <==> Carries(s, t) && !(step.CancelWaiting? && t == step.task) {
        OthersCarryOn(s, step, t);
      }
      hide Carries;
      assert forall t :: t in Next(s, step).calls <==> t in s.calls && !(step.CancelWaiting? && t == step.task);
    } else {
      OtherStepsKeepWrites(s, step);
    }
  }

  // ---------- exactly when a write is lost

  /** Nothing is in progress, and the last write is neither running nor parked. */
  predicate WriteLost(s: State) {
    s.calls == map[] && !s.parked && s.running < s.persisted
  }

  /** What may happen with no caller at fault: nothing is marked applied, and no writer is cancelled
      while it queues. */
  predicate Ordinary(s: State, step: Step) {
    && !step.MarkApplied?
    && (step.CancelWaiting? && step.task in s.calls && s.calls[step.task].Waiting? ==> !s.calls[step.task].writer)
  }

  predicate RunsOrdinarily(s: State, steps: seq<Step>)
    decreases |steps|
  {
    steps == [] || (Enabled(s, steps[0]) && Ordinary(s, steps[0]) && RunsOrdinarily(Next(s, steps[0]), steps[1..]))
  }

  lemma {:induction false} OrdinaryRunKeepsWrites(s: State, steps: seq<Step>)
    requires Consistent(s) && Kept(s) && RunsOrdinarily(s, steps)
    ensures Runs(s, steps) && Kept(Run(s, steps))
    decreases |steps|
  {
    if steps != [] {
      var step := steps[0];
      StepKeepsConsistent(s, step);
      assert Harmless(s, step) by {
        if step.CancelWaiting? { assert !Carries(s, step.task); }
      }
      StepKeepsWritesExactlyWhen(s, step);
      OrdinaryRunKeepsWrites(Next(s, step), steps[1..]);
    }
  }

  /** With no further fault the write can end up lost. */
  ghost predicate Loses(s: State) {
    exists steps :: RunsOrdinarily(s, steps) && Runs(s, steps) && WriteLost(Run(s, steps))
  }

  lemma LosesBefore(s: State, step: Step)
    requires Enabled(s, step) && Ordinary(s, step) && Loses(Next(s, step))
    ensures Loses(s)
  {
    var steps :| RunsOrdinarily(Next(s, step), steps) && Runs(Next(s, step), steps) && WriteLost(Run(Next(s, step), steps));
    var all := [step] + steps;
    assert all[0] == step && all[1..] == steps;
    assert RunsOrdinarily(s, all) && Runs(s, all) && Run(s, all) == Run(Next(s, step), steps);
  }

  function StepsLeft(s: State): nat {
    if s.holder.None? || s.holder.value !in s.calls then 0
    else match s.calls[s.holder.value]
      case Derived(_, _, _) => 3
      case Pushing(_, _) => 2
      case Landed(_, _) => 1
      case _ => 0
  }

  /** The step gets a call out of the way, and nothing keeps the write after it. */
  ghost predicate Clears(s: State, step: Step) {
    && Enabled(s, step) && Ordinary(s, step)
    && var after := Next(s, step);
       && !Kept(after)
       && (|after.calls| < |s.calls| || (|after.calls| == |s.calls| && StepsLeft(after) < StepsLeft(s)))
  }

  /** The call in the lock carries nothing, so it can go on and finish. */
  lemma HolderGoesOn(s: State) returns (step: Step)
    requires Consistent(s) && !Kept(s) && !s.turn && s.holder.Some?
    ensures Clears(s, step)
  {
    var t := s.holder.value;
    assert InFlight(s, s.calls[t]) && !Carries(s, t);
    step := match s.calls[t]
      case Derived(_, _, _) => DeriveReturns(t)
      case Pushing(_, _) => Land(t)
      case Landed(_, _) => Finish(t)
      case _ => LeaveExclusive(t);
    OthersCarryNothing(s, step);
  }

  /** With the lock free, a caller that queues carries nothing and can give up. */
  lemma QueuerGivesUp(s: State) returns (step: Step)
    requires Consistent(s) && !Kept(s) && s.holder == None && s.calls != map[]
    ensures Clears(s, step)
  {
    var t :| t in s.calls;
    assert !Carries(s, t) && !s.calls[t].InLock();
    step := CancelWaiting(t);
    OthersCarryNothing(s, step);
  }

  lemma OthersCarryNothing(s: State, step: Step)
    requires !Kept(s) && Enabled(s, step)
    requires step.DeriveReturns? || step.Land? || step.Finish? || step.LeaveExclusive? || step.CancelWaiting?
    ensures var after := Next(s, step);
            forall t :: t in after.calls && t != step.task ==> !Carries(after, t)
  {
    forall t | t in s.calls ensures !Carries(s, t) {}
  }

  /** Once nothing carries the last write, some run with no further fault loses it. */
  lemma {:induction false} UnkeptIsLost(s: State)
    requires Consistent(s) && !Kept(s)
    ensures Loses(s)
    decreases |s.calls|, StepsLeft(s), s.turn
  {
    var step: Step;
    if s.turn {
      step := TurnEnds;
      assert forall t :: t in s.calls ==> (Carries(Next(s, step), t) <==> Carries(s, t));
    } else if s.holder.Some? {
      step := HolderGoesOn(s);
    } else if s.calls != map[] {
      step := QueuerGivesUp(s);
    } else {
      assert RunsOrdinarily(s, []) && Runs(s, []) && WriteLost(Run(s, []));
      return;
    }
    StepKeepsConsistent(s, step);
    hide Consistent;
    hide Carries;
    UnkeptIsLost(Next(s, step));
    LosesBefore(s, step);
  }

  /** A state is about to lose the last write exactly when nothing keeps it. */
  lemma LosesExactlyWhen(s: State)
    requires Consistent(s)
    ensures Loses(s) <==> !Kept(s)
  {
    if !Kept(s) { UnkeptIsLost(s); }
    if Loses(s) && Kept(s) {
      var steps :| RunsOrdinarily(s, steps) && Runs(s, steps) && WriteLost(Run(s, steps));
      OrdinaryRunKeepsWrites(s, steps);
      RunKeepsConsistent(s, steps);
    }
  }

  /** No point of a run is about to lose a write if and only if every step of it was harmless. */
  lemma {:induction false} KeptAlongExactlyWhen(s: State, steps: seq<Step>)
    requires Consistent(s) && Kept(s) && Runs(s, steps)
    ensures RunsHarmlessly(s, steps) <==> forall k :: 0 <= k <= |steps| ==> Runs(s, steps[..k]) && !Loses(Run(s, steps[..k]))
    decreases |steps|
  {
    hide Kept;
    hide Consistent;
    hide Harmless;
    LosesExactlyWhen(s);
    assert steps[..0] == [];
    if steps != [] {
      var next, rest := Next(s, steps[0]), steps[1..];
      StepKeepsConsistent(s, steps[0]);
      StepKeepsWritesExactlyWhen(s, steps[0]);
      LosesExactlyWhen(next);
      forall k | 0 < k <= |steps|
        ensures Runs(s, steps[..k]) == Runs(next, rest[..k - 1])
        ensures Runs(s, steps[..k]) ==> Run(s, steps[..k]) == Run(next, rest[..k - 1])
      {
        assert steps[..k][0] == steps[0] && steps[..k][1..] == rest[..k - 1];
      }
      assert steps[..1][1..] == [] && Run(next, []) == next;
      if Harmless(s, steps[0]) {
        KeptAlongExactlyWhen(next, rest);
        forall j | 0 <= j <= |rest| ensures rest[..j] == steps[..j + 1][1..] {}
      } else {
        assert Loses(Run(s, steps[..1]));
      }
    }
  }

  /** The promise, from the beginning: it holds of a run exactly when nothing was marked applied, and
      nobody cancelled in the queue, while a write hung on it. */
  lemma NoWriteIsLostExactlyWhen(steps: seq<Step>)
    requires Runs(INITIAL, steps)
    ensures RunsHarmlessly(INITIAL, steps) <==>
            forall k :: 0 <= k <= |steps| ==> Runs(INITIAL, steps[..k]) && !Loses(Run(INITIAL, steps[..k]))
  {
    KeptAlongExactlyWhen(INITIAL, steps);
  }

  /** So after a harmless run, whenever no call is in progress, the session runs the last persisted
      configuration or the change is parked. */
  lemma NoWriteIsLost(steps: seq<Step>)
    requires Runs(INITIAL, steps) && RunsHarmlessly(INITIAL, steps) && Run(INITIAL, steps).calls == map[]
    ensures Run(INITIAL, steps).running == Run(INITIAL, steps).persisted || Run(INITIAL, steps).parked
  {
    NoWriteIsLostExactlyWhen(steps);
    assert steps[..|steps|] == steps;
    RunKeepsConsistent(INITIAL, steps);
    LosesExactlyWhen(Run(INITIAL, steps));
  }

  // ---------- both faults do lose a write, and the protocol does move the session

  /** Some run leads from `s` to `after`. */
  ghost predicate Reaches(s: State, after: State) {
    exists steps :: Runs(s, steps) && Run(s, steps) == after
  }

  lemma ReachesItself(s: State)
    ensures Reaches(s, s)
  {
    assert Runs(s, []) && Run(s, []) == s;
  }

  lemma ReachesNext(s: State, mid: State, step: Step)
    requires Reaches(s, mid) && Enabled(mid, step)
    ensures Reaches(s, Next(mid, step))
  {
    var steps :| Runs(s, steps) && Run(s, steps) == mid;
    RunSnoc(s, steps, step);
  }

  lemma {:induction false} RunSnoc(s: State, steps: seq<Step>, step: Step)
    requires Runs(s, steps) && Enabled(Run(s, steps), step)
    ensures Runs(s, steps + [step]) && Run(s, steps + [step]) == Next(Run(s, steps), step)
    decreases |steps|
  {
    if steps == [] {
      assert [] + [step] == [step] && [step][1..] == [];
      assert Runs(Next(s, step), []);
    } else {
      RunSnoc(Next(s, steps[0]), steps[1..], step);
      assert (steps + [step])[1..] == steps[1..] + [step];
    }
  }

  /** An exclusive caller read the configuration; then a write was parked under a turn, which ended. */
  lemma WriteParkedBehindOwner() returns (s: State)
    ensures Reaches(INITIAL, s) && s == State(1, 0, 0, true, false, Some(0), map[0 := Owning(Some(0))])
  {
    ReachesItself(INITIAL);
    ReachesNext(INITIAL, INITIAL, EnterExclusive(0));
    var s1 := Next(INITIAL, EnterExclusive(0));
    ReachesNext(INITIAL, s1, OwnRead(0));
    var s2 := Next(s1, OwnRead(0));
    ReachesNext(INITIAL, s2, TurnStarts);
    var s3 := Next(s2, TurnStarts);
    ReachesNext(INITIAL, s3, Write(1));
    var s4 := Next(s3, Write(1));
    ReachesNext(INITIAL, s4, CallWhenIdle(1));
    var s5 := Next(s4, CallWhenIdle(1));
    ReachesNext(INITIAL, s5, TurnEnds);
    s := Next(s5, TurnEnds);
    assert s.calls == map[0 := Owning(Some(0))];
  }

  /** If it now pushes what it read and marks the configuration applied, that write is lost. */
  lemma MarkingAppliedCarelesslyLosesAWrite() returns (lost: State)
    ensures Reaches(INITIAL, lost) && WriteLost(lost)
  {
    var s := WriteParkedBehindOwner();
    ReachesNext(INITIAL, s, OwnPush(0));
    var s1 := Next(s, OwnPush(0));
    ReachesNext(INITIAL, s1, MarkApplied(0));
    var s2 := Next(s1, MarkApplied(0));
    ReachesNext(INITIAL, s2, LeaveExclusive(0));
    lost := Next(s2, LeaveExclusive(0));
  }

  /** A writer cancelled while it queues for the lock leaves its write neither running nor parked. */
  lemma CancellingAQueuedWriterLosesAWrite() returns (lost: State)
    ensures Reaches(INITIAL, lost) && WriteLost(lost)
  {
    ReachesItself(INITIAL);
    ReachesNext(INITIAL, INITIAL, Write(0));
    var s1 := Next(INITIAL, Write(0));
    ReachesNext(INITIAL, s1, CallApply(0, Apply));
    var s2 := Next(s1, CallApply(0, Apply));
    ReachesNext(INITIAL, s2, CancelWaiting(0));
    lost := Next(s2, CancelWaiting(0));
  }

  /** At a boundary a settle can bring whatever is parked to the session. */
  lemma SettleLandsWhatIsParked(s: State, t: Task)
    requires Consistent(s) && s.parked && !s.turn && s.holder == None && t !in s.calls
    ensures Reaches(s, s.(running := s.persisted, adopted := s.persisted, parked := false))
  {
    hide Reaches;
    ReachesItself(s);
    ReachesNext(s, s, CallSettle(t, Settle));
    var s1 := Next(s, CallSettle(t, Settle));
    ReachesNext(s, s1, Enter(t));
    var s2 := Next(s1, Enter(t));
    ReachesNext(s, s2, Read(t));
    var s3 := Next(s2, Read(t));
    ReachesNext(s, s3, DeriveReturns(t));
    var s4 := Next(s3, DeriveReturns(t));
    ReachesNext(s, s4, Land(t));
    var s5 := Next(s4, Land(t));
    ReachesNext(s, s5, Finish(t));
    assert Next(s5, Finish(t)).calls == s.calls;
  }

  // ---------- the object itself

  /** The object and the session it configures.  Each method is one of its code's stretches between
      awaits; the answers of `derive`, of `push` and of the turn check are those of the moment. */
  class DeferredConfiguration {
    var persisted: Version  // what `derive` reads
    var running: Version    // what `push` has brought to the session
    var adopted: Version    // what `adopt` was last given
    var parked: bool
    var turnRunning: bool
    var applying: Option<Task>
    var calls: map<Task, Call>

    function View(): State
      reads this
    {
      State(persisted, running, adopted, parked, turnRunning, applying, calls)
    }

    constructor ()
      ensures View() == INITIAL
    {
      persisted, running, adopted := 0, 0, 0;
      parked, turnRunning, applying, calls := false, false, None, map[];
    }

    method Park()
      modifies this`parked
      ensures View() == Next(old(View()), Step.Park)
    {
      parked := true;
    }

    method MarkApplied(t: Task)
      requires Enabled(View(), Step.MarkApplied(t))
      modifies this`parked
      ensures View() == Next(old(View()), Step.MarkApplied(t))
    {
      parked := false;
    }

    /** `apply_when_idle` up to its wait for the lock; an answer means it did not wait. */
    method ApplyWhenIdle(t: Task) returns (answer: Option<bool>)
      requires Enabled(View(), CallWhenIdle(t)) && applying != Some(t)
      modifies this`parked, this`calls
      ensures View() == Next(old(View()), CallWhenIdle(t))
      ensures answer == if turnRunning then Some(false) else None
      ensures turnRunning ==> parked && t !in calls
      ensures !turnRunning ==> parked == old(parked) && t in calls && calls[t].Waiting?
    {
      if turnRunning {
        parked := true;
        calls := calls - {t};
        return Some(false);
      }
      calls := calls[t := Waiting(Apply, t in calls, persisted)];
      answer := None;
    }

    method Release(t: Task)
      requires t in calls
      modifies this`applying, this`calls
      ensures View() == Leave(old(View()), t)
    {
      calls := calls - {t};
      if applying == Some(t) {
        applying := None;
      }
    }

    /** The lock is acquired: the settling forms look at the flag, then `_apply_locked` clears it
        and starts deriving. */
    method EnterLocked(t: Task) returns (answer: Option<bool>)
      requires Enabled(View(), Enter(t))
      modifies this`parked, this`applying, this`calls
      ensures View() == Next(old(View()), Enter(t))
      ensures answer == if t in calls then None else Some(false)
    {
      var call := calls[t];
      applying := Some(t);
      if !call.entrance.Unconditional() {
        if !parked || (call.entrance == Settle && turnRunning) {
          Release(t);
          return Some(false);
        }
      }
      parked := false;
      calls := calls[t := Deriving(call.entrance, call.since)];
      answer := None;
    }

    method DerivationReads(t: Task)
      requires Enabled(View(), Read(t))
      modifies this`calls
      ensures View() == Next(old(View()), Read(t))
    {
      calls := calls[t := Derived(calls[t].entrance, calls[t].since, persisted)];
    }

    /** `derive` returned: a turn that started meanwhile sends the change back to being parked. */
    method AfterDerive(t: Task) returns (answer: Option<bool>)
      requires Enabled(View(), DeriveReturns(t))
      modifies this`parked, this`applying, this`calls
      ensures View() == Next(old(View()), DeriveReturns(t))
      ensures answer == if t in calls then None else Some(false)
    {
      if calls[t].entrance.ChecksTurn() && turnRunning {
        parked := true;
        Release(t);
        return Some(false);
      }
      calls := calls[t := Pushing(calls[t].since, calls[t].version)];
      answer := None;
    }

    method PushLands(t: Task)
      requires Enabled(View(), Land(t))
      modifies this`running, this`calls
      ensures View() == Next(old(View()), Land(t))
    {
      running := calls[t].version;
      calls := calls[t := Landed(calls[t].since, running)];
    }

    /** Both exception paths park; a turn conflict answers, anything else is raised again. */
    method AfterRaise(t: Task, conflict: bool) returns (answer: Option<bool>)
      requires Enabled(View(), Raise(t))
      modifies this`parked, this`applying, this`calls
      ensures View() == Next(old(View()), Raise(t))
      ensures answer == if conflict then Some(false) else None
    {
      parked := true;
      Release(t);
      answer := if conflict then Some(false) else None;
    }

    /** `push` returned: adopt, release and answer. */
    method AfterPush(t: Task) returns (answer: bool)
      requires Enabled(View(), Finish(t)) && Consistent(View())
      modifies this`adopted, this`applying, this`calls
      ensures View() == Next(old(View()), Finish(t))
      ensures answer && running == adopted == old(calls[t].version)
    {
      adopted := calls[t].version;
      Release(t);
      answer := true;
    }
  }
}
