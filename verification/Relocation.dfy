/**
 Moving a live session between worktrees, after `_relocate` in vibe/app_server/_handler.py, the
 move itself in vibe/core/agent_loop/_loop.py, and the holder marks in
 vibe/core/git/worktree/record.py.

 Sessions relocate, fail to, are cancelled or killed, while other processes delete worktrees that
 carry no mark.  The steps between which anything else may happen are the steps of a machine; the
 question is whether a session can find itself standing in a worktree that is gone.
 */
module Relocation {
  import opened Common
  import opened Execution

  type Worktree = string
  type SessionId = string

  /** A directory, and the managed worktree it sits in, if any. */
  datatype Path = Path(root: Option<Worktree>, name: string)

  /** That a session holds a worktree.  Holds are counted. */
  datatype Mark = Mark(worktree: Worktree, session: SessionId)

  type Holds = map<Mark, nat>

  function Count(holds: Holds, m: Mark): nat { if m in holds then holds[m] else 0 }

  function Take(holds: Holds, m: Mark): Holds { holds[m := Count(holds, m) + 1] }

  function Drop(holds: Holds, m: Mark): Holds {
    if Count(holds, m) <= 1 then holds - {m} else holds[m := holds[m] - 1]
  }

  /** How far a relocation has come. */
  datatype Phase =
    | Idle
    | Deciding(target: Path)
    | Holding(target: Path)
    | Checked(target: Path)
    | Entered(previous: Path)
    | Settling(previous: Path)
    | Unwinding(target: Path)

  datatype Place = Place(cwd: Path, phase: Phase)

  datatype World = World(
    present: set<Worktree>,
    condemned: set<Worktree>,
    holds: Holds,
    sessions: map<SessionId, Place>)

  // ---------- the calls a step makes

  function Changes(a: Path, b: Path): bool { a.root != b.root }

  /** `SessionWorktrees.hold`: nothing outside a worktree, nothing when its record is gone. */
  function HoldAt(world: World, path: Path, s: SessionId): Holds {
    if path.root.Some? && path.root.value in world.present then Take(world.holds, Mark(path.root.value, s))
    else world.holds
  }

  /** `SessionWorktrees.release`. */
  function ReleaseAt(holds: Holds, path: Path, s: SessionId): Holds {
    if path.root.Some? then Drop(holds, Mark(path.root.value, s)) else holds
  }

  /** A hold counts one more and a release one fewer, never below none, and no other mark changes. */
  lemma HoldsAreCounted(holds: Holds, m: Mark, other: Mark)
    ensures Count(Take(holds, m), m) == Count(holds, m) + 1
    ensures Count(holds, m) > 0 ==> Count(Drop(holds, m), m) == Count(holds, m) - 1
    ensures Count(holds, m) == 0 ==> Count(Drop(holds, m), m) == 0
    ensures other != m ==> Count(Take(holds, m), other) == Count(Drop(holds, m), other) == Count(holds, other)
  {}

  /** A process that ends gives up its locks, and with them its marks. */
  function DropAll(holds: Holds, s: SessionId): Holds {
    map m | m in holds && m.session != s :: holds[m]
  }

  predicate Held(world: World, w: Worktree, s: SessionId) { Count(world.holds, Mark(w, s)) > 0 }

  ghost predicate Unheld(world: World, w: Worktree) { forall s :: !Held(world, w, s) }

  predicate There(world: World, path: Path) { path.root.Some? ==> path.root.value in world.present }

  // ---------- the machine

  datatype Step =
    | Raise(w: Worktree)             // a worktree is created or restored
    | Inspect(w: Worktree)           // a remover's last look at the marks
    | Remove(w: Worktree)            // and the removal
    | Open(s: SessionId, cwd: Path)
    | Close(s: SessionId)
    | Crash(s: SessionId)
    | Reserve(s: SessionId, target: Path)
    | Hold(s: SessionId)
    | Look(s: SessionId)             // the loop accepts the target
    | Refuse(s: SessionId)           // or does not, or is cancelled before moving
    | Stay(s: SessionId)             // the target is where the session stands
    | Enter(s: SessionId)            // the loop's working directory becomes the target
    | Commit(s: SessionId)
    | Fail(s: SessionId)             // re-rooting failed and was undone
    | Settle(s: SessionId)
    | Unwind(s: SessionId)
    | CancelBefore(s: SessionId)     // cancelled with the hold not taken
    | CancelHolding(s: SessionId)    // cancelled while the hold was being taken
    | CancelRelease(s: SessionId)    // cancelled before the release was made

  predicate In(world: World, s: SessionId) { s in world.sessions }

  predicate Enabled(world: World, step: Step) {
    match step
    case Raise(w) => w !in world.present
    case Inspect(_) => true
    case Remove(w) => w in world.condemned
    case Open(s, cwd) => !In(world, s) && There(world, cwd)
    case Close(s) => In(world, s) && world.sessions[s].phase.Idle?
    case Crash(s) => In(world, s)
    case Reserve(s, target) => In(world, s) && world.sessions[s].phase.Idle?
    case Hold(s) => In(world, s) && world.sessions[s].phase.Deciding?
    case Look(s) =>
      && In(world, s) && world.sessions[s].phase.Holding?
      && world.sessions[s].phase.target != world.sessions[s].cwd && There(world, world.sessions[s].phase.target)
    case Refuse(s) => In(world, s) && (world.sessions[s].phase.Holding? || world.sessions[s].phase.Checked?)
    case Stay(s) =>
      In(world, s) && world.sessions[s].phase.Holding? && world.sessions[s].phase.target == world.sessions[s].cwd
    case Enter(s) => In(world, s) && world.sessions[s].phase.Checked?
    case Commit(s) => In(world, s) && world.sessions[s].phase.Entered?
    case Fail(s) => In(world, s) && world.sessions[s].phase.Entered?
    case Settle(s) => In(world, s) && world.sessions[s].phase.Settling?
    case Unwind(s) => In(world, s) && world.sessions[s].phase.Unwinding?
    case CancelBefore(s) => In(world, s) && world.sessions[s].phase.Deciding?
    case CancelHolding(s) => In(world, s) && world.sessions[s].phase.Deciding?
    case CancelRelease(s) => In(world, s) && (world.sessions[s].phase.Settling? || world.sessions[s].phase.Unwinding?)
  }

  /** The session `s` put in `place`, with the marks as given. */
  function With(world: World, s: SessionId, place: Place, holds: Holds): World {
    world.(sessions := world.sessions[s := place], holds := holds)
  }

  function Next(world: World, step: Step): World
    requires Enabled(world, step)
  {
    match step
    case Raise(w) => world.(present := world.present + {w}, condemned := world.condemned - {w})
    case Inspect(w) => if Marked(world.holds, w) then world else world.(condemned := world.condemned + {w})
    case Remove(w) => world.(present := world.present - {w}, condemned := world.condemned - {w})
    case Open(s, cwd) => With(world, s, Place(cwd, Idle), HoldAt(world, cwd, s))
    case Close(s) =>
      world.(sessions := world.sessions - {s}, holds := ReleaseAt(world.holds, world.sessions[s].cwd, s))
    case Crash(s) => world.(sessions := world.sessions - {s}, holds := DropAll(world.holds, s))
    case Reserve(s, target) => With(world, s, world.sessions[s].(phase := Deciding(target)), world.holds)
    case Hold(s) =>
      var place := world.sessions[s];
      var target := place.phase.target;
      With(world, s, place.(phase := Holding(target)),
           if Changes(target, place.cwd) then HoldAt(world, target, s) else world.holds)
    case Look(s) =>
      With(world, s, world.sessions[s].(phase := Checked(world.sessions[s].phase.target)), world.holds)
    case Refuse(s) =>
      With(world, s, world.sessions[s].(phase := Unwinding(world.sessions[s].phase.target)), world.holds)
    case Stay(s) => With(world, s, world.sessions[s].(phase := Idle), world.holds)
    case Enter(s) =>
      With(world, s, Place(world.sessions[s].phase.target, Entered(world.sessions[s].cwd)), world.holds)
    case Commit(s) =>
      With(world, s, world.sessions[s].(phase := Settling(world.sessions[s].phase.previous)), world.holds)
    case Fail(s) =>
      With(world, s, Place(world.sessions[s].phase.previous, Unwinding(world.sessions[s].cwd)), world.holds)
    case Settle(s) =>
      var place := world.sessions[s];
      With(world, s, place.(phase := Idle),
           if Changes(place.phase.previous, place.cwd) then ReleaseAt(world.holds, place.phase.previous, s)
           else world.holds)
    case Unwind(s) =>
      var place := world.sessions[s];
      With(world, s, place.(phase := Idle),
           if Changes(place.phase.target, place.cwd) then ReleaseAt(world.holds, place.phase.target, s)
           else world.holds)
    case CancelBefore(s) => With(world, s, world.sessions[s].(phase := Idle), world.holds)
    case CancelHolding(s) =>
      var place := world.sessions[s];
      With(world, s, place.(phase := Idle),
           if Changes(place.phase.target, place.cwd) then HoldAt(world, place.phase.target, s) else world.holds)
    case CancelRelease(s) => With(world, s, world.sessions[s].(phase := Idle), world.holds)
  }

  /** Some session holds the worktree. */
  predicate Marked(holds: Holds, w: Worktree) { exists m :: m in holds && m.worktree == w && holds[m] > 0 }

  predicate Runs(world: World, steps: seq<Step>)
    decreases |steps|
  {
    steps == [] || (Enabled(world, steps[0]) && Runs(Next(world, steps[0]), steps[1..]))
  }

  function After(world: World, steps: seq<Step>): World
    requires Runs(world, steps)
    decreases |steps|
  {
    if steps == [] then world else After(Next(world, steps[0]), steps[1..])
  }

  /** A relocation can be given up wherever it waits: before it moves it is refused, once it has moved it
      may fail, and the hold and the release may each be cancelled. */
  lemma AnyMoveCanBeInterrupted(world: World, s: SessionId)
    requires In(world, s)
    ensures var phase := world.sessions[s].phase;
            && (phase.Deciding? ==> Enabled(world, CancelBefore(s)) && Enabled(world, CancelHolding(s)))
            && (phase.Holding? || phase.Checked? ==> Enabled(world, Refuse(s)))
            && (phase.Entered? ==> Enabled(world, Fail(s)))
            && (phase.Settling? || phase.Unwinding? ==> Enabled(world, CancelRelease(s)))
            && Enabled(world, Crash(s))
  {}

  /** A hold that is cancelled while it is taken leaves the session where it was with one mark too many on
      the worktree it was going to, if that is another one and has a record. */
  lemma CancelledHoldLeaks(world: World, s: SessionId, m: Mark)
    requires Enabled(world, CancelHolding(s))
    ensures var place, after := world.sessions[s], Next(world, CancelHolding(s));
            var leaks := place.phase.target.root != place.cwd.root && place.phase.target.root.Some?
                         && place.phase.target.root.value in world.present;
            && after.sessions[s] == Place(place.cwd, Idle)
            && Count(after.holds, m) == Count(world.holds, m)
                 + if leaks && m == Mark(place.phase.target.root.value, s) then 1 else 0
  {}

  /** A worktree is removed only after a look that found no mark on it, with nothing raised or removed
      there since. */
  lemma {:induction false} RemovalFollowsALook(world: World, steps: seq<Step>, w: Worktree) returns (j: nat)
    requires Runs(world, steps) && w !in world.condemned && Enabled(After(world, steps), Remove(w))
    ensures j < |steps| && steps[j] == Inspect(w)
    ensures Runs(world, steps[..j]) && !Marked(After(world, steps[..j]).holds, w)
    ensures forall k :: j < k < |steps| ==> steps[k] != Raise(w) && steps[k] != Remove(w)
    decreases |steps|
  {
    var last := |steps| - 1;
    RunSnoc(world, steps);
    if w in After(world, steps[..last]).condemned {
      j := RemovalFollowsALook(world, steps[..last], w);
      assert steps[..last][..j] == steps[..j];
    } else {
      j := last;
    }
  }

  lemma {:induction false} RunSnoc(world: World, steps: seq<Step>)
    requires steps != [] && Runs(world, steps)
    ensures var last := |steps| - 1;
            && Runs(world, steps[..last]) && Enabled(After(world, steps[..last]), steps[last])
            && After(world, steps) == Next(After(world, steps[..last]), steps[last])
    decreases |steps|
  {
    if |steps| > 1 {
      RunSnoc(Next(world, steps[0]), steps[1..]);
      assert steps[..|steps| - 1][1..] == steps[1..][..|steps| - 2];
    } else {
      assert steps[..0] == [] && steps[1..] == [];
    }
  }

  // ---------- never in a worktree that is gone

  /** What keeps one session safe: it holds where it stands, and what it is about to stand in or may
      be put back to. */
  predicate Secure(world: World, s: SessionId)
    requires In(world, s)
  {
    var place := world.sessions[s];
    && Kept(world, s, place.cwd)
    && match place.phase
       case Checked(target) => Kept(world, s, target)
       case Entered(previous) => Kept(world, s, previous)
       case Holding(target) =>
         target.root.Some? && Awaits(place, target.root.value) && target.root.value in world.present ==>
           Held(world, target.root.value, s)
       case _ => true
  }

  predicate Kept(world: World, s: SessionId, path: Path) {
    path.root.Some? ==> path.root.value in world.present && Held(world, path.root.value, s)
  }

  ghost predicate Safe(world: World) { forall s :: In(world, s) ==> Secure(world, s) }

  /** No session stands in a removed worktree. */
  ghost predicate NobodyStranded(world: World) {
    forall s :: In(world, s) ==> There(world, world.sessions[s].cwd)
  }

  /** A move into `w` has gone through its hold and not yet looked at its target. */
  predicate Awaits(place: Place, w: Worktree) {
    place.phase.Holding? && place.phase.target.root == Some(w) && Changes(place.phase.target, place.cwd)
  }

  /** The two races the marks cannot close: a removal whose last look is out of date, and a worktree
      that is raised after a move found nothing to hold there. */
  ghost predicate Timely(world: World, step: Step) {
    match step
    case Remove(w) => Unheld(world, w)
    case Raise(w) =>
      forall s :: In(world, s) && Awaits(world.sessions[s], w) ==> Held(world, w, s)
    case _ => true
  }

  /** Only a session's own steps touch its place and its marks. */
  function Actor(step: Step): Option<SessionId> {
    match step
    case Raise(_) => None
    case Inspect(_) => None
    case Remove(_) => None
    case Open(s, _) => Some(s)
    case Close(s) => Some(s)
    case Crash(s) => Some(s)
    case Reserve(s, _) => Some(s)
    case Hold(s) => Some(s)
    case Look(s) => Some(s)
    case Refuse(s) => Some(s)
    case Stay(s) => Some(s)
    case Enter(s) => Some(s)
    case Commit(s) => Some(s)
    case Fail(s) => Some(s)
    case Settle(s) => Some(s)
    case Unwind(s) => Some(s)
    case CancelBefore(s) => Some(s)
    case CancelHolding(s) => Some(s)
    case CancelRelease(s) => Some(s)
  }

  lemma OthersUntouched(world: World, step: Step, s: SessionId)
    requires Enabled(world, step) && Actor(step) != Some(s)
    ensures In(Next(world, step), s) == In(world, s)
    ensures In(world, s) ==> Next(world, step).sessions[s] == world.sessions[s]
    ensures forall w :: Count(Next(world, step).holds, Mark(w, s)) == Count(world.holds, Mark(w, s))
  {}

  /** An actor's step leaves the worktrees as they are. */
  lemma ActorsKeepWorktrees(world: World, step: Step)
    requires Enabled(world, step) && Actor(step).Some?
    ensures Next(world, step).present == world.present
  {}

  lemma OthersStaySecure(world: World, step: Step, s: SessionId)
    requires Enabled(world, step) && Timely(world, step) && Actor(step) != Some(s)
    requires In(world, s) && Secure(world, s)
    ensures In(Next(world, step), s) && Secure(Next(world, step), s)
  {
    hide Count;
    OthersUntouched(world, step, s);
    var next := Next(world, step);
    forall w ensures Held(next, w, s) == Held(world, w, s) {
      assert Count(next.holds, Mark(w, s)) == Count(world.holds, Mark(w, s));
    }
    if Actor(step).Some? {
      ActorsKeepWorktrees(world, step);
    } else if step.Remove? {
      assert !Held(world, step.w, s);
    }
  }

  lemma ActorStaysSecure(world: World, step: Step, s: SessionId)
    requires Enabled(world, step) && Actor(step) == Some(s) && (In(world, s) ==> Secure(world, s))
    ensures In(Next(world, step), s) ==> Secure(Next(world, step), s)
  {}

  /** Every step keeps every session on ground it holds. */
  lemma StepKeepsSafe(world: World, step: Step)
    requires Safe(world) && Enabled(world, step) && Timely(world, step)
    ensures Safe(Next(world, step)) && NobodyStranded(Next(world, step))
  {
    var next := Next(world, step);
    forall s | In(next, s) ensures Secure(next, s) {
      if Actor(step) == Some(s) {
        ActorStaysSecure(world, step, s);
      } else {
        OthersUntouched(world, step, s);
        OthersStaySecure(world, step, s);
      }
    }
  }

  ghost predicate TimelyRun(world: World, steps: seq<Step>)
    requires Runs(world, steps)
    decreases |steps|
  {
    steps != [] ==> Timely(world, steps[0]) && TimelyRun(Next(world, steps[0]), steps[1..])
  }

  /** In every interleaving, at every point of it, no session stands in a removed worktree. */
  lemma {:induction false} RunStrandsNobody(world: World, steps: seq<Step>, n: nat)
    requires Safe(world) && Runs(world, steps) && TimelyRun(world, steps) && n <= |steps|
    ensures Runs(world, steps[..n]) && NobodyStranded(After(world, steps[..n]))
    decreases n
  {
    if n > 0 {
      StepKeepsSafe(world, steps[0]);
      RunStrandsNobody(Next(world, steps[0]), steps[1..], n - 1);
      assert steps[..n][0] == steps[0] && steps[..n][1..] == steps[1..][..n - 1];
    }
  }

  // ---------- exactly when

  /** The session would be stranded, now or when it goes on or back, were the worktree gone. */
  predicate ReliesOn(place: Place, w: Worktree) {
    || place.cwd.root == Some(w)
    || (place.phase.Checked? && place.phase.target.root == Some(w))
    || (place.phase.Entered? && place.phase.previous.root == Some(w))
  }

  /** A removal spares a session that does not rely on the worktree; raising one spares a session
      whose move there has not just found nothing to hold. */
  predicate SparesOne(world: World, step: Step, s: SessionId)
    requires In(world, s)
  {
    match step
    case Remove(w) => !ReliesOn(world.sessions[s], w)
    case Raise(w) => Awaits(world.sessions[s], w) ==> Held(world, w, s)
    case _ => true
  }

  ghost predicate Spares(world: World, step: Step) { forall s :: In(world, s) ==> SparesOne(world, step, s) }

  /** A step keeps every session safe if and only if it spares them. */
  lemma StepKeepsSafeExactlyWhen(world: World, step: Step)
    requires Safe(world) && Enabled(world, step)
    ensures Safe(Next(world, step)) <==> Spares(world, step)
  {
    var next := Next(world, step);
    if step.Remove? || step.Raise? {
      forall s | In(world, s) ensures Secure(next, s) <==> SparesOne(world, step, s) {
        assert Secure(world, s);
      }
      assert forall s :: In(next, s) <==> In(world, s);
    } else {
      StepKeepsSafe(world, step);
    }
  }

  /** What the marks show is enough: in a safe world a timely step spares everybody. */
  lemma TimelySpares(world: World, step: Step)
    requires Safe(world) && Timely(world, step)
    ensures Spares(world, step)
  {
    if step.Remove? {
      forall s | In(world, s) ensures SparesOne(world, step, s) {
        assert Secure(world, s) && !Held(world, step.w, s);
      }
    }
  }

  /** Some timely run leaves a session in a worktree that is gone. */
  ghost predicate CanStrand(world: World) {
    exists steps :: Runs(world, steps) && TimelyRun(world, steps) && !NobodyStranded(After(world, steps))
  }

  lemma StrandedNow(world: World, s: SessionId)
    requires In(world, s) && !There(world, world.sessions[s].cwd)
    ensures CanStrand(world)
  {
    assert Runs(world, []) && TimelyRun(world, []) && After(world, []) == world;
  }

  lemma StrandsBefore(world: World, step: Step)
    requires Enabled(world, step) && Timely(world, step) && CanStrand(Next(world, step))
    ensures CanStrand(world)
  {
    var next := Next(world, step);
    var steps :| Runs(next, steps) && TimelyRun(next, steps) && !NobodyStranded(After(next, steps));
    OneStep(world, step, steps);
    assert ([step] + steps)[1..] == steps;
    assert TimelyRun(world, [step] + steps);
  }

  function MarksOn(world: World, w: Worktree): set<Mark> {
    set m | m in world.holds && m.worktree == w && world.holds[m] > 0
  }

  /** The end of a session's process takes its marks, and no other session's. */
  lemma CrashTakesMarks(world: World, other: SessionId, s: SessionId, w: Worktree)
    requires In(world, other) && In(world, s) && other != s && Mark(w, other) in MarksOn(world, w)
    ensures var next := Next(world, Crash(other));
            && In(next, s) && next.sessions[s] == world.sessions[s] && next.present == world.present
            && Held(next, w, s) == Held(world, w, s)
            && MarksOn(next, w) < MarksOn(world, w)
  {
    var next := Next(world, Crash(other));
    assert Mark(w, other) !in MarksOn(next, w);
    assert MarksOn(next, w) <= MarksOn(world, w);
  }

  /** Nothing protects a session that stands in a worktree it does not hold: once the others let go, a
      remover may take it. */
  lemma {:induction false} UnheldCanBeStranded(world: World, s: SessionId, w: Worktree)
    requires In(world, s) && world.sessions[s].cwd.root == Some(w) && !Held(world, w, s)
    ensures CanStrand(world)
    decreases MarksOn(world, w)
  {
    if w !in world.present {
      StrandedNow(world, s);
    } else if MarksOn(world, w) == {} {
      assert Unheld(world, w) by {
        forall t ensures !Held(world, w, t) { assert Mark(w, t) !in MarksOn(world, w); }
      }
      assert !Marked(world.holds, w) by {
        forall m | m in world.holds && m.worktree == w ensures world.holds[m] == 0 { assert m !in MarksOn(world, w); }
      }
      var inspected := Next(world, Inspect(w));
      StrandedNow(Next(inspected, Remove(w)), s);
      StrandsBefore(inspected, Remove(w));
      StrandsBefore(world, Inspect(w));
    } else {
      var m :| m in MarksOn(world, w);
      var other := m.session;
      assert m == Mark(w, other) && other != s;
      if In(world, other) {
        CrashTakesMarks(world, other, s, w);
        UnheldCanBeStranded(Next(world, Crash(other)), s, w);
      } else {
        var back := Open(other, Path(None, ""));
        var joined := Next(world, back);
        assert MarksOn(joined, w) == MarksOn(world, w);
        CrashTakesMarks(joined, other, s, w);
        UnheldCanBeStranded(Next(joined, Crash(other)), s, w);
        StrandsBefore(joined, Crash(other));
        StrandsBefore(world, back);
        return;
      }
      StrandsBefore(world, Crash(other));
    }
  }

  /** A session at a place it does not keep can be stranded there. */
  lemma UnkeptCanBeStranded(world: World, s: SessionId)
    requires In(world, s) && !Kept(world, s, world.sessions[s].cwd)
    ensures CanStrand(world)
  {
    if There(world, world.sessions[s].cwd) {
      UnheldCanBeStranded(world, s, world.sessions[s].cwd.root.value);
    } else {
      StrandedNow(world, s);
    }
  }

  lemma InsecureCanBeStranded(world: World, s: SessionId)
    requires In(world, s) && !Secure(world, s)
    ensures CanStrand(world)
  {
    var place := world.sessions[s];
    if !Kept(world, s, place.cwd) {
      UnkeptCanBeStranded(world, s);
    } else if place.phase.Checked? {
      UnkeptCanBeStranded(Next(world, Enter(s)), s);
      StrandsBefore(world, Enter(s));
    } else if place.phase.Entered? {
      UnkeptCanBeStranded(Next(world, Fail(s)), s);
      StrandsBefore(world, Fail(s));
    } else {
      var looked := Next(world, Look(s));
      UnkeptCanBeStranded(Next(looked, Enter(s)), s);
      StrandsBefore(looked, Enter(s));
      StrandsBefore(world, Look(s));
    }
  }

  /** The invariant is exact: a world is safe if and only if no run of sessions that relocate, fail,
      crash, and of removers that look before they remove, leaves anyone in a removed worktree. */
  lemma SafeExactlyWhen(world: World)
    ensures Safe(world) <==> !CanStrand(world)
  {
    if Safe(world) {
      forall steps | Runs(world, steps) && TimelyRun(world, steps) ensures NobodyStranded(After(world, steps)) {
        RunStrandsNobody(world, steps, |steps|);
        assert steps[..|steps|] == steps;
      }
    } else {
      var s :| In(world, s) && !Secure(world, s);
      InsecureCanBeStranded(world, s);
    }
  }

  // ---------- and the two races are real

  lemma {:induction false} AfterConcat(world: World, first: seq<Step>, second: seq<Step>)
    requires Runs(world, first) && Runs(After(world, first), second)
    ensures Runs(world, first + second) && After(world, first + second) == After(After(world, first), second)
    decreases |first|
  {
    if first == [] {
      assert first + second == second;
    } else {
      AfterConcat(Next(world, first[0]), first[1..], second);
      assert (first + second)[0] == first[0] && (first + second)[1..] == first[1..] + second;
    }
  }

  predicate Movable(world: World, s: SessionId, target: Path) {
    In(world, s) && world.sessions[s].phase.Idle? && target != world.sessions[s].cwd && target.root.Some?
    && Changes(target, world.sessions[s].cwd)
  }

  lemma Arrive(world: World, s: SessionId, cwd: Path, target: Path)
    requires In(world, s) && world.sessions[s] == Place(cwd, Holding(target)) && target != cwd && There(world, target)
    ensures Runs(world, [Look(s), Enter(s)])
    ensures After(world, [Look(s), Enter(s)]) == With(world, s, Place(target, Entered(cwd)), world.holds)
  {
    var checked := With(world, s, Place(cwd, Checked(target)), world.holds);
    WithTwice(world, s, Place(cwd, Checked(target)), Place(target, Entered(cwd)), world.holds, world.holds);
    OneStep(checked, Enter(s), []);
    OneStep(world, Look(s), [Enter(s)]);
  }

  /** A remover has taken its last look; the session moves in, holding the worktree; the remover
      removes it. */
  lemma LateRemovalStrands(world: World, s: SessionId, target: Path)
    requires Movable(world, s, target) && target.root.value in world.present && target.root.value in world.condemned
    ensures var steps := [Reserve(s, target), Hold(s)] + ([Look(s), Enter(s)] + [Remove(target.root.value)]);
            Runs(world, steps) && !NobodyStranded(After(world, steps))
  {
    var cwd := world.sessions[s].cwd;
    BeginRuns(world, s, target);
    hide HoldAt;
    var holding := With(world, s, Place(cwd, Holding(target)), HoldAt(world, target, s));
    Arrive(holding, s, cwd, target);
    var entered := With(holding, s, Place(target, Entered(cwd)), holding.holds);
    OneStep(entered, Remove(target.root.value), []);
    AfterConcat(holding, [Look(s), Enter(s)], [Remove(target.root.value)]);
    AfterConcat(world, [Reserve(s, target), Hold(s)], [Look(s), Enter(s)] + [Remove(target.root.value)]);
    var end := Next(entered, Remove(target.root.value));
    assert In(end, s) && !There(end, end.sessions[s].cwd);
  }

  /** The hold finds no record to mark, the worktree is raised, the loop finds the directory there:
      the session stands in a worktree it does not hold, and a remover takes it. */
  lemma LateRaiseStrands(world: World, s: SessionId, target: Path)
    requires Movable(world, s, target) && target.root.value !in world.present && !Marked(world.holds, target.root.value)
    ensures var w := target.root.value;
            var steps := [Reserve(s, target), Hold(s)] + ([Raise(w)] + ([Look(s), Enter(s)] + [Inspect(w), Remove(w)]));
            Runs(world, steps) && !NobodyStranded(After(world, steps))
  {
    var w, cwd := target.root.value, world.sessions[s].cwd;
    BeginRuns(world, s, target);
    assert HoldAt(world, target, s) == world.holds;
    hide HoldAt;
    hide Marked;
    var holding := With(world, s, Place(cwd, Holding(target)), world.holds);
    var raised := Next(holding, Raise(w));
    Arrive(raised, s, cwd, target);
    var entered := With(raised, s, Place(target, Entered(cwd)), world.holds);
    var inspected := Next(entered, Inspect(w));
    OneStep(inspected, Remove(w), []);
    OneStep(entered, Inspect(w), [Remove(w)]);
    AfterConcat(raised, [Look(s), Enter(s)], [Inspect(w), Remove(w)]);
    OneStep(holding, Raise(w), [Look(s), Enter(s)] + [Inspect(w), Remove(w)]);
    AfterConcat(world, [Reserve(s, target), Hold(s)], [Raise(w)] + ([Look(s), Enter(s)] + [Inspect(w), Remove(w)]));
    var end := Next(inspected, Remove(w));
    assert In(end, s) && !There(end, end.sessions[s].cwd);
  }

  lemma OneStep(world: World, step: Step, rest: seq<Step>)
    requires Enabled(world, step) && Runs(Next(world, step), rest)
    ensures Runs(world, [step] + rest) && After(world, [step] + rest) == After(Next(world, step), rest)
  {
    assert ([step] + rest)[1..] == rest;
  }

  // ---------- and no mark is left behind

  function Here(path: Path, w: Worktree): nat { if path.root == Some(w) then 1 else 0 }

  /** How many marks on `w` a session in that place has. */
  predicate Fits(place: Place, w: Worktree, n: nat) {
    match place.phase
    case Idle => n == Here(place.cwd, w)
    case Deciding(_) => n == Here(place.cwd, w)
    case Holding(target) => Between(n, place.cwd, target, w)
    case Unwinding(target) => Between(n, place.cwd, target, w)
    case Checked(target) => n == Both(place.cwd, target, w)
    case Entered(previous) => n == Both(place.cwd, previous, w)
    case Settling(previous) => n == Both(place.cwd, previous, w)
  }

  /** The session's marks are those its place calls for, and no others. */
  ghost predicate Exact(world: World, s: SessionId)
    requires In(world, s)
  {
    forall w :: Fits(world.sessions[s], w, Count(world.holds, Mark(w, s)))
  }

  function Both(a: Path, b: Path, w: Worktree): nat { if Changes(a, b) then Here(a, w) + Here(b, w) else Here(a, w) }

  predicate Between(n: nat, cwd: Path, target: Path, w: Worktree) { Here(cwd, w) <= n <= Both(cwd, target, w) }

  /** The steps in which a cancelled call leaves a mark behind. */
  predicate Leaks(step: Step) { step.CancelHolding? || step.CancelRelease? }

  ghost predicate NoMarks(holds: Holds, s: SessionId) { forall w :: Count(holds, Mark(w, s)) == 0 }

  lemma OpenIsExact(world: World, s: SessionId, cwd: Path)
    requires Enabled(world, Open(s, cwd)) && NoMarks(world.holds, s)
    ensures Exact(Next(world, Open(s, cwd)), s)
  {}

  /** Each other step of the session keeps its marks exact. */
  lemma ActorStaysExact(world: World, step: Step, s: SessionId)
    requires Enabled(world, step) && Actor(step) == Some(s) && !Leaks(step)
    requires In(world, s) && Secure(world, s) && Exact(world, s)
    ensures In(Next(world, step), s) ==> Exact(Next(world, step), s)
  {}

  /** Closing or ending the session leaves none. */
  lemma LeavingTakesAllMarks(world: World, step: Step, s: SessionId)
    requires Enabled(world, step) && step in {Close(s), Crash(s)} && Exact(world, s)
    ensures NoMarks(Next(world, step).holds, s)
  {}

  lemma StepKeepsExact(world: World, step: Step, s: SessionId)
    requires Safe(world) && Enabled(world, step) && In(world, s) && Exact(world, s)
    requires Actor(step) == Some(s) ==> !Leaks(step)
    ensures In(Next(world, step), s) ==> Exact(Next(world, step), s)
  {
    if Actor(step) == Some(s) {
      ActorStaysExact(world, step, s);
    } else {
      hide Count;
      OthersUntouched(world, step, s);
      assert forall w :: Count(Next(world, step).holds, Mark(w, s)) == Count(world.holds, Mark(w, s));
    }
  }

  predicate NeverLeaks(steps: seq<Step>, s: SessionId) {
    forall i :: 0 <= i < |steps| ==> Actor(steps[i]) != Some(s) || !(Leaks(steps[i]) || steps[i].Close? || steps[i].Crash?)
  }

  /** Whatever others do, be cancelled or leak, a session whose own releases are not cancelled holds,
      whenever it is not in the middle of a move, the worktree it stands in once and nothing else. */
  lemma {:induction false} IdleSessionHoldsWhereItStands(world: World, steps: seq<Step>, s: SessionId)
    requires Safe(world) && Runs(world, steps) && TimelyRun(world, steps)
    requires In(world, s) && Exact(world, s) && NeverLeaks(steps, s)
    ensures var end := After(world, steps);
            && In(end, s) && Exact(end, s)
            && (end.sessions[s].phase.Idle? ==>
                  forall w :: Count(end.holds, Mark(w, s)) == Here(end.sessions[s].cwd, w))
    decreases |steps|
  {
    if steps != [] {
      StepKeepsSafe(world, steps[0]);
      StepKeepsExact(world, steps[0], s);
      StaysIn(world, steps[0], s);
      IdleSessionHoldsWhereItStands(Next(world, steps[0]), steps[1..], s);
    }
  }

  lemma StaysIn(world: World, step: Step, s: SessionId)
    requires Enabled(world, step) && In(world, s) && (Actor(step) == Some(s) ==> !step.Close? && !step.Crash?)
    ensures In(Next(world, step), s)
  {}

  // ---------- the request

  /** What the move comes to: refused on merit, failed half way and undone, or made. */
  datatype Fate = Refused | Failed | Made

  datatype Outcome = Moved(cwd: Path, previous: Path) | Stayed | InvalidParams | Raised | Conflict(active: Active)

  /** The steps one undisturbed request takes. */
  function Script(world: World, s: SessionId, target: Path, fate: Fate): seq<Step>
    requires In(world, s)
  {
    [Reserve(s, target), Hold(s)] +
    if target == world.sessions[s].cwd then [Stay(s)]
    else if !There(world, target) || fate.Refused? then [Refuse(s), Unwind(s)]
    else if fate.Failed? then [Look(s), Enter(s), Fail(s), Unwind(s)]
    else [Look(s), Enter(s), Commit(s), Settle(s)]
  }

  /** The session's place and marks once the request is over. */
  function Outcomes(world: World, s: SessionId, target: Path, fate: Fate): World
    requires In(world, s)
  {
    var cwd := world.sessions[s].cwd;
    var taken := if Changes(target, cwd) then HoldAt(world, target, s) else world.holds;
    if target == cwd then world
    else if !There(world, target) || !fate.Made? then
      With(world, s, Place(cwd, Idle), if Changes(target, cwd) then ReleaseAt(taken, target, s) else taken)
    else
      With(world, s, Place(target, Idle), if Changes(target, cwd) then ReleaseAt(taken, cwd, s) else taken)
  }

  lemma WithTwice(world: World, s: SessionId, p: Place, q: Place, g: Holds, h: Holds)
    ensures With(With(world, s, p, g), s, q, h) == With(world, s, q, h)
  {
    assert world.sessions[s := p][s := q] == world.sessions[s := q];
  }

  lemma WithItself(world: World, s: SessionId)
    requires In(world, s)
    ensures With(world, s, world.sessions[s], world.holds) == world
  {
    assert world.sessions[s := world.sessions[s]] == world.sessions;
  }

  /** The script can be run, and leaves what the request is said to leave. */
  lemma ScriptRuns(world: World, s: SessionId, target: Path, fate: Fate)
    requires In(world, s) && world.sessions[s].phase.Idle?
    ensures Runs(world, Script(world, s, target, fate))
    ensures After(world, Script(world, s, target, fate)) == Outcomes(world, s, target, fate)
  {
    hide HoldAt;
    hide ReleaseAt;
    var cwd := world.sessions[s].cwd;
    var taken := if Changes(target, cwd) then HoldAt(world, target, s) else world.holds;
    var holding := With(world, s, Place(cwd, Holding(target)), taken);
    BeginRuns(world, s, target);
    if target == cwd {
      WithTwice(world, s, Place(cwd, Holding(target)), Place(cwd, Idle), taken, taken);
      WithItself(world, s);
      OneStep(holding, Stay(s), []);
    } else if !There(world, target) || fate.Refused? {
      RefusedRuns(world, s, target, taken);
    } else {
      EnteredRuns(world, s, target, taken, fate);
    }
    AfterConcat(world, [Reserve(s, target), Hold(s)], Script(world, s, target, fate)[2..]);
  }

  lemma BeginRuns(world: World, s: SessionId, target: Path)
    requires In(world, s) && world.sessions[s].phase.Idle?
    ensures var cwd := world.sessions[s].cwd;
            && Runs(world, [Reserve(s, target), Hold(s)])
            && After(world, [Reserve(s, target), Hold(s)]) ==
               With(world, s, Place(cwd, Holding(target)), if Changes(target, cwd) then HoldAt(world, target, s) else world.holds)
  {
    hide HoldAt;
    var cwd := world.sessions[s].cwd;
    var taken := if Changes(target, cwd) then HoldAt(world, target, s) else world.holds;
    var deciding := With(world, s, Place(cwd, Deciding(target)), world.holds);
    HoldReadsNoSessions(world, s, Place(cwd, Deciding(target)), target);
    WithTwice(world, s, Place(cwd, Deciding(target)), Place(cwd, Holding(target)), world.holds, taken);
    OneStep(deciding, Hold(s), []);
    OneStep(world, Reserve(s, target), [Hold(s)]);
  }

  lemma HoldReadsNoSessions(world: World, s: SessionId, place: Place, path: Path)
    ensures HoldAt(With(world, s, place, world.holds), path, s) == HoldAt(world, path, s)
  {}

  lemma RefusedRuns(world: World, s: SessionId, target: Path, taken: Holds)
    requires In(world, s) && target != world.sessions[s].cwd
    ensures var cwd := world.sessions[s].cwd;
            var holding := With(world, s, Place(cwd, Holding(target)), taken);
            && Runs(holding, [Refuse(s), Unwind(s)])
            && After(holding, [Refuse(s), Unwind(s)]) ==
               With(world, s, Place(cwd, Idle), if Changes(target, cwd) then ReleaseAt(taken, target, s) else taken)
  {
    hide ReleaseAt;
    var cwd := world.sessions[s].cwd;
    var holding := With(world, s, Place(cwd, Holding(target)), taken);
    var unwinding := With(world, s, Place(cwd, Unwinding(target)), taken);
    var left := if Changes(target, cwd) then ReleaseAt(taken, target, s) else taken;
    WithTwice(world, s, Place(cwd, Holding(target)), Place(cwd, Unwinding(target)), taken, taken);
    WithTwice(world, s, Place(cwd, Unwinding(target)), Place(cwd, Idle), taken, left);
    OneStep(unwinding, Unwind(s), []);
    OneStep(holding, Refuse(s), [Unwind(s)]);
  }

  lemma EnteredRuns(world: World, s: SessionId, target: Path, taken: Holds, fate: Fate)
    requires In(world, s) && target != world.sessions[s].cwd && There(world, target) && !fate.Refused?
    ensures var cwd := world.sessions[s].cwd;
            var holding := With(world, s, Place(cwd, Holding(target)), taken);
            var steps := [Look(s), Enter(s)] + if fate.Failed? then [Fail(s), Unwind(s)] else [Commit(s), Settle(s)];
            && Runs(holding, steps)
            && After(holding, steps) ==
               (if fate.Failed? then
                  With(world, s, Place(cwd, Idle), if Changes(target, cwd) then ReleaseAt(taken, target, s) else taken)
                else With(world, s, Place(target, Idle), if Changes(target, cwd) then ReleaseAt(taken, cwd, s) else taken))
  {
    hide ReleaseAt;
    var cwd := world.sessions[s].cwd;
    var holding := With(world, s, Place(cwd, Holding(target)), taken);
    var entered := With(world, s, Place(target, Entered(cwd)), taken);
    Arrive(holding, s, cwd, target);
    WithTwice(world, s, Place(cwd, Holding(target)), Place(target, Entered(cwd)), taken, taken);
    if fate.Failed? {
      FailedRuns(world, s, cwd, target, taken);
      AfterConcat(holding, [Look(s), Enter(s)], [Fail(s), Unwind(s)]);
    } else {
      CommittedRuns(world, s, cwd, target, taken);
      AfterConcat(holding, [Look(s), Enter(s)], [Commit(s), Settle(s)]);
    }
  }

  lemma FailedRuns(world: World, s: SessionId, cwd: Path, target: Path, taken: Holds)
    ensures var entered := With(world, s, Place(target, Entered(cwd)), taken);
            && Runs(entered, [Fail(s), Unwind(s)])
            && After(entered, [Fail(s), Unwind(s)]) ==
               With(world, s, Place(cwd, Idle), if Changes(target, cwd) then ReleaseAt(taken, target, s) else taken)
  {
    hide ReleaseAt;
    var entered, unwinding := With(world, s, Place(target, Entered(cwd)), taken), With(world, s, Place(cwd, Unwinding(target)), taken);
    var left := if Changes(target, cwd) then ReleaseAt(taken, target, s) else taken;
    WithTwice(world, s, Place(target, Entered(cwd)), Place(cwd, Unwinding(target)), taken, taken);
    WithTwice(world, s, Place(cwd, Unwinding(target)), Place(cwd, Idle), taken, left);
    OneStep(unwinding, Unwind(s), []);
    OneStep(entered, Fail(s), [Unwind(s)]);
  }

  lemma CommittedRuns(world: World, s: SessionId, cwd: Path, target: Path, taken: Holds)
    ensures var entered := With(world, s, Place(target, Entered(cwd)), taken);
            && Runs(entered, [Commit(s), Settle(s)])
            && After(entered, [Commit(s), Settle(s)]) ==
               With(world, s, Place(target, Idle), if Changes(target, cwd) then ReleaseAt(taken, cwd, s) else taken)
  {
    hide ReleaseAt;
    var entered, settling := With(world, s, Place(target, Entered(cwd)), taken), With(world, s, Place(target, Settling(cwd)), taken);
    var left := if Changes(target, cwd) then ReleaseAt(taken, cwd, s) else taken;
    WithTwice(world, s, Place(target, Entered(cwd)), Place(target, Settling(cwd)), taken, taken);
    WithTwice(world, s, Place(target, Settling(cwd)), Place(target, Idle), taken, left);
    OneStep(settling, Settle(s), []);
    OneStep(entered, Commit(s), [Settle(s)]);
  }

  class SessionHandler {
    const session: SessionId
    const execution: SessionExecution
    /** The marks and worktrees every process sees, and where each loop stands. */
    var world: World

    ghost predicate Valid()
      reads this, execution
    {
      In(world, session) && (world.sessions[session].phase.Idle? <==> execution.active.None?)
    }

    constructor (session: SessionId, world: World, execution: SessionExecution)
      requires In(world, session) && (world.sessions[session].phase.Idle? <==> execution.active.None?)
      ensures Valid() && this.session == session && this.world == world && this.execution == execution
    {
      this.session := session;
      this.world := world;
      this.execution := execution;
    }

    /** One whole relocation: what it leaves is what its steps make of the world. */
    method Relocate(target: Path, fate: Fate) returns (outcome: Outcome)
      requires Valid()
      modifies this, execution
      ensures Valid()
      ensures old(execution.active).Some? ==>
                outcome == Conflict(old(execution.active).value) && world == old(world)
                && execution.active == old(execution.active)
      ensures old(execution.active).None? ==>
                && execution.active.None?
                && Runs(old(world), Script(old(world), session, target, fate))
                && world == After(old(world), Script(old(world), session, target, fate))
                && outcome == Verdict(old(world), session, target, fate)
      ensures outcome.Moved? ==>
                && outcome.cwd == target == world.sessions[session].cwd
                && outcome.previous == old(world).sessions[session].cwd != target && There(old(world), target)
      ensures !outcome.Moved? ==> world.sessions[session].cwd == old(world).sessions[session].cwd
      ensures old(execution.active).None? ==>
                && (outcome == Stayed <==> target == old(world).sessions[session].cwd)
                && (outcome == InvalidParams <==>
                      target != old(world).sessions[session].cwd && (!There(old(world), target) || fate.Refused?))
                && (outcome == Raised <==>
                      target != old(world).sessions[session].cwd && There(old(world), target) && fate.Failed?)
      ensures world.present == old(world).present
      ensures forall s :: In(world, s) <==> In(old(world), s)
      ensures forall s :: In(world, s) && In(old(world), s) && s != session ==> world.sessions[s] == old(world).sessions[s]
    {
      var reserved := execution.Begin(Lifecycle, "relocate");
      if reserved.Err? { return Conflict(reserved.error); }
      ghost var before := world;
      var place := world.sessions[session];
      var previous := place.cwd;
      var changes := Changes(target, previous);
      var holds := if changes then HoldAt(world, target, session) else world.holds;
      if target == previous {
        outcome := Stayed;
      } else if !There(world, target) || fate.Refused? {
        holds := if changes then ReleaseAt(holds, target, session) else holds;
        outcome := InvalidParams;
      } else if fate.Failed? {
        holds := if changes then ReleaseAt(holds, target, session) else holds;
        outcome := Raised;
      } else {
        place := place.(cwd := target);
        holds := if changes then ReleaseAt(holds, previous, session) else holds;
        outcome := Moved(target, previous);
      }
      world := With(world, session, place, holds);
      execution.Finish(reserved.value);
      ScriptRuns(before, session, target, fate);
      WithItself(before, session);
    }
  }

  function Verdict(world: World, s: SessionId, target: Path, fate: Fate): Outcome
    requires In(world, s)
  {
    if target == world.sessions[s].cwd then Stayed
    else if !There(world, target) || fate.Refused? then InvalidParams
    else if fate.Failed? then Raised
    else Moved(target, world.sessions[s].cwd)
  }
}
