/**
 Bindings that get in each other's way, after `_bind_owned`, `_bind` and `_install_fingerprint` of
 vibe/app_server/_mcp_auth.py.

 A binding moves its owner's catalog to the end, looks up who else binds which name, and then
 goes through its names one at a time, waiting wherever a changed name's lock is held.  So others
 can bind between its beginning and any of its names, and between one name and the next.  The
 bindings of McpAuthCatalogs are those nobody interrupts.
 */
module McpAuthInterleaving {
  import opened Common
  import opened McpAuthProtocol
  import opened McpAuthCatalogs

  /** A binding under way: the servers it binds, the survivors it looked up when it began, and the
      names it has yet to install or drop. */
  datatype Progress = Progress(kind: Kind, active: map<Name, Server>, survivors: map<Name, Server>, left: set<Name>)

  /** The bindings, what is under way, and the binding that is not waiting, if any.  An owner binds
      one catalog at a time. */
  datatype Office = Office(bindings: Bindings, tasks: map<Owner, Progress>, busy: Option<Owner>)

  const CLOSED := Office(NO_BINDINGS, map[], None)

  datatype Move =
    | Begin(kind: Kind, owner: Owner, servers: seq<Server>)
    | Treat(owner: Owner, name: Name)  // install a bound name, or drop one no longer bound
    | End(owner: Owner)

  function Said<V>(m: map<Name, V>, n: Name, v: Option<V>): map<Name, V> {
    if v.Some? then m[n := v.value] else m - {n}
  }

  /** The owner's own dictionary changes in place, wherever its catalog stands. */
  function Put(catalogs: Catalogs, key: Owner, n: Name, server: Option<Server>): Catalogs {
    if catalogs == [] then []
    else
      var c := catalogs[0];
      [if c.owner == key then Catalog(key, Said(c.servers, n, server)) else c] + Put(catalogs[1..], key, n, server)
  }

  /** The names a binding installs or drops. */
  function Names(b: Bindings, kind: Kind, key: Owner, servers: seq<Server>): set<Name> {
    ByName(servers).Keys + Owned(b.Of(kind), key).Keys
  }

  predicate Pending(o: Office, key: Owner, n: Name) { key in o.tasks && n in o.tasks[key].left }

  predicate Enabled(o: Office, move: Move) {
    match move
    case Begin(kind, key, _) => o.busy.None? && key !in o.tasks && !Binds(o.bindings.Of(kind.Other()), key)
    case Treat(key, n) =>
      && (o.busy.None? || o.busy == Some(key)) && Pending(o, key, n)
      && (n in o.tasks[key].active || o.tasks[key].left !! o.tasks[key].active.Keys)
    case End(key) => (o.busy.None? || o.busy == Some(key)) && key in o.tasks && o.tasks[key].left == {}
  }

  function Begun(b: Bindings, kind: Kind, key: Owner, servers: seq<Server>): Progress {
    var names := Names(b, kind, key, servers);
    Progress(kind, ByName(servers),
             map n | n in names && b.Survivor(key, n).Some? :: b.Survivor(key, n).value, names)
  }

  /** Whose fingerprint a treated name gets. */
  function Heir(p: Progress, n: Name): Option<Server> {
    if n in p.active then Some(p.active[n]) else Lookup(p.survivors, n)
  }

  function FingerprintOfHeir(p: Progress, n: Name): Option<Fingerprint> {
    if Heir(p, n).Some? then Some(Heir(p, n).value.Fingerprint()) else None
  }

  /** What the owner's catalog says of a name once it is treated, and the fingerprint that leaves. */
  function Treated(b: Bindings, key: Owner, p: Progress, n: Name): Bindings {
    var moved := Put(b.Of(p.kind), key, n, Lookup(p.active, n));
    var fingerprints := Said(b.fingerprints, n, FingerprintOfHeir(p, n));
    if p.kind == Config then Bindings(moved, b.plugin, fingerprints) else Bindings(b.config, moved, fingerprints)
  }

  /** Only a fingerprint that replaces another one takes the name's lock, and may have to wait. */
  predicate Replaces(b: Bindings, p: Progress, n: Name) {
    Lookup(b.fingerprints, n).Some? && Heir(p, n).Some? && Lookup(b.fingerprints, n) != FingerprintOfHeir(p, n)
  }

  function Next(o: Office, move: Move): Office
    requires Enabled(o, move)
  {
    match move
    case Begin(kind, key, servers) =>
      Office(o.bindings.Rebound(kind, key, Owned(o.bindings.Of(kind), key)),
             o.tasks[key := Begun(o.bindings, kind, key, servers)], Some(key))
    case Treat(key, n) =>
      var p := o.tasks[key];
      Office(Treated(o.bindings, key, p, n), o.tasks[key := p.(left := p.left - {n})],
             if Replaces(o.bindings, p, n) then None else Some(key))
    case End(key) => o.(tasks := o.tasks - {key}, busy := None)
  }

  predicate Runs(o: Office, moves: seq<Move>)
    decreases |moves|
  {
    moves == [] || (Enabled(o, moves[0]) && Runs(Next(o, moves[0]), moves[1..]))
  }

  function Run(o: Office, moves: seq<Move>): Office
    requires Runs(o, moves)
    decreases |moves|
  {
    if moves == [] then o else Run(Next(o, moves[0]), moves[1..])
  }

  // ---------- where catalogs stand

  /** The catalogs bound after the owner's. */
  function Behind(catalogs: Catalogs, key: Owner): Catalogs {
    if catalogs == [] then [] else if catalogs[0].owner == key then catalogs[1..] else Behind(catalogs[1..], key)
  }

  lemma {:induction false} PutKeepsOwners(catalogs: Catalogs, key: Owner, n: Name, server: Option<Server>)
    ensures |Put(catalogs, key, n, server)| == |catalogs|
    ensures forall i :: 0 <= i < |catalogs| ==> Put(catalogs, key, n, server)[i].owner == catalogs[i].owner
    ensures forall o :: Binds(Put(catalogs, key, n, server), o) <==> Binds(catalogs, o)
  {
    if catalogs != [] { PutKeepsOwners(catalogs[1..], key, n, server); }
  }

  /** A name the owner adds shows unless a later catalog has it; one it drops is as if the owner
      were not there. */
  lemma {:induction false} PutDecides(catalogs: Catalogs, key: Owner, n: Name, server: Option<Server>)
    requires DistinctOwners(catalogs) && Binds(catalogs, key)
    ensures Meaning(Put(catalogs, key, n, server), n) ==
            if server.None? then Meaning(Without(catalogs, key), n)
            else if Meaning(Behind(catalogs, key), n).Some? then Meaning(Behind(catalogs, key), n)
            else server
  {
    var rest, all := catalogs[1..], Put(catalogs, key, n, server);
    assert all[1..] == Put(rest, key, n, server);
    BindsCons(catalogs, key);
    if catalogs[0].owner == key {
      assert !Binds(rest, key);
      NotOwned(rest, key);
      PutElsewhere(rest, key, n, server, n);
    } else {
      PutDecides(rest, key, n, server);
      assert ([catalogs[0]] + Without(rest, key))[1..] == Without(rest, key);
    }
  }

  /** Putting a name changes what no other name means, and nothing for an owner who binds nothing. */
  lemma {:induction false} PutElsewhere(catalogs: Catalogs, key: Owner, m: Name, server: Option<Server>, n: Name)
    requires m != n || !Binds(catalogs, key)
    ensures Meaning(Put(catalogs, key, m, server), n) == Meaning(catalogs, n)
  {
    if catalogs != [] {
      BindsCons(catalogs, key);
      PutElsewhere(catalogs[1..], key, m, server, n);
      assert Put(catalogs, key, m, server)[1..] == Put(catalogs[1..], key, m, server);
    }
  }

  /** Moving a catalog that does not have the name changes nothing for it. */
  lemma MoveElsewhere(catalogs: Catalogs, key: Owner, n: Name)
    requires DistinctOwners(catalogs) && n !in Owned(catalogs, key)
    ensures Meaning(Without(catalogs, key) + [Catalog(key, Owned(catalogs, key))], n) == Meaning(catalogs, n)
  {
    MeaningSnoc(Without(catalogs, key), Catalog(key, Owned(catalogs, key)), n);
    WithoutKeepsMeaning(catalogs, key, n);
  }

  // ---------- the owners keep their places

  predicate Placed(o: Office) {
    && WellFormed(o.bindings)
    && forall key :: key in o.tasks ==> Binds(o.bindings.Of(o.tasks[key].kind), key)
  }

  lemma TreatedKeepsOwners(b: Bindings, key: Owner, p: Progress, n: Name)
    requires WellFormed(b)
    ensures WellFormed(Treated(b, key, p, n))
    ensures forall k, o :: Binds(Treated(b, key, p, n).Of(k), o) <==> Binds(b.Of(k), o)
  {
    PutKeepsOwners(b.Of(p.kind), key, n, Lookup(p.active, n));
  }

  lemma MoveKeepsPlaced(o: Office, move: Move)
    requires Placed(o) && Enabled(o, move)
    ensures Placed(Next(o, move))
  {
    hide WellFormed;
    match move
    case Begin(kind, key, _) => ReboundKeepsWellFormed(o.bindings, kind, key, Owned(o.bindings.Of(kind), key));
    case Treat(key, n) => TreatedKeepsOwners(o.bindings, key, o.tasks[key], n);
    case End(_) =>
  }

  lemma {:induction false} RunKeepsPlaced(o: Office, moves: seq<Move>)
    requires Placed(o) && Runs(o, moves)
    ensures Placed(Run(o, moves))
    decreases |moves|
  {
    if moves != [] {
      MoveKeepsPlaced(o, moves[0]);
      RunKeepsPlaced(Next(o, moves[0]), moves[1..]);
    }
  }

  // ---------- the last one to treat a name decides

  /** A binding begins that installs or drops the name, or a binding does either. */
  predicate Touches(o: Office, move: Move, n: Name) {
    match move
    case Begin(kind, key, servers) => n in Names(o.bindings, kind, key, servers)
    case Treat(_, m) => m == n
    case End(_) => false
  }

  predicate LeavesAlone(o: Office, moves: seq<Move>, n: Name)
    requires Runs(o, moves)
    decreases |moves|
  {
    moves == [] || (!Touches(o, moves[0], n) && LeavesAlone(Next(o, moves[0]), moves[1..], n))
  }

  /** What the binding is about to leave under the name answers to one of the views: the installed
      server is not overridden by one bound since, or that is the very same server; the survivor
      looked up when the binding began still answers, and where there was none there is none. */
  predicate UpToDate(o: Office, key: Owner, n: Name)
    requires Pending(o, key, n)
  {
    var p := o.tasks[key];
    var own, other := o.bindings.Of(p.kind), o.bindings.Of(p.kind.Other());
    if n in p.active then
      var since := Meaning(Behind(own, key), n);
      since.None? || since == Some(p.active[n]) || Meaning(other, n) == Some(p.active[n])
    else
      var rest, across := Meaning(Without(own, key), n), Meaning(other, n);
      if n in p.survivors then rest == Some(p.survivors[n]) || across == Some(p.survivors[n])
      else rest.None? && across.None?
  }

  /** What a treated name means, and the fingerprint under it. */
  lemma TreatLeaves(o: Office, key: Owner, n: Name)
    requires Placed(o) && Enabled(o, Treat(key, n))
    ensures var p, after := o.tasks[key], Next(o, Treat(key, n)).bindings;
            var own, since := o.bindings.Of(p.kind), Meaning(Behind(o.bindings.Of(p.kind), key), n);
            && after.View(p.kind, n) == (if n !in p.active then Meaning(Without(own, key), n)
                                         else if since.Some? then since else Some(p.active[n]))
            && after.View(p.kind.Other(), n) == o.bindings.View(p.kind.Other(), n)
            && Lookup(after.fingerprints, n) == FingerprintOfHeir(p, n)
  {
    PutDecides(o.bindings.Of(o.tasks[key].kind), key, n, Lookup(o.tasks[key].active, n));
  }

  lemma TreatSettlesExactlyWhen(o: Office, key: Owner, n: Name)
    requires Placed(o) && Enabled(o, Treat(key, n))
    ensures ConsistentAt(Next(o, Treat(key, n)).bindings, n) <==> UpToDate(o, key, n)
  {
    TreatLeaves(o, key, n);
    hide Next;
    hide Put;
    hide Behind;
    hide Without;
    hide Meaning;
    hide WellFormed;
    hide Binds;
  }

  /** A move that does not touch the name leaves its fingerprint and what it means. */
  lemma OtherMovesKeepTheName(o: Office, move: Move, n: Name)
    requires Placed(o) && Enabled(o, move) && !Touches(o, move, n)
    ensures var after := Next(o, move).bindings;
            && Lookup(after.fingerprints, n) == Lookup(o.bindings.fingerprints, n)
            && forall kind :: after.View(kind, n) == o.bindings.View(kind, n)
  {
    match move
    case Begin(kind, key, _) => MoveElsewhere(o.bindings.Of(kind), key, n);
    case Treat(key, m) =>
      var p := o.tasks[key];
      PutElsewhere(o.bindings.Of(p.kind), key, m, Lookup(p.active, m), n);
    case End(_) =>
  }

  lemma {:induction false} LeftAloneStays(o: Office, moves: seq<Move>, n: Name)
    requires Placed(o) && Runs(o, moves) && LeavesAlone(o, moves, n)
    ensures ConsistentAt(Run(o, moves).bindings, n) <==> ConsistentAt(o.bindings, n)
    decreases |moves|
  {
    if moves != [] {
      OtherMovesKeepTheName(o, moves[0], n);
      MoveKeepsPlaced(o, moves[0]);
      LeftAloneStays(Next(o, moves[0]), moves[1..], n);
    }
  }

  /** However bindings interleave, a name's fingerprint follows the views if and only if the last
      binding to treat the name was up to date when it did. */
  lemma FollowsViewsExactlyWhen(before: seq<Move>, key: Owner, n: Name, after: seq<Move>)
    requires Runs(CLOSED, before) && Enabled(Run(CLOSED, before), Treat(key, n))
    requires Runs(Next(Run(CLOSED, before), Treat(key, n)), after)
    requires LeavesAlone(Next(Run(CLOSED, before), Treat(key, n)), after, n)
    ensures ConsistentAt(Run(Next(Run(CLOSED, before), Treat(key, n)), after).bindings, n) <==>
            UpToDate(Run(CLOSED, before), key, n)
  {
    var o := Run(CLOSED, before);
    RunKeepsPlaced(CLOSED, before);
    TreatSettlesExactlyWhen(o, key, n);
    MoveKeepsPlaced(o, Treat(key, n));
    LeftAloneStays(Next(o, Treat(key, n)), after, n);
  }

  // ---------- bindings that stay apart at a name

  /** No binding that concerns the name begins while another has it yet to treat. */
  ghost predicate ApartAt(o: Office, moves: seq<Move>, n: Name)
    requires Runs(o, moves)
    decreases |moves|
  {
    moves == []
    || ((moves[0].Begin? && Touches(o, moves[0], n) ==> forall key :: !Pending(o, key, n))
        && ApartAt(Next(o, moves[0]), moves[1..], n))
  }

  /** What a binding looked up still holds, and no catalog bound since has the name. */
  ghost predicate Fresh(o: Office, key: Owner, n: Name)
    requires key in o.tasks
  {
    var p := o.tasks[key];
    Meaning(Behind(o.bindings.Of(p.kind), key), n).None? && Lookup(p.survivors, n) == o.bindings.Survivor(key, n)
  }

  /** Nobody has the name to treat, and its fingerprint follows the views; or one binding has, and
      its lookups are fresh. */
  ghost predicate Orderly(o: Office, n: Name) {
    && (forall a, b :: Pending(o, a, n) && Pending(o, b, n) ==> a == b)
    && (forall key :: Pending(o, key, n) ==> Fresh(o, key, n))
    && ((forall key :: !Pending(o, key, n)) ==> ConsistentAt(o.bindings, n))
  }

  lemma FreshIsUpToDate(o: Office, key: Owner, n: Name)
    requires Placed(o) && Pending(o, key, n) && Fresh(o, key, n)
    ensures UpToDate(o, key, n)
  {
    NotOwned(o.bindings.Of(o.tasks[key].kind.Other()), key);
  }

  lemma {:induction false} WithoutTwice(catalogs: Catalogs, a: Owner, b: Owner)
    ensures Without(Without(catalogs, a), b) == Without(Without(catalogs, b), a)
    ensures a != b ==> Owned(Without(catalogs, b), a) == Owned(catalogs, a)
  {
    if catalogs != [] { WithoutTwice(catalogs[1..], a, b); }
  }

  lemma {:induction false} NothingWithout(catalogs: Catalogs, key: Owner, n: Name)
    requires Meaning(catalogs, n).None?
    ensures Meaning(Without(catalogs, key), n).None?
  {
    if catalogs != [] { NothingWithout(catalogs[1..], key, n); }
  }

  lemma {:induction false} PutBehind(catalogs: Catalogs, actor: Owner, m: Name, server: Option<Server>, key: Owner, n: Name)
    requires m != n
    ensures Meaning(Behind(Put(catalogs, actor, m, server), key), n) == Meaning(Behind(catalogs, key), n)
    ensures Meaning(Without(Put(catalogs, actor, m, server), key), n) == Meaning(Without(catalogs, key), n)
  {
    if catalogs != [] {
      var rest, all := catalogs[1..], Put(catalogs, actor, m, server);
      assert all[1..] == Put(rest, actor, m, server);
      PutBehind(rest, actor, m, server, key, n);
      PutElsewhere(rest, actor, m, server, n);
      if catalogs[0].owner != key {
        assert Without(all, key)[1..] == Without(all[1..], key);
        assert Without(catalogs, key)[1..] == Without(rest, key);
      }
    }
  }

  /** Another owner moving a catalog without the name to the end. */
  lemma {:induction false} MoveBehind(catalogs: Catalogs, actor: Catalog, key: Owner, n: Name)
    requires actor.owner != key && n !in actor.servers && Binds(catalogs, key) && Meaning(Behind(catalogs, key), n).None?
    ensures Meaning(Behind(Without(catalogs, actor.owner) + [actor], key), n).None?
  {
    var rest, kept := catalogs[1..], Without(catalogs, actor.owner);
    BindsCons(catalogs, key);
    if catalogs[0].owner == key {
      var moved := Without(rest, actor.owner) + [actor];
      assert (kept + [actor])[1..] == moved;
      NothingWithout(rest, actor.owner, n);
      MeaningSnoc(Without(rest, actor.owner), actor, n);
    } else {
      MoveBehind(rest, actor, key, n);
      if catalogs[0].owner != actor.owner {
        assert (kept + [actor])[1..] == Without(rest, actor.owner) + [actor];
      }
    }
  }

  lemma MoveKeepsSurvivor(b: Bindings, kind: Kind, actor: Owner, key: Owner, n: Name)
    requires WellFormed(b) && (actor == key || n !in Owned(b.Of(kind), actor))
    ensures b.Rebound(kind, actor, Owned(b.Of(kind), actor)).Survivor(key, n) == b.Survivor(key, n)
  {
    var catalogs, moved := b.Of(kind), Catalog(actor, Owned(b.Of(kind), actor));
    WithoutSnoc(Without(catalogs, actor), moved, key);
    WithoutTwice(catalogs, actor, key);
    WithoutIsTheRest(catalogs, key);
    if actor == key {
      NotOwned(Without(catalogs, key), key);
      assert Without(catalogs, key) + [] == Without(catalogs, key);
    } else {
      MeaningSnoc(Without(Without(catalogs, actor), key), moved, n);
      WithoutKeepsMeaning(Without(catalogs, key), actor, n);
    }
  }

  lemma {:induction false} BehindLast(catalogs: Catalogs, c: Catalog)
    requires !Binds(catalogs, c.owner)
    ensures Behind(catalogs + [c], c.owner) == []
  {
    if catalogs != [] {
      BindsCons(catalogs, c.owner);
      assert (catalogs + [c])[1..] == catalogs[1..] + [c];
      BehindLast(catalogs[1..], c);
    }
  }

  /** A binding's own beginning is fresh. */
  lemma BegunIsFresh(o: Office, kind: Kind, key: Owner, servers: seq<Server>, n: Name)
    requires Placed(o) && Enabled(o, Begin(kind, key, servers)) && n in Names(o.bindings, kind, key, servers)
    ensures Fresh(Next(o, Begin(kind, key, servers)), key, n)
  {
    WithoutIsTheRest(o.bindings.Of(kind), key);
    BehindLast(Without(o.bindings.Of(kind), key), Catalog(key, Owned(o.bindings.Of(kind), key)));
    MoveKeepsSurvivor(o.bindings, kind, key, key, n);
  }

  lemma OtherMovesKeepFresh(o: Office, move: Move, key: Owner, n: Name)
    requires Placed(o) && Enabled(o, move) && !Touches(o, move, n) && Pending(o, key, n) && Fresh(o, key, n)
    ensures Pending(Next(o, move), key, n) && Fresh(Next(o, move), key, n)
  {
    var own := o.bindings.Of(o.tasks[key].kind);
    match move
    case Begin(kind, actor, _) =>
      MoveKeepsSurvivor(o.bindings, kind, actor, key, n);
      if kind == o.tasks[key].kind { MoveBehind(own, Catalog(actor, Owned(own, actor)), key, n); }
    case Treat(actor, m) =>
      var p := o.tasks[actor];
      PutBehind(o.bindings.Of(p.kind), actor, m, Lookup(p.active, m), key, n);
    case End(_) =>
  }

  lemma BeginKeepsOrderly(o: Office, kind: Kind, key: Owner, servers: seq<Server>, n: Name)
    requires Placed(o) && Enabled(o, Begin(kind, key, servers)) && n in Names(o.bindings, kind, key, servers)
    requires forall other :: !Pending(o, other, n)
    ensures Orderly(Next(o, Begin(kind, key, servers)), n)
  {
    var after := Next(o, Begin(kind, key, servers));
    BegunIsFresh(o, kind, key, servers, n);
    hide Fresh;
    forall other ensures Pending(after, other, n) <==> other == key {
      assert !Pending(o, other, n);
    }
    assert Pending(after, key, n);
  }

  lemma TreatKeepsOrderly(o: Office, key: Owner, n: Name)
    requires Placed(o) && Enabled(o, Treat(key, n)) && Orderly(o, n)
    ensures Orderly(Next(o, Treat(key, n)), n)
  {
    FreshIsUpToDate(o, key, n);
    TreatSettlesExactlyWhen(o, key, n);
    hide Fresh;
    assert forall other :: Pending(Next(o, Treat(key, n)), other, n) <==> Pending(o, other, n) && other != key;
  }

  lemma MoveKeepsOrderly(o: Office, move: Move, n: Name)
    requires Placed(o) && Enabled(o, move) && Orderly(o, n)
    requires move.Begin? && Touches(o, move, n) ==> forall key :: !Pending(o, key, n)
    ensures Orderly(Next(o, move), n)
  {
    var after := Next(o, move);
    if Touches(o, move, n) {
      if move.Begin? {
        BeginKeepsOrderly(o, move.kind, move.owner, move.servers, n);
      } else {
        TreatKeepsOrderly(o, move.owner, n);
      }
    } else {
      OtherMovesKeepTheName(o, move, n);
      forall key | Pending(after, key, n) ensures Pending(o, key, n) && Fresh(after, key, n) {
        OtherMovesKeepFresh(o, move, key, n);
      }
      forall key | Pending(o, key, n) ensures Pending(after, key, n) {
        OtherMovesKeepFresh(o, move, key, n);
      }
    }
  }

  lemma {:induction false} RunKeepsOrderly(o: Office, moves: seq<Move>, n: Name)
    requires Placed(o) && Runs(o, moves) && Orderly(o, n) && ApartAt(o, moves, n)
    ensures Orderly(Run(o, moves), n)
    decreases |moves|
  {
    if moves != [] {
      MoveKeepsPlaced(o, moves[0]);
      MoveKeepsOrderly(o, moves[0], n);
      RunKeepsOrderly(Next(o, moves[0]), moves[1..], n);
    }
  }

  /** Bindings that interleave, but never two at the same name, leave under every settled name the
      fingerprint that the views give. */
  lemma ApartBindingsFollowViews(moves: seq<Move>, n: Name)
    requires Runs(CLOSED, moves) && ApartAt(CLOSED, moves, n)
    requires forall key :: !Pending(Run(CLOSED, moves), key, n)
    ensures ConsistentAt(Run(CLOSED, moves).bindings, n)
  {
    RunKeepsOrderly(CLOSED, moves, n);
  }

  // ---------- a binding nobody interrupts

  predicate AllTreat(key: Owner, moves: seq<Move>) {
    forall i :: 0 <= i < |moves| ==> moves[i].Treat? && moves[i].owner == key
  }

  lemma {:induction false} PutLast(catalogs: Catalogs, c: Catalog, n: Name, server: Option<Server>)
    requires !Binds(catalogs, c.owner)
    ensures Put(catalogs + [c], c.owner, n, server) == catalogs + [Catalog(c.owner, Said(c.servers, n, server))]
  {
    if catalogs == [] {
      assert [] + [c] == [c] && [c][1..] == [];
    } else {
      BindsCons(catalogs, c.owner);
      assert (catalogs + [c])[1..] == catalogs[1..] + [c];
      PutLast(catalogs[1..], c, n, server);
    }
  }

  /** From `o` on, this much of the owner's binding is done: `left` is still to come. */
  predicate Reaches(o: Office, z: Office, key: Owner, rest: Catalogs, servers: map<Name, Server>, left: set<Name>)
    requires key in o.tasks
  {
    var p := o.tasks[key];
    && left <= p.left
    && key in z.tasks && z.tasks[key] == p.(left := left)
    && z.bindings.Of(p.kind.Other()) == o.bindings.Of(p.kind.Other())
    && z.bindings.Of(p.kind) == rest + [Catalog(key, servers)]
  }

  ghost predicate Has(o: Office, z: Office, key: Owner, was: map<Name, Server>, servers: map<Name, Server>, left: set<Name>)
    requires key in o.tasks
  {
    var p := o.tasks[key];
    forall n ::
      var done := n in p.left && n !in left;
      && Lookup(servers, n) == (if done then Lookup(p.active, n) else Lookup(was, n))
      && Lookup(z.bindings.fingerprints, n) ==
         (if done then FingerprintOfHeir(p, n) else Lookup(o.bindings.fingerprints, n))
  }

  lemma TreatsOne(o: Office, key: Owner, rest: Catalogs, was: map<Name, Server>, n: Name)
    requires Enabled(o, Treat(key, n)) && !Binds(rest, key)
    requires o.bindings.Of(o.tasks[key].kind) == rest + [Catalog(key, was)]
    ensures var p := o.tasks[key];
            var servers, left := Said(was, n, Lookup(p.active, n)), p.left - {n};
            Reaches(o, Next(o, Treat(key, n)), key, rest, servers, left) && Has(o, Next(o, Treat(key, n)), key, was, servers, left)
  {
    PutLast(rest, Catalog(key, was), n, Lookup(o.tasks[key].active, n));
    hide Put;
    hide Binds;
  }

  lemma ReachesOn(o: Office, y: Office, z: Office, key: Owner, rest: Catalogs, was: map<Name, Server>,
                  between: map<Name, Server>, more: set<Name>, servers: map<Name, Server>, left: set<Name>)
    requires key in o.tasks && Reaches(o, y, key, rest, between, more) && Has(o, y, key, was, between, more)
    requires Reaches(y, z, key, rest, servers, left) && Has(y, z, key, between, servers, left)
    ensures Reaches(o, z, key, rest, servers, left) && Has(o, z, key, was, servers, left)
  {}

  lemma {:induction false} TreatsGoThrough(o: Office, key: Owner, rest: Catalogs, was: map<Name, Server>, moves: seq<Move>)
    returns (servers: map<Name, Server>, left: set<Name>)
    requires Runs(o, moves) && AllTreat(key, moves) && key in o.tasks && !Binds(rest, key)
    requires o.bindings.Of(o.tasks[key].kind) == rest + [Catalog(key, was)]
    ensures Reaches(o, Run(o, moves), key, rest, servers, left) && Has(o, Run(o, moves), key, was, servers, left)
    decreases |moves|
  {
    if moves == [] {
      servers, left := was, o.tasks[key].left;
    } else {
      var n, p, y := moves[0].name, o.tasks[key], Next(o, moves[0]);
      assert moves[0] == Treat(key, n);
      TreatsOne(o, key, rest, was, n);
      hide Next;
      hide Has;
      servers, left := TreatsGoThrough(y, key, rest, Said(was, n, Lookup(p.active, n)), moves[1..]);
      ReachesOn(o, y, Run(y, moves[1..]), key, rest, was, Said(was, n, Lookup(p.active, n)), p.left - {n}, servers, left);
    }
  }

  /** With nothing left to treat, that is what a completed binding leaves. */
  lemma GoneThroughIsBind(o: Office, kind: Kind, key: Owner, servers: seq<Server>, z: Office, now: map<Name, Server>)
    requires Enabled(o, Begin(kind, key, servers))
    requires var begun := Next(o, Begin(kind, key, servers));
             && Reaches(begun, z, key, Without(o.bindings.Of(kind), key), now, {})
             && Has(begun, z, key, Owned(o.bindings.Of(kind), key), now, {})
    ensures z.bindings == Bind(o.bindings, kind, key, servers)
  {
    var b, bound := o.bindings, Bind(o.bindings, kind, key, servers);
    hide Without;
    hide Owned;
    hide Meaning;
    hide Binds;
    forall n ensures Lookup(now, n) == Lookup(ByName(servers), n) {
      assert n in Names(b, kind, key, servers) || n !in Owned(b.Of(kind), key);
    }
    SameLookups(now, ByName(servers));
    hide ByName;
    forall n ensures Lookup(z.bindings.fingerprints, n) == Lookup(bound.fingerprints, n) {
      BindFingerprint(b, kind, key, servers, n);
    }
    SameLookups(z.bindings.fingerprints, bound.fingerprints);
  }

  /** Begun and gone through without a break, a binding is the one McpAuthCatalogs speaks of,
      whatever the order it takes its names in. */
  lemma UninterruptedIsBind(o: Office, kind: Kind, key: Owner, servers: seq<Server>, moves: seq<Move>)
    requires Placed(o) && Enabled(o, Begin(kind, key, servers)) && AllTreat(key, moves)
    requires Runs(Next(o, Begin(kind, key, servers)), moves)
    requires Enabled(Run(Next(o, Begin(kind, key, servers)), moves), End(key))
    ensures Run(Next(o, Begin(kind, key, servers)), moves).bindings == Bind(o.bindings, kind, key, servers)
  {
    var begun := Next(o, Begin(kind, key, servers));
    WithoutIsTheRest(o.bindings.Of(kind), key);
    var now, left := TreatsGoThrough(begun, key, Without(o.bindings.Of(kind), key), Owned(o.bindings.Of(kind), key), moves);
    GoneThroughIsBind(o, kind, key, servers, Run(begun, moves), now);
  }

  // ---------- two that meet at a name

  /** The moves can be made, and this is where they lead. */
  predicate Leads(o: Office, moves: seq<Move>, z: Office) { Runs(o, moves) && Run(o, moves) == z }

  lemma {:induction false} LeadsOn(o: Office, a: seq<Move>, z: Office, b: seq<Move>, y: Office)
    requires Leads(o, a, z) && Leads(z, b, y)
    ensures Leads(o, a + b, y)
    decreases |a|
  {
    hide Next;
    hide Enabled;
    if a == [] {
      assert [] + b == b;
    } else {
      LeadsOn(Next(o, a[0]), a[1..], z, b, y);
      assert (a + b)[1..] == a[1..] + b;
    }
  }

  lemma LeadsTwo(o: Office, x: Move, y: Move)
    requires Enabled(o, x) && Enabled(Next(o, x), y)
    ensures Leads(o, [x, y], Next(Next(o, x), y))
  {
    hide Next;
    hide Enabled;
    assert [y][1..] == [] && Runs(Next(Next(o, x), y), []);
    assert Runs(Next(o, x), [y]) && Run(Next(o, x), [y]) == Next(Next(o, x), y);
    assert [x, y][1..] == [y];
  }

  lemma LeadsThree(o: Office, x: Move, y: Move, z: Move)
    requires Enabled(o, x) && Enabled(Next(o, x), y) && Enabled(Next(Next(o, x), y), z)
    ensures Leads(o, [x, y, z], Next(Next(Next(o, x), y), z))
  {
    hide Next;
    hide Enabled;
    LeadsTwo(Next(o, x), y, z);
    assert [x, y, z][1..] == [y, z];
  }

  /** A new owner binds one server, with nobody in between. */
  function Arrives(key: Owner, s: Server): seq<Move> { [Begin(Config, key, [s]), Treat(key, s.name), End(key)] }

  function Leaves(key: Owner, n: Name): seq<Move> { [Begin(Config, key, []), Treat(key, n), End(key)] }

  lemma ArrivesAlone(config: Catalogs, fingerprints: map<Name, Fingerprint>, tasks: map<Owner, Progress>, key: Owner, s: Server)
    requires key !in tasks && !Binds(config, key)
    ensures Leads(Office(Bindings(config, [], fingerprints), tasks, None), Arrives(key, s),
                  Office(Bindings(config + [Catalog(key, map[s.name := s])], [], fingerprints[s.name := s.Fingerprint()]), tasks, None))
  {
    var o, x, y := Office(Bindings(config, [], fingerprints), tasks, None), Begin(Config, key, [s]), Treat(key, s.name);
    NotOwned(config, key);
    assert ByName([s]) == map[s.name := s] by { assert [s][..0] == []; }
    PutLast(config, Catalog(key, map[]), s.name, Some(s));
    hide ByName;
    hide Without;
    hide Owned;
    hide Put;
    LeadsThree(o, x, y, End(key));
    assert Next(Next(Next(o, x), y), End(key)).tasks == tasks;
  }

  lemma MeaningOfTwo(c: Catalog, d: Catalog, n: Name)
    ensures Meaning([c], n) == Lookup(c.servers, n)
    ensures Meaning([c, d], n) == if n in d.servers then Some(d.servers[n]) else Lookup(c.servers, n)
  {
    assert [c][1..] == [] && [c, d] == [c] + [d];
    MeaningSnoc([c], d, n);
  }

  lemma WithoutLast(catalogs: Catalogs, c: Catalog)
    requires !Binds(catalogs, c.owner)
    ensures Without(catalogs + [c], c.owner) == catalogs && Owned(catalogs + [c], c.owner) == c.servers
  {
    WithoutSnoc(catalogs, c, c.owner);
    NotOwned(catalogs, c.owner);
    OwnedLast(catalogs, c);
  }

  lemma {:induction false} OwnedLast(catalogs: Catalogs, c: Catalog)
    requires !Binds(catalogs, c.owner)
    ensures Owned(catalogs + [c], c.owner) == c.servers
  {
    if catalogs != [] {
      BindsCons(catalogs, c.owner);
      assert (catalogs + [c])[1..] == catalogs[1..] + [c];
      OwnedLast(catalogs[1..], c);
    }
  }

  /** In the middle of three. */
  lemma AmongThree(c: Catalog, d: Catalog, e: Catalog, n: Name, server: Option<Server>)
    requires c.owner != d.owner && e.owner != d.owner
    ensures Without([c, d, e], d.owner) == [c, e] && Owned([c, d, e], d.owner) == d.servers
    ensures Put([c, d, e], d.owner, n, server) == [c, Catalog(d.owner, Said(d.servers, n, server)), e]
  {
    assert [c, d, e][1..] == [d, e] && [d, e][1..] == [e] && [e][1..] == [];
    assert Without([e], d.owner) == [e];
    assert Without([c, d, e], d.owner) == [c] + Without([d, e], d.owner);
    assert Put([e], d.owner, n, server) == [e];
  }

  // ---------- the survivor that lets go first

  /** Owner 3 binds another server, then owners 1 and 2 the name. */
  function AllArrive(a: Server, b: Server, v: Server): seq<Move> { Arrives(3, v) + Arrives(1, a) + Arrives(2, b) }

  function Arrived(a: Server, b: Server, v: Server): Office {
    Office(Bindings([Catalog(3, map[v.name := v]), Catalog(1, map[a.name := a]), Catalog(2, map[b.name := b])], [],
                    map[v.name := v.Fingerprint(), a.name := b.Fingerprint()]), map[], None)
  }

  lemma TheyArrive(a: Server, b: Server, v: Server)
    requires a.name == b.name != v.name
    ensures Leads(CLOSED, AllArrive(a, b, v), Arrived(a, b, v))
  {
    var three, one, two := Catalog(3, map[v.name := v]), Catalog(1, map[a.name := a]), Catalog(2, map[b.name := b]);
    var f := map[v.name := v.Fingerprint()];
    var g := f[a.name := a.Fingerprint()];
    hide Leads;
    ArrivesAlone([], map[], map[], 3, v);
    assert [] + [three] == [three] && [three] + [one] == [three, one] && [three, one] + [two] == [three, one, two];
    assert map[][v.name := v.Fingerprint()] == f;
    ArrivesAlone([three], f, map[], 1, a);
    ArrivesAlone([three, one], g, map[], 2, b);
    assert g[a.name := b.Fingerprint()] == map[v.name := v.Fingerprint(), a.name := b.Fingerprint()];
    var o := Office(Bindings([three], [], f), map[], None);
    var z := Office(Bindings([three, one], [], g), map[], None);
    LeadsOn(CLOSED, Arrives(3, v), o, Arrives(1, a), z);
    LeadsOn(CLOSED, Arrives(3, v) + Arrives(1, a), z, Arrives(2, b), Arrived(a, b, v));
  }

  /** Owner 2 lets go of the name, but waits before that at the lock of a server it takes over from
      owner 3. */
  function Waits(w: Server): seq<Move> { [Begin(Config, 2, [w]), Treat(2, w.name)] }

  function Waiting(a: Server, b: Server, v: Server, w: Server): Office {
    Office(Bindings([Catalog(3, map[v.name := v]), Catalog(1, map[a.name := a]),
                     Catalog(2, map[a.name := b, w.name := w])], [],
                    map[a.name := b.Fingerprint(), w.name := w.Fingerprint()]),
           map[2 := Progress(Config, map[w.name := w], map[a.name := a, v.name := v], {a.name})], None)
  }

  lemma SecondBegins(a: Server, b: Server, v: Server, w: Server)
    requires a.name == b.name != w.name && v.name == w.name
    ensures var o := Arrived(a, b, v);
            && Owned(o.bindings.config, 2) == map[b.name := b]
            && Without(o.bindings.config, 2) == [Catalog(3, map[v.name := v]), Catalog(1, map[a.name := a])]
            && Begun(o.bindings, Config, 2, [w]) ==
               Progress(Config, map[w.name := w], map[a.name := a, v.name := v], {a.name, w.name})
  {
    var three, one, two := Catalog(3, map[v.name := v]), Catalog(1, map[a.name := a]), Catalog(2, map[b.name := b]);
    assert [three, one, two] == [three, one] + [two];
    WithoutLast([three, one], two);
    MeaningOfTwo(three, one, a.name);
    MeaningOfTwo(three, one, w.name);
    assert ByName([w]) == map[w.name := w] by { assert [w][..0] == []; }
    hide Without;
    hide Owned;
    hide Meaning;
    hide ByName;
  }

  lemma SecondWaits(a: Server, b: Server, v: Server, w: Server)
    requires a.name == b.name != w.name && v.name == w.name && v != w
    ensures Leads(Arrived(a, b, v), Waits(w), Waiting(a, b, v, w))
  {
    var rest, two := [Catalog(3, map[v.name := v]), Catalog(1, map[a.name := a])], Catalog(2, map[b.name := b]);
    SecondBegins(a, b, v, w);
    PutLast(rest, two, w.name, Some(w));
    hide Without;
    hide Owned;
    hide Put;
    hide Begun;
    LeadsTwo(Arrived(a, b, v), Begin(Config, 2, [w]), Treat(2, w.name));
    hide Leads;
    assert {a.name, w.name} - {w.name} == {a.name};
  }

  /** Owner 1 comes and goes meanwhile: it hands the name to owner 2, which still has it. */
  function Handed(a: Server, b: Server, v: Server, w: Server): Office {
    Office(Bindings([Catalog(3, map[v.name := v]), Catalog(2, map[a.name := b, w.name := w]), Catalog(1, map[])], [],
                    map[a.name := b.Fingerprint(), w.name := w.Fingerprint()]),
           Waiting(a, b, v, w).tasks, None)
  }

  lemma FirstBegins(a: Server, b: Server, v: Server, w: Server)
    requires a.name == b.name != w.name && v.name == w.name
    ensures var o := Waiting(a, b, v, w);
            && Owned(o.bindings.config, 1) == map[a.name := a]
            && Without(o.bindings.config, 1) == [Catalog(3, map[v.name := v]), Catalog(2, map[a.name := b, w.name := w])]
            && Begun(o.bindings, Config, 1, []) == Progress(Config, map[], map[a.name := b], {a.name})
  {
    var three, one, two := Catalog(3, map[v.name := v]), Catalog(1, map[a.name := a]), Catalog(2, map[a.name := b, w.name := w]);
    AmongThree(three, one, two, a.name, None);
    MeaningOfTwo(three, two, a.name);
    assert ByName([]) == map[];
    hide Without;
    hide Owned;
    hide Meaning;
    hide ByName;
  }

  lemma FirstLeaves(a: Server, b: Server, v: Server, w: Server)
    requires a.name == b.name != w.name && v.name == w.name
    ensures Leads(Waiting(a, b, v, w), Leaves(1, a.name), Handed(a, b, v, w))
  {
    var o, n := Waiting(a, b, v, w), a.name;
    var rest := [Catalog(3, map[v.name := v]), Catalog(2, map[n := b, w.name := w])];
    FirstBegins(a, b, v, w);
    PutLast(rest, Catalog(1, map[n := a]), n, None);
    hide Without;
    hide Owned;
    hide Put;
    hide Begun;
    var x, y := Begin(Config, 1, []), Treat(1, n);
    LeadsThree(o, x, y, End(1));
    hide Leads;
    assert Next(Next(Next(o, x), y), End(1)).tasks == o.tasks;
  }

  function Left(a: Server, v: Server, w: Server): Office {
    Office(Bindings([Catalog(3, map[v.name := v]), Catalog(2, map[w.name := w]), Catalog(1, map[])], [],
                    map[a.name := a.Fingerprint(), w.name := w.Fingerprint()]), map[], None)
  }

  lemma SecondLetsGo(a: Server, b: Server, v: Server, w: Server)
    requires a.name == b.name != w.name && v.name == w.name
    ensures Leads(Handed(a, b, v, w), [Treat(2, a.name), End(2)], Left(a, v, w))
  {
    var two := Catalog(2, map[a.name := b, w.name := w]);
    AmongThree(Catalog(3, map[v.name := v]), two, Catalog(1, map[]), a.name, None);
    hide Put;
    assert two.servers - {a.name} == map[w.name := w];
    LeadsTwo(Handed(a, b, v, w), Treat(2, a.name), End(2));
  }

  lemma {:induction false} NobodyHas(catalogs: Catalogs, n: Name)
    requires forall i :: 0 <= i < |catalogs| ==> n !in catalogs[i].servers
    ensures Meaning(catalogs, n).None?
  {
    if catalogs != [] { NobodyHas(catalogs[1..], n); }
  }

  /** The survivor that owner 2 looked up has let go by the time owner 2 drops the name: its
      fingerprint is put under a name that nobody binds. */
  lemma DepartedSurvivorKeepsTheName(a: Server, b: Server, v: Server, w: Server)
    requires a.name == b.name != w.name && v.name == w.name && v != w
    ensures var moves := AllArrive(a, b, v) + Waits(w) + Leaves(1, a.name) + [Treat(2, a.name), End(2)];
            Leads(CLOSED, moves, Left(a, v, w))
    ensures var after := Left(a, v, w);
            && after.tasks == map[]
            && after.bindings.View(Config, a.name).None? && after.bindings.View(Plugin, a.name).None?
            && Lookup(after.bindings.fingerprints, a.name) == Some(a.Fingerprint())
  {
    hide Leads;
    TheyArrive(a, b, v);
    SecondWaits(a, b, v, w);
    FirstLeaves(a, b, v, w);
    SecondLetsGo(a, b, v, w);
    NobodyHas(Left(a, v, w).bindings.config, a.name);
    hide *;
    LeadsOn(CLOSED, AllArrive(a, b, v), Arrived(a, b, v), Waits(w), Waiting(a, b, v, w));
    LeadsOn(CLOSED, AllArrive(a, b, v) + Waits(w), Waiting(a, b, v, w), Leaves(1, a.name), Handed(a, b, v, w));
    LeadsOn(CLOSED, AllArrive(a, b, v) + Waits(w) + Leaves(1, a.name), Handed(a, b, v, w),
            [Treat(2, a.name), End(2)], Left(a, v, w));
  }

  // ---------- the install that is overtaken

  /** Owner 1 begins to bind two servers and waits at the first, taken over from owner 3. */
  function WaitsFirst(a: Server, w: Server): seq<Move> { [Begin(Config, 1, [w, a]), Treat(1, w.name)] }

  function WaitingFirst(a: Server, v: Server, w: Server): Office {
    Office(Bindings([Catalog(3, map[v.name := v]), Catalog(1, map[w.name := w])], [], map[w.name := w.Fingerprint()]),
           map[1 := Progress(Config, map[w.name := w, a.name := a], map[v.name := v], {a.name})], None)
  }

  lemma FirstWaits(a: Server, v: Server, w: Server)
    requires a.name != w.name && v.name == w.name && v != w
    ensures Leads(Office(Bindings([Catalog(3, map[v.name := v])], [], map[v.name := v.Fingerprint()]), map[], None),
                  WaitsFirst(a, w), WaitingFirst(a, v, w))
  {
    var o := Office(Bindings([Catalog(3, map[v.name := v])], [], map[v.name := v.Fingerprint()]), map[], None);
    var x, y, three := Begin(Config, 1, [w, a]), Treat(1, w.name), Catalog(3, map[v.name := v]);
    var active := map[w.name := w, a.name := a];
    assert ByName([w, a]) == active by {
      assert [w, a][..1] == [w] && [w][..0] == [];
      assert ByName([w]) == map[w.name := w];
    }
    NotOwned([three], 1);
    MeaningOfTwo(three, three, a.name);
    MeaningOfTwo(three, three, w.name);
    PutLast([three], Catalog(1, map[]), w.name, Some(w));
    hide Without;
    hide Owned;
    hide Put;
    hide Meaning;
    hide ByName;
    var p := Begun(o.bindings, Config, 1, [w, a]);
    assert p == Progress(Config, active, map[v.name := v], {w.name, a.name});
    LeadsTwo(o, x, y);
    assert p.left - {w.name} == {a.name};
  }

  /** Owner 2 binds the second's name meanwhile, and its catalog stands behind. */
  function Overtaken(a: Server, b: Server, v: Server, w: Server): Office {
    Office(Bindings([Catalog(3, map[v.name := v]), Catalog(1, map[w.name := w]), Catalog(2, map[b.name := b])], [],
                    map[w.name := w.Fingerprint(), b.name := b.Fingerprint()]),
           WaitingFirst(a, v, w).tasks, None)
  }

  function Installed(a: Server, b: Server, v: Server, w: Server): Office {
    Office(Bindings([Catalog(3, map[v.name := v]), Catalog(1, map[w.name := w, a.name := a]), Catalog(2, map[b.name := b])], [],
                    map[w.name := w.Fingerprint(), a.name := a.Fingerprint()]), map[], None)
  }

  lemma FirstInstalls(a: Server, b: Server, v: Server, w: Server)
    requires a.name == b.name != w.name
    ensures Leads(Overtaken(a, b, v, w), [Treat(1, a.name), End(1)], Installed(a, b, v, w))
  {
    AmongThree(Catalog(3, map[v.name := v]), Catalog(1, map[w.name := w]), Catalog(2, map[b.name := b]), a.name, Some(a));
    hide Put;
    assert map[w.name := w.Fingerprint(), b.name := b.Fingerprint()][a.name := a.Fingerprint()]
        == map[w.name := w.Fingerprint(), a.name := a.Fingerprint()];
    LeadsTwo(Overtaken(a, b, v, w), Treat(1, a.name), End(1));
  }

  /** Owner 1 then installs the fingerprint of a server that the view does not give. */
  lemma OvertakenInstallIsNotTheView(a: Server, b: Server, v: Server, w: Server)
    requires a.name == b.name != w.name && v.name == w.name && v != w && a != b
    ensures Leads(CLOSED, Arrives(3, v) + WaitsFirst(a, w) + Arrives(2, b) + [Treat(1, a.name), End(1)], Installed(a, b, v, w))
    ensures var after := Installed(a, b, v, w);
            && after.tasks == map[]
            && after.bindings.View(Config, a.name) == Some(b) && after.bindings.View(Plugin, a.name).None?
            && Lookup(after.bindings.fingerprints, a.name) == Some(a.Fingerprint())
  {
    hide Leads;
    var three, one, two := Catalog(3, map[v.name := v]), Catalog(1, map[w.name := w]), Catalog(2, map[b.name := b]);
    var f, g, tasks := map[v.name := v.Fingerprint()], map[w.name := w.Fingerprint()], WaitingFirst(a, v, w).tasks;
    ArrivesAlone([], map[], map[], 3, v);
    assert [] + [three] == [three] && [three, one] + [two] == [three, one, two];
    assert map[][v.name := v.Fingerprint()] == f;
    FirstWaits(a, v, w);
    ArrivesAlone([three, one], g, tasks, 2, b);
    assert g[b.name := b.Fingerprint()] == map[w.name := w.Fingerprint(), b.name := b.Fingerprint()];
    FirstInstalls(a, b, v, w);
    var both := Catalog(1, map[w.name := w, a.name := a]);
    MeaningSnoc([three, both], two, a.name);
    assert [three, both] + [two] == [three, both, two];
    var o := Office(Bindings([three], [], f), map[], None);
    LeadsOn(CLOSED, Arrives(3, v), o, WaitsFirst(a, w), WaitingFirst(a, v, w));
    LeadsOn(CLOSED, Arrives(3, v) + WaitsFirst(a, w), WaitingFirst(a, v, w), Arrives(2, b), Overtaken(a, b, v, w));
    LeadsOn(CLOSED, Arrives(3, v) + WaitsFirst(a, w) + Arrives(2, b), Overtaken(a, b, v, w),
            [Treat(1, a.name), End(1)], Installed(a, b, v, w));
  }
}
