/**
 Whose server a name means, after the catalog half of vibe/app_server/_mcp_auth.py.

 Each owner (a session, or a stand-in for callers that name none) binds servers in one of two
 kinds of catalog.  Catalogs are kept in binding order, and merging them lets a later one override
 an earlier one.  All catalogs share a single map from names to fingerprints.
 */
module McpAuthCatalogs {
  import opened Common
  import opened McpAuthProtocol

  type Owner = nat

  datatype Catalog = Catalog(owner: Owner, servers: map<Name, Server>)

  /** Catalogs of one kind, in insertion order. */
  type Catalogs = seq<Catalog>

  function Lookup<V>(m: map<Name, V>, n: Name): Option<V> {
    if n in m then Some(m[n]) else None
  }

  lemma SameLookups<V>(a: map<Name, V>, b: map<Name, V>)
    requires forall n :: Lookup(a, n) == Lookup(b, n)
    ensures a == b
  {
    assert forall n :: n in a <==> Lookup(a, n).Some?;
    assert forall n :: n in b <==> Lookup(b, n).Some?;
    assert forall n :: n in a ==> Lookup(a, n) == Some(a[n]);
    assert forall n :: n in b ==> Lookup(b, n) == Some(b[n]);
  }

  function Without(catalogs: Catalogs, key: Owner): Catalogs {
    if catalogs == [] then []
    else if catalogs[0].owner == key then Without(catalogs[1..], key)
    else [catalogs[0]] + Without(catalogs[1..], key)
  }

  /** What `catalogs.pop(key, {})` answers. */
  function Owned(catalogs: Catalogs, key: Owner): map<Name, Server> {
    if catalogs == [] then map[]
    else if catalogs[0].owner == key then catalogs[0].servers
    else Owned(catalogs[1..], key)
  }

  /** What a name means across owners: the latest catalog that has it decides. */
  function Meaning(catalogs: Catalogs, n: Name): Option<Server> {
    if catalogs == [] then None
    else if Meaning(catalogs[1..], n).Some? then Meaning(catalogs[1..], n)
    else Lookup(catalogs[0].servers, n)
  }

  lemma {:induction false} MeaningSnoc(catalogs: Catalogs, c: Catalog, n: Name)
    ensures Meaning(catalogs + [c], n) == if n in c.servers then Some(c.servers[n]) else Meaning(catalogs, n)
  {
    if catalogs == [] {
      assert [] + [c] == [c] && [c][1..] == [];
    } else {
      MeaningSnoc(catalogs[1..], c, n);
      assert (catalogs + [c])[1..] == catalogs[1..] + [c];
    }
  }

  lemma {:induction false} WithoutSnoc(catalogs: Catalogs, c: Catalog, key: Owner)
    ensures Without(catalogs + [c], key) == Without(catalogs, key) + if c.owner == key then [] else [c]
  {
    if catalogs == [] {
      assert [] + [c] == [c] && [c][1..] == [];
    } else {
      WithoutSnoc(catalogs[1..], c, key);
      assert (catalogs + [c])[1..] == catalogs[1..] + [c];
    }
  }

  /** The last catalog that binds the name. */
  predicate LastWith(catalogs: Catalogs, n: Name, i: int) {
    0 <= i < |catalogs| && n in catalogs[i].servers && forall j :: i < j < |catalogs| ==> n !in catalogs[j].servers
  }

  lemma {:induction false} MeaningNone(catalogs: Catalogs, n: Name)
    ensures Meaning(catalogs, n).None? <==> forall i :: 0 <= i < |catalogs| ==> n !in catalogs[i].servers
  {
    if catalogs != [] {
      var rest := catalogs[1..];
      MeaningNone(rest, n);
      assert forall i :: 0 < i < |catalogs| ==> catalogs[i] == rest[i - 1];
      assert forall i :: 0 <= i < |rest| ==> rest[i] == catalogs[i + 1];
    }
  }

  lemma {:induction false} MeaningIsLast(catalogs: Catalogs, n: Name, i: nat)
    requires LastWith(catalogs, n, i)
    ensures Meaning(catalogs, n) == Some(catalogs[i].servers[n])
  {
    var rest := catalogs[1..];
    assert forall j :: 0 <= j < |rest| ==> rest[j] == catalogs[j + 1];
    if i == 0 {
      MeaningNone(rest, n);
    } else {
      MeaningIsLast(rest, n, i - 1);
    }
  }

  lemma {:induction false} OwnedIs(catalogs: Catalogs, c: Catalog)
    requires DistinctOwners(catalogs) && c in catalogs
    ensures Owned(catalogs, c.owner) == c.servers && Binds(catalogs, c.owner)
  {
    var i :| 0 <= i < |catalogs| && catalogs[i] == c;
    if i > 0 {
      assert catalogs[0].owner != catalogs[i].owner && catalogs[1..][i - 1] == c;
      OwnedIs(catalogs[1..], c);
    }
  }

  /** `_merged`, with the key it skips. */
  method Merged(catalogs: Catalogs, excluding: Owner) returns (merged: map<Name, Server>)
    ensures forall n :: Lookup(merged, n) == Meaning(Without(catalogs, excluding), n)
  {
    merged := map[];
    for k := 0 to |catalogs|
      invariant forall n :: Lookup(merged, n) == Meaning(Without(catalogs[..k], excluding), n)
    {
      assert catalogs[..k + 1] == catalogs[..k] + [catalogs[k]];
      WithoutSnoc(catalogs[..k], catalogs[k], excluding);
      if catalogs[k].owner == excluding {
        assert Without(catalogs[..k + 1], excluding) == Without(catalogs[..k], excluding);
        continue;
      }
      ghost var before := merged;
      merged := merged + catalogs[k].servers;
      forall n ensures Lookup(merged, n) == Meaning(Without(catalogs[..k + 1], excluding), n) {
        assert Lookup(before, n) == Meaning(Without(catalogs[..k], excluding), n);
        MeaningSnoc(Without(catalogs[..k], excluding), catalogs[k], n);
      }
    }
    assert catalogs[..|catalogs|] == catalogs;
  }

  datatype Kind = Config | Plugin {
    function Other(): Kind { if Config? then Plugin else Config }
  }

  datatype Bindings = Bindings(config: Catalogs, plugin: Catalogs, fingerprints: map<Name, Fingerprint>) {
    function Of(kind: Kind): Catalogs { if kind == Config then config else plugin }

    function View(kind: Kind, n: Name): Option<Server> { Meaning(Of(kind), n) }

    /** `_survivors`: among the other owners a configured server outranks a plugin's. */
    function Survivor(key: Owner, n: Name): Option<Server> {
      var configured := Meaning(Without(config, key), n);
      if configured.Some? then configured else Meaning(Without(plugin, key), n)
    }

    function Rebound(kind: Kind, key: Owner, servers: map<Name, Server>): Bindings {
      var moved := Without(Of(kind), key) + [Catalog(key, servers)];
      if kind == Config then this.(config := moved) else this.(plugin := moved)
    }
  }

  const NO_BINDINGS := Bindings([], [], map[])

  /** A departing owner's name goes to the configured server bound last among the others, or, where none
      of them configures it, to the plugin's bound last. */
  lemma SurvivorRanks(b: Bindings, key: Owner, n: Name)
    ensures forall i :: LastWith(Without(b.config, key), n, i) ==> b.Survivor(key, n) == Some(Without(b.config, key)[i].servers[n])
    ensures (forall c :: c in Without(b.config, key) ==> n !in c.servers) ==>
              && (forall i :: LastWith(Without(b.plugin, key), n, i) ==> b.Survivor(key, n) == Some(Without(b.plugin, key)[i].servers[n]))
              && ((forall c :: c in Without(b.plugin, key) ==> n !in c.servers) ==> b.Survivor(key, n).None?)
  {
    var config, plugin := Without(b.config, key), Without(b.plugin, key);
    MeaningNone(config, n);
    MeaningNone(plugin, n);
    forall i | LastWith(config, n, i) ensures Meaning(config, n) == Some(config[i].servers[n]) { MeaningIsLast(config, n, i); }
    forall i | LastWith(plugin, n, i) ensures Meaning(plugin, n) == Some(plugin[i].servers[n]) { MeaningIsLast(plugin, n, i); }
  }

  /** `{server.name: server for server in servers}`: the last definition of a name wins. */
  function ByName(servers: seq<Server>): map<Name, Server> {
    if servers == [] then map[]
    else ByName(servers[..|servers| - 1])[servers[|servers| - 1].name := servers[|servers| - 1]]
  }

  /** The fingerprint a completed binding leaves under a name. */
  function BoundFingerprint(b: Bindings, kind: Kind, key: Owner, active: map<Name, Server>, n: Name): Option<Fingerprint> {
    if n in active then Some(active[n].Fingerprint())
    else if n in Owned(b.Of(kind), key) then
      if b.Survivor(key, n).Some? then Some(b.Survivor(key, n).value.Fingerprint()) else None
    else Lookup(b.fingerprints, n)
  }

  /** A completed `_bind_owned`. */
  function Bind(b: Bindings, kind: Kind, key: Owner, servers: seq<Server>): (after: Bindings) {
    var active := ByName(servers);
    b.Rebound(kind, key, active).(
      fingerprints :=
        map n | n in b.fingerprints.Keys + active.Keys + Owned(b.Of(kind), key).Keys
                && BoundFingerprint(b, kind, key, active, n).Some?
              :: BoundFingerprint(b, kind, key, active, n).value)
  }

  lemma BindFingerprint(b: Bindings, kind: Kind, key: Owner, servers: seq<Server>, n: Name)
    ensures Lookup(Bind(b, kind, key, servers).fingerprints, n) == BoundFingerprint(b, kind, key, ByName(servers), n)
  {}

  // ---------- fingerprints follow the views

  /** A name has a fingerprint exactly when some owner binds it, and then that of the server one
      of the two views gives. */
  predicate ConsistentAt(b: Bindings, n: Name) {
    var f, config, plugin := Lookup(b.fingerprints, n), b.View(Config, n), b.View(Plugin, n);
    && (f.Some? <==> config.Some? || plugin.Some?)
    && (f.Some? ==> (config.Some? && f.value == config.value.Fingerprint())
                    || (plugin.Some? && f.value == plugin.value.Fingerprint()))
  }

  predicate DistinctOwners(catalogs: Catalogs) {
    forall i, j :: 0 <= i < j < |catalogs| ==> catalogs[i].owner != catalogs[j].owner
  }

  predicate Binds(catalogs: Catalogs, key: Owner) {
    exists i :: 0 <= i < |catalogs| && catalogs[i].owner == key
  }

  lemma BindsCons(catalogs: Catalogs, key: Owner)
    requires catalogs != []
    ensures Binds(catalogs, key) <==> catalogs[0].owner == key || Binds(catalogs[1..], key)
  {
    if Binds(catalogs[1..], key) {
      var i :| 0 <= i < |catalogs| - 1 && catalogs[1..][i].owner == key;
      assert catalogs[i + 1].owner == key;
    }
  }

  lemma {:induction false} WithoutIsTheRest(catalogs: Catalogs, key: Owner)
    ensures !Binds(Without(catalogs, key), key)
    ensures forall o :: Binds(Without(catalogs, key), o) <==> o != key && Binds(catalogs, o)
    ensures DistinctOwners(catalogs) ==> DistinctOwners(Without(catalogs, key))
  {
    if catalogs != [] {
      var rest := Without(catalogs[1..], key);
      WithoutIsTheRest(catalogs[1..], key);
      forall o ensures Binds(catalogs, o) <==> catalogs[0].owner == o || Binds(catalogs[1..], o) {
        BindsCons(catalogs, o);
      }
      if catalogs[0].owner != key {
        var all := Without(catalogs, key);
        assert all == [catalogs[0]] + rest;
        forall i | 0 < i < |all| ensures all[i] == rest[i - 1] && Binds(catalogs[1..], all[i].owner) {
          assert Binds(rest, rest[i - 1].owner);
        }
        forall o ensures Binds(all, o) <==> all[0].owner == o || Binds(rest, o) {
          BindsCons(all, o);
        }
        if DistinctOwners(catalogs) {
          assert DistinctOwners(catalogs[1..]);
          assert !Binds(catalogs[1..], catalogs[0].owner);
        }
      }
    }
  }

  /** Leaving an owner out does not change what a name it does not bind means. */
  lemma {:induction false} WithoutKeepsMeaning(catalogs: Catalogs, key: Owner, n: Name)
    requires DistinctOwners(catalogs) && n !in Owned(catalogs, key)
    ensures Meaning(Without(catalogs, key), n) == Meaning(catalogs, n)
  {
    if catalogs != [] {
      var rest := catalogs[1..];
      if catalogs[0].owner == key {
        NotOwned(rest, key);
      } else {
        assert ([catalogs[0]] + Without(rest, key))[1..] == Without(rest, key);
      }
      WithoutKeepsMeaning(rest, key, n);
    }
  }

  lemma {:induction false} NotOwned(catalogs: Catalogs, key: Owner)
    requires !Binds(catalogs, key)
    ensures Owned(catalogs, key) == map[] && Without(catalogs, key) == catalogs
  {
    if catalogs != [] {
      assert catalogs[0].owner != key;
      forall i | 0 <= i < |catalogs| - 1 ensures catalogs[1..][i].owner != key {
        assert catalogs[i + 1].owner != key;
      }
      NotOwned(catalogs[1..], key);
    }
  }

  predicate WellFormed(b: Bindings) {
    && DistinctOwners(b.config) && DistinctOwners(b.plugin)
    && forall i, j :: 0 <= i < |b.config| && 0 <= j < |b.plugin| ==> b.config[i].owner != b.plugin[j].owner
  }

  /** A completed binding keeps a name's fingerprint that of a view's server. */
  lemma BindKeepsConsistent(b: Bindings, kind: Kind, key: Owner, servers: seq<Server>, n: Name)
    requires WellFormed(b) && ConsistentAt(b, n) && !Binds(b.Of(kind.Other()), key)
    ensures ConsistentAt(Bind(b, kind, key, servers), n)
  {
    BindFingerprint(b, kind, key, servers, n);
    MeaningSnoc(Without(b.Of(kind), key), Catalog(key, ByName(servers)), n);
    NotOwned(b.Of(kind.Other()), key);
    if n !in Owned(b.Of(kind), key) {
      WithoutKeepsMeaning(b.Of(kind), key, n);
    }
  }

  lemma ReboundKeepsWellFormed(b: Bindings, kind: Kind, key: Owner, servers: map<Name, Server>)
    requires WellFormed(b) && !Binds(b.Of(kind.Other()), key)
    ensures WellFormed(b.Rebound(kind, key, servers))
    ensures forall k, o :: Binds(b.Rebound(kind, key, servers).Of(k), o) <==> (k == kind && o == key) || Binds(b.Of(k), o)
  {
    var after, kept := b.Rebound(kind, key, servers), Without(b.Of(kind), key);
    WithoutIsTheRest(b.Of(kind), key);
    var moved := after.Of(kind);
    assert moved == kept + [Catalog(key, servers)];
    hide Without;
    forall i | 0 <= i < |kept| ensures kept[i].owner != key && Binds(b.Of(kind), kept[i].owner) {
      assert Binds(kept, kept[i].owner);
    }
    forall o ensures Binds(moved, o) <==> o == key || Binds(kept, o) {
      assert moved[|kept|].owner == key;
      if Binds(kept, o) {
        var i :| 0 <= i < |kept| && kept[i].owner == o;
        assert moved[i].owner == o;
      }
    }
    forall i, j | 0 <= i < |moved| && 0 <= j < |b.Of(kind.Other())|
      ensures moved[i].owner != b.Of(kind.Other())[j].owner
    {
      if i < |kept| { assert Binds(b.Of(kind), kept[i].owner); }
    }
  }

  lemma BindKeepsWellFormed(b: Bindings, kind: Kind, key: Owner, servers: seq<Server>)
    requires WellFormed(b) && !Binds(b.Of(kind.Other()), key)
    ensures WellFormed(Bind(b, kind, key, servers))
    ensures forall k, o :: Binds(Bind(b, kind, key, servers).Of(k), o) ==> (k == kind && o == key) || Binds(b.Of(k), o)
  {
    hide WellFormed;
    ReboundKeepsWellFormed(b, kind, key, ByName(servers));
    SameCatalogs(b.Rebound(kind, key, ByName(servers)), Bind(b, kind, key, servers));
  }

  lemma SameCatalogs(a: Bindings, b: Bindings)
    requires WellFormed(a) && a.config == b.config && a.plugin == b.plugin
    ensures WellFormed(b) && forall k :: a.Of(k) == b.Of(k)
  {}

  // ---------- runs of bindings

  datatype BindCall = BindCall(kind: Kind, owner: Owner, servers: seq<Server>)

  function BindAll(calls: seq<BindCall>): Bindings {
    if calls == [] then NO_BINDINGS
    else
      var call := calls[|calls| - 1];
      Bind(BindAll(calls[..|calls| - 1]), call.kind, call.owner, call.servers)
  }

  /** Every owner keeps to one kind of catalog. */
  predicate KindsAgree(calls: seq<BindCall>) {
    forall i, j :: 0 <= i < |calls| && 0 <= j < |calls| && calls[i].owner == calls[j].owner ==> calls[i].kind == calls[j].kind
  }

  lemma {:induction false} RunIsWellFormed(calls: seq<BindCall>)
    requires KindsAgree(calls)
    ensures WellFormed(BindAll(calls))
    ensures forall kind, o :: Binds(BindAll(calls).Of(kind), o) ==>
              exists i :: 0 <= i < |calls| && calls[i].owner == o && calls[i].kind == kind
  {
    if calls != [] {
      var front, call := calls[..|calls| - 1], calls[|calls| - 1];
      RunIsWellFormed(front);
      BindKeepsWellFormed(BindAll(front), call.kind, call.owner, call.servers);
      forall kind, o | Binds(BindAll(calls).Of(kind), o)
        ensures exists i :: 0 <= i < |calls| && calls[i].owner == o && calls[i].kind == kind
      {
        if !(kind == call.kind && o == call.owner) {
          var i :| 0 <= i < |front| && front[i].owner == o && front[i].kind == kind;
          assert calls[i] == front[i];
        }
      }
    }
  }

  /** After any run of completed bindings a name has a fingerprint exactly when some owner binds
      it, and it is that of the server the config or the plugin view gives. */
  lemma {:induction false} FingerprintsFollowViews(calls: seq<BindCall>, n: Name)
    requires KindsAgree(calls)
    ensures ConsistentAt(BindAll(calls), n)
  {
    if calls != [] {
      var front, call := calls[..|calls| - 1], calls[|calls| - 1];
      FingerprintsFollowViews(front, n);
      RunIsWellFormed(front);
      assert forall i :: 0 <= i < |front| ==> front[i] == calls[i];
      assert !Binds(BindAll(front).Of(call.kind.Other()), call.owner);
      BindKeepsConsistent(BindAll(front), call.kind, call.owner, call.servers, n);
    }
  }

  /** When only one kind of catalog binds the name, it is exactly that view's server. */
  lemma LoneViewDecides(calls: seq<BindCall>, kind: Kind, n: Name)
    requires KindsAgree(calls)
    requires BindAll(calls).View(kind, n).Some? && BindAll(calls).View(kind.Other(), n).None?
    ensures Lookup(BindAll(calls).fingerprints, n) == Some(BindAll(calls).View(kind, n).value.Fingerprint())
  {
    FingerprintsFollowViews(calls, n);
  }
}
