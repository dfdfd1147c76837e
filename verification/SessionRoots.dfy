/**
 The root of a listed session, after `_session_roots` in vibe/app_server/_host.py.

 Sessions name their parents, and a parent may be missing from the list, be the session itself, or
 lead round in a circle.
 */
module SessionRoots {
  import opened Common

  /** The parent each listed session names. */
  type Parents = map<string, Option<string>>

  /** The parent, if it is listed too. */
  function ListedParent(parents: Parents, s: string): (p: Option<string>)
    ensures p.Some? ==> p.value in parents
  {
    if s in parents && parents[s].Some? && parents[s].value in parents then parents[s] else None
  }

  /** The listed ancestor `n` steps up. */
  function Ancestor(parents: Parents, s: string, n: nat): Option<string> {
    if n == 0 then Some(s)
    else
      var below := Ancestor(parents, s, n - 1);
      if below.None? then None else ListedParent(parents, below.value)
  }

  /** The chain of listed ancestors ends `n` steps up. */
  predicate EndsAt(parents: Parents, s: string, n: nat) {
    Ancestor(parents, s, n).Some? && ListedParent(parents, Ancestor(parents, s, n).value).None?
  }

  /** Following parents from `s` never ends: it runs into a cycle. */
  ghost predicate MeetsCycle(parents: Parents, s: string) {
    forall n: nat :: Ancestor(parents, s, n).Some?
  }

  /** What the code promises: the last listed ancestor, or the session itself on a cycle. */
  ghost predicate IsRoot(parents: Parents, s: string, root: string) {
    || (exists n: nat :: EndsAt(parents, s, n) && Ancestor(parents, s, n) == Some(root))
    || (MeetsCycle(parents, s) && root == s)
  }

  // ---------- chains

  lemma {:induction false} AncestorsCompose(parents: Parents, s: string, n: nat, m: nat)
    requires Ancestor(parents, s, n).Some?
    ensures Ancestor(parents, s, n + m) == Ancestor(parents, Ancestor(parents, s, n).value, m)
  {
    if m > 0 { AncestorsCompose(parents, s, n, m - 1); }
  }

  lemma {:induction false} NoGapsBelow(parents: Parents, s: string, n: nat, m: nat)
    requires m <= n && Ancestor(parents, s, n).Some?
    ensures Ancestor(parents, s, m).Some?
  {
    if m < n { NoGapsBelow(parents, s, n - 1, m); }
  }

  /** An ancestor met twice is met for ever. */
  lemma {:induction false} RepeatNeverEnds(parents: Parents, s: string, i: nat, j: nat, n: nat)
    requires i < j && Ancestor(parents, s, i).Some? && Ancestor(parents, s, i) == Ancestor(parents, s, j)
    ensures Ancestor(parents, s, n).Some?
    decreases n
  {
    if n <= j {
      NoGapsBelow(parents, s, j, n);
    } else {
      AncestorsCompose(parents, s, j, n - j);
      AncestorsCompose(parents, s, i, n - j);
      RepeatNeverEnds(parents, s, i, j, n - j + i);
    }
  }

  lemma ChainEndsOnce(parents: Parents, s: string, n: nat, m: nat)
    requires EndsAt(parents, s, n) && Ancestor(parents, s, m).Some?
    ensures m <= n
  {
    if m > n { NoGapsBelow(parents, s, m, n + 1); }
  }

  /** The promise picks out one root. */
  lemma RootIsUnique(parents: Parents, s: string, a: string, b: string)
    requires IsRoot(parents, s, a) && IsRoot(parents, s, b)
    ensures a == b
  {
    if n: nat :| EndsAt(parents, s, n) {
      assert Ancestor(parents, s, n + 1).None?;
      var i: nat :| EndsAt(parents, s, i) && Ancestor(parents, s, i) == Some(a);
      var j: nat :| EndsAt(parents, s, j) && Ancestor(parents, s, j) == Some(b);
      ChainEndsOnce(parents, s, i, j);
      ChainEndsOnce(parents, s, j, i);
    }
  }

  /** A session off any cycle and its listed parent have the same root. */
  lemma ParentSharesRoot(parents: Parents, child: string, n: nat, root: string)
    requires EndsAt(parents, child, n) && ListedParent(parents, child).Some?
    ensures IsRoot(parents, child, root) <==> IsRoot(parents, ListedParent(parents, child).value, root)
  {
    var parent := ListedParent(parents, child).value;
    assert Ancestor(parents, child, 1) == Some(parent) by { assert Ancestor(parents, child, 0) == Some(child); }
    assert n > 0;
    AncestorsCompose(parents, child, 1, n - 1);
    assert EndsAt(parents, parent, n - 1);
    assert IsRoot(parents, child, Ancestor(parents, child, n).value);
    assert IsRoot(parents, parent, Ancestor(parents, child, n).value);
    if IsRoot(parents, child, root) { RootIsUnique(parents, child, root, Ancestor(parents, child, n).value); }
    if IsRoot(parents, parent, root) { RootIsUnique(parents, parent, root, Ancestor(parents, child, n).value); }
  }

  // ---------- the walk

  /** The inner loop, for one session. */
  method SessionRoot(parents: Parents, session: string) returns (root: string)
    requires session in parents
    ensures IsRoot(parents, session, root)
  {
    var seen: set<string> := {};
    var current := session;
    ghost var n: nat := 0;
    while ListedParent(parents, current).Some?
      invariant current in parents && seen <= parents.Keys
      invariant Ancestor(parents, session, n) == Some(current)
      invariant forall x :: x in seen ==> exists i: nat :: i < n && Ancestor(parents, session, i) == Some(x)
      invariant current in seen ==> ListedParent(parents, current) == Some(current)
      decreases |parents.Keys - seen|
    {
      var parent := ListedParent(parents, current).value;
      assert Ancestor(parents, session, n + 1) == Some(parent);
      if parent in seen {
        ghost var i: nat :| i < n && Ancestor(parents, session, i) == Some(parent);
        forall m: nat ensures Ancestor(parents, session, m).Some? {
          RepeatNeverEnds(parents, session, i, n + 1, m);
        }
        return session;
      }
      assert parents.Keys - (seen + {current}) == (parents.Keys - seen) - {current};
      seen := seen + {current};
      current := parent;
      n := n + 1;
    }
    assert EndsAt(parents, session, n);
    root := current;
  }

  method SessionRoots(parents: Parents) returns (roots: map<string, string>)
    ensures roots.Keys == parents.Keys
    ensures forall s :: s in parents ==> IsRoot(parents, s, roots[s])
  {
    roots := map[];
    var todo := parents.Keys;
    while todo != {}
      invariant todo <= parents.Keys && roots.Keys == parents.Keys - todo
      invariant forall s :: s in roots ==> IsRoot(parents, s, roots[s])
      decreases todo
    {
      var session :| session in todo;
      var root := SessionRoot(parents, session);
      roots := roots[session := root];
      todo := todo - {session};
    }
  }
}
