/**
 What an edit leaves alone, and what the operations of vibe/app_server/_patch.py come to, in terms of
 what pointers find before and after (RFC 6901 section 4, RFC 6902 section 4).
 */
module JsonEdits {
  import opened Common
  import opened JsonPatch

  // ---------- indices

  function DigitOf(d: nat): char
    requires d < 10
  {
    (48 + d) as char
  }

  /** An index in decimal, without leading zeros. */
  function IndexToken(n: nat): string {
    if n < 10 then [DigitOf(n)] else IndexToken(n / 10) + [DigitOf(n % 10)]
  }

  lemma {:induction false} IndexTokenReads(n: nat)
    ensures var t := IndexToken(n);
            && t != "" && (forall i :: 0 <= i < |t| ==> IsDigit(t[i])) && DecimalValue(t) == n
            && (t[0] == '0' ==> n == 0 && |t| == 1)
  {
    var t := IndexToken(n);
    if n < 10 {
      assert t[..0] == "" && DigitValue(t[0]) == n;
    } else {
      IndexTokenReads(n / 10);
      assert t[..|t| - 1] == IndexToken(n / 10) && t[|t| - 1] == DigitOf(n % 10);
      assert DigitValue(t[|t| - 1]) == n % 10;
    }
  }

  lemma {:induction false} DecimalIsIndexToken(t: string)
    requires t != "" && (forall i :: 0 <= i < |t| ==> IsDigit(t[i])) && (t[0] == '0' ==> |t| == 1)
    ensures t == IndexToken(DecimalValue(t)) && (t[0] != '0' ==> DecimalValue(t) > 0)
  {
    var front, last := t[..|t| - 1], t[|t| - 1];
    assert t == front + [last] && DigitOf(DigitValue(last)) == last;
    if front == "" {
      assert DecimalValue(front) == 0;
    } else {
      DecimalIsIndexToken(front);
      TenTimes(DecimalValue(front), DigitValue(last));
    }
  }

  lemma TenTimes(n: nat, d: nat)
    requires d < 10
    ensures (10 * n + d) / 10 == n && (10 * n + d) % 10 == d
  {}

  /** A token names the element with that number if and only if it is the number in decimal. */
  lemma IndexIsDecimal(t: string, n: nat)
    ensures ArrayIndex(t) == Some(n) <==> t == IndexToken(n)
  {
    IndexTokenReads(n);
    if ArrayIndex(t).Some? { DecimalIsIndexToken(t); }
  }

  // ---------- what an edit does to the container its pointer ends in

  /** Where in an array the token points: its end for `-`. */
  function Position(items: seq<Json>, token: string): Option<nat> {
    if token == "-" then Some(|items|) else ArrayIndex(token)
  }

  /** The container has room for the addition, or has the place to remove or replace. */
  predicate CanEdit(container: Json, token: string, edit: Edit) {
    match container
    case Obj(fields) => edit.Adding? || token in fields
    case Arr(items) =>
      var at := Position(items, token);
      at.Some? && (at.value < |items| || (at.value == |items| && edit.Adding?)) && (token == "-" ==> edit.Adding?)
    case _ => false
  }

  /** An object differs at the token alone; an array has the rest of its elements in their order. */
  predicate ContainerAfter(before: Json, after: Json, token: string, edit: Edit) {
    match before
    case Obj(f) =>
      && after.Obj?
      && (token in after.fields <==> !edit.Removing?) && (!edit.Removing? ==> after.fields[token] == edit.value)
      && (forall k :: k in f && k != token ==> k in after.fields && after.fields[k] == f[k])
      && (forall k :: k in after.fields && k != token ==> k in f)
    case Arr(xs) =>
      && after.Arr? && Position(xs, token).Some?
      && var ys, at := after.items, Position(xs, token).value;
         (match edit
          case Adding(v) =>
            && at <= |xs| && |ys| == |xs| + 1 && ys[at] == v
            && (forall k :: 0 <= k < at ==> ys[k] == xs[k]) && (forall k :: at <= k < |xs| ==> ys[k + 1] == xs[k])
          case Removing =>
            && at < |xs| && |ys| == |xs| - 1
            && (forall k :: 0 <= k < at ==> ys[k] == xs[k]) && (forall k :: at < k < |xs| ==> ys[k - 1] == xs[k])
          case Replacing(v) =>
            at < |xs| && |ys| == |xs| && ys[at] == v && forall k :: 0 <= k < |xs| && k != at ==> ys[k] == xs[k])
    case _ => false
  }

  lemma EditHereDoes(doc: Json, token: string, edit: Edit)
    ensures EditHere(doc, token, edit).Some? <==> CanEdit(doc, token, edit)
    ensures CanEdit(doc, token, edit) ==> ContainerAfter(doc, EditHere(doc, token, edit).value, token, edit)
  {
    assert ArrayIndex("-").None?;
  }

  /** An edit succeeds if and only if its pointer's front finds a container that admits it, and then it
      does to that container what it is for. */
  lemma {:induction false} EditDoes(doc: Json, p: Pointer, edit: Edit)
    requires p != []
    ensures var front, token := p[..|p| - 1], p[|p| - 1];
            && (EditAt(doc, p, edit).Some? <==> Resolve(doc, front).Some? && CanEdit(Resolve(doc, front).value, token, edit))
            && (EditAt(doc, p, edit).Some? ==>
                  Resolve(EditAt(doc, p, edit).value, front).Some?
                  && ContainerAfter(Resolve(doc, front).value, Resolve(EditAt(doc, p, edit).value, front).value, token, edit))
  {
    hide ContainerAfter;
    hide CanEdit;
    var front := p[..|p| - 1];
    if |p| == 1 {
      EditHereDoes(doc, p[0], edit);
    } else if Child(doc, p[0]).Some? {
      var c, rest := Child(doc, p[0]).value, p[1..];
      EditDoes(c, rest, edit);
      assert rest[..|rest| - 1] == front[1..] && rest[|rest| - 1] == p[|p| - 1];
      if EditAt(c, rest, edit).Some? {
        ChildPutBack(doc, p[0], EditAt(c, rest, edit).value);
      }
    }
  }

  // ---------- what it leaves alone

  predicate Apart(p: Pointer, q: Pointer) { !(p <= q) && !(q <= p) }

  /** Where what `q` finds stands after the edit at `p`: an element behind an addition or a removal in
      the same array moves by one. */
  function MovedTo(doc: Json, p: Pointer, edit: Edit, q: Pointer): Pointer
    requires p != []
  {
    var n := |p| - 1;
    if |q| <= n || q[..n] != p[..n] || Resolve(doc, p[..n]).None? || !Resolve(doc, p[..n]).value.Arr? then q
    else
      var at, k := Position(Resolve(doc, p[..n]).value.items, p[n]), ArrayIndex(q[n]);
      if at.None? || k.None? then q
      else if edit.Adding? && k.value >= at.value then q[n := IndexToken(k.value + 1)]
      else if edit.Removing? && k.value > at.value then q[n := IndexToken(k.value - 1)]
      else q
  }

  lemma MovedDeeper(doc: Json, p: Pointer, edit: Edit, q: Pointer)
    requires |p| > 1 && q != [] && p[0] == q[0] && Child(doc, p[0]).Some?
    ensures MovedTo(doc, p, edit, q) == [q[0]] + MovedTo(Child(doc, p[0]).value, p[1..], edit, q[1..])
  {
    var n := |p| - 1;
    assert p[..n][1..] == p[1..][..n - 1] && p[..n][0] == p[0];
    if |q| > n {
      assert q[..n] == [q[0]] + q[1..][..n - 1] && p[..n] == [p[0]] + p[1..][..n - 1];
    }
    assert q == [q[0]] + q[1..];
  }

  lemma OtherChild(doc: Json, token: string, x: Json, other: string)
    requires Child(doc, token).Some? && token != other
    ensures Child(WithChild(doc, token, x), other) == Child(doc, other)
  {
    if doc.Arr? && ArrayIndex(other).Some? {
      IndexIsDecimal(token, ArrayIndex(token).value);
      IndexIsDecimal(other, ArrayIndex(other).value);
    }
  }

  lemma FrameHere(doc: Json, token: string, edit: Edit, q: Pointer)
    requires EditHere(doc, token, edit).Some? && q != [] && q[0] != token && Child(doc, q[0]).Some?
    ensures var moved := MovedTo(doc, [token], edit, q);
            moved != [] && moved[1..] == q[1..] && Child(EditHere(doc, token, edit).value, moved[0]) == Child(doc, q[0])
  {
    EditHereDoes(doc, token, edit);
    assert [token][..0] == [] && q[..0] == [];
    if doc.Arr? {
      var k := ArrayIndex(q[0]).value;
      IndexIsDecimal(q[0], k);
      IndexIsDecimal(IndexToken(k + 1), k + 1);
      if k > 0 { IndexIsDecimal(IndexToken(k - 1), k - 1); }
      if token != "-" { IndexIsDecimal(token, ArrayIndex(token).value); }
    }
  }

  /** What stands apart from an edit is found as before, an element behind an addition or a removal in the
      same array at an index one further or one nearer. */
  lemma {:induction false} EditLeavesAlone(doc: Json, p: Pointer, edit: Edit, q: Pointer)
    requires p != [] && EditAt(doc, p, edit).Some? && Apart(p, q) && Resolve(doc, q).Some?
    ensures Resolve(EditAt(doc, p, edit).value, MovedTo(doc, p, edit, q)) == Resolve(doc, q)
  {
    if |p| == 1 {
      assert p == [p[0]];
      FrameHere(doc, p[0], edit, q);
    } else {
      var c := Child(doc, p[0]).value;
      var after := EditAt(c, p[1..], edit).value;
      if q[0] == p[0] {
        assert p == [p[0]] + p[1..] && q == [q[0]] + q[1..];
        EditLeavesAlone(c, p[1..], edit, q[1..]);
        MovedDeeper(doc, p, edit, q);
        ChildPutBack(doc, p[0], after);
        assert MovedTo(doc, p, edit, q)[1..] == MovedTo(c, p[1..], edit, q[1..]);
      } else {
        OtherChild(doc, p[0], after, q[0]);
        if |q| > |p| - 1 { assert q[..|p| - 1][0] != p[..|p| - 1][0]; }
      }
    }
  }

  /** A replacement moves nothing. */
  lemma ReplacementLeavesAlone(doc: Json, p: Pointer, v: Json, q: Pointer)
    requires EditAt(doc, p, Replacing(v)).Some? && Apart(p, q) && Resolve(doc, q).Some?
    ensures Resolve(EditAt(doc, p, Replacing(v)).value, q) == Resolve(doc, q)
  {
    if p != [] { EditLeavesAlone(doc, p, Replacing(v), q); }
  }

  // ---------- the operations

  /** A test changes nothing, and passes if and only if the value is there. */
  lemma TestLooks(doc: Json, p: Pointer, v: Json)
    ensures ApplyOne(doc, TestOp(p, v)) == Ok(doc) || ApplyOne(doc, TestOp(p, v)).Err?
    ensures ApplyOne(doc, TestOp(p, v)).Ok? <==> Resolve(doc, p) == Some(v)
  {}

  lemma {:induction false} ResolveSnoc(doc: Json, p: Pointer)
    requires p != []
    ensures Resolve(doc, p) ==
            match Resolve(doc, p[..|p| - 1]) case None => None case Some(c) => Child(c, p[|p| - 1])
    decreases |p|
  {
    hide Child;
    if |p| == 1 {
      assert p[..0] == [] && p[1..] == [];
      assert Child(doc, p[0]).Some? ==> Resolve(Child(doc, p[0]).value, []) == Child(doc, p[0]);
    } else if Child(doc, p[0]).Some? {
      ResolveSnoc(Child(doc, p[0]).value, p[1..]);
      assert p[..|p| - 1][1..] == p[1..][..|p| - 2];
    }
  }

  lemma ReplaceHere(container: Json, token: string, v: Json)
    requires Child(container, token).Some?
    ensures CanEdit(container, token, Replacing(v))
    ensures forall after :: ContainerAfter(container, after, token, Replacing(v)) ==> Child(after, token) == Some(v)
  {
    assert ArrayIndex("-").None?;
  }

  /** What is found can be replaced, and then the new value is found there. */
  lemma FoundCanBeReplaced(doc: Json, p: Pointer, v: Json)
    requires Resolve(doc, p).Some?
    ensures var after := EditAt(doc, p, Replacing(v)); after.Some? && Resolve(after.value, p) == Some(v)
  {
    if p != [] {
      ResolveSnoc(doc, p);
      ReplaceHere(Resolve(doc, p[..|p| - 1]).value, p[|p| - 1], v);
      EditDoes(doc, p, Replacing(v));
      hide *;
      ResolveSnoc(EditAt(doc, p, Replacing(v)).value, p);
    }
  }

  /** An append needs strings on both sides and joins them, the old one in front; all else stays. */
  lemma AppendJoins(doc: Json, p: Pointer, v: Json, q: Pointer)
    ensures var r := ApplyOne(doc, AppendOp(p, v));
            && (r.Ok? <==> v.Str? && Resolve(doc, p).Some? && Resolve(doc, p).value.Str?)
            && (r.Ok? ==> Resolve(r.value, p) == Some(Str(Resolve(doc, p).value.s + v.s)))
            && (r.Ok? && Apart(p, q) && Resolve(doc, q).Some? ==> Resolve(r.value, q) == Resolve(doc, q))
  {
    if v.Str? && Resolve(doc, p).Some? && Resolve(doc, p).value.Str? {
      var joined := Str(Resolve(doc, p).value.s + v.s);
      FoundCanBeReplaced(doc, p, joined);
      if Apart(p, q) && Resolve(doc, q).Some? { ReplacementLeavesAlone(doc, p, joined, q); }
    }
  }

  /** A move or a copy puts at its path what it found where it came from. */
  lemma MoveBrings(doc: Json, from: Pointer, path: Pointer)
    requires path == [] || path[|path| - 1] != "-"
    ensures var r := RawApply(doc, Move(from, path));
            r.Ok? ==> Resolve(doc, from).Some? && Resolve(r.value, path) == Resolve(doc, from)
    ensures var r := RawApply(doc, Copy(from, path));
            r.Ok? ==> Resolve(doc, from).Some? && Resolve(r.value, path) == Resolve(doc, from)
  {
    if RawApply(doc, Move(from, path)).Ok? {
      EditReadsBack(EditAt(doc, from, Removing).value, path, Adding(Resolve(doc, from).value));
    }
    if RawApply(doc, Copy(from, path)).Ok? { EditReadsBack(doc, path, Adding(Resolve(doc, from).value)); }
  }

  /** Taking a value away and putting it back where it was. */
  lemma {:induction false} RemoveThenAdd(doc: Json, p: Pointer)
    requires p != [] && Resolve(doc, p).Some?
    ensures var without := EditAt(doc, p, Removing);
            without.Some? && EditAt(without.value, p, Adding(Resolve(doc, p).value)) == Some(doc)
  {
    var c := Child(doc, p[0]).value;
    if |p| == 1 {
      assert p[1..] == [];
      PutBackHere(doc, p[0]);
    } else {
      RemoveThenAdd(c, p[1..]);
      ChildPutBack(doc, p[0], EditAt(c, p[1..], Removing).value);
    }
  }

  lemma PutBackHere(doc: Json, token: string)
    requires Child(doc, token).Some?
    ensures var without := EditHere(doc, token, Removing);
            without.Some? && EditHere(without.value, token, Adding(Child(doc, token).value)) == Some(doc)
  {
    match doc
    case Obj(fields) => assert (fields - {token})[token := fields[token]] == fields;
    case Arr(items) =>
      var i := ArrayIndex(token).value;
      assert ArrayIndex("-").None?;
      var rest := items[..i] + items[i + 1..];
      assert rest[..i] + [items[i]] + rest[i..] == items;
  }

  /** A move onto its own place changes nothing; one into what it moves fails. */
  lemma MoveOntoItself(doc: Json, from: Pointer, path: Pointer)
    requires Resolve(doc, from).Some?
    ensures from == path != [] ==> RawApply(doc, Move(from, path)) == Ok(doc)
    ensures from < path ==> RawApply(doc, Move(from, path)).Err?
  {
    if from == path != [] { RemoveThenAdd(doc, from); }
  }
}
