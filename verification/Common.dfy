/** Vocabulary shared by every module of the model. */
module Common {

  /** A value that may be absent: Python's `None`. */
  datatype Option<+T> = None | Some(value: T)

  /** A call that returns or raises. */
  datatype Result<+T, +E> = Ok(value: T) | Err(error: E)

  lemma SliceOfTail<T>(a: seq<T>, b: seq<T>, k: nat, j: nat)
    requires |a| <= k <= j <= |a| + |b|
    ensures (a + b)[k..j] == b[k - |a|..j - |a|]
  {}

  lemma UpdateBeforeTail<T>(a: seq<T>, b: seq<T>, i: nat, x: T)
    requires i < |a|
    ensures (a + b)[i := x] == a[i := x] + b
  {}

  lemma ConcatAssociates<T>(a: seq<T>, b: seq<T>, c: seq<T>)
    ensures a + (b + c) == a + b + c
  {}

  lemma TailOfConcat<T>(first: seq<T>, last: seq<T>)
    requires first != []
    ensures (first + last)[1..] == first[1..] + last && (first + last)[0] == first[0]
  {}

  /** The first `n` parts, one after the other. */
  function Flatten<T>(parts: seq<seq<T>>, n: nat): seq<T>
    requires n <= |parts|
  {
    if n == 0 then [] else Flatten(parts, n - 1) + parts[n - 1]
  }

  lemma {:induction false} FlattenGrows<T>(parts: seq<seq<T>>, k: nat, n: nat)
    requires k <= n <= |parts|
    ensures Flatten(parts, k) <= Flatten(parts, n)
  {
    if k < n { FlattenGrows(parts, k, n - 1); }
  }

  lemma {:induction false} FlattenAgrees<T>(a: seq<seq<T>>, b: seq<seq<T>>, n: nat)
    requires n <= |a| && n <= |b| && forall i :: 0 <= i < n ==> a[i] == b[i]
    ensures Flatten(a, n) == Flatten(b, n)
  {
    if n > 0 { FlattenAgrees(a, b, n - 1); }
  }
}
