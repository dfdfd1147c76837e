/** The few Python string operations the modelled code leans on. */
module Strings {
  import opened Common

  /** `s.split(c)`. */
  function Split(s: string, c: char): (parts: seq<string>)
    ensures parts != []
  {
    if s == "" then [""]
    else
      var rest := Split(s[1..], c);
      if s[0] == c then [""] + rest else [[s[0]] + rest[0]] + rest[1..]
  }

  /** `c.join(parts)`. */
  function Join(parts: seq<string>, c: char): string {
    if parts == [] then "" else if |parts| == 1 then parts[0] else parts[0] + [c] + Join(parts[1..], c)
  }

  lemma {:induction false} SplitNothing(s: string, c: char)
    requires c !in s
    ensures Split(s, c) == [s]
  {
    if s != "" {
      SplitNothing(s[1..], c);
      assert [s[0]] + s[1..] == s;
    }
  }

  lemma SplitCons(x: char, s: string, c: char)
    ensures Split([x] + s, c) ==
            if x == c then [""] + Split(s, c) else [[x] + Split(s, c)[0]] + Split(s, c)[1..]
  {
    assert ([x] + s)[1..] == s;
  }

  lemma {:induction false} SplitConcat(a: string, b: string, c: char)
    ensures Split(a + [c] + b, c) == Split(a, c) + Split(b, c)
  {
    if a == "" {
      assert a + [c] + b == [c] + b;
      SplitCons(c, b, c);
    } else {
      var tail := a[1..] + [c] + b;
      assert a + [c] + b == [a[0]] + tail && a == [a[0]] + a[1..];
      SplitConcat(a[1..], b, c);
      SplitCons(a[0], tail, c);
      SplitCons(a[0], a[1..], c);
      var first, last := Split(a[1..], c), Split(b, c);
      TailOfConcat(first, last);
      ConcatAssociates([""], first, last);
      ConcatAssociates([[a[0]] + first[0]], first[1..], last);
    }
  }

  /** Every part `split` gives is free of the separator. */
  lemma {:induction false} PartsAreFree(s: string, c: char)
    ensures forall i :: 0 <= i < |Split(s, c)| ==> c !in Split(s, c)[i]
  {
    if s != "" { PartsAreFree(s[1..], c); }
  }

  /** `s.partition(c)`, when `c` occurs: what comes before its first occurrence and after it. */
  function Partition(s: string, c: char): Option<(string, string)> {
    if s == "" then None
    else if s[0] == c then Some(("", s[1..]))
    else match Partition(s[1..], c)
      case None => None
      case Some((before, after)) => Some(([s[0]] + before, after))
  }

  lemma {:induction false} PartitionConcat(a: string, b: string, c: char)
    requires c !in a
    ensures Partition(a + [c] + b, c) == Some((a, b))
  {
    var whole := a + [c] + b;
    if a == "" {
      assert whole == [c] + b && whole[1..] == b;
    } else {
      PartitionConcat(a[1..], b, c);
      assert whole[1..] == a[1..] + [c] + b;
      assert whole[0] == a[0] && [a[0]] + a[1..] == a;
    }
  }

  /** `s.rstrip(c)`. */
  function TrimRight(s: string, c: char): string {
    if s != "" && s[|s| - 1] == c then TrimRight(s[..|s| - 1], c) else s
  }

  /** Stripping takes off a tail of nothing but that character, and stops there. */
  lemma {:induction false} TrimRightAll(s: string, c: char, tail: string)
    requires c !in s && forall i :: 0 <= i < |tail| ==> tail[i] == c
    ensures TrimRight(s + tail, c) == s
  {
    if tail == "" {
      assert s + tail == s;
    } else {
      assert (s + tail)[..|s + tail| - 1] == s + tail[..|tail| - 1];
      TrimRightAll(s, c, tail[..|tail| - 1]);
    }
  }
}
