/**
 Credential redaction, after vibe/app_server/_provider_auth.py.

 `_secret_pattern` turns a secret into a regular expression and `_redact_secrets` substitutes a
 marker for every match, one secret after another.  The pattern is modelled as the sequence of
 its groups, each a list of literal alternatives, and matching as the backtracking search a
 regular-expression engine performs: alternatives from left to right, matches from left to right.
 */
module ProviderAuth {
  import opened Common
  import opened Encoding

  // ---------- characters and percent encoding

  /** ASCII case folding. */
  function Fold(c: char): char {
    if 'A' <= c <= 'Z' then c - 'A' + 'a' else c
  }

  predicate SameFold(a: string, b: string) {
    |a| == |b| && forall i :: 0 <= i < |a| ==> Fold(a[i]) == Fold(b[i])
  }

  const HEX_DIGITS := "0123456789abcdef"

  /** The value of a hexadecimal digit of either case. */
  function HexValue(c: char): (r: Option<nat>)
    ensures r.Some? ==> r.value < 16
  {
    if '0' <= c <= '9' then Some((c - '0') as nat)
    else if 'a' <= c <= 'f' then Some((c - 'a') as nat + 10)
    else if 'A' <= c <= 'F' then Some((c - 'A') as nat + 10)
    else None
  }

  /** Lower-case percent encoding of one byte and of a run of bytes. */
  function EncodedByte(b: nat): string
    requires b < 256
  {
    ['%', HEX_DIGITS[b / 16], HEX_DIGITS[b % 16]]
  }

  function PercentEncode(bytes: seq<nat>): (s: string)
    requires forall i :: 0 <= i < |bytes| ==> bytes[i] < 256
    ensures |s| == 3 * |bytes|
  {
    if bytes == [] then "" else EncodedByte(bytes[0]) + PercentEncode(bytes[1..])
  }

  /** What percent decoding (RFC 3986, section 2.1) makes of `s`: its bytes, with hex digits of
      either case, or nothing when `s` is not wholly percent-encoded. */
  function PercentDecode(s: string): Option<seq<nat>> {
    if s == "" then Some([])
    else if |s| < 3 || s[0] != '%' || HexValue(s[1]) == None || HexValue(s[2]) == None then None
    else match PercentDecode(s[3..])
      case None => None
      case Some(rest) => Some([HexValue(s[1]).value * 16 + HexValue(s[2]).value] + rest)
  }

  // ---------- what counts as a spelling of a secret

  /** `t` stands for the character `c`: raw in either case, percent-encoded, or `+` for a space. */
  predicate SpellsChar(c: char, t: string) {
    || (|t| == 1 && Fold(t[0]) == Fold(c))
    || PercentDecode(t) == Some(Utf8(c))
    || (c == ' ' && t == "+")
  }

  /** `t` is the secret with every character spelled in one of those ways. */
  ghost predicate Spells(secret: string, t: string) {
    if secret == "" then t == ""
    else exists n :: 0 <= n <= |t| && SpellsChar(secret[0], t[..n]) && Spells(secret[1..], t[n..])
  }

  /** A spelling of the secret starts at position `i` of `v`. */
  ghost predicate OccursAt(secret: string, v: string, i: nat) {
    exists j :: i <= j <= |v| && Spells(secret, v[i..j])
  }

  ghost predicate Occurs(secret: string, v: string) {
    exists i :: 0 <= i <= |v| && OccursAt(secret, v, i)
  }

  // ---------- the pattern

  type Pattern = seq<seq<string>>

  /** The alternatives of one group, in the order the pattern lists them. */
  function Alternatives(c: char): seq<string> {
    if c == ' ' then [[c], PercentEncode(Utf8(c)), "+"] else [[c], PercentEncode(Utf8(c))]
  }

  function PatternOf(secret: string): Pattern {
    if secret == "" then [] else [Alternatives(secret[0])] + PatternOf(secret[1..])
  }

  lemma {:induction false} PatternOfSnoc(secret: string, c: char)
    ensures PatternOf(secret + [c]) == PatternOf(secret) + [Alternatives(c)]
  {
    if secret == "" {
      assert "" + [c] == [c] && [c][1..] == "";
    } else {
      PatternOfSnoc(secret[1..], c);
      assert (secret + [c])[1..] == secret[1..] + [c];
    }
  }

  method SecretPattern(secret: string) returns (parts: Pattern)
    ensures parts == PatternOf(secret)
  {
    parts := [];
    for k := 0 to |secret|
      invariant parts == PatternOf(secret[..k])
    {
      var alternatives := [[secret[k]], PercentEncode(Utf8(secret[k]))];
      if secret[k] == ' ' {
        alternatives := alternatives + ["+"];
      }
      parts := parts + [alternatives];
      assert alternatives == Alternatives(secret[k]);
      assert secret[..k + 1] == secret[..k] + [secret[k]];
      PatternOfSnoc(secret[..k], secret[k]);
    }
    assert secret[..|secret|] == secret;
  }

  // ---------- matching

  predicate Consuming(parts: Pattern) {
    forall i, j :: 0 <= i < |parts| && 0 <= j < |parts[i]| ==> parts[i][j] != ""
  }

  predicate LiteralAt(literal: string, v: string, p: nat) {
    p + |literal| <= |v| && SameFold(literal, v[p..p + |literal|])
  }

  /** Backtracking match of the pattern at position `p`: where the match ends. */
  function MatchAt(parts: Pattern, v: string, p: nat): (r: Option<nat>)
    requires p <= |v|
    ensures r.Some? ==> p <= r.value <= |v|
    ensures r.Some? && Consuming(parts) ==> p + |parts| <= r.value
    decreases |parts|, 1, 0
  {
    if parts == [] then Some(p) else TryAlternatives(parts[0], parts[1..], v, p)
  }

  function TryAlternatives(alternatives: seq<string>, rest: Pattern, v: string, p: nat): (r: Option<nat>)
    requires p <= |v|
    ensures r.Some? ==> p <= r.value <= |v|
    ensures r.Some? && Consuming(rest) && "" !in alternatives ==> p + 1 + |rest| <= r.value
    decreases |rest| + 1, 0, |alternatives|
  {
    if alternatives == [] then None
    else
      var first := if LiteralAt(alternatives[0], v, p) then MatchAt(rest, v, p + |alternatives[0]|) else None;
      if first.Some? then first else TryAlternatives(alternatives[1..], rest, v, p)
  }

  const REDACTED := "[redacted]"

  /** Leftmost, non-overlapping substitution in `v[p..]`. */
  function Substitute(parts: Pattern, v: string, p: nat): string
    requires p <= |v| && parts != [] && Consuming(parts)
    decreases |v| - p
  {
    if p == |v| then ""
    else match MatchAt(parts, v, p)
      case Some(q) => REDACTED + Substitute(parts, v, q)
      case None => [v[p]] + Substitute(parts, v, p + 1)
  }

  // ---------- the matcher finds exactly the spellings

  lemma SameFoldSplit(a: string, b: string, n: nat)
    requires n <= |a| == |b|
    ensures SameFold(a, b) <==> SameFold(a[..n], b[..n]) && SameFold(a[n..], b[n..])
  {
    if SameFold(a[..n], b[..n]) && SameFold(a[n..], b[n..]) {
      forall i | 0 <= i < |a| ensures Fold(a[i]) == Fold(b[i]) {
        if i < n { assert a[i] == a[..n][i] && b[i] == b[..n][i]; }
        else { assert a[i] == a[n..][i - n] && b[i] == b[n..][i - n]; }
      }
    }
  }

  lemma HexDigitFolds(n: nat, c: char)
    requires n < 16
    ensures Fold(HEX_DIGITS[n]) == Fold(c) <==> HexValue(c) == Some(n)
  {
    assert HEX_DIGITS[n] == if n < 10 then '0' + n as char else 'a' + (n - 10) as char;
  }

  lemma EncodedByteDecodes(b: nat, t: string)
    requires b < 256 && |t| == 3
    ensures SameFold(EncodedByte(b), t) <==>
            t[0] == '%' && HexValue(t[1]) == Some(b / 16) && HexValue(t[2]) == Some(b % 16)
  {
    HexDigitFolds(b / 16, t[1]);
    HexDigitFolds(b % 16, t[2]);
    var e := EncodedByte(b);
    assert e[0] == '%' && e[1] == HEX_DIGITS[b / 16] && e[2] == HEX_DIGITS[b % 16];
  }

  lemma ByteOfDigits(high: nat, low: nat, b: nat)
    requires high < 16 && low < 16
    ensures high * 16 + low == b <==> high == b / 16 && low == b % 16
  {}

  lemma {:induction false} PercentDecodeCons(bytes: seq<nat>, t: string)
    requires bytes != [] && bytes[0] < 256 && |t| >= 3
    ensures PercentDecode(t) == Some(bytes) <==>
            SameFold(EncodedByte(bytes[0]), t[..3]) && PercentDecode(t[3..]) == Some(bytes[1..])
  {
    EncodedByteDecodes(bytes[0], t[..3]);
    if t[0] == '%' && HexValue(t[1]).Some? && HexValue(t[2]).Some? && PercentDecode(t[3..]).Some? {
      var b := HexValue(t[1]).value * 16 + HexValue(t[2]).value;
      ByteOfDigits(HexValue(t[1]).value, HexValue(t[2]).value, bytes[0]);
      assert PercentDecode(t).value == [b] + PercentDecode(t[3..]).value;
      assert bytes == [bytes[0]] + bytes[1..];
    }
  }

  /** Spelling a character with either hex case is the same as decoding to its bytes. */
  lemma {:induction false} PercentEncodeDecodes(bytes: seq<nat>, t: string)
    requires forall i :: 0 <= i < |bytes| ==> bytes[i] < 256
    ensures SameFold(PercentEncode(bytes), t) <==> PercentDecode(t) == Some(bytes)
  {
    PercentDecodeLength(t);
    if bytes != [] && |t| == 3 * |bytes| {
      var e := PercentEncode(bytes);
      assert e[..3] == EncodedByte(bytes[0]) && e[3..] == PercentEncode(bytes[1..]);
      PercentEncodeDecodes(bytes[1..], t[3..]);
      PercentDecodeCons(bytes, t);
      SameFoldSplit(e, t, 3);
    }
  }

  lemma PercentDecodeLength(t: string)
    ensures PercentDecode(t).Some? ==> |t| == 3 * |PercentDecode(t).value|
  {}

  /** One group matches at `p` exactly the spellings of its character. */
  lemma AlternativeSpells(c: char, literal: string, v: string, p: nat)
    requires literal in Alternatives(c) && LiteralAt(literal, v, p)
    ensures literal != "" && SpellsChar(c, v[p..p + |literal|])
  {
    PercentEncodeDecodes(Utf8(c), v[p..p + |literal|]);
    if literal == "+" && c == ' ' {
      assert v[p..p + 1] == [v[p]];
      assert Fold(v[p]) == '+';
    }
  }

  lemma FoldsAlone(c: char, t: string)
    requires |t| == 1 && Fold(t[0]) == Fold(c)
    ensures SameFold([c], t)
  {}

  lemma FoldsAlike(a: string, b: string)
    requires SameFold(a, b)
    ensures |a| == |b|
  {}

  lemma SpellingIsAlternative(c: char, v: string, p: nat, q: nat) returns (literal: string)
    requires p <= q <= |v| && SpellsChar(c, v[p..q])
    ensures literal in Alternatives(c) && LiteralAt(literal, v, p) && p + |literal| == q
  {
    hide Utf8;
    hide PercentDecode;
    hide PercentEncode;
    hide SameFold;
    var t := v[p..q];
    PercentEncodeDecodes(Utf8(c), t);
    if |t| == 1 && Fold(t[0]) == Fold(c) {
      literal := [c];
      FoldsAlone(c, t);
      assert literal == Alternatives(c)[0];
    } else if PercentDecode(t) == Some(Utf8(c)) {
      literal := PercentEncode(Utf8(c));
      FoldsAlike(literal, t);
      assert literal == Alternatives(c)[1];
    } else {
      literal := "+";
      FoldsAlone('+', t);
      assert literal == Alternatives(c)[2];
    }
  }

  lemma {:induction false} PatternConsumes(secret: string)
    ensures Consuming(PatternOf(secret)) && |PatternOf(secret)| == |secret|
  {
    if secret != "" { PatternConsumes(secret[1..]); }
  }

  lemma SpellsCons(secret: string, v: string, p: nat, m: nat, q: nat)
    requires p <= m <= q <= |v| && secret != ""
    requires SpellsChar(secret[0], v[p..m]) && Spells(secret[1..], v[m..q])
    ensures Spells(secret, v[p..q])
  {
    hide SpellsChar;
    var t := v[p..q];
    assert t[..m - p] == v[p..m] && t[m - p..] == v[m..q];
  }

  /** A match the engine reports is a spelling of the secret. */
  lemma {:induction false} MatchIsSpelling(secret: string, v: string, p: nat)
    requires p <= |v| && MatchAt(PatternOf(secret), v, p).Some?
    ensures Spells(secret, v[p..MatchAt(PatternOf(secret), v, p).value])
    decreases |secret|, 1, 0
  {
    if secret != "" {
      AlternativeIsSpelling(secret, Alternatives(secret[0]), v, p);
    }
  }

  lemma {:induction false} AlternativeIsSpelling(secret: string, alternatives: seq<string>, v: string, p: nat)
    requires p <= |v| && secret != "" && forall a :: a in alternatives ==> a in Alternatives(secret[0])
    requires TryAlternatives(alternatives, PatternOf(secret[1..]), v, p).Some?
    ensures Spells(secret, v[p..TryAlternatives(alternatives, PatternOf(secret[1..]), v, p).value])
    decreases |secret|, 0, |alternatives|
  {
    hide Alternatives;
    hide SpellsChar;
    var rest := PatternOf(secret[1..]);
    var literal := alternatives[0];
    if LiteralAt(literal, v, p) && MatchAt(rest, v, p + |literal|).Some? {
      var q := MatchAt(rest, v, p + |literal|).value;
      AlternativeSpells(secret[0], literal, v, p);
      MatchIsSpelling(secret[1..], v, p + |literal|);
      SpellsCons(secret, v, p, p + |literal|, q);
    } else {
      AlternativeIsSpelling(secret, alternatives[1..], v, p);
    }
  }

  lemma MatchesNothing(v: string, p: nat)
    requires p <= |v|
    ensures MatchAt(PatternOf(""), v, p) == Some(p)
  {}

  lemma NextGroupMatches(secret: string, v: string, p: nat, n: nat)
    requires secret != "" && p + n <= |v| && SpellsChar(secret[0], v[p..p + n])
    requires MatchAt(PatternOf(secret[1..]), v, p + n).Some?
    ensures MatchAt(PatternOf(secret), v, p).Some?
  {
    hide *;
    var literal := SpellingIsAlternative(secret[0], v, p, p + n);
    FirstGroupMatches(secret, literal, v, p);
  }

  /** Wherever a spelling starts, the engine reports a match. */
  lemma {:induction false} SpellingIsMatched(secret: string, v: string, p: nat, q: nat)
    requires p <= q <= |v| && Spells(secret, v[p..q])
    ensures MatchAt(PatternOf(secret), v, p).Some?
  {
    hide *;
    if secret == "" {
      MatchesNothing(v, p);
    } else {
      var n := FirstSpelled(secret, v, p, q);
      SpellingIsMatched(secret[1..], v, p + n, q);
      NextGroupMatches(secret, v, p, n);
    }
  }

  lemma FirstGroupMatches(secret: string, literal: string, v: string, p: nat)
    requires secret != "" && p <= |v| && literal in Alternatives(secret[0])
    requires LiteralAt(literal, v, p) && MatchAt(PatternOf(secret[1..]), v, p + |literal|).Some?
    ensures MatchAt(PatternOf(secret), v, p).Some?
  {
    hide Alternatives;
    hide LiteralAt;
    var parts := PatternOf(secret);
    assert parts[0] == Alternatives(secret[0]) && parts[1..] == PatternOf(secret[1..]);
    SomeAlternativeMatches(parts[0], literal, parts[1..], v, p);
  }

  lemma FirstSpelled(secret: string, v: string, p: nat, q: nat) returns (n: nat)
    requires secret != "" && p <= q <= |v| && Spells(secret, v[p..q])
    ensures p + n <= q && SpellsChar(secret[0], v[p..p + n]) && Spells(secret[1..], v[p + n..q])
  {
    hide SpellsChar;
    var t := v[p..q];
    n :| 0 <= n <= |t| && SpellsChar(secret[0], t[..n]) && Spells(secret[1..], t[n..]);
    assert t[..n] == v[p..p + n] && t[n..] == v[p + n..q];
  }

  lemma {:induction false} SomeAlternativeMatches(
    alternatives: seq<string>, literal: string, rest: Pattern, v: string, p: nat)
    requires p <= |v| && literal in alternatives
    requires LiteralAt(literal, v, p) && MatchAt(rest, v, p + |literal|).Some?
    ensures TryAlternatives(alternatives, rest, v, p).Some?
  {
    if alternatives[0] != literal {
      SomeAlternativeMatches(alternatives[1..], literal, rest, v, p);
    }
  }

  /** The pattern of a secret matches at a position exactly when a spelling starts there. */
  lemma MatchesExactlySpellings(secret: string, v: string, p: nat)
    requires p <= |v|
    ensures MatchAt(PatternOf(secret), v, p).Some? <==> OccursAt(secret, v, p)
  {
    if MatchAt(PatternOf(secret), v, p).Some? { MatchIsSpelling(secret, v, p); }
    if OccursAt(secret, v, p) {
      var q :| p <= q <= |v| && Spells(secret, v[p..q]);
      SpellingIsMatched(secret, v, p, q);
    }
  }

  // ---------- no spelling survives

  predicate BracketFree(s: string) { '[' !in s && ']' !in s }

  /** Laid over the marker with its start at position `d`, before it, in it or, seen from its end, past
      it, the secret agrees with the marker's text wherever they meet. */
  predicate Agrees(secret: string, d: int) {
    forall i :: 0 <= i < |secret| && 0 <= i + d < |REDACTED| ==> Fold(secret[i]) == Fold(REDACTED[i + d])
  }

  /** Some way of laying the two over each other agrees. */
  predicate Overlaps(secret: string) {
    exists d :: -|secret| < d < |REDACTED| && Agrees(secret, d)
  }

  /** The secret, in some case, is part of the marker's own text. */
  predicate InMarker(secret: string) {
    exists i, j :: 0 <= i <= j <= |REDACTED| && SameFold(secret, REDACTED[i..j])
  }

  lemma {:induction false} PercentEncodedIsBracketFree(t: string)
    requires PercentDecode(t).Some?
    ensures BracketFree(t) && (t != "" ==> t[0] == '%')
  {
    if t != "" {
      PercentEncodedIsBracketFree(t[3..]);
      assert t == [t[0], t[1], t[2]] + t[3..];
    }
  }

  lemma CharIsSpelledWithSomething(c: char, t: string)
    requires SpellsChar(c, t)
    ensures t != ""
  {
    hide Utf8;
    assert Utf8(c) != [];
  }

  lemma {:induction false} SpellingIsLong(secret: string, t: string)
    requires Spells(secret, t)
    ensures |secret| <= |t|
  {
    if secret != "" {
      hide SpellsChar;
      var n :| 0 <= n <= |t| && SpellsChar(secret[0], t[..n]) && Spells(secret[1..], t[n..]);
      hide Spells;
      CharIsSpelledWithSomething(secret[0], t[..n]);
      SpellingIsLong(secret[1..], t[n..]);
    }
  }

  /** A character whose spelling starts without `%` or `+`, or has a bracket in it, is spelled raw. */
  lemma CharSpelledRaw(c: char, t: string)
    requires SpellsChar(c, t) && t != "" && ((t[0] != '%' && t[0] != '+') || '[' in t)
    ensures |t| == 1 && Fold(t[0]) == Fold(c)
  {
    hide Utf8;
    if PercentDecode(t).Some? { PercentEncodedIsBracketFree(t); }
  }

  lemma CharSpelledPlainly(c: char, t: string)
    requires SpellsChar(c, t) && '%' !in t && '+' !in t
    ensures |t| == 1 && Fold(t[0]) == Fold(c)
  {
    hide Utf8;
    if PercentDecode(t).Some? { PercentEncodedIsBracketFree(t); }
    assert t != "" ==> t[0] in t;
    assert Utf8(c) != [];
  }

  /** A spelling with no `%` and no `+` is the secret itself, up to case. */
  lemma {:induction false} PlainSpelling(secret: string, t: string)
    requires Spells(secret, t) && '%' !in t && '+' !in t
    ensures SameFold(secret, t)
  {
    if secret != "" {
      hide SpellsChar;
      var n :| 0 <= n <= |t| && SpellsChar(secret[0], t[..n]) && Spells(secret[1..], t[n..]);
      hide Spells;
      CharSpelledPlainly(secret[0], t[..n]);
      PlainSpelling(secret[1..], t[n..]);
      SameFoldSplit(secret, t, 1);
    }
  }

  lemma SpelledOtherwise(secret: string, t: string)
    requires '%' !in t && '+' !in t
    ensures Spells(secret, t) ==> SameFold(secret, t)
  {
    if Spells(secret, t) { PlainSpelling(secret, t); }
  }

  lemma MarkerText()
    ensures |REDACTED| == 10 && REDACTED[0] == '[' && REDACTED[9] == ']'
    ensures '%' !in REDACTED && '+' !in REDACTED
  {
    assert REDACTED == ['[', 'r', 'e', 'd', 'a', 'c', 't', 'e', 'd', ']'];
  }

  /** The text `u` runs along the marker from its position `m` on, as far as both go. */
  predicate RunsAlong(u: string, m: nat) {
    forall x :: 0 <= x < |u| && m + x < |REDACTED| ==> u[x] == REDACTED[m + x]
  }

  /** A character spelled where the marker runs is spelled by the marker's character. */
  lemma RunsRaw(c: char, u: string, n: nat, m: nat)
    requires n <= |u| && SpellsChar(c, u[..n]) && RunsAlong(u, m) && m < |REDACTED|
    ensures n == 1 && Fold(c) == Fold(REDACTED[m])
  {
    hide SpellsChar;
    MarkerText();
    CharIsSpelledWithSomething(c, u[..n]);
    assert u[..n][0] == u[0] == REDACTED[m] && REDACTED[m] in REDACTED;
    CharSpelledRaw(c, u[..n]);
  }

  lemma AgreesFromFirst(s: string, m: nat)
    requires s != "" && m < |REDACTED| && Fold(s[0]) == Fold(REDACTED[m]) && Agrees(s[1..], m + 1)
    ensures Agrees(s, m)
  {
    forall i | 0 <= i < |s| && i + m < |REDACTED| ensures Fold(s[i]) == Fold(REDACTED[i + m]) {
      if i > 0 { assert s[i] == s[1..][i - 1]; }
    }
  }

  lemma RunsOn(u: string, m: nat)
    requires u != "" && RunsAlong(u, m)
    ensures RunsAlong(u[1..], m + 1)
  {
    forall x | 0 <= x < |u[1..]| && m + 1 + x < |REDACTED| ensures u[1..][x] == REDACTED[m + 1 + x] {
      assert u[x + 1] == REDACTED[m + (x + 1)];
    }
  }

  /** A spelling that runs along the marker spells it raw. */
  lemma {:induction false} SpelledFromMarker(s: string, u: string, m: nat)
    requires Spells(s, u) && RunsAlong(u, m)
    ensures Agrees(s, m)
  {
    if s != "" && m < |REDACTED| {
      hide SpellsChar;
      hide Agrees;
      hide RunsAlong;
      var n :| 0 <= n <= |u| && SpellsChar(s[0], u[..n]) && Spells(s[1..], u[n..]);
      hide Spells;
      RunsRaw(s[0], u, n, m);
      RunsOn(u, m);
      SpelledFromMarker(s[1..], u[1..], m + 1);
      AgreesFromFirst(s, m);
    }
  }

  /** One character further in, the marker lies one place further along the secret. */
  lemma AgreesLater(s: string, d: int)
    requires s != "" && d <= 0 && Agrees(s[1..], d)
    ensures Agrees(s, d - 1)
  {
    forall i | 0 <= i < |s| && 0 <= i + (d - 1) < |REDACTED|
      ensures Fold(s[i]) == Fold(REDACTED[i + (d - 1)])
    {
      assert s[i] == s[1..][i - 1];
    }
  }

  /** A character's spelling that a marker begins inside of is a raw bracket. */
  lemma MarkerStartsRaw(c: char, u: string, n: nat, p: nat)
    requires p < n <= |u| && u[p] == '[' && SpellsChar(c, u[..n])
    ensures p == 0
  {
    hide SpellsChar;
    assert u[..n][p] == u[p];
    assert '[' in u[..n];
    CharSpelledRaw(c, u[..n]);
  }

  /** A spelling that a marker begins inside of agrees with it from there on. */
  lemma {:induction false} SpelledAcrossMarker(s: string, u: string, p: nat)
    requires Spells(s, u) && p < |u| && RunsAlong(u[p..], 0)
    ensures exists d :: -|s| < d <= 0 && Agrees(s, d)
  {
    hide SpellsChar;
    hide Agrees;
    assert u[p] == u[p..][0] == '[';
    var n :| 0 <= n <= |u| && SpellsChar(s[0], u[..n]) && Spells(s[1..], u[n..]);
    if n <= p {
      hide Spells;
      assert u[n..][p - n..] == u[p..];
      SpelledAcrossMarker(s[1..], u[n..], p - n);
      hide RunsAlong;
      var d :| -|s[1..]| < d <= 0 && Agrees(s[1..], d);
      AgreesLater(s, d);
    } else {
      MarkerStartsRaw(s[0], u, n, p);
      assert u[p..] == u;
      SpelledFromMarker(s, u, 0);
    }
  }

  /** An occurrence that starts inside a marker agrees with it. */
  lemma OccurrenceInMarker(t: string, rest: string, k: nat)
    requires t != "" && k < |REDACTED| && OccursAt(t, REDACTED + rest, k)
    ensures Overlaps(t)
  {
    var out := REDACTED + rest;
    var j :| k <= j <= |out| && Spells(t, out[k..j]);
    hide Spells;
    assert RunsAlong(out[k..j], k) by {
      assert forall x :: 0 <= x < |out[k..j]| ==> out[k..j][x] == out[k + x];
    }
    SpelledFromMarker(t, out[k..j], k);
    hide Agrees;
    hide RunsAlong;
  }

  lemma OccurrenceShift(a: string, rest: string, t: string, k: nat)
    requires |a| <= k <= |a + rest| && OccursAt(t, a + rest, k)
    ensures OccursAt(t, rest, k - |a|)
  {
    hide Spells;
    var j :| k <= j <= |a + rest| && Spells(t, (a + rest)[k..j]);
    SliceOfTail(a, rest, k, j);
  }

  lemma OccurrenceIsLong(t: string, out: string, k: nat)
    requires t != "" && k <= |out| && OccursAt(t, out, k)
    ensures k < |out|
  {
    var j :| k <= j <= |out| && Spells(t, out[k..j]);
    SpellingIsLong(t, out[k..j]);
  }

  /** A marker begins at `x`. */
  predicate MarkerAt(out: string, x: nat) { x + |REDACTED| <= |out| && out[x..x + |REDACTED|] == REDACTED }

  lemma MarkerLater(out: string, c: char, rest: string, x: nat)
    requires out == [c] + rest && MarkerAt(rest, x)
    ensures MarkerAt(out, x + 1)
  {
    assert out[x + 1..x + 1 + |REDACTED|] == rest[x..x + |REDACTED|];
  }

  /** What the output begins with was copied from the input, as far as the first marker. */
  lemma {:induction false} CopiedUpToMarker(parts: Pattern, v: string, p: nat, n: nat)
    requires p <= |v| && parts != [] && Consuming(parts) && n <= |Substitute(parts, v, p)|
    ensures var out := Substitute(parts, v, p);
            (p + n <= |v| && out[..n] == v[p..p + n]) || exists x :: 0 <= x < n && MarkerAt(out, x)
    decreases n
  {
    hide MatchAt;
    var out := Substitute(parts, v, p);
    if n > 0 && p < |v| {
      if MatchAt(parts, v, p).Some? {
        assert MarkerAt(out, 0);
      } else {
        var rest := Substitute(parts, v, p + 1);
        assert out == [v[p]] + rest && out[..n] == [v[p]] + rest[..n - 1];
        CopiedUpToMarker(parts, v, p + 1, n - 1);
        if x :| 0 <= x < n - 1 && MarkerAt(rest, x) {
          MarkerLater(out, v[p], rest, x);
          assert 0 <= x + 1 < n && MarkerAt(out, x + 1);
        } else {
          assert v[p..p + n] == [v[p]] + v[p + 1..p + n];
        }
      }
    }
  }

  /** An occurrence at the front of the output, where nothing matched, was copied, or a marker begins
      inside it. */
  lemma OccurrenceCopied(parts: Pattern, t: string, v: string, p: nat)
    requires p <= |v| && parts != [] && Consuming(parts) && OccursAt(t, Substitute(parts, v, p), 0)
    ensures OccursAt(t, v, p) || Overlaps(t)
  {
    hide Substitute;
    var out := Substitute(parts, v, p);
    var j :| 0 <= j <= |out| && Spells(t, out[0..j]);
    hide Spells;
    assert out[0..j] == out[..j];
    CopiedUpToMarker(parts, v, p, j);
    if x :| 0 <= x < j && MarkerAt(out, x) {
      var u := out[..j];
      forall y | 0 <= y < |u[x..]| && y < |REDACTED| ensures u[x..][y] == REDACTED[y] {
        assert out[x..x + |REDACTED|][y] == out[x + y];
      }
      SpelledAcrossMarker(t, u, x);
    }
  }

  /** An occurrence of `t` in the output either was in the input, at a place the scan stepped over, or
      overlaps a marker it agrees with. */
  lemma {:induction false} OccurrenceInOutput(parts: Pattern, t: string, v: string, p: nat, k: nat)
    requires p <= |v| && parts != [] && Consuming(parts)
    requires t != ""
    requires k <= |Substitute(parts, v, p)| && OccursAt(t, Substitute(parts, v, p), k)
    ensures Overlaps(t) || exists i :: p <= i < |v| && MatchAt(parts, v, i).None? && OccursAt(t, v, i)
    decreases |v| - p
  {
    hide OccursAt;
    hide MatchAt;
    hide Overlaps;
    OccurrenceIsLong(t, Substitute(parts, v, p), k);
    match MatchAt(parts, v, p)
    case Some(q) =>
      var rest := Substitute(parts, v, q);
      if k < |REDACTED| {
        OccurrenceInMarker(t, rest, k);
      } else {
        OccurrenceShift(REDACTED, rest, t, k);
        OccurrenceInOutput(parts, t, v, q, k - |REDACTED|);
      }
    case None =>
      if k == 0 {
        OccurrenceCopied(parts, t, v, p);
      } else {
        OccurrenceShift([v[p]], Substitute(parts, v, p + 1), t, k);
        OccurrenceInOutput(parts, t, v, p + 1, k - 1);
      }
  }

  // ---------- a collection of secrets

  predicate Descending(secrets: seq<string>) {
    |secrets| <= 1 || (|secrets[0]| >= |secrets[1]| && Descending(secrets[1..]))
  }

  /** Python's `sorted(secrets, key=len, reverse=True)`: longest first, ties in their old order. */
  function LongestFirst(secrets: seq<string>): (sorted: seq<string>)
    ensures multiset(sorted) == multiset(secrets)
    ensures Descending(sorted)
  {
    if secrets == [] then []
    else
      assert secrets == [secrets[0]] + secrets[1..];
      InsertByLength(secrets[0], LongestFirst(secrets[1..]))
  }

  function InsertByLength(s: string, sorted: seq<string>): (r: seq<string>)
    requires Descending(sorted)
    ensures multiset(r) == multiset(sorted) + multiset{s}
    ensures Descending(r) && (r[0] == s || (sorted != [] && r[0] == sorted[0]))
  {
    if sorted == [] || |s| >= |sorted[0]| then
      assert ([s] + sorted)[1..] == sorted;
      [s] + sorted
    else
      assert sorted == [sorted[0]] + sorted[1..];
      var rest := InsertByLength(s, sorted[1..]);
      assert ([sorted[0]] + rest)[1..] == rest;
      [sorted[0]] + rest
  }

  /** The secrets of one length, in order. */
  function OfLength(secrets: seq<string>, n: nat): seq<string> {
    if secrets == [] then []
    else (if |secrets[0]| == n then [secrets[0]] else []) + OfLength(secrets[1..], n)
  }

  lemma {:induction false} InsertedAmongEquals(s: string, sorted: seq<string>, n: nat)
    requires Descending(sorted)
    ensures OfLength(InsertByLength(s, sorted), n) == (if |s| == n then [s] else []) + OfLength(sorted, n)
  {
    if sorted != [] && |s| < |sorted[0]| {
      InsertedAmongEquals(s, sorted[1..], n);
      var rest := InsertByLength(s, sorted[1..]);
      assert ([sorted[0]] + rest)[1..] == rest;
    } else {
      assert ([s] + sorted)[1..] == sorted;
    }
  }

  /** Secrets of one length keep their order. */
  lemma {:induction false} TiesKeepTheirOrder(secrets: seq<string>, n: nat)
    ensures OfLength(LongestFirst(secrets), n) == OfLength(secrets, n)
  {
    if secrets != [] {
      TiesKeepTheirOrder(secrets[1..], n);
      InsertedAmongEquals(secrets[0], LongestFirst(secrets[1..]), n);
    }
  }

  /** One round of the loop; an empty secret is skipped. */
  function RedactOne(secret: string, v: string): string {
    PatternConsumes(secret);
    if secret == "" then v else Substitute(PatternOf(secret), v, 0)
  }

  function RedactAll(secrets: seq<string>, v: string): string
    decreases |secrets|
  {
    if secrets == [] then v else RedactAll(secrets[1..], RedactOne(secrets[0], v))
  }

  method RedactSecrets(value: string, secrets: seq<string>) returns (redacted: string)
    ensures redacted == RedactAll(LongestFirst(secrets), value)
  {
    redacted := value;
    var ordered := LongestFirst(secrets);
    for k := 0 to |ordered|
      invariant RedactAll(ordered[k..], redacted) == RedactAll(ordered, value)
    {
      var secret := ordered[k];
      assert ordered[k..][1..] == ordered[k + 1..];
      if secret == "" { continue; }
      var pattern := SecretPattern(secret);
      PatternConsumes(secret);
      redacted := Substitute(pattern, redacted, 0);
    }
  }

  lemma OneKeepsClean(secret: string, t: string, v: string)
    requires t != "" && Occurs(t, RedactOne(secret, v))
    ensures Overlaps(t) || (t != secret && Occurs(t, v))
  {
    PatternConsumes(secret);
    if secret != "" {
      var k :| 0 <= k <= |RedactOne(secret, v)| && OccursAt(t, RedactOne(secret, v), k);
      OccurrenceInOutput(PatternOf(secret), t, v, 0, k);
      if !Overlaps(t) {
        var i :| 0 <= i < |v| && MatchAt(PatternOf(secret), v, i).None? && OccursAt(t, v, i);
        MatchesExactlySpellings(secret, v, i);
      }
    }
  }

  lemma {:induction false} AllAreClean(secrets: seq<string>, t: string, v: string)
    requires t != "" && !Overlaps(t)
    requires t in secrets || !Occurs(t, v)
    ensures !Occurs(t, RedactAll(secrets, v))
    decreases |secrets|
  {
    if secrets != [] {
      if Occurs(t, RedactOne(secrets[0], v)) { OneKeepsClean(secrets[0], t, v); }
      AllAreClean(secrets[1..], t, RedactOne(secrets[0], v));
    }
  }

  /** The view of `v` still shows a spelling of `t`. */
  ghost predicate Leaks(secrets: seq<string>, t: string, v: string) {
    Occurs(t, RedactAll(LongestFirst(secrets), v))
  }

  /** No spelling of a secret survives redaction, whatever the other secrets are, unless the secret
      agrees with the marker in some way of laying them over each other. */
  lemma NoSpellingSurvives(secrets: seq<string>, t: string, v: string)
    requires t in secrets && t != "" && !Overlaps(t)
    ensures !Leaks(secrets, t, v)
  {
    assert t in multiset(LongestFirst(secrets));
    AllAreClean(LongestFirst(secrets), t, v);
  }

  /** Without brackets that means being part of the marker's text. */
  lemma OverlapsWithoutBrackets(t: string)
    requires t != "" && BracketFree(t)
    ensures Overlaps(t) <==> InMarker(t)
  {
    MarkerText();
    if Overlaps(t) {
      var d :| -|t| < d < |REDACTED| && Agrees(t, d);
      BracketFoldsAlone(t, -d, '[');
      BracketFoldsAlone(t, 9 - d, ']');
      assert SameFold(t, REDACTED[d..d + |t|]);
    }
    if InMarker(t) {
      var i, j :| 0 <= i <= j <= |REDACTED| && SameFold(t, REDACTED[i..j]);
      forall x | 0 <= x < |t| ensures Fold(t[x]) == Fold(REDACTED[x + i]) {
        assert REDACTED[i..j][x] == REDACTED[x + i];
      }
      assert Agrees(t, i);
    }
  }

  lemma BracketFoldsAlone(t: string, i: int, bracket: char)
    requires BracketFree(t) && (bracket == '[' || bracket == ']')
    ensures 0 <= i < |t| ==> Fold(t[i]) != Fold(bracket)
  {
    if 0 <= i < |t| { assert t[i] in t; }
  }

  // ---------- secrets the marker spells out

  lemma {:induction false} SpellsItself(t: string, u: string)
    requires SameFold(t, u)
    ensures Spells(t, u)
  {
    if t != "" {
      assert Fold(t[0]) == Fold(u[0]);
      forall i | 0 <= i < |t| - 1 ensures Fold(t[1..][i]) == Fold(u[1..][i]) {
        assert Fold(t[i + 1]) == Fold(u[i + 1]);
      }
      SpellsItself(t[1..], u[1..]);
      assert u[..1] == [u[0]];
    }
  }

  lemma OccursIn(t: string, a: string, b: string, c: string)
    requires Occurs(t, b)
    ensures Occurs(t, a + b + c)
  {
    var i :| 0 <= i <= |b| && OccursAt(t, b, i);
    var j :| i <= j <= |b| && Spells(t, b[i..j]);
    hide Spells;
    assert (a + b + c)[|a| + i..|a| + j] == b[i..j] by {
      assert (a + b + c)[|a|..|a| + |b|] == b;
    }
    assert OccursAt(t, a + b + c, |a| + i);
  }

  lemma MarkerOccurs(t: string)
    requires InMarker(t)
    ensures Occurs(t, REDACTED)
  {
    var i, j :| 0 <= i <= j <= |REDACTED| && SameFold(t, REDACTED[i..j]);
    SpellsItself(t, REDACTED[i..j]);
    assert OccursAt(t, REDACTED, i);
  }

  /** Substitution either copies the rest of the input or writes a marker. */
  lemma {:induction false} CopiedOrMarked(parts: Pattern, t: string, v: string, p: nat)
    requires p <= |v| && parts != [] && Consuming(parts) && InMarker(t)
    ensures Substitute(parts, v, p) == v[p..] || Occurs(t, Substitute(parts, v, p))
    decreases |v| - p
  {
    if p < |v| {
      match MatchAt(parts, v, p)
      case Some(q) =>
        var rest := Substitute(parts, v, q);
        MarkerOccurs(t);
        OccursIn(t, "", REDACTED, rest);
        assert "" + REDACTED + rest == REDACTED + rest;
      case None =>
        var rest := Substitute(parts, v, p + 1);
        CopiedOrMarked(parts, t, v, p + 1);
        if Occurs(t, rest) {
          OccursIn(t, [v[p]], rest, "");
          assert [v[p]] + rest + "" == [v[p]] + rest;
        }
    }
  }

  /** A secret inside the marker's text is never removed. */
  lemma {:induction false} MarkerTextSurvives(secrets: seq<string>, t: string, v: string)
    requires InMarker(t) && Occurs(t, v)
    ensures Occurs(t, RedactAll(secrets, v))
    decreases |secrets|
  {
    if secrets != [] {
      var s := secrets[0];
      PatternConsumes(s);
      if s != "" {
        CopiedOrMarked(PatternOf(s), t, v, 0);
        assert v[0..] == v;
      }
      MarkerTextSurvives(secrets[1..], t, RedactOne(s, v));
    }
  }

  /** For a bracket-free secret the guarantee holds on every input exactly when the secret is
      not a case variant of part of the marker. */
  lemma RedactionIsCompleteExactlyWhen(secrets: seq<string>, t: string)
    requires t in secrets && t != "" && BracketFree(t)
    ensures (forall v: string :: !Leaks(secrets, t, v)) <==> !InMarker(t)
  {
    OverlapsWithoutBrackets(t);
    if InMarker(t) {
      MarkerSecretLeaks(secrets, t);
    } else {
      forall v: string ensures !Leaks(secrets, t, v) {
        NoSpellingSurvives(secrets, t, v);
      }
    }
  }

  lemma MarkerSecretLeaks(secrets: seq<string>, t: string)
    requires InMarker(t)
    ensures Leaks(secrets, t, t)
  {
    SpellsItself(t, t);
    assert t[0..|t|] == t;
    assert OccursAt(t, t, 0);
    MarkerTextSurvives(LongestFirst(secrets), t, t);
  }

  /** Why overlaps are excluded: a secret ending as the marker begins can be completed by it. */
  lemma BracketedSecretSurvives()
    ensures Occurs("x[", RedactAll(LongestFirst(["x["]), "xx["))
  {
    var s, v := "x[", "xx[";
    var parts := PatternOf(s);
    PatternConsumes(s);
    NotAtTheStart();
    MatchesExactlySpellings(s, v, 0);
    SpellsItself(s, v[1..3]);
    assert OccursAt(s, v, 1);
    MatchesExactlySpellings(s, v, 1);
    var rest := Substitute(parts, v, MatchAt(parts, v, 1).value);
    assert Substitute(parts, v, 0) == ['x'] + (REDACTED + rest);
    var out := RedactOne(s, v);
    assert out[0..2] == s;
    SpellsItself(s, s);
    assert OccursAt(s, out, 0);
    assert LongestFirst([s]) == [s] && RedactAll([s], v) == out by {
      assert [s][1..] == [] && RedactAll([s], v) == RedactAll([], RedactOne(s, v));
    }
  }

  lemma NotAtTheStart()
    ensures !OccursAt("x[", "xx[", 0)
  {
    forall j | 0 <= j <= 3 ensures !Spells("x[", "xx["[0..j]) {
      var t := "xx["[0..j];
      assert |t| == 2 ==> Fold(t[1]) != Fold("x["[1]);
      SpelledOtherwise("x[", t);
    }
  }

  // ---------- nothing else changes

  /** `out` is `v` scanned from the left with each spelling met replaced by the marker. */
  ghost predicate IsRedaction(secret: string, v: string, out: string) {
    if v == "" then out == ""
    else if OccursAt(secret, v, 0) then
      exists n :: 0 < n <= |v| && Spells(secret, v[..n]) && REDACTED <= out
                  && IsRedaction(secret, v[n..], out[|REDACTED|..])
    else out != "" && out[0] == v[0] && IsRedaction(secret, v[1..], out[1..])
  }

  lemma {:induction false} SubstituteIsRedaction(secret: string, v: string, p: nat)
    requires p <= |v| && secret != "" && PatternOf(secret) != [] && Consuming(PatternOf(secret))
    ensures IsRedaction(secret, v[p..], Substitute(PatternOf(secret), v, p))
    decreases |v| - p
  {
    if p < |v| {
      var parts, w, out := PatternOf(secret), v[p..], Substitute(PatternOf(secret), v, p);
      MatchesExactlySpellings(secret, v, p);
      SuffixOccurs(secret, v, p);
      match MatchAt(parts, v, p)
      case Some(q) =>
        MatchIsSpelling(secret, v, p);
        SubstituteIsRedaction(secret, v, q);
        assert w[..q - p] == v[p..q] && w[q - p..] == v[q..];
        assert out[|REDACTED|..] == Substitute(parts, v, q);
      case None =>
        SubstituteIsRedaction(secret, v, p + 1);
        assert w[1..] == v[p + 1..] && out[1..] == Substitute(parts, v, p + 1);
    }
  }

  lemma SuffixOccurs(secret: string, v: string, p: nat)
    requires p <= |v|
    ensures OccursAt(secret, v, p) <==> OccursAt(secret, v[p..], 0)
  {
    var w := v[p..];
    if OccursAt(secret, v, p) {
      var j :| p <= j <= |v| && Spells(secret, v[p..j]);
      assert w[0..j - p] == v[p..j];
    }
    if OccursAt(secret, w, 0) {
      var j :| 0 <= j <= |w| && Spells(secret, w[0..j]);
      assert w[0..j] == v[p..p + j];
    }
  }

  /** A value in which no secret occurs is shown as it is. */
  lemma {:induction false} UntouchedWithoutSecrets(secrets: seq<string>, v: string)
    requires forall s :: s in secrets && s != "" ==> !Occurs(s, v)
    ensures RedactAll(secrets, v) == v
    decreases |secrets|
  {
    if secrets != [] {
      if secrets[0] != "" {
        PatternConsumes(secrets[0]);
        NothingToSubstitute(secrets[0], v, 0);
      }
      UntouchedWithoutSecrets(secrets[1..], v);
    }
  }

  lemma {:induction false} NothingToSubstitute(secret: string, v: string, p: nat)
    requires p <= |v| && secret != "" && !Occurs(secret, v)
    requires PatternOf(secret) != [] && Consuming(PatternOf(secret))
    ensures Substitute(PatternOf(secret), v, p) == v[p..]
    decreases |v| - p
  {
    if p < |v| {
      MatchesExactlySpellings(secret, v, p);
      NothingToSubstitute(secret, v, p + 1);
    }
  }

  // ---------- why the longest goes first

  lemma {:induction false} FirstIsLongest(sorted: seq<string>, t: string)
    requires Descending(sorted) && t in sorted
    ensures |t| <= |sorted[0]|
  {
    if t != sorted[0] { FirstIsLongest(sorted[1..], t); }
  }

  lemma OccurrenceIsWhole(s: string, v: string)
    requires s != "" && |v| <= |s| && Occurs(s, v)
    ensures OccursAt(s, v, 0) && |v| == |s|
  {
    var i, j :| 0 <= i <= j <= |v| && Spells(s, v[i..j]);
    SpellingIsLong(s, v[i..j]);
  }

  lemma LongMatchEnds(s: string, v: string)
    requires s != "" && |v| <= |s| && OccursAt(s, v, 0)
    ensures MatchAt(PatternOf(s), v, 0) == Some(|v|)
  {
    hide *;
    MatchesExactlySpellings(s, v, 0);
    MatchIsSpelling(s, v, 0);
    var q := MatchAt(PatternOf(s), v, 0).value;
    SpellingIsLong(s, v[0..q]);
  }

  /** A secret no shorter than a value it is spelled in takes the whole of it. */
  lemma LongMatchIsWhole(s: string, v: string)
    requires s != "" && |v| <= |s| && Occurs(s, v)
    ensures RedactOne(s, v) == REDACTED
  {
    hide MatchAt;
    hide PatternOf;
    hide Spells;
    PatternConsumes(s);
    OccurrenceIsWhole(s, v);
    LongMatchEnds(s, v);
    assert Substitute(PatternOf(s), v, |v|) == "" && REDACTED + "" == REDACTED;
  }

  lemma NotInTheMarker(s: string)
    requires s != "" && !Overlaps(s)
    ensures !Occurs(s, REDACTED)
  {
    assert REDACTED + "" == REDACTED;
    forall k | 0 <= k <= |REDACTED| ensures !OccursAt(s, REDACTED, k) {
      if OccursAt(s, REDACTED, k) {
        OccurrenceIsLong(s, REDACTED, k);
        OccurrenceInMarker(s, "", k);
      }
    }
  }

  /** Secrets that do not agree with the marker in any way of laying them over it. */
  predicate ApartFromMarker(secrets: seq<string>) {
    forall s :: s in secrets && s != "" ==> !Overlaps(s)
  }

  lemma {:induction false} OrderedRedactsWhole(sorted: seq<string>, t: string, v: string)
    requires Descending(sorted) && ApartFromMarker(sorted) && t in sorted && t != "" && SameFold(t, v)
    ensures RedactAll(sorted, v) == REDACTED
    decreases |sorted|
  {
    var s, rest := sorted[0], sorted[1..];
    FirstIsLongest(sorted, t);
    assert ApartFromMarker(rest);
    SpellsItself(t, v);
    assert v[0..|v|] == v && OccursAt(t, v, 0);
    if Occurs(s, v) {
      LongMatchIsWhole(s, v);
      forall x | x in rest && x != "" ensures !Occurs(x, REDACTED) { NotInTheMarker(x); }
      UntouchedWithoutSecrets(rest, REDACTED);
    } else {
      PatternConsumes(s);
      NothingToSubstitute(s, v, 0);
      OrderedRedactsWhole(rest, t, v);
    }
  }

  /** A value that is one of the secrets, in any case, shows the marker and nothing else, whatever
      other secrets it contains. */
  lemma WholeSecretShowsTheMarker(secrets: seq<string>, t: string, v: string)
    requires ApartFromMarker(secrets) && t in secrets && t != "" && SameFold(t, v)
    ensures RedactAll(LongestFirst(secrets), v) == REDACTED
  {
    var sorted := LongestFirst(secrets);
    assert t in multiset(sorted);
    forall s | s in sorted && s != "" ensures s in secrets { assert s in multiset(sorted); }
    OrderedRedactsWhole(sorted, t, v);
  }

  // ---------- in terms of code points

  /** `d` shows `c` as it is, or a letter of it in the other case, or a plus for a space. */
  predicate Shows(c: char, d: char) {
    || d == c
    || (97 <= c as int <= 122 && d as int == c as int - 32)
    || (65 <= c as int <= 90 && d as int == c as int + 32)
    || (c as int == 32 && d as int == 43)
  }

  /** Folding forgets the case of a letter and nothing else. */
  lemma FoldForgetsCase(c: char, d: char)
    ensures Fold(c) == Fold(d) <==>
            || d == c
            || (97 <= c as int <= 122 && d as int == c as int - 32)
            || (65 <= c as int <= 90 && d as int == c as int + 32)
  {}

  lemma CharShown(c: char, d: char)
    ensures SpellsChar(c, [d]) <==> Shows(c, d)
  {}

  lemma {:induction false} SameLengthSpells(s: string, v: string)
    requires |s| == |v|
    ensures Spells(s, v) <==> forall i :: 0 <= i < |s| ==> Shows(s[i], v[i])
  {
    if s != "" {
      SameLengthSpells(s[1..], v[1..]);
      CharShown(s[0], v[0]);
      assert v[..1] == [v[0]];
      hide SpellsChar;
      if Spells(s, v) {
        var n :| 0 <= n <= |v| && SpellsChar(s[0], v[..n]) && Spells(s[1..], v[n..]);
        CharIsSpelledWithSomething(s[0], v[..n]);
        SpellingIsLong(s[1..], v[n..]);
      }
      hide Spells;
      hide Shows;
      assert (forall i :: 0 <= i < |s| ==> Shows(s[i], v[i])) <==>
             Shows(s[0], v[0]) && forall i :: 0 <= i < |s| - 1 ==> Shows(s[1..][i], v[1..][i]) by {
        assert forall i :: 0 < i < |s| ==> s[i] == s[1..][i - 1] && v[i] == v[1..][i - 1];
      }
    }
  }

  /** A value of the secret's length is redacted, wholly, if and only if each of its characters is the
      secret's, that letter in the other case, or a plus for a space; otherwise it is left alone. */
  lemma SameLengthIsRedactedExactlyWhen(s: string, v: string)
    requires s != "" && |s| == |v|
    ensures RedactAll(LongestFirst([s]), v) ==
            if forall i :: 0 <= i < |s| ==> Shows(s[i], v[i]) then REDACTED else v
  {
    SameLengthSpells(s, v);
    hide Shows;
    assert [s][1..] == [];
    assert RedactAll(LongestFirst([s]), v) == RedactAll([s], v) == RedactOne(s, v);
    if Spells(s, v) {
      assert v[0..|v|] == v;
      assert OccursAt(s, v, 0);
      LongMatchIsWhole(s, v);
    } else {
      forall i | 0 <= i <= |v| ensures !OccursAt(s, v, i) {
        forall j | i <= j <= |v| ensures !Spells(s, v[i..j]) {
          if i == 0 && j == |v| { assert v[i..j] == v; } else { ShorterSpellsNothing(s, v[i..j]); }
        }
      }
      PatternConsumes(s);
      NothingToSubstitute(s, v, 0);
      assert v[0..] == v;
    }
  }

  lemma ShorterSpellsNothing(s: string, u: string)
    requires |u| < |s|
    ensures !Spells(s, u)
  {
    if Spells(s, u) { SpellingIsLong(s, u); }
  }

  /** `d` is the hexadecimal digit for `n`, in either case. */
  predicate HexShows(n: int, d: char) {
    (0 <= n < 10 && d as int == 48 + n) || (10 <= n < 16 && (d as int == 87 + n || d as int == 55 + n))
  }

  /** Each character of the secret stands in `v` as a percent sign and its code in two such digits. */
  predicate PercentShows(s: string, v: string) {
    |v| == 3 * |s| && forall i :: 0 <= i < |s| ==>
      s[i] as int < 128 && v[3 * i] as int == 37 && HexShows(s[i] as int / 16, v[3 * i + 1]) && HexShows(s[i] as int % 16, v[3 * i + 2])
  }

  lemma PercentShowsChar(c: char, v: string)
    requires |v| == 3 && c as int < 128 && v[0] as int == 37 && HexShows(c as int / 16, v[1]) && HexShows(c as int % 16, v[2])
    ensures SpellsChar(c, v)
  {
    assert HexValue(v[1]) == Some(c as int / 16) && HexValue(v[2]) == Some(c as int % 16);
    assert v[3..] == "" && PercentDecode("") == Some([]);
    assert [c as int / 16 * 16 + c as int % 16] + [] == [c as int];
    assert Utf8(c) == [c as int];
  }

  lemma {:induction false} PercentShownSpells(s: string, v: string)
    requires PercentShows(s, v)
    ensures Spells(s, v)
  {
    if s != "" {
      assert s[0] as int < 128 && v[3 * 0] as int == 37 && HexShows(s[0] as int / 16, v[3 * 0 + 1]);
      PercentShowsChar(s[0], v[..3]);
      forall i | 0 <= i < |s| - 1
        ensures s[1..][i] as int < 128 && v[3..][3 * i] as int == 37 && HexShows(s[1..][i] as int / 16, v[3..][3 * i + 1])
                && HexShows(s[1..][i] as int % 16, v[3..][3 * i + 2])
      {
        assert s[1..][i] == s[i + 1] && v[3..][3 * i] == v[3 * (i + 1)];
      }
      PercentShownSpells(s[1..], v[3..]);
    }
  }

  /** A value that begins with an ASCII secret in percent encoding is redacted from its start. */
  lemma PercentEncodedIsRedacted(s: string, u: string, rest: string)
    requires s != "" && PercentShows(s, u)
    ensures REDACTED <= RedactAll(LongestFirst([s]), u + rest)
  {
    var v := u + rest;
    PercentShownSpells(s, u);
    hide PercentShows;
    assert v[0..|u|] == u;
    assert OccursAt(s, v, 0);
    PatternConsumes(s);
    MatchesExactlySpellings(s, v, 0);
    assert [s][1..] == [];
    assert RedactAll(LongestFirst([s]), v) == RedactAll([s], v) == RedactOne(s, v);
  }

  /** The other way round the shorter secret splits the longer, and the remainder stays on screen. */
  lemma ShortestFirstLeavesARemainder()
    ensures RedactAll(["x", "ax"], "ax") == "a" + REDACTED
  {
    var v, out := "ax", "a" + REDACTED;
    PatternConsumes("x");
    forall j | 0 <= j <= 2 ensures !Spells("x", v[0..j]) {
      assert |v[0..j]| == 1 ==> Fold(v[0..j][0]) != Fold("x"[0]);
      SpelledOtherwise("x", v[0..j]);
    }
    MatchesExactlySpellings("x", v, 0);
    SpellsItself("x", v[1..2]);
    assert OccursAt("x", v, 1);
    LastIsWhole();
    assert RedactOne("x", v) == out;
    NoXInMarked();
    PatternConsumes("ax");
    NothingToSubstitute("ax", out, 0);
    assert ["x", "ax"][1..] == ["ax"] && ["ax"][1..] == [];
    assert RedactAll(["ax"], out) == RedactAll([], RedactOne("ax", out));
  }

  lemma LastIsWhole()
    ensures PatternOf("x") != [] && Consuming(PatternOf("x")) && Substitute(PatternOf("x"), "ax", 1) == REDACTED
  {
    PatternConsumes("x");
    SpellsItself("x", "ax"[1..2]);
    assert OccursAt("x", "ax", 1);
    MatchesExactlySpellings("x", "ax", 1);
    assert MatchAt(PatternOf("x"), "ax", 1) == Some(2);
    assert Substitute(PatternOf("x"), "ax", 2) == "" && REDACTED + "" == REDACTED;
  }

  lemma NoXInMarked()
    ensures !Occurs("ax", "a" + REDACTED)
  {
    MarkerText();
    var out := "a" + REDACTED;
    assert REDACTED == ['[', 'r', 'e', 'd', 'a', 'c', 't', 'e', 'd', ']'];
    assert forall c :: c in out ==> Fold(c) != 'x' && c != '%' && c != '+';
    forall i, j | 0 <= i <= j <= |out| ensures !Spells("ax", out[i..j]) {
      assert forall c :: c in out[i..j] ==> c in out;
      assert |out[i..j]| == 2 ==> out[i..j][1] in out[i..j];
      SpelledOtherwise("ax", out[i..j]);
    }
  }
}
