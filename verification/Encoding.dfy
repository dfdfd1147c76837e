/** The encodings the modelled code leans on: UTF-8 and unpadded URL-safe base64. */
module Encoding {
  import opened Common
  import opened Strings

  type Bytes = b: seq<nat> | forall i :: 0 <= i < |b| ==> b[i] < 256 witness []

  // ---------- UTF-8

  /** The UTF-8 bytes of one character. */
  function Utf8(c: char): (bytes: Bytes)
    ensures |bytes| > 0
  {
    var n := c as int;
    if n < 0x80 then [n]
    else if n < 0x800 then [0xC0 + n / 64, 0x80 + n % 64]
    else if n < 0x10000 then [0xE0 + n / 4096, 0x80 + n / 64 % 64, 0x80 + n % 64]
    else [0xF0 + n / 262144, 0x80 + n / 4096 % 64, 0x80 + n / 64 % 64, 0x80 + n % 64]
  }

  /** `s.encode()`. */
  function Utf8Encode(s: string): Bytes {
    if s == "" then [] else Utf8(s[0]) + Utf8Encode(s[1..])
  }

  predicate Continues(b: Bytes, i: nat) { i < |b| && 0x80 <= b[i] < 0xC0 }

  /** The code point the first character's bytes spell, and how many they are. */
  function FirstCode(b: Bytes): Option<(nat, nat)> {
    if b == [] then None
    else if b[0] < 0x80 then Some((b[0], 1))
    else if 0xC0 <= b[0] < 0xE0 && Continues(b, 1) then Some(((b[0] - 0xC0) * 64 + (b[1] - 0x80), 2))
    else if 0xE0 <= b[0] < 0xF0 && Continues(b, 1) && Continues(b, 2) then
      Some(((b[0] - 0xE0) * 4096 + (b[1] - 0x80) * 64 + (b[2] - 0x80), 3))
    else if 0xF0 <= b[0] < 0xF8 && Continues(b, 1) && Continues(b, 2) && Continues(b, 3) then
      Some(((b[0] - 0xF0) * 262144 + (b[1] - 0x80) * 4096 + (b[2] - 0x80) * 64 + (b[3] - 0x80), 4))
    else None
  }

  /** A code point that is a character, spelled with as many bytes as it needs. */
  predicate Proper(code: nat, length: nat) {
    && (code < 0xD800 || 0xE000 <= code < 0x11_0000)
    && length == if code < 0x80 then 1 else if code < 0x800 then 2 else if code < 0x10000 then 3 else 4
  }

  /** `b.decode()`; nothing when it would raise. */
  function Utf8Decode(b: Bytes): Option<string> {
    if b == [] then Some("")
    else
      var first := FirstCode(b);
      if first.None? || !Proper(first.value.0, first.value.1) then None
      else match Utf8Decode(b[first.value.1..])
        case None => None
        case Some(rest) => Some([first.value.0 as char] + rest)
  }

  lemma CodeSplits(n: nat)
    ensures n == n / 64 * 64 + n % 64
    ensures n == n / 4096 * 4096 + n / 64 % 64 * 64 + n % 64
    ensures n == n / 262144 * 262144 + n / 4096 % 64 * 4096 + n / 64 % 64 * 64 + n % 64
  {
    assert n / 64 / 64 == n / 4096 && n / 4096 / 64 == n / 262144;
  }

  lemma FirstCodeOfUtf8(c: char, rest: Bytes)
    ensures FirstCode(Utf8(c) + rest) == Some((c as nat, |Utf8(c)|)) && Proper(c as nat, |Utf8(c)|)
  {
    CodeSplits(c as nat);
    var b := Utf8(c) + rest;
    assert forall i :: 0 <= i < |Utf8(c)| ==> b[i] == Utf8(c)[i];
  }

  /** Decoding what was encoded gives the text back. */
  lemma {:induction false} Utf8RoundTrip(s: string)
    ensures Utf8Decode(Utf8Encode(s)) == Some(s)
  {
    if s != "" {
      var rest := Utf8Encode(s[1..]);
      FirstCodeOfUtf8(s[0], rest);
      Utf8RoundTrip(s[1..]);
      assert (Utf8(s[0]) + rest)[|Utf8(s[0])|..] == rest;
      assert [s[0]] + s[1..] == s;
    }
  }

  lemma SplitsAt(x: nat, y: nat)
    requires y < 64
    ensures (x * 64 + y) / 64 == x && (x * 64 + y) % 64 == y
  {}

  lemma TwoAreStrict(a: nat, b: nat)
    requires 0xC0 <= a < 0xE0 && 0x80 <= b < 0xC0
    ensures var code := (a - 0xC0) * 64 + (b - 0x80);
            0x80 <= code < 0x800 ==> Utf8(code as char) == [a, b]
  {
    SplitsAt(a - 0xC0, b - 0x80);
  }

  lemma ThreeAreStrict(a: nat, b: nat, c: nat)
    requires 0xE0 <= a < 0xF0 && 0x80 <= b < 0xC0 && 0x80 <= c < 0xC0
    ensures var code := (a - 0xE0) * 4096 + (b - 0x80) * 64 + (c - 0x80);
            0x800 <= code < 0x10000 && (code < 0xD800 || 0xE000 <= code) ==> Utf8(code as char) == [a, b, c]
  {
    var upper := (a - 0xE0) * 64 + (b - 0x80);
    SplitsAt(a - 0xE0, b - 0x80);
    SplitsAt(upper, c - 0x80);
    var code := upper * 64 + (c - 0x80);
    assert code / 4096 == upper / 64;
  }

  lemma FourAreStrict(a: nat, b: nat, c: nat, d: nat)
    requires 0xF0 <= a < 0xF8 && 0x80 <= b < 0xC0 && 0x80 <= c < 0xC0 && 0x80 <= d < 0xC0
    ensures var code := (a - 0xF0) * 262144 + (b - 0x80) * 4096 + (c - 0x80) * 64 + (d - 0x80);
            0x10000 <= code < 0x11_0000 ==> Utf8(code as char) == [a, b, c, d]
  {
    var top := (a - 0xF0) * 64 + (b - 0x80);
    var upper := top * 64 + (c - 0x80);
    SplitsAt(a - 0xF0, b - 0x80);
    SplitsAt(top, c - 0x80);
    SplitsAt(upper, d - 0x80);
    var code := upper * 64 + (d - 0x80);
    assert code / 4096 == upper / 64 && code / 262144 == top / 64;
  }

  lemma FirstCodeIsStrict(b: Bytes)
    requires FirstCode(b).Some? && Proper(FirstCode(b).value.0, FirstCode(b).value.1)
    ensures var (code, length) := FirstCode(b).value;
            length <= |b| && Utf8(code as char) == b[..length]
  {
    if b[0] < 0x80 {
      assert b[..1] == [b[0]];
    } else if b[0] < 0xE0 {
      TwoAreStrict(b[0], b[1]);
      assert b[..2] == [b[0], b[1]];
    } else if b[0] < 0xF0 {
      ThreeAreStrict(b[0], b[1], b[2]);
      assert b[..3] == [b[0], b[1], b[2]];
    } else {
      FourAreStrict(b[0], b[1], b[2], b[3]);
      assert b[..4] == [b[0], b[1], b[2], b[3]];
    }
    hide Utf8;
  }

  /** What decodes is the encoding of what it decodes to: no overlong form, no stray byte and no surrogate
      is read. */
  lemma {:induction false} Utf8DecodeIsStrict(b: Bytes)
    requires Utf8Decode(b).Some?
    ensures Utf8Encode(Utf8Decode(b).value) == b
  {
    if b != [] {
      var (code, length) := FirstCode(b).value;
      FirstCodeIsStrict(b);
      Utf8DecodeIsStrict(b[length..]);
      var rest := Utf8Decode(b[length..]).value;
      assert ([code as char] + rest)[1..] == rest;
      assert b == b[..length] + b[length..];
    }
  }

  // ---------- base64 (RFC 4648, section 5)

  type Sextet = n: nat | n < 64

  function Char64(v: Sextet): char {
    if v < 26 then 'A' + v as char
    else if v < 52 then 'a' + (v - 26) as char
    else if v < 62 then '0' + (v - 52) as char
    else if v == 62 then '-' else '_'
  }

  function Value64(c: char): Option<Sextet> {
    if 'A' <= c <= 'Z' then Some((c - 'A') as nat)
    else if 'a' <= c <= 'z' then Some((c - 'a') as nat + 26)
    else if '0' <= c <= '9' then Some((c - '0') as nat + 52)
    else if c == '-' then Some(62)
    else if c == '_' then Some(63)
    else None
  }

  /** The digits of some bytes, without the padding. */
  function Digits64(b: Bytes): string {
    if b == [] then ""
    else if |b| == 1 then [Char64(b[0] / 4), Char64(b[0] % 4 * 16)]
    else if |b| == 2 then [Char64(b[0] / 4), Char64(b[0] % 4 * 16 + b[1] / 16), Char64(b[1] % 16 * 4)]
    else [Char64(b[0] / 4), Char64(b[0] % 4 * 16 + b[1] / 16), Char64(b[1] % 16 * 4 + b[2] / 64), Char64(b[2] % 64)]
         + Digits64(b[3..])
  }

  /** `urlsafe_b64encode`: padded to whole groups of four. */
  function Encode64(b: Bytes): string {
    Digits64(b) + if |b| % 3 == 0 then "" else if |b| % 3 == 1 then "==" else "="
  }

  /** The bytes a group of four digits spells: fewer than three when it ends in padding. */
  function Group64(c0: char, c1: char, c2: char, c3: char): Option<Bytes> {
    if Value64(c0) == None || Value64(c1) == None then None
    else
      var v0, v1 := Value64(c0).value, Value64(c1).value;
      if c2 == '=' && c3 == '=' then Some([v0 * 4 + v1 / 16])
      else if Value64(c2) == None then None
      else
        var v2 := Value64(c2).value;
        if c3 == '=' then Some([v0 * 4 + v1 / 16, v1 % 16 * 16 + v2 / 4])
        else if Value64(c3) == None then None
        else Some([v0 * 4 + v1 / 16, v1 % 16 * 16 + v2 / 4, v2 % 4 * 64 + Value64(c3).value])
  }

  /** `urlsafe_b64decode`, on text of its own alphabet. */
  function Decode64(s: string): Option<Bytes> {
    if s == "" then Some([])
    else if |s| < 4 then None
    else match Group64(s[0], s[1], s[2], s[3])
      case None => None
      case Some(bytes) =>
        if s[4..] == "" then Some(bytes)
        else if |bytes| < 3 then None
        else match Decode64(s[4..])
          case None => None
          case Some(rest) => Some(bytes + rest)
  }

  /** Three bytes are one number, and the four digits that stand for them are its sextets, first to last,
      in the URL-safe alphabet. */
  lemma ThreeBytesAreFourDigits(b0: nat, b1: nat, b2: nat, v0: Sextet, v1: Sextet, v2: Sextet, v3: Sextet)
    requires b0 < 256 && b1 < 256 && b2 < 256
    requires b0 * 65536 + b1 * 256 + b2 == ((v0 * 64 + v1) * 64 + v2) * 64 + v3
    ensures Digits64([b0, b1, b2]) == [Char64(v0), Char64(v1), Char64(v2), Char64(v3)]
  {
    var v23, v123 := v2 * 64 + v3, (v1 * 64 + v2) * 64 + v3;
    assert v0 == b0 / 4 && v123 == b0 % 4 * 65536 + b1 * 256 + b2;
    assert v1 == b0 % 4 * 16 + b1 / 16 && v23 == b1 % 16 * 256 + b2;
    assert v2 == b1 % 16 * 4 + b2 / 64 && v3 == b2 % 64;
    assert [b0, b1, b2][3..] == [] && Digits64([]) == "";
  }

  /** The alphabet by code points: A to Z, a to z, 0 to 9, the hyphen and the underscore. */
  lemma AlphabetIsUrlSafe(v: Sextet)
    ensures Char64(v) as int ==
            if v < 26 then 65 + v else if v < 52 then 71 + v else if v < 62 then v - 4 else if v == 62 then 45 else 95
  {}

  lemma Value64OfChar64(v: Sextet)
    ensures Value64(Char64(v)) == Some(v) && Char64(v) != '='
  {}

  lemma DecodeOne(v0: Sextet, v1: Sextet)
    ensures Group64(Char64(v0), Char64(v1), '=', '=') == Some([v0 * 4 + v1 / 16])
  {
    Value64OfChar64(v0);
    Value64OfChar64(v1);
  }

  lemma DecodeTwo(v0: Sextet, v1: Sextet, v2: Sextet)
    ensures Group64(Char64(v0), Char64(v1), Char64(v2), '=') == Some([v0 * 4 + v1 / 16, v1 % 16 * 16 + v2 / 4])
  {
    Value64OfChar64(v0);
    Value64OfChar64(v1);
    Value64OfChar64(v2);
  }

  lemma DecodeThree(v0: Sextet, v1: Sextet, v2: Sextet, v3: Sextet)
    ensures Group64(Char64(v0), Char64(v1), Char64(v2), Char64(v3)) ==
            Some([v0 * 4 + v1 / 16, v1 % 16 * 16 + v2 / 4, v2 % 4 * 64 + v3])
  {
    Value64OfChar64(v0);
    Value64OfChar64(v1);
    Value64OfChar64(v2);
    Value64OfChar64(v3);
  }

  lemma DecodeLast(c0: char, c1: char, c2: char, c3: char, bytes: Bytes)
    requires Group64(c0, c1, c2, c3) == Some(bytes)
    ensures Decode64([c0, c1, c2, c3]) == Some(bytes)
  {}

  lemma DecodeGroup(c0: char, c1: char, c2: char, c3: char, bytes: Bytes, tail: string, rest: Bytes)
    requires Group64(c0, c1, c2, c3) == Some(bytes) && |bytes| == 3
    requires Decode64(tail) == Some(rest)
    ensures Decode64([c0, c1, c2, c3] + tail) == Some(bytes + rest)
  {
    assert ([c0, c1, c2, c3] + tail)[4..] == tail;
    assert tail == "" ==> bytes + rest == bytes;
  }

  lemma Regroup(b0: nat, b1: nat, b2: nat)
    requires b0 < 256 && b1 < 256 && b2 < 256
    ensures b0 / 4 * 4 + (b0 % 4 * 16 + b1 / 16) / 16 == b0
    ensures (b0 % 4 * 16 + b1 / 16) % 16 * 16 + (b1 % 16 * 4 + b2 / 64) / 4 == b1
    ensures (b1 % 16 * 4 + b2 / 64) % 4 * 64 + b2 % 64 == b2
  {
    assert (b0 % 4 * 16 + b1 / 16) / 16 == b0 % 4;
    assert (b0 % 4 * 16 + b1 / 16) % 16 == b1 / 16;
    assert (b1 % 16 * 4 + b2 / 64) / 4 == b1 % 16;
    assert (b1 % 16 * 4 + b2 / 64) % 4 == b2 / 64;
  }

  lemma DecodeLastOne(b: Bytes)
    requires |b| == 1
    ensures Decode64(Encode64(b)) == Some(b)
  {
    var v0, v1 := b[0] / 4, b[0] % 4 * 16;
    assert v1 / 16 == b[0] % 4 && v0 * 4 + v1 / 16 == b[0];
    DecodeOne(v0, v1);
    DecodeLast(Char64(v0), Char64(v1), '=', '=', [b[0]]);
    assert Encode64(b) == [Char64(v0), Char64(v1), '=', '='];
    assert b == [b[0]];
  }

  lemma DecodeLastTwo(b: Bytes)
    requires |b| == 2
    ensures Decode64(Encode64(b)) == Some(b)
  {
    var v0, v1, v2 := b[0] / 4, b[0] % 4 * 16 + b[1] / 16, b[1] % 16 * 4;
    assert v1 / 16 == b[0] % 4 && v1 % 16 == b[1] / 16 && v2 / 4 == b[1] % 16;
    assert v0 * 4 + v1 / 16 == b[0] && v1 % 16 * 16 + v2 / 4 == b[1];
    DecodeTwo(v0, v1, v2);
    DecodeLast(Char64(v0), Char64(v1), Char64(v2), '=', [b[0], b[1]]);
    assert Encode64(b) == [Char64(v0), Char64(v1), Char64(v2), '='];
    assert b == [b[0], b[1]];
  }

  lemma Regrouped(b: Bytes, v0: Sextet, v1: Sextet, v2: Sextet, v3: Sextet)
    requires |b| >= 3
    requires v0 == b[0] / 4 && v1 == b[0] % 4 * 16 + b[1] / 16 && v2 == b[1] % 16 * 4 + b[2] / 64 && v3 == b[2] % 64
    ensures [v0 * 4 + v1 / 16, v1 % 16 * 16 + v2 / 4, v2 % 4 * 64 + v3] + b[3..] == b
  {
    Regroup(b[0], b[1], b[2]);
  }

  /** Decoding what was encoded gives the bytes back. */
  lemma {:induction false} DigitsDecode(b: Bytes)
    ensures Decode64(Encode64(b)) == Some(b)
  {
    if |b| == 1 {
      DecodeLastOne(b);
    } else if |b| == 2 {
      DecodeLastTwo(b);
    } else if |b| >= 3 {
      DigitsDecode(b[3..]);
      DecodeFirstGroup(b);
    }
  }

  lemma DecodeFirstGroup(b: Bytes)
    requires |b| >= 3 && Decode64(Encode64(b[3..])) == Some(b[3..])
    ensures Decode64(Encode64(b)) == Some(b)
  {
    EncodeGroup(b);
    var v0, v1, v2, v3 := b[0] / 4, b[0] % 4 * 16 + b[1] / 16, b[1] % 16 * 4 + b[2] / 64, b[2] % 64;
    var bytes := [v0 * 4 + v1 / 16, v1 % 16 * 16 + v2 / 4, v2 % 4 * 64 + v3];
    DecodeThree(v0, v1, v2, v3);
    DecodeGroup(Char64(v0), Char64(v1), Char64(v2), Char64(v3), bytes, Encode64(b[3..]), b[3..]);
    Regrouped(b, v0, v1, v2, v3);
  }

  lemma EncodeGroup(b: Bytes)
    requires |b| >= 3
    ensures Encode64(b) ==
            [Char64(b[0] / 4), Char64(b[0] % 4 * 16 + b[1] / 16), Char64(b[1] % 16 * 4 + b[2] / 64), Char64(b[2] % 64)]
            + Encode64(b[3..])
  {
    assert |b[3..]| % 3 == |b| % 3;
  }

  // ---------- without the padding

  /** `"=" * (-len(s) % 4)` put back on. */
  function Pad(s: string): string {
    s + seq((4 - |s| % 4) % 4, _ => '=')
  }

  lemma NoPadding(a: string, b: string)
    requires '=' !in a && '=' !in b
    ensures '=' !in a + b
  {}

  lemma NotPadding(v0: Sextet, v1: Sextet, v2: Sextet, v3: Sextet)
    ensures '=' !in [Char64(v0), Char64(v1), Char64(v2), Char64(v3)]
  {}

  lemma {:induction false} DigitsLength(b: Bytes)
    ensures |Digits64(b)| == |b| / 3 * 4 + (if |b| % 3 == 0 then 0 else |b| % 3 + 1)
  {
    if |b| >= 3 {
      DigitsLength(b[3..]);
      assert |b[3..]| / 3 == |b| / 3 - 1 && |b[3..]| % 3 == |b| % 3;
    }
  }

  lemma {:induction false} DigitsUnpadded(b: Bytes)
    ensures '=' !in Digits64(b)
  {
    if |b| == 1 {
      NotPadding(b[0] / 4, b[0] % 4 * 16, 0, 0);
    } else if |b| == 2 {
      NotPadding(b[0] / 4, b[0] % 4 * 16 + b[1] / 16, b[1] % 16 * 4, 0);
    } else if |b| >= 3 {
      DigitsUnpadded(b[3..]);
      DigitsOfGroup(b, Digits64(b[3..]));
    }
  }

  lemma DigitsOfGroup(b: Bytes, rest: string)
    requires |b| >= 3 && rest == Digits64(b[3..]) && '=' !in rest
    ensures '=' !in Digits64(b)
  {
    var v0, v1, v2, v3 := b[0] / 4, b[0] % 4 * 16 + b[1] / 16, b[1] % 16 * 4 + b[2] / 64, b[2] % 64;
    NotPadding(v0, v1, v2, v3);
    NoPadding([Char64(v0), Char64(v1), Char64(v2), Char64(v3)], rest);
  }

  lemma PadGivesBack(d: string, tail: string)
    requires |tail| < 4 && (|d| + |tail|) % 4 == 0 && forall i :: 0 <= i < |tail| ==> tail[i] == '='
    ensures Pad(d) == d + tail
  {
    assert (4 - |d| % 4) % 4 == |tail|;
    assert seq(|tail|, _ => '=') == tail;
  }

  /** Stripping the padding and putting it back changes nothing. */
  lemma PaddingComesBack(b: Bytes)
    ensures Pad(TrimRight(Encode64(b), '=')) == Encode64(b)
  {
    var tail := if |b| % 3 == 0 then "" else if |b| % 3 == 1 then "==" else "=";
    DigitsLength(b);
    DigitsUnpadded(b);
    TrimRightAll(Digits64(b), '=', tail);
    assert (|Digits64(b)| + |tail|) % 4 == 0 by { LengthPads(|b|); }
    PadGivesBack(Digits64(b), tail);
  }

  lemma LengthPads(n: nat)
    ensures (n / 3 * 4 + (if n % 3 == 0 then 0 else if n % 3 == 1 then 2 + 2 else 3 + 1)) % 4 == 0
  {}

  /** Unpadded base64 reads back as the bytes it was made from. */
  lemma UnpaddedRoundTrip(b: Bytes)
    ensures Decode64(Pad(TrimRight(Encode64(b), '='))) == Some(b)
  {
    PaddingComesBack(b);
    DigitsDecode(b);
  }
}
