/** UTF-8 as section 3 of RFC 3629 defines it: encoding, a decoder that refuses anything else, and boundaries. */
module Utf8 {
  import opened Common
  import Text

  type Byte = b: nat | b < 256

  /** The test `(byte & 0xc0) === 0x80`. */
  predicate IsContinuation(b: Byte) {
    0x80 <= b < 0xC0
  }

  function EncodeChar(c: char): (s: seq<Byte>)
    ensures 1 <= |s| <= 4 && !IsContinuation(s[0]) && forall i :: 0 < i < |s| ==> IsContinuation(s[i])
  {
    var n := c as nat;
    if n < 0x80 then [n]
    else if n < 0x800 then [0xC0 + n / 64, 0x80 + n % 64]
    else if n < 0x1_0000 then [0xE0 + n / 4096, 0x80 + n / 64 % 64, 0x80 + n % 64]
    else [0xF0 + n / 262_144, 0x80 + n / 4096 % 64, 0x80 + n / 64 % 64, 0x80 + n % 64]
  }

  function Encode(s: string): seq<Byte> {
    if s == [] then [] else EncodeChar(s[0]) + Encode(s[1..])
  }

  // ── Decoding ───────────────────────────────────────────────────────────

  /** How many bytes a leading byte announces; 0 when it cannot lead. */
  function Announced(b: Byte): nat {
    if b < 0x80 then 1 else if 0xC2 <= b < 0xE0 then 2 else if 0xE0 <= b < 0xF0 then 3 else if 0xF0 <= b < 0xF5 then 4 else 0
  }

  function Tail(b: Byte): int {
    b - 0x80
  }

  /** The bits of one sequence put together. */
  function Join(s: seq<Byte>): int
    requires 1 <= |s| <= 4
  {
    var lead: int := s[0];
    if |s| == 1 then lead
    else if |s| == 2 then (lead - 0xC0) * 64 + Tail(s[1])
    else if |s| == 3 then (lead - 0xE0) * 4096 + Tail(s[1]) * 64 + Tail(s[2])
    else (lead - 0xF0) * 262_144 + Tail(s[1]) * 4096 + Tail(s[2]) * 64 + Tail(s[3])
  }

  /** The code point of one sequence: no overlong form, no surrogate, nothing above U+10FFFF. */
  function DecodeOne(s: seq<Byte>): Option<char>
    requires |s| > 0 && |s| == Announced(s[0])
  {
    if exists i :: 0 < i < |s| && !IsContinuation(s[i]) then None
    else
      var n := Join(s);
      if (|s| == 3 && n < 0x800) || (|s| == 4 && n < 0x1_0000) || 0xD800 <= n < 0xE000 || n >= 0x11_0000 then None
      else Some(n as char)
  }

  /** The fatal decoder: `None` is its error. */
  function Decode(s: seq<Byte>): Option<string> {
    if s == [] then Some("")
    else
      var k := Announced(s[0]);
      if k == 0 || k > |s| || DecodeOne(s[..k]).None? then None
      else
        var rest := Decode(s[k..]);
        if rest.None? then None else Some([DecodeOne(s[..k]).value] + rest.value)
  }

  lemma JoinEncoded(c: char)
    ensures Join(EncodeChar(c)) == c as int
  {
    var n := c as nat;
    assert n == n / 64 * 64 + n % 64;
    assert n / 64 == n / 4096 * 64 + n / 64 % 64;
    assert n / 4096 == n / 262_144 * 64 + n / 4096 % 64;
  }

  lemma CharRoundTrip(c: char)
    ensures var s := EncodeChar(c); |s| == Announced(s[0]) && DecodeOne(s) == Some(c)
  {
    JoinEncoded(c);
  }

  /** The decoder never fails on encoded text, and gives the text back. */
  lemma {:induction false} DecodeEncode(s: string)
    ensures Decode(Encode(s)) == Some(s)
  {
    if s != [] {
      var first, rest := EncodeChar(s[0]), Encode(s[1..]);
      CharRoundTrip(s[0]);
      DecodeEncode(s[1..]);
      assert (first + rest)[..|first|] == first && (first + rest)[|first|..] == rest;
      assert s == [s[0]] + s[1..];
    }
  }

  lemma TwoParts(n: nat, a: nat, t1: nat)
    requires n == a * 64 + t1 && t1 < 64
    ensures n / 64 == a && n % 64 == t1
  {
  }

  lemma ThreeParts(n: nat, a: nat, t1: nat, t2: nat)
    requires n == a * 4096 + t1 * 64 + t2 && t1 < 64 && t2 < 64
    ensures n / 4096 == a && n / 64 % 64 == t1 && n % 64 == t2
  {
    TwoParts(n, a * 64 + t1, t2);
    TwoParts(a * 64 + t1, a, t1);
    assert n / 4096 == n / 64 / 64;
  }

  lemma FourParts(n: nat, a: nat, t1: nat, t2: nat, t3: nat)
    requires n == a * 262_144 + t1 * 4096 + t2 * 64 + t3 && t1 < 64 && t2 < 64 && t3 < 64
    ensures n / 262_144 == a && n / 4096 % 64 == t1 && n / 64 % 64 == t2 && n % 64 == t3
  {
    TwoParts(n, a * 4096 + t1 * 64 + t2, t3);
    ThreeParts(a * 4096 + t1 * 64 + t2, a, t1, t2);
    assert n / 262_144 == n / 64 / 4096 && n / 4096 == n / 64 / 64;
  }

  lemma DecodedIsEncoded(s: seq<Byte>, c: char)
    requires |s| > 0 && |s| == Announced(s[0]) && DecodeOne(s) == Some(c)
    ensures EncodeChar(c) == s
  {
    assert c as int == Join(s) && forall i :: 0 < i < |s| ==> IsContinuation(s[i]);
    if |s| == 2 {
      TwoBytes(c, s[0], s[1]);
    } else if |s| == 3 {
      ThreeBytes(c, s[0], s[1], s[2]);
    } else if |s| == 4 {
      FourBytes(c, s[0], s[1], s[2], s[3]);
    }
  }

  lemma TwoBytes(c: char, lead: Byte, b1: Byte)
    requires Announced(lead) == 2 && IsContinuation(b1) && c as int == (lead - 0xC0) * 64 + Tail(b1)
    ensures EncodeChar(c) == [lead, b1]
  {
    TwoParts(c as nat, lead - 0xC0, Tail(b1));
  }

  lemma ThreeBytes(c: char, lead: Byte, b1: Byte, b2: Byte)
    requires Announced(lead) == 3 && IsContinuation(b1) && IsContinuation(b2)
    requires c as int == (lead - 0xE0) * 4096 + Tail(b1) * 64 + Tail(b2) >= 0x800
    ensures EncodeChar(c) == [lead, b1, b2]
  {
    ThreeParts(c as nat, lead - 0xE0, Tail(b1), Tail(b2));
  }

  lemma FourBytes(c: char, lead: Byte, b1: Byte, b2: Byte, b3: Byte)
    requires Announced(lead) == 4 && IsContinuation(b1) && IsContinuation(b2) && IsContinuation(b3)
    requires c as int == (lead - 0xF0) * 262_144 + Tail(b1) * 4096 + Tail(b2) * 64 + Tail(b3) >= 0x1_0000
    ensures EncodeChar(c) == [lead, b1, b2, b3]
  {
    FourParts(c as nat, lead - 0xF0, Tail(b1), Tail(b2), Tail(b3));
  }

  /** The decoder accepts exactly what the encoder writes. */
  lemma {:induction false} DecodeExactly(bytes: seq<Byte>, s: string)
    ensures Decode(bytes) == Some(s) <==> Encode(s) == bytes
    decreases |bytes|
  {
    DecodeEncode(s);
    if Decode(bytes) == Some(s) && bytes != [] {
      var k := Announced(bytes[0]);
      DecodedIsEncoded(bytes[..k], s[0]);
      DecodeExactly(bytes[k..], s[1..]);
      assert bytes == bytes[..k] + bytes[k..];
    }
  }

  lemma {:induction false} EncodeAppend(a: string, b: string)
    ensures Encode(a + b) == Encode(a) + Encode(b)
  {
    if a == [] {
      assert a + b == b;
    } else {
      assert (a + b)[1..] == a[1..] + b;
      EncodeAppend(a[1..], b);
    }
  }

  /** The sizes computed without encoding are those of the encoding. */
  lemma {:induction false} SizeIsLength(s: string)
    ensures Text.Utf8Size(s) == |Encode(s)|
  {
    if s != [] {
      SizeIsLength(s[1..]);
    }
  }

  // ── Boundaries ─────────────────────────────────────────────────────────

  /** Where the bytes of the first `i` characters end. */
  function BoundaryAt(s: string, i: nat): nat
    requires i <= |s|
  {
    |Encode(s[..i])|
  }

  ghost predicate IsBoundary(s: string, k: int) {
    exists i :: 0 <= i <= |s| && BoundaryAt(s, i) == k
  }

  lemma BoundaryNext(s: string, i: nat)
    requires i < |s|
    ensures BoundaryAt(s, i + 1) == BoundaryAt(s, i) + |EncodeChar(s[i])|
    ensures BoundaryAt(s, i + 1) <= |Encode(s)|
    ensures Encode(s)[BoundaryAt(s, i)..BoundaryAt(s, i + 1)] == EncodeChar(s[i])
  {
    assert s[..i + 1] == s[..i] + [s[i]] && s == s[..i + 1] + s[i + 1..];
    EncodeAppend(s[..i], [s[i]]);
    EncodeAppend(s[..i + 1], s[i + 1..]);
    assert Encode([s[i]]) == EncodeChar(s[i]) + [];
  }

  lemma {:induction false} CharAt(s: string, k: nat, i: nat) returns (j: nat)
    requires k < |Encode(s)| && i <= |s| && BoundaryAt(s, i) <= k
    ensures j < |s| && BoundaryAt(s, j) <= k < BoundaryAt(s, j + 1)
    decreases |s| - i
  {
    assert s[..|s|] == s;
    BoundaryNext(s, i);
    if k < BoundaryAt(s, i + 1) {
      j := i;
    } else {
      j := CharAt(s, k, i + 1);
    }
  }

  lemma {:induction false} BoundariesGrow(s: string, i: nat, j: nat)
    requires i < j <= |s|
    ensures BoundaryAt(s, i) < BoundaryAt(s, j)
    decreases j
  {
    BoundaryNext(s, j - 1);
    if i < j - 1 {
      BoundariesGrow(s, i, j - 1);
    }
  }

  lemma InsideChar(s: string, j: nat, k: nat)
    requires j < |s| && BoundaryAt(s, j) < k < BoundaryAt(s, j + 1)
    ensures !IsBoundary(s, k)
  {
    forall i | 0 <= i <= |s|
      ensures BoundaryAt(s, i) != k
    {
      if i < j {
        BoundariesGrow(s, i, j);
      } else if j + 1 < i {
        BoundariesGrow(s, j + 1, i);
      }
    }
  }

  /** A position is a boundary exactly when no continuation byte stands there. */
  lemma BoundaryExactly(s: string, k: nat)
    requires k <= |Encode(s)|
    ensures IsBoundary(s, k) <==> k == |Encode(s)| || !IsContinuation(Encode(s)[k])
  {
    assert s[..|s|] == s && s[..0] == [];
    if k == |Encode(s)| {
      assert BoundaryAt(s, |s|) == k;
    } else {
      var j := CharAt(s, k, 0);
      BoundaryNext(s, j);
      assert Encode(s)[k] == EncodeChar(s[j])[k - BoundaryAt(s, j)];
      if k > BoundaryAt(s, j) {
        InsideChar(s, j, k);
      }
    }
  }

  /** Bytes between boundaries are the encoding of the characters between them. */
  lemma EncodeSlice(s: string, i: nat, j: nat)
    requires i <= j <= |s|
    ensures BoundaryAt(s, i) <= BoundaryAt(s, j) <= |Encode(s)|
    ensures Encode(s)[BoundaryAt(s, i)..BoundaryAt(s, j)] == Encode(s[i..j])
  {
    assert s == s[..i] + s[i..j] + s[j..] && s[..j] == s[..i] + s[i..j];
    EncodeAppend(s[..i], s[i..j]);
    EncodeAppend(s[..i] + s[i..j], s[j..]);
  }
}
