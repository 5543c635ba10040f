/** UTF-8 (section 3 of RFC 3629) and UTF-16 (section 2.1 of RFC 2781). */
module Unicode {
  import opened Wrappers
  import opened Text

  function EncodeChar(c: char): (b: seq<byte>)
    ensures 1 <= |b| <= 4
  {
    var n := c as int;
    if n < 0x80 then [n]
    else if n < 0x800 then [0xc0 + n / 0x40, 0x80 + n % 0x40]
    else if n < 0x1_0000 then [0xe0 + n / 0x1000, 0x80 + n / 0x40 % 0x40, 0x80 + n % 0x40]
    else [0xf0 + n / 0x4_0000, 0x80 + n / 0x1000 % 0x40, 0x80 + n / 0x40 % 0x40, 0x80 + n % 0x40]
  }

  function Encode(s: string): seq<byte> {
    if s == "" then [] else EncodeChar(s[0]) + Encode(s[1..])
  }

  predicate IsTail(b: byte) { 0x80 <= b < 0xc0 }

  predicate IsScalar(n: int) {
    0 <= n < 0xd800 || 0xe000 <= n < 0x11_0000
  }

  /** The value that the payload bits of two, three or four bytes spell. */
  function Bits2(a: int, b: int): int { (a - 0xc0) * 0x40 + (b - 0x80) }

  function Bits3(a: int, b: int, c: int): int { ((a - 0xe0) * 0x40 + (b - 0x80)) * 0x40 + (c - 0x80) }

  function Bits4(a: int, b: int, c: int, d: int): int {
    (((a - 0xf0) * 0x40 + (b - 0x80)) * 0x40 + (c - 0x80)) * 0x40 + (d - 0x80)
  }

  /** The first scalar value of `b` and the bytes behind it. Overlong forms, surrogates and values
      above U+10FFFF are not UTF-8. */
  function DecodeChar(b: seq<byte>): (r: Option<(char, seq<byte>)>)
    ensures r.Some? ==> |r.value.1| < |b|
  {
    if |b| >= 1 && b[0] < 0x80 then
      Some((b[0] as char, b[1..]))
    else if |b| >= 2 && 0xc0 <= b[0] < 0xe0 && IsTail(b[1]) then
      var n := Bits2(b[0], b[1]);
      if n >= 0x80 then Some((n as char, b[2..])) else None
    else if |b| >= 3 && 0xe0 <= b[0] < 0xf0 && IsTail(b[1]) && IsTail(b[2]) then
      var n := Bits3(b[0], b[1], b[2]);
      if n >= 0x800 && IsScalar(n) then Some((n as char, b[3..])) else None
    else if |b| >= 4 && 0xf0 <= b[0] < 0xf8 && IsTail(b[1]) && IsTail(b[2]) && IsTail(b[3]) then
      var n := Bits4(b[0], b[1], b[2], b[3]);
      if n >= 0x1_0000 && IsScalar(n) then Some((n as char, b[4..])) else None
    else None
  }

  function Decode(b: seq<byte>): Option<string> {
    if b == [] then Some("") else
    var (c, rest) :- DecodeChar(b);
    var s :- Decode(rest);
    Some([c] + s)
  }

  lemma DecodeEncodedChar(c: char, rest: seq<byte>)
    ensures DecodeChar(EncodeChar(c) + rest) == Some((c, rest))
  {
    var n, e := c as int, EncodeChar(c);
    var b := e + rest;
    assert b[|e|..] == rest;
    assert forall i :: 0 <= i < |e| ==> b[i] == e[i];
    if n >= 0x80 {
      Base64Digits(n);
    }
  }

  lemma {:induction false} DecodeEncoded(s: string)
    ensures Decode(Encode(s)) == Some(s)
  {
    if s != "" {
      DecodeEncodedChar(s[0], Encode(s[1..]));
      DecodeEncoded(s[1..]);
      assert [s[0]] + s[1..] == s;
    }
  }

  /** Payload bits put together and taken apart again. */
  lemma SplitBits(a: int, b: int, c: int, d: int)
    requires a >= 0 && 0 <= b < 0x40 && 0 <= c < 0x40 && 0 <= d < 0x40
    ensures var n := a * 0x40 + b; n / 0x40 == a && n % 0x40 == b
    ensures var n := (a * 0x40 + b) * 0x40 + c; n / 0x1000 == a && n / 0x40 % 0x40 == b && n % 0x40 == c
    ensures var n := ((a * 0x40 + b) * 0x40 + c) * 0x40 + d;
            n / 0x4_0000 == a && n / 0x1000 % 0x40 == b && n / 0x40 % 0x40 == c && n % 0x40 == d
  {
    var m := a * 0x40 + b;
    var k := m * 0x40 + c;
    var n := k * 0x40 + d;
    assert m / 0x40 == a && k / 0x40 == m && n / 0x40 == k;
    assert k / 0x1000 == a && n / 0x1000 == m && n / 0x4_0000 == a;
  }

  lemma EncodeDecodedChar(b: seq<byte>)
    requires DecodeChar(b).Some?
    ensures var (c, rest) := DecodeChar(b).value; EncodeChar(c) + rest == b
  {
    var n := DecodeChar(b).value.0 as int;
    hide IsScalar;
    if b[0] < 0x80 {
    } else if b[0] < 0xe0 {
      SplitBits(b[0] - 0xc0, b[1] - 0x80, 0, 0);
      assert EncodeChar(n as char) == b[..2];
    } else if b[0] < 0xf0 {
      SplitBits(b[0] - 0xe0, b[1] - 0x80, b[2] - 0x80, 0);
      assert EncodeChar(n as char) == b[..3];
    } else {
      SplitBits(b[0] - 0xf0, b[1] - 0x80, b[2] - 0x80, b[3] - 0x80);
      assert EncodeChar(n as char) == b[..4];
    }
  }

  /** Only the UTF-8 form of a text is decoded, no longer form of it. */
  lemma {:induction false} EncodeDecoded(b: seq<byte>)
    requires Decode(b).Some?
    ensures Encode(Decode(b).value) == b
    decreases |b|
  {
    hide EncodeChar;
    hide DecodeChar;
    if b != [] {
      EncodeDecodedChar(b);
      var (c, rest) := DecodeChar(b).value;
      EncodeDecoded(rest);
      assert ([c] + Decode(rest).value)[1..] == Decode(rest).value;
    }
  }

  /** utf8.AppendRune over a whole text. */
  method EncodeLoop(s: string) returns (b: seq<byte>)
    ensures b == Encode(s)
  {
    b := [];
    for i := 0 to |s|
      invariant b + Encode(s[i..]) == Encode(s)
    {
      assert s[i..][1..] == s[i + 1..];
      b := b + EncodeChar(s[i]);
    }
  }

  type unit16 = x: int | 0 <= x < 0x1_0000

  predicate IsHigh(u: int) { 0xd800 <= u < 0xdc00 }

  predicate IsLow(u: int) { 0xdc00 <= u < 0xe000 }

  /** The scalar value of a surrogate pair. */
  function Combine(high: int, low: int): (c: char)
    requires IsHigh(high) && IsLow(low)
  {
    (0x1_0000 + (high - 0xd800) * 0x400 + (low - 0xdc00)) as char
  }

  function Utf16Char(c: char): seq<unit16> {
    var n := c as int;
    if n < 0x1_0000 then [n]
    else [0xd800 + (n - 0x1_0000) / 0x400, 0xdc00 + (n - 0x1_0000) % 0x400]
  }

  function Utf16(s: string): seq<unit16> {
    if s == "" then [] else Utf16Char(s[0]) + Utf16(s[1..])
  }

  function FromUtf16(u: seq<unit16>): Option<string> {
    if u == [] then Some("")
    else if IsScalar(u[0]) then
      var s :- FromUtf16(u[1..]);
      Some([u[0] as char] + s)
    else if |u| >= 2 && IsHigh(u[0]) && IsLow(u[1]) then
      var s :- FromUtf16(u[2..]);
      Some([Combine(u[0], u[1])] + s)
    else None
  }

  /** Utf16 is the UTF-16 form of a text, so its length counts code units. */
  lemma {:induction false} Utf16RoundTrip(s: string)
    ensures FromUtf16(Utf16(s)) == Some(s)
  {
    if s != "" {
      Utf16RoundTrip(s[1..]);
      var u := Utf16Char(s[0]);
      assert Utf16(s)[|u|..] == Utf16(s[1..]);
      assert [s[0]] + s[1..] == s;
    }
  }

  /** utf16.Encode: one pass to size the array, one to fill it. */
  method Utf16Loop(s: string) returns (a: array<unit16>)
    ensures a[..] == Utf16(s)
  {
    var n: nat := |s|;
    assert s[0..] == s;
    for i := 0 to |s|
      invariant n + |Utf16(s[i..])| == |Utf16(s)| + |s[i..]|
    {
      assert s[i..][1..] == s[i + 1..];
      if s[i] as int >= 0x1_0000 {
        n := n + 1;
      }
    }
    assert n == |Utf16(s)|;
    a := new unit16[n];
    n := 0;
    assert s[0..] == s;
    for i := 0 to |s|
      invariant n + |Utf16(s[i..])| == a.Length
      invariant a[..n] + Utf16(s[i..]) == Utf16(s)
    {
      n := PutUnits(a, n, s, i);
    }
    assert a[..n] == a[..];
  }

  /** One turn of the filling loop: the one or two units of character `i`. */
  method PutUnits(a: array<unit16>, n: nat, s: string, i: nat) returns (m: nat)
    requires i < |s| && n + |Utf16(s[i..])| == a.Length
    modifies a
    ensures m + |Utf16(s[i + 1..])| == a.Length
    ensures a[..m] + Utf16(s[i + 1..]) == old(a[..n]) + Utf16(s[i..])
  {
    assert s[i..][1..] == s[i + 1..];
    var u := Utf16Char(s[i]);
    a[n] := u[0];
    if |u| == 2 {
      a[n + 1] := u[1];
    }
    m := n + |u|;
    assert a[..m] == old(a[..n]) + u;
  }
}
