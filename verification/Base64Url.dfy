/** Base64 with the URL alphabet and no padding (sections 3.2 and 5 of RFC 4648), as encoding/base64
    has it in RawURLEncoding. */
module Base64Url {
  import opened Wrappers
  import opened Text

  type sextet = x: int | 0 <= x < 64

  predicate InAlphabet(c: char) {
    'A' <= c <= 'Z' || 'a' <= c <= 'z' || '0' <= c <= '9' || c == '-' || c == '_'
  }

  function Letter(v: sextet): (c: char)
    ensures InAlphabet(c) && Value(c) == Some(v)
  {
    if v < 26 then ('A' as int + v) as char
    else if v < 52 then ('a' as int + v - 26) as char
    else if v < 62 then ('0' as int + v - 52) as char
    else if v == 62 then '-'
    else '_'
  }

  function Value(c: char): Option<sextet> {
    if 'A' <= c <= 'Z' then Some(c as int - 'A' as int)
    else if 'a' <= c <= 'z' then Some(c as int - 'a' as int + 26)
    else if '0' <= c <= '9' then Some(c as int - '0' as int + 52)
    else if c == '-' then Some(62)
    else if c == '_' then Some(63)
    else None
  }

  /** The four letters of three bytes. */
  function Letters(x: byte, y: byte, z: byte): (s: string)
    ensures |s| == 4
  {
    var n := x * 0x1_0000 + y * 0x100 + z;
    [Letter(n / 0x4_0000), Letter(n / 0x1000 % 0x40), Letter(n / 0x40 % 0x40), Letter(n % 0x40)]
  }

  function Encode(b: seq<byte>): string {
    if |b| >= 3 then Letters(b[0], b[1], b[2]) + Encode(b[3..])
    else if |b| == 2 then Letters(b[0], b[1], 0)[..3]
    else if |b| == 1 then Letters(b[0], 0, 0)[..2]
    else ""
  }

  /** The three bytes of four letters. */
  function Bytes(a: sextet, b: sextet, c: sextet, d: sextet): (r: seq<byte>)
    ensures |r| == 3
  {
    var n := ((a * 0x40 + b) * 0x40 + c) * 0x40 + d;
    [n / 0x1_0000, n / 0x100 % 0x100, n % 0x100]
  }

  function DecodeClean(s: string): Option<seq<byte>> {
    if s == "" then Some([])
    else if |s| == 1 then None
    else
      var a :- Value(s[0]);
      var b :- Value(s[1]);
      if |s| == 2 then Some(Bytes(a, b, 0, 0)[..1]) else
      var c :- Value(s[2]);
      if |s| == 3 then Some(Bytes(a, b, c, 0)[..2]) else
      var d :- Value(s[3]);
      var rest :- DecodeClean(s[4..]);
      Some(Bytes(a, b, c, d) + rest)
  }

  function DropNewlines(s: string): string {
    if s == "" then "" else
    (if s[0] == '\r' || s[0] == '\n' then "" else [s[0]]) + DropNewlines(s[1..])
  }

  /** DecodeString: line breaks and the spare bits of the last letter are ignored. */
  function Decode(s: string): Option<seq<byte>> {
    DecodeClean(DropNewlines(s))
  }

  lemma BytesOfLetters(x: byte, y: byte, z: byte)
    ensures var n := x * 0x1_0000 + y * 0x100 + z;
            Bytes(n / 0x4_0000, n / 0x1000 % 0x40, n / 0x40 % 0x40, n % 0x40) == [x, y, z]
  {
    var n := x * 0x1_0000 + y * 0x100 + z;
    assert n < 0x100_0000;
    Base64Digits(n);
    SplitBytes(x, y, z);
  }

  lemma SplitBytes(x: byte, y: byte, z: byte)
    ensures var n := x * 0x1_0000 + y * 0x100 + z;
            n / 0x1_0000 == x && n / 0x100 % 0x100 == y && n % 0x100 == z
  {
    var n := x * 0x1_0000 + y * 0x100 + z;
    assert n / 0x100 == x * 0x100 + y;
    assert (x * 0x100 + y) % 0x100 == y;
    assert n / 0x1_0000 == x;
  }

  lemma DecodeGroup(x: byte, y: byte, z: byte, rest: string)
    ensures DecodeClean(Letters(x, y, z) + rest) ==
            match DecodeClean(rest) { case None => None case Some(t) => Some([x, y, z] + t) }
  {
    BytesOfLetters(x, y, z);
    assert (Letters(x, y, z) + rest)[4..] == rest;
  }

  lemma DecodeTail2(x: byte, y: byte)
    ensures DecodeClean(Letters(x, y, 0)[..3]) == Some([x, y])
  {
    BytesOfLetters(x, y, 0);
    ZeroTail(x, y);
    var l := Letters(x, y, 0);
    var a, b, c := Value(l[0]).value, Value(l[1]).value, Value(l[2]).value;
    assert Value(l[3]) == Some(0);
    assert Bytes(a, b, c, 0) == [x, y, 0];
    hide Letters;
    hide Bytes;
    assert l[..3][0] == l[0] && l[..3][1] == l[1] && l[..3][2] == l[2];
    assert [x, y, 0][..2] == [x, y];
  }

  lemma DecodeTail1(x: byte)
    ensures DecodeClean(Letters(x, 0, 0)[..2]) == Some([x])
  {
    BytesOfLetters(x, 0, 0);
    ZeroTail(x, 0);
    var l := Letters(x, 0, 0);
    var a, b := Value(l[0]).value, Value(l[1]).value;
    assert Bytes(a, b, 0, 0) == [x, 0, 0];
    hide Letters;
    hide Bytes;
    assert l[..2][0] == l[0] && l[..2][1] == l[1];
    assert [x, 0, 0][..1] == [x];
  }

  lemma {:induction false} DecodeCleanEncoded(b: seq<byte>)
    ensures DecodeClean(Encode(b)) == Some(b)
  {
    hide Letters;
    hide Bytes;
    if |b| >= 3 {
      DecodeCleanEncoded(b[3..]);
      DecodeGroup(b[0], b[1], b[2], Encode(b[3..]));
      assert b == [b[0], b[1], b[2]] + b[3..];
    } else if |b| == 2 {
      DecodeTail2(b[0], b[1]);
      assert b == [b[0], b[1]];
    } else if |b| == 1 {
      DecodeTail1(b[0]);
      assert b == [b[0]];
    }
  }

  /** The letters that a short last group leaves out would all be zero. */
  lemma ZeroTail(x: byte, y: byte)
    ensures (x * 0x1_0000 + y * 0x100) % 0x40 == 0
    ensures x * 0x1_0000 / 0x40 % 0x40 == 0 && x * 0x1_0000 % 0x40 == 0
  {
    assert x * 0x1_0000 + y * 0x100 == 0x40 * (x * 0x400 + y * 4);
    assert x * 0x1_0000 / 0x40 == 0x40 * (x * 0x10);
  }

  lemma LettersAlphabet(x: byte, y: byte, z: byte)
    ensures forall c :: c in Letters(x, y, z) ==> InAlphabet(c)
  {
    hide InAlphabet;
  }

  lemma {:induction false} EncodeAlphabet(b: seq<byte>)
    ensures forall c :: c in Encode(b) ==> 'A' <= c <= 'Z' || 'a' <= c <= 'z' || '0' <= c <= '9' || c == '-' || c == '_'
    ensures Encode(b) == "" <==> b == []
  {
    hide Letters;
    if |b| >= 3 {
      LettersAlphabet(b[0], b[1], b[2]);
      EncodeAlphabet(b[3..]);
    } else if |b| > 0 {
      var y := if |b| == 2 then b[1] else 0;
      LettersAlphabet(b[0], y, 0);
      assert forall i :: 0 <= i < 4 ==> Letters(b[0], y, 0)[i] in Letters(b[0], y, 0);
    }
  }

  lemma DecodeEncoded(b: seq<byte>)
    ensures Decode(Encode(b)) == Some(b)
  {
    EncodeAlphabet(b);
    DropNone(Encode(b));
    DecodeCleanEncoded(b);
  }

  // ---- What is decoded ----

  lemma ValueIs(c: char)
    ensures Value(c).Some? <==> 'A' <= c <= 'Z' || 'a' <= c <= 'z' || '0' <= c <= '9' || c in "-_"
    ensures Value(c).Some? ==> Letter(Value(c).value) == c
  {
  }

  lemma LettersOfBytes(a: sextet, b: sextet, c: sextet, d: sextet)
    ensures var r := Bytes(a, b, c, d);
            Letters(r[0], r[1], r[2]) == [Letter(a), Letter(b), Letter(c), Letter(d)]
  {
    hide Letter;
    hide Value;
    var m := a * 0x40 + b;
    var k := m * 0x40 + c;
    var n := k * 0x40 + d;
    Regroup(n);
    assert n / 0x40 == k && k / 0x40 == m && m / 0x40 == a;
    assert n / 0x1000 == m && n / 0x4_0000 == a;
  }

  lemma Regroup(n: int)
    requires 0 <= n < 0x100_0000
    ensures n / 0x1_0000 * 0x1_0000 + n / 0x100 % 0x100 * 0x100 + n % 0x100 == n
  {
    assert n / 0x1_0000 == n / 0x100 / 0x100;
  }

  lemma LettersShared(x: byte, y: byte, z: byte)
    ensures Letters(x, y, z)[0] == Letters(x, 0, 0)[0]
    ensures Letters(x, y, z)[..2] == Letters(x, y, 0)[..2]
  {
    hide Letter;
    var n := x * 0x1_0000 + y * 0x100 + z;
    assert n / 0x4_0000 == x / 4 && x * 0x1_0000 / 0x4_0000 == x / 4;
    assert n / 0x1000 == (x * 0x1_0000 + y * 0x100) / 0x1000;
    assert n / 0x4_0000 == (x * 0x1_0000 + y * 0x100) / 0x4_0000;
  }

  lemma EncodeShort(x: byte, y: byte)
    ensures Encode([x, y]) == Letters(x, y, 0)[..3] && Encode([x]) == Letters(x, 0, 0)[..2]
  {
  }

  lemma GroupOfThree(a: sextet, b: sextet, c: sextet)
    ensures var e := Encode(Bytes(a, b, c, 0)[..2]); |e| == 3 && e[0] == Letter(a) && e[1] == Letter(b)
  {
    hide Letters;
    hide Letter;
    hide Bytes;
    hide Encode;
    var r := Bytes(a, b, c, 0);
    LettersOfBytes(a, b, c, 0);
    LettersShared(r[0], r[1], r[2]);
    EncodeShort(r[0], r[1]);
    assert r[..2] == [r[0], r[1]];
    var l := Letters(r[0], r[1], 0);
    assert l[..2][0] == l[0] && l[..2][1] == l[1];
    assert Letters(r[0], r[1], r[2])[..2][0] == Letter(a) && Letters(r[0], r[1], r[2])[..2][1] == Letter(b);
  }

  lemma GroupOfTwo(a: sextet, b: sextet)
    ensures var e := Encode(Bytes(a, b, 0, 0)[..1]); |e| == 2 && e[0] == Letter(a)
  {
    hide Letters;
    hide Letter;
    hide Bytes;
    hide Encode;
    var r := Bytes(a, b, 0, 0);
    LettersOfBytes(a, b, 0, 0);
    LettersShared(r[0], r[1], r[2]);
    EncodeShort(r[0], r[1]);
    assert r[..1] == [r[0]];
  }

  /** What is decoded: letters, unless one is left over. */
  lemma {:induction false} DecodeAccepts(s: string)
    ensures DecodeClean(s).Some? <==> |s| % 4 != 1 && forall i :: 0 <= i < |s| ==> Value(s[i]).Some?
  {
    hide Bytes;
    hide Value;
    if |s| >= 4 {
      DecodeAccepts(s[4..]);
      assert forall i :: 4 <= i < |s| ==> s[i] == s[4..][i - 4];
      assert forall i :: 0 <= i < |s| - 4 ==> s[4..][i] == s[i + 4];
    }
  }

  lemma FullGroup(a: sextet, b: sextet, c: sextet, d: sextet, rest: seq<byte>)
    ensures Encode(Bytes(a, b, c, d) + rest) == [Letter(a), Letter(b), Letter(c), Letter(d)] + Encode(rest)
  {
    LettersOfBytes(a, b, c, d);
    hide Letters;
    hide Letter;
    hide Bytes;
    var r := Bytes(a, b, c, d) + rest;
    assert r[3..] == rest;
  }

  /** The bytes that a text without line breaks decodes to encode to that text again, all but the spare bits of
      its last letter. */
  lemma {:induction false} EncodeDecoded(s: string)
    requires DecodeClean(s).Some?
    ensures var e := Encode(DecodeClean(s).value);
            |e| == |s| && (|s| % 4 == 0 ==> e == s) && forall i :: 0 <= i < |s| - 1 ==> e[i] == s[i]
  {
    hide Letters;
    hide Letter;
    hide Bytes;
    hide Value;
    forall i | 0 <= i < |s| && Value(s[i]).Some? ensures Letter(Value(s[i]).value) == s[i] {
      ValueIs(s[i]);
    }
    if |s| >= 4 {
      var a, b, c, d := Value(s[0]).value, Value(s[1]).value, Value(s[2]).value, Value(s[3]).value;
      EncodeDecoded(s[4..]);
      FullGroup(a, b, c, d, DecodeClean(s[4..]).value);
      assert s == [s[0], s[1], s[2], s[3]] + s[4..];
    } else if |s| >= 2 {
      var a, b := Value(s[0]).value, Value(s[1]).value;
      if |s| == 2 {
        GroupOfTwo(a, b);
      } else {
        GroupOfThree(a, b, Value(s[2]).value);
      }
    }
  }

  lemma Associate(a: string, b: string, c: string)
    ensures a + (b + c) == a + b + c
  {
  }

  lemma {:induction false} DropConcat(a: string, b: string)
    ensures DropNewlines(a + b) == DropNewlines(a) + DropNewlines(b)
  {
    if a == "" {
      assert a + b == b;
    } else {
      DropConcat(a[1..], b);
      assert (a + b)[1..] == a[1..] + b && (a + b)[0] == a[0];
      Associate(if a[0] == '\r' || a[0] == '\n' then "" else [a[0]], DropNewlines(a[1..]), DropNewlines(b));
    }
  }

  lemma {:induction false} DropAll(breaks: string)
    requires forall c :: c in breaks ==> c == '\r' || c == '\n'
    ensures DropNewlines(breaks) == ""
  {
    if breaks != "" {
      assert breaks[0] in breaks && forall c :: c in breaks[1..] ==> c in breaks;
      DropAll(breaks[1..]);
    }
  }

  lemma {:induction false} DropNone(s: string)
    requires '\r' !in s && '\n' !in s
    ensures DropNewlines(s) == s
  {
    if s != "" {
      assert s[0] in s;
      DropNone(s[1..]);
      assert s == [s[0]] + s[1..];
    }
  }

  /** Line breaks are skipped, and only they. */
  lemma BreaksAreSkipped(a: string, breaks: string, b: string)
    requires forall c :: c in breaks ==> c == '\r' || c == '\n'
    ensures Decode(a + breaks + b) == Decode(a + b)
    ensures '\r' !in a && '\n' !in a ==> Decode(a) == DecodeClean(a)
  {
    hide DecodeClean;
    DropConcat(a + breaks, b);
    DropConcat(a, breaks);
    DropConcat(a, b);
    DropAll(breaks);
    assert DropNewlines(a) + "" == DropNewlines(a);
    if '\r' !in a && '\n' !in a {
      DropNone(a);
    }
  }

  /** The encoder of encoding/base64: whole groups of three, then the rest. */
  method EncodeLoop(b: seq<byte>) returns (s: string)
    ensures s == Encode(b)
  {
    hide Letters;
    s := "";
    var si := 0;
    var n := |b| / 3 * 3;
    assert b[0..] == b;
    while si < n
      invariant si % 3 == 0 && si <= n
      invariant s + Encode(b[si..]) == Encode(b)
    {
      EncodeSplit(b, si);
      s := s + Letters(b[si], b[si + 1], b[si + 2]);
      si := si + 3;
    }
    var remain := |b| - si;
    if remain == 2 {
      s := s + Letters(b[si], b[si + 1], 0)[..3];
    } else if remain == 1 {
      s := s + Letters(b[si], 0, 0)[..2];
    }
  }

  lemma EncodeSplit(b: seq<byte>, i: nat)
    requires i + 3 <= |b|
    ensures Encode(b[i..]) == Letters(b[i], b[i + 1], b[i + 2]) + Encode(b[i + 3..])
  {
    assert b[i..][3..] == b[i + 3..];
  }
}
