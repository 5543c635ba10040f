/** Query escaping as net/url does it, and percent-encoding (sections 2.1 and 2.3 of RFC 3986). */
module Percent {
  import opened Wrappers
  import opened Text
  import Unicode

  predicate Unreserved(c: char) {
    'A' <= c <= 'Z' || 'a' <= c <= 'z' || '0' <= c <= '9' || c == '-' || c == '.' || c == '_' || c == '~'
  }

  function Triplet(b: byte): (s: string)
    ensures |s| == 3
  {
    ['%', HexChar(b / 16, true), HexChar(b % 16, true)]
  }

  predicate IsPlain(b: byte) {
    b < 0x80 && Unreserved(b as char)
  }

  function QueryEscapeByte(b: byte): string {
    if IsPlain(b) then [b as char] else if b == 0x20 then "+" else Triplet(b)
  }

  /** url.QueryEscape. */
  function QueryEscape(b: seq<byte>): string {
    if b == [] then "" else QueryEscapeByte(b[0]) + QueryEscape(b[1..])
  }

  /** strings.ReplaceAll for a one-character pattern. */
  function ReplaceAll(s: string, old_: char, new_: string): string {
    if s == "" then "" else (if s[0] == old_ then new_ else [s[0]]) + ReplaceAll(s[1..], old_, new_)
  }

  function PercentEncodeByte(b: byte): string {
    if IsPlain(b) then [b as char] else Triplet(b)
  }

  /** RFC 3986 percent-encoding: every byte that is not unreserved becomes a triplet. */
  function PercentEncode(b: seq<byte>): string {
    if b == [] then "" else PercentEncodeByte(b[0]) + PercentEncode(b[1..])
  }

  /** What a decoder makes of an escaped text: a plain one, or a form decoder, which reads + as a
      space (section 5.1 of the WHATWG URL Standard). A % without two hex digits is an error. */
  function Unescape(s: string, form: bool): Option<seq<byte>> {
    if s == "" then Some([])
    else if s[0] == '%' then
      if |s| < 3 then None else
      var high :- HexVal(s[1]);
      var low :- HexVal(s[2]);
      var rest :- Unescape(s[3..], form);
      Some([16 * high + low] + rest)
    else
      var rest :- Unescape(s[1..], form);
      Some((if form && s[0] == '+' then [0x20] else Unicode.EncodeChar(s[0])) + rest)
  }

  /** Letters, digits, - . _ and ~ stay as they are (section 2.3 of RFC 3986); every other byte becomes a percent
      sign and its two hex digits, the high one first (section 2.1). */
  lemma PlainBytes(b: byte)
    ensures PercentEncodeByte(b) ==
            if 0x41 <= b <= 0x5a || 0x61 <= b <= 0x7a || 0x30 <= b <= 0x39 || b in [0x2d, 0x2e, 0x5f, 0x7e]
            then [b as char]
            else ['%', "0123456789ABCDEF"[b / 16], "0123456789ABCDEF"[b % 16]]
  {
    HexDigit(b / 16);
    HexDigit(b % 16);
    hide HexChar;
  }

  lemma HexDigit(d: int)
    requires 0 <= d < 16
    ensures HexChar(d, true) == "0123456789ABCDEF"[d]
  {
  }

  lemma UnescapeUnit(unit: string, b: byte, rest: string, form: bool)
    requires unit == PercentEncodeByte(b) || (unit == "+" && b == 0x20 && form)
    requires Unescape(rest, form).Some?
    ensures Unescape(unit + rest, form) == Some([b] + Unescape(rest, form).value)
  {
    if unit == Triplet(b) {
      assert (unit + rest)[3..] == rest;
    } else {
      assert (unit + rest)[1..] == rest;
    }
  }

  /** Percent-encoded bytes come back from both kinds of decoder. */
  lemma {:induction false} UnescapePercentEncoded(b: seq<byte>, form: bool)
    ensures Unescape(PercentEncode(b), form) == Some(b)
  {
    if b != [] {
      UnescapePercentEncoded(b[1..], form);
      UnescapeUnit(PercentEncodeByte(b[0]), b[0], PercentEncode(b[1..]), form);
      assert b == [b[0]] + b[1..];
    }
  }

  /** Query-escaped bytes always come back from a form decoder, and from a plain decoder exactly
      when there was no space among them. That is why URI rewrites the plus signs. */
  lemma {:induction false} UnescapeQueryEscaped(b: seq<byte>, form: bool)
    ensures Unescape(QueryEscape(b), form).Some? && |Unescape(QueryEscape(b), form).value| == |b|
    ensures Unescape(QueryEscape(b), form) == Some(b) <==> form || 0x20 !in b
  {
    if b != [] {
      var rest := QueryEscape(b[1..]);
      UnescapeQueryEscaped(b[1..], form);
      assert b == [b[0]] + b[1..];
      if b[0] == 0x20 && !form {
        assert ("+" + rest)[1..] == rest;
        assert Unescape("+" + rest, form).value[0] == '+' as int;
      } else {
        UnescapeUnit(QueryEscapeByte(b[0]), b[0], rest, form);
        assert Unescape(QueryEscape(b), form).value[1..] == Unescape(rest, form).value;
      }
    }
  }

  lemma {:induction false} ReplaceAllConcat(s: string, t: string, old_: char, new_: string)
    ensures ReplaceAll(s + t, old_, new_) == ReplaceAll(s, old_, new_) + ReplaceAll(t, old_, new_)
  {
    if s == "" {
      assert s + t == t;
    } else {
      ReplaceAllConcat(s[1..], t, old_, new_);
      assert (s + t)[1..] == s[1..] + t;
    }
  }

  lemma {:induction false} ReplaceAllAbsent(s: string, old_: char, new_: string)
    requires old_ !in s
    ensures ReplaceAll(s, old_, new_) == s
  {
    if s != "" {
      ReplaceAllAbsent(s[1..], old_, new_);
    }
  }

  /** Rewriting + to %20 touches only what were spaces, and what is left is RFC 3986
      percent-encoding of the original bytes. */
  lemma {:induction false} RewriteIsPercentEncoding(b: seq<byte>)
    ensures ReplaceAll(QueryEscape(b), '+', "%20") == PercentEncode(b)
  {
    if b != [] {
      RewriteIsPercentEncoding(b[1..]);
      ReplaceAllConcat(QueryEscapeByte(b[0]), QueryEscape(b[1..]), '+', "%20");
      if b[0] == 0x20 {
        assert ReplaceAll("+", '+', "%20") == "%20" + ReplaceAll("", '+', "%20");
        assert Triplet(0x20) == "%20";
      } else {
        ReplaceAllAbsent(QueryEscapeByte(b[0]), '+', "%20");
      }
    }
  }

  lemma UnitChars(b: byte)
    ensures forall c :: c in PercentEncodeByte(b) ==>
              'A' <= c <= 'Z' || 'a' <= c <= 'z' || '0' <= c <= '9' || c in "-._~%"
  {
    hide Unreserved;
    hide HexChar;
    PlainBytes(b);
    HexLetters(b / 16);
    HexLetters(b % 16);
  }

  lemma HexLetters(d: int)
    requires 0 <= d < 16
    ensures var c := "0123456789ABCDEF"[d]; '0' <= c <= '9' || 'A' <= c <= 'F'
  {
  }

  /** Only unreserved characters and %HH triplets in upper-case hex. */
  predicate IsPercentEncoded(s: string) {
    || s == ""
    || (Unreserved(s[0]) && IsPercentEncoded(s[1..]))
    || (|s| >= 3 && s[0] == '%' && IsUpperHex(s[1]) && IsUpperHex(s[2]) && IsPercentEncoded(s[3..]))
  }

  predicate IsUpperHex(c: char) { '0' <= c <= '9' || 'A' <= c <= 'F' }

  lemma {:induction false} PercentEncodeAlphabet(b: seq<byte>)
    ensures IsPercentEncoded(PercentEncode(b))
    ensures forall c :: c in PercentEncode(b) ==>
              'A' <= c <= 'Z' || 'a' <= c <= 'z' || '0' <= c <= '9' || c in "-._~%"
  {
    if b != [] {
      UnitChars(b[0]);
      var rest := PercentEncode(b[1..]);
      PercentEncodeAlphabet(b[1..]);
      if IsPlain(b[0]) {
        assert ([b[0] as char] + rest)[1..] == rest;
      } else {
        assert (Triplet(b[0]) + rest)[3..] == rest;
      }
    }
  }

  /** url.QueryEscape as two passes: one counts the triplets, one fills the buffer. */
  method QueryEscapeLoop(b: seq<byte>) returns (s: string)
    ensures s == QueryEscape(b)
  {
    var hexCount: nat := 0;
    assert b[0..] == b;
    for i := 0 to |b|
      invariant i + 2 * hexCount + |QueryEscape(b[i..])| == |QueryEscape(b)|
    {
      assert b[i..][1..] == b[i + 1..];
      if !IsPlain(b[i]) && b[i] != 0x20 {
        hexCount := hexCount + 1;
      }
    }
    var t := new char[|b| + 2 * hexCount];
    var j: nat := 0;
    assert t.Length == |QueryEscape(b)|;
    for i := 0 to |b|
      invariant j + |QueryEscape(b[i..])| == t.Length
      invariant t[..j] + QueryEscape(b[i..]) == QueryEscape(b)
    {
      j := PutEscape(t, j, b, i);
    }
    assert t[..j] == t[..];
    s := t[..];
  }

  method PutTriplet(t: array<char>, j: nat, b: byte)
    requires j + 3 <= t.Length
    modifies t
    ensures t[..j + 3] == old(t[..j]) + Triplet(b)
  {
    t[j] := '%';
    t[j + 1] := HexChar(b / 16, true);
    t[j + 2] := HexChar(b % 16, true);
  }

  /** One turn of the filling loop: byte `i` goes to position `j`. */
  method PutEscape(t: array<char>, j: nat, b: seq<byte>, i: nat) returns (k: nat)
    requires i < |b| && j + |QueryEscape(b[i..])| == t.Length
    modifies t
    ensures k + |QueryEscape(b[i + 1..])| == t.Length
    ensures t[..k] + QueryEscape(b[i + 1..]) == old(t[..j]) + QueryEscape(b[i..])
  {
    hide Triplet;
    assert b[i..][1..] == b[i + 1..];
    if b[i] == 0x20 {
      t[j] := '+';
      k := j + 1;
    } else if !IsPlain(b[i]) {
      PutTriplet(t, j, b[i]);
      k := j + 3;
    } else {
      t[j] := b[i] as char;
      k := j + 1;
    }
    assert t[..k] == old(t[..j]) + QueryEscapeByte(b[i]);
  }

  /** strings.ReplaceAll, appending to a builder. */
  method ReplaceAllLoop(s: string, old_: char, new_: string) returns (r: string)
    ensures r == ReplaceAll(s, old_, new_)
  {
    r := "";
    assert s[0..] == s;
    for i := 0 to |s|
      invariant r + ReplaceAll(s[i..], old_, new_) == ReplaceAll(s, old_, new_)
    {
      assert s[i..][1..] == s[i + 1..];
      r := r + if s[i] == old_ then new_ else [s[i]];
    }
  }
}
