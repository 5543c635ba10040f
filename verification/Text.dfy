/** Bytes, fixed-width integers and white space. A `string` is a sequence of Unicode scalar values. */
module Text {
  import opened Wrappers

  type byte = x: int | 0 <= x < 256
  type int32 = x: int | -0x8000_0000 <= x < 0x8000_0000
  type int64 = x: int | -0x8000_0000_0000_0000 <= x < 0x8000_0000_0000_0000

  /** Unicode White_Space, which is what strings.TrimSpace removes. */
  predicate IsSpace(c: char) {
    var n := c as int;
    || 0x09 <= n <= 0x0d || n == 0x20 || n == 0x85 || n == 0xa0
    || n == 0x1680 || 0x2000 <= n <= 0x200a || n == 0x2028 || n == 0x2029
    || n == 0x202f || n == 0x205f || n == 0x3000
  }

  function TrimLeft(s: string): string {
    if s != "" && IsSpace(s[0]) then TrimLeft(s[1..]) else s
  }

  function TrimRight(s: string): string {
    if s != "" && IsSpace(s[|s| - 1]) then TrimRight(s[..|s| - 1]) else s
  }

  function TrimSpace(s: string): string {
    TrimRight(TrimLeft(s))
  }

  /** Neither end of `s` is white space. */
  predicate Trimmed(s: string) {
    s != "" ==> !IsSpace(s[0]) && !IsSpace(s[|s| - 1])
  }

  predicate Blank(s: string) {
    TrimSpace(s) == ""
  }

  lemma {:induction false} TrimLeftShape(s: string)
    ensures |TrimLeft(s)| <= |s| && TrimLeft(s) == s[|s| - |TrimLeft(s)|..]
    ensures TrimLeft(s) != "" ==> !IsSpace(TrimLeft(s)[0])
    ensures |TrimLeft(s)| == |s| ==> TrimLeft(s) == s
    ensures forall i :: 0 <= i < |s| - |TrimLeft(s)| ==> IsSpace(s[i])
  {
    if s != "" && IsSpace(s[0]) {
      TrimLeftShape(s[1..]);
      assert forall i :: 1 <= i < |s| ==> s[i] == s[1..][i - 1];
    }
  }

  lemma {:induction false} TrimRightShape(s: string)
    ensures |TrimRight(s)| <= |s| && TrimRight(s) == s[..|TrimRight(s)|]
    ensures TrimRight(s) != "" ==> !IsSpace(TrimRight(s)[|TrimRight(s)| - 1])
    ensures forall i :: |TrimRight(s)| <= i < |s| ==> IsSpace(s[i])
  {
    if s != "" && IsSpace(s[|s| - 1]) {
      TrimRightShape(s[..|s| - 1]);
    }
  }

  /** The characters with the property White_Space. */
  lemma SpacesAre(c: char)
    ensures IsSpace(c) <==>
            c as int in {0x09, 0x0a, 0x0b, 0x0c, 0x0d, 0x20, 0x85, 0xa0, 0x1680, 0x2000, 0x2001, 0x2002, 0x2003,
                         0x2004, 0x2005, 0x2006, 0x2007, 0x2008, 0x2009, 0x200a, 0x2028, 0x2029, 0x202f, 0x205f, 0x3000}
  {
  }

  predicate AllSpace(s: string) {
    forall c :: c in s ==> IsSpace(c)
  }

  /** Trimming cuts a piece out of the middle that has no white space at its ends, and it changes
      nothing exactly when there was none. */
  lemma TrimSpaceFixes(s: string)
    ensures Trimmed(TrimSpace(s))
    ensures TrimSpace(s) == s <==> Trimmed(s)
  {
    var l := TrimLeft(s);
    TrimLeftShape(s);
    TrimRightShape(l);
    if TrimSpace(s) != "" {
      assert TrimSpace(s)[0] == l[0];
    }
  }

  /** Only white space is cut off. */
  lemma TrimSpaceCuts(s: string)
    ensures exists a, b :: AllSpace(a) && AllSpace(b) && s == a + TrimSpace(s) + b
  {
    hide IsSpace;
    TrimLeftShape(s);
    TrimRightShape(TrimLeft(s));
    var l := TrimLeft(s);
    var t := TrimRight(l);
    hide TrimLeft;
    hide TrimRight;
    var a, b := s[..|s| - |l|], l[|t|..];
    assert AllSpace(a) && AllSpace(b);
    assert s == a + t + b by { assert l == t + b; }
  }

  /** What is blank is white space through and through. */
  lemma BlankMeans(s: string)
    ensures Blank(s) <==> forall c :: c in s ==> IsSpace(c)
  {
    TrimSpaceFixes(s);
    TrimSpaceCuts(s);
    var a, b :| AllSpace(a) && AllSpace(b) && s == a + TrimSpace(s) + b;
    if TrimSpace(s) != "" {
      assert TrimSpace(s)[0] in s;
    }
  }

  /** Splitting a number into base-64 digits loses nothing. */
  lemma Base64Digits(n: nat)
    ensures n / 0x40 * 0x40 + n % 0x40 == n
    ensures (n / 0x1000 * 0x40 + n / 0x40 % 0x40) * 0x40 + n % 0x40 == n
    ensures ((n / 0x4_0000 * 0x40 + n / 0x1000 % 0x40) * 0x40 + n / 0x40 % 0x40) * 0x40 + n % 0x40 == n
  {
    var q := n / 0x40;
    var q2 := q / 0x40;
    assert n / 0x1000 == q2;
    assert n / 0x4_0000 == q2 / 0x40;
  }

  function HexChar(d: int, upper: bool): (c: char)
    requires 0 <= d < 16
    ensures HexVal(c) == Some(d) && c != '%' && c != '+'
  {
    if d < 10 then ('0' as int + d) as char
    else if upper then ('A' as int + d - 10) as char
    else ('a' as int + d - 10) as char
  }

  function HexVal(c: char): (r: Option<int>)
    ensures r.Some? ==> 0 <= r.value < 16
  {
    if '0' <= c <= '9' then Some(c as int - '0' as int)
    else if 'a' <= c <= 'f' then Some(c as int - 'a' as int + 10)
    else if 'A' <= c <= 'F' then Some(c as int - 'A' as int + 10)
    else None
  }

  /** strings.Cut at the first occurrence of a character. */
  function Cut(s: string, at: char): Option<(string, string)> {
    if s == "" then None
    else if s[0] == at then Some(("", s[1..]))
    else
      var (before, after) :- Cut(s[1..], at);
      Some(([s[0]] + before, after))
  }

  lemma {:induction false} CutAt(before: string, at: char, after: string)
    requires at !in before
    ensures Cut(before + [at] + after, at) == Some((before, after))
  {
    var s := before + [at] + after;
    if before == "" {
      assert s[1..] == after;
    } else {
      CutAt(before[1..], at, after);
      assert s[1..] == before[1..] + [at] + after;
      assert before == [before[0]] + before[1..];
    }
  }

  lemma {:induction false} CutNone(s: string, at: char)
    requires at !in s
    ensures Cut(s, at) == None
  {
    if s != "" {
      assert s[0] in s;
      CutNone(s[1..], at);
    }
  }

  lemma {:induction false} CutLength(s: string, at: char)
    ensures Cut(s, at).Some? ==> |Cut(s, at).value.0| + 1 + |Cut(s, at).value.1| == |s|
  {
    if s != "" {
      CutLength(s[1..], at);
    }
  }
}
