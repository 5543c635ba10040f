/** Decimal integers as strconv prints and parses them. */
module Decimal {
  import opened Wrappers
  import opened Text

  function DigitChar(d: int): (c: char)
    requires 0 <= d < 10
    ensures IsDigit(c) && DigitVal(c) == d
  {
    ('0' as int + d) as char
  }

  predicate IsDigit(c: char) { '0' <= c <= '9' }

  function DigitVal(c: char): (d: int)
    requires IsDigit(c)
    ensures 0 <= d < 10
  {
    c as int - '0' as int
  }

  predicate AllDigits(s: string) {
    forall i :: 0 <= i < |s| ==> IsDigit(s[i])
  }

  /** The number that a run of digits denotes. */
  function DigitsValue(s: string): nat
    requires AllDigits(s)
  {
    if s == "" then 0 else 10 * DigitsValue(s[..|s| - 1]) + DigitVal(s[|s| - 1])
  }

  function FormatNat(n: nat): (s: string)
    ensures s != "" && AllDigits(s) && DigitsValue(s) == n
    ensures s[0] == '0' ==> n == 0 && s == "0"
  {
    if n < 10 then [DigitChar(n)] else
      var front := FormatNat(n / 10);
      var s := front + [DigitChar(n % 10)];
      assert s[..|s| - 1] == front;
      s
  }

  function FormatInt(n: int): string {
    if n < 0 then "-" + FormatNat(-n) else FormatNat(n)
  }

  /** What a decimal integer with an optional sign denotes, with no bound on its size. */
  function DecimalValue(s: string): Option<int> {
    var signed := s != "" && (s[0] == '+' || s[0] == '-');
    var digits := if signed then s[1..] else s;
    if digits == "" || !AllDigits(digits) then None else
    var n: int := DigitsValue(digits);
    if signed && s[0] == '-' then Some(-n) else Some(n)
  }

  lemma FormatIntDenotes(n: int)
    ensures DecimalValue(FormatInt(n)) == Some(n)
    ensures FormatInt(n) != "" && (FormatInt(n)[0] == '-' <==> n < 0) && (FormatInt(n)[0] == '0' <==> n == 0)
  {
    var digits := FormatNat(if n < 0 then -n else n);
    assert n < 0 ==> FormatInt(n)[1..] == digits;
    assert IsDigit(digits[0]);
  }

  lemma FormatIntIsTrimmed(n: int)
    ensures FormatInt(n) != "" && Trimmed(FormatInt(n))
  {
    var s := FormatInt(n);
    var digits := FormatNat(if n < 0 then -n else n);
    assert s[|s| - 1] == digits[|digits| - 1] && IsDigit(digits[|digits| - 1]) && IsDigit(digits[0]);
  }

  const TWO64 := 0x1_0000_0000_0000_0000

  /** The sizes that strconv is asked for. */
  type width = b: int | b == 32 || b == 64 witness 64

  /** One more than the largest unsigned integer of that width. */
  function Unsigned(bits: width): int {
    if bits == 32 then 0x1_0000_0000 else TWO64
  }

  predicate FitsIn(n: int, bits: width) {
    -(Unsigned(bits) / 2) <= n < Unsigned(bits) / 2
  }

  /** strconv.ParseInt(s, 10, bits): the value, or none for anything that is not an integer of that width. */
  function ParseInt(s: string, bits: width): Option<int>
  {
    match DecimalValue(s)
    case None => None
    case Some(n) => if FitsIn(n, bits) then Some(n) else None
  }

  lemma ParsePrintedInt(n: int, bits: width)
    ensures ParseInt(FormatInt(n), bits) == if FitsIn(n, bits) then Some(n) else None
    ensures FitsIn(n, bits) <==>
            if bits == 32 then -0x8000_0000 <= n < 0x8000_0000 else -0x8000_0000_0000_0000 <= n < 0x8000_0000_0000_0000
  {
    FormatIntDenotes(n);
  }

  lemma {:induction false} PrefixBelow(s: string, i: nat)
    requires i <= |s| && AllDigits(s)
    ensures DigitsValue(s[..i]) <= DigitsValue(s)
    decreases |s|
  {
    if i == |s| {
      assert s[..i] == s;
    } else {
      PrefixBelow(s[..|s| - 1], i);
      assert s[..|s| - 1][..i] == s[..i];
    }
  }

  /** One turn of the accumulate loop of strconv.ParseUint, in 64-bit arithmetic that wraps around.
      Nothing comes out exactly when the longer number no longer fits. */
  function Accumulate(n: int, d: int, bits: width): (r: Option<int>)
    requires 0 <= n < Unsigned(bits) && 0 <= d < 10
    ensures r == if 10 * n + d < Unsigned(bits) then Some(10 * n + d) else None
    ensures Unsigned(bits) == if bits == 32 then 0x1_0000_0000 else 0x1_0000_0000_0000_0000
  {
    var cutoff := (TWO64 - 1) / 10 + 1;
    if n >= cutoff then None else
    var m := n * 10 % TWO64;
    var n1 := (m + d) % TWO64;
    assert m == n * 10;
    if n1 < m || n1 > Unsigned(bits) - 1 then None else Some(n1)
  }

  /** The whole loop notices every overflow, so it accepts exactly the digit strings whose value fits. */
  method ParseUintLoop(s: string, bits: width) returns (r: Option<int>)
    ensures r == if s != "" && AllDigits(s) && DigitsValue(s) < Unsigned(bits) then Some(DigitsValue(s)) else None
  {
    if s == "" {
      return None;
    }
    var n := 0;
    for i := 0 to |s|
      invariant AllDigits(s[..i])
      invariant n == DigitsValue(s[..i]) < Unsigned(bits)
    {
      if !IsDigit(s[i]) {
        return None;
      }
      assert s[..i + 1][..i] == s[..i];
      var next := Accumulate(n, DigitVal(s[i]), bits);
      if next.None? {
        if AllDigits(s) {
          PrefixBelow(s, i + 1);
        }
        return None;
      }
      n := next.value;
    }
    assert s[..|s|] == s;
    return Some(n);
  }

  /** strconv.ParseInt on top of that loop, against its unbounded reading. */
  method ParseIntLoop(s: string, bits: width) returns (r: Option<int>)
    ensures r == ParseInt(s, bits)
  {
    if s == "" {
      return None;
    }
    var neg := s[0] == '-';
    var digits := if s[0] == '+' || s[0] == '-' then s[1..] else s;
    var un := ParseUintLoop(digits, bits);
    var cutoff := Unsigned(bits) / 2;
    if un.None? || (!neg && un.value >= cutoff) || (neg && un.value > cutoff) {
      return None;
    }
    return Some(if neg then -un.value else un.value);
  }

  /** The digit loop of strconv.Itoa, last digit first. */
  method FormatNatLoop(n: nat) returns (s: string)
    ensures s == FormatNat(n)
  {
    s := [];
    var u := n;
    while u >= 10
      invariant FormatNat(n) == FormatNat(u) + s
    {
      s := [DigitChar(u % 10)] + s;
      u := u / 10;
    }
    s := [DigitChar(u)] + s;
  }
}
