/** The payer's recent numbers on the front page (internal/web/static/js/swosh.js). */
module RecentNumbers {
  import Decimal

  // ---- When two numbers are the same ----

  predicate Counts(c: char) {
    Decimal.IsDigit(c) || c == '+'
  }

  /** replace(/[^\d+]/g, '') */
  function Stripped(s: string): string {
    if s == "" then ""
    else if Counts(s[0]) then [s[0]] + Stripped(s[1..])
    else Stripped(s[1..])
  }

  predicate StartsWith(s: string, prefix: string) {
    |s| >= |prefix| && s[..|prefix|] == prefix
  }

  /** replace(/^(\+|00)46/, '0') */
  function National(s: string): string {
    if StartsWith(s, "+46") then "0" + s[3..]
    else if StartsWith(s, "0046") then "0" + s[4..]
    else s
  }

  function NumberKey(number: string): string {
    National(Stripped(number))
  }

  lemma {:induction false} StrippedConcat(a: string, b: string)
    ensures Stripped(a + b) == Stripped(a) + Stripped(b)
  {
    if a == "" {
      assert a + b == b;
    } else {
      StrippedConcat(a[1..], b);
      assert (a + b)[1..] == a[1..] + b;
    }
  }

  lemma {:induction false} StrippedDigits(s: string)
    requires forall c :: c in s ==> Counts(c)
    ensures Stripped(s) == s
  {
    if s != "" {
      assert s[0] in s;
      StrippedDigits(s[1..]);
    }
  }

  lemma CountsMeans(c: char)
    ensures Counts(c) <==> c in "0123456789+"
  {
    var all := "0123456789+";
    assert Decimal.IsDigit(c) ==> c == all[c as int - '0' as int];
    assert c == '+' ==> c == all[10];
  }

  /** Spaces, hyphens and the like never matter, wherever they are. */
  lemma SeparatorsDoNotMatter(a: string, sep: string, b: string)
    requires forall c :: c in sep ==> c !in "0123456789+"
    ensures NumberKey(a + sep + b) == NumberKey(a + b)
  {
    hide Counts;
    hide Stripped;
    hide National;
    SeparatorsDoNotCount(sep);
    StrippedConcat(a + sep, b);
    StrippedConcat(a, sep);
    StrippedConcat(a, b);
    StrippedNothing(sep);
    assert Stripped(a) + "" == Stripped(a);
  }

  lemma SeparatorsDoNotCount(sep: string)
    requires forall c :: c in sep ==> c !in "0123456789+"
    ensures forall c :: c in sep ==> !Counts(c)
  {
    forall c | c in sep ensures !Counts(c) {
      CountsMeans(c);
    }
  }

  lemma {:induction false} StrippedNothing(s: string)
    requires forall c :: c in s ==> !Counts(c)
    ensures Stripped(s) == ""
  {
    if s != "" {
      assert s[0] in s;
      StrippedNothing(s[1..]);
    }
  }

  /** Both international forms of a number have its national form as their key, and so has the national
      form, exactly unless it happens to look international itself. */
  lemma SameNumber(digits: string)
    requires forall c :: c in digits ==> Decimal.IsDigit(c)
    ensures NumberKey("+46" + digits) == NumberKey("0046" + digits) == "0" + digits
    ensures NumberKey("0" + digits) == "0" + digits <==> !StartsWith(digits, "046")
  {
    StrippedDigits("+46" + digits);
    StrippedDigits("0046" + digits);
    StrippedDigits("0" + digits);
    hide Stripped;
    var plus, zeros, national := "+46" + digits, "0046" + digits, "0" + digits;
    assert plus[..3] == "+46" && plus[3..] == digits;
    assert zeros[0] == '0' && zeros[..4] == "0046" && zeros[4..] == digits;
    assert national[0] == '0' && national[1..] == digits;
    assert StartsWith(national, "0046") <==> StartsWith(digits, "046") by {
      if |digits| >= 3 {
        assert national[..4] == ['0'] + digits[..3];
        assert "0046" == ['0'] + "046";
        assert national[..4][1..] == digits[..3] && "0046"[1..] == "046";
      }
    }
  }

  /** The stripped spelling of a number whose national form is a zero and this. */
  predicate Spells(s: string, rest: string) {
    || s == "+46" + rest
    || s == "0046" + rest
    || (s == "0" + rest && !StartsWith(rest, "046"))
  }

  lemma NationalParts(s: string)
    ensures StartsWith(s, "+46") ==> s == "+46" + s[3..] && National(s) == "0" + s[3..]
    ensures StartsWith(s, "0046") ==> s == "0046" + s[4..] && National(s) == "0" + s[4..]
    ensures !StartsWith(s, "+46") && !StartsWith(s, "0046") ==> National(s) == s
  {
    if StartsWith(s, "0046") {
      assert s[0] == "0046"[0];
    }
  }

  lemma StartsAfterZero(rest: string)
    ensures StartsWith("0" + rest, "0046") <==> StartsWith(rest, "046")
    ensures !StartsWith("0" + rest, "+46")
  {
    var s := "0" + rest;
    assert s[0] == '0' && s[1..] == rest;
    if |rest| >= 3 {
      assert s[..4] == "0" + rest[..3] && "0046" == "0" + "046";
      assert s[..4][1..] == rest[..3] && "0046"[1..] == "046";
    }
  }

  lemma StartsInternational(rest: string)
    ensures StartsWith("+46" + rest, "+46") && ("+46" + rest)[3..] == rest
    ensures StartsWith("0046" + rest, "0046") && !StartsWith("0046" + rest, "+46") && ("0046" + rest)[4..] == rest
  {
    assert ("+46" + rest)[..3] == "+46";
    assert ("0046" + rest)[..4] == "0046" && ("0046" + rest)[0] == '0';
  }

  /** What spells a number has its national form as key, and whatever has this key either spells the
      number or is spelled like the key. */
  lemma SpellsKey(s: string, rest: string)
    ensures National(s) == "0" + rest <==> Spells(s, rest)
  {
    NationalParts(s);
    StartsAfterZero(rest);
    StartsInternational(rest);
    hide StartsWith;
    assert ("0" + rest)[1..] == rest;
    if StartsWith(s, "+46") {
      assert ("0" + s[3..])[1..] == s[3..];
    } else if StartsWith(s, "0046") {
      assert ("0" + s[4..])[1..] == s[4..];
    }
  }

  /** When two spellings count as one number: they are the same but for separators, or both spell the
      same national number with +46, 0046 or 0 in front. */
  lemma SameKey(a: string, b: string)
    ensures NumberKey(a) == NumberKey(b) <==>
            Stripped(a) == Stripped(b) || exists rest :: Spells(Stripped(a), rest) && Spells(Stripped(b), rest)
  {
    hide Spells;
    hide StartsWith;
    var s, t := Stripped(a), Stripped(b);
    hide Stripped;
    forall rest ensures Spells(s, rest) <==> National(s) == "0" + rest
                ensures Spells(t, rest) <==> National(t) == "0" + rest
    {
      SpellsKey(s, rest);
      SpellsKey(t, rest);
    }
    NationalParts(s);
    NationalParts(t);
    if National(s) == National(t) && s != t {
      var rest := if StartsWith(s, "+46") then s[3..] else if StartsWith(s, "0046") then s[4..]
                  else if StartsWith(t, "+46") then t[3..] else t[4..];
      assert National(s) == "0" + rest;
    }
  }

  /** Two everyday spellings that the front page takes for numbers of their own: with the trunk zero in
      brackets, and with the country code but no prefix. */
  lemma OtherNumbers(digits: string)
    requires forall c :: c in digits ==> Decimal.IsDigit(c)
    ensures NumberKey("+46 (0)" + digits) == "00" + digits
    ensures NumberKey("+46 (0)" + digits) != NumberKey("0" + digits)
    ensures NumberKey("46" + digits) == "46" + digits
    ensures NumberKey("46" + digits) != NumberKey("0" + digits)
  {
    StripTrunk(digits);
    StrippedDigits("46" + digits);
    StrippedDigits("0" + digits);
    hide Stripped;
    SpellsKey("+46" + ("0" + digits), "0" + digits);
    assert "0" + ("0" + digits) == "00" + digits;
    NationalParts("46" + digits);
    NationalParts("0" + digits);
    assert ("46" + digits)[0] == '4';
    assert "+46"[0] == '+' && "0046"[0] == '0';
    assert National("0" + digits)[0] == '0';
  }

  lemma StripTrunk(digits: string)
    requires forall c :: c in digits ==> Decimal.IsDigit(c)
    ensures Stripped("+46 (0)" + digits) == "+46" + ("0" + digits)
  {
    assert "+46 (0)" + digits == "+46" + (" (" + ("0" + (")" + digits)));
    StrippedConcat("+46", " (" + ("0" + (")" + digits)));
    StrippedConcat(" (", "0" + (")" + digits));
    StrippedConcat("0", ")" + digits);
    StrippedConcat(")", digits);
    StrippedDigits("+46");
    StrippedNothing(" (");
    StrippedDigits("0");
    StrippedNothing(")");
    StrippedDigits(digits);
  }

  // ---- The list ----

  const MAX_NUMBERS := 3

  function Without(numbers: seq<string>, number: string): seq<string> {
    if numbers == [] then []
    else if NumberKey(numbers[0]) != NumberKey(number) then [numbers[0]] + Without(numbers[1..], number)
    else Without(numbers[1..], number)
  }

  function Front(numbers: seq<string>): seq<string> {
    if |numbers| <= MAX_NUMBERS then numbers else numbers[..MAX_NUMBERS]
  }

  function Remembered(numbers: seq<string>, number: string): seq<string> {
    Front([number] + Without(numbers, number))
  }

  class Recent {
    var numbers: seq<string>

    constructor ()
      ensures numbers == []
    {
      numbers := [];
    }

    method RememberNumber(number: string)
      modifies this
      ensures numbers == Remembered(old(numbers), number)
    {
      var others := Filter(numbers, number);
      numbers := [number] + others;
      if |numbers| > MAX_NUMBERS {
        numbers := numbers[..MAX_NUMBERS];
      }
    }

    method Forget(number: string)
      modifies this
      ensures numbers == Without(old(numbers), number)
    {
      numbers := Filter(numbers, number);
    }
  }

  lemma {:induction false} WithoutConcat(a: seq<string>, b: seq<string>, number: string)
    ensures Without(a + b, number) == Without(a, number) + Without(b, number)
  {
    hide NumberKey;
    if a == [] {
      assert a + b == b;
    } else {
      WithoutConcat(a[1..], b, number);
      assert (a + b)[0] == a[0] && (a + b)[1..] == a[1..] + b;
      if NumberKey(a[0]) != NumberKey(number) {
        assert [a[0]] + (Without(a[1..], number) + Without(b, number))
            == [a[0]] + Without(a[1..], number) + Without(b, number);
      }
    }
  }

  method Filter(numbers: seq<string>, number: string) returns (kept: seq<string>)
    ensures kept == Without(numbers, number)
  {
    kept := [];
    for i := 0 to |numbers|
      invariant kept == Without(numbers[..i], number)
    {
      WithoutConcat(numbers[..i], [numbers[i]], number);
      assert numbers[..i + 1] == numbers[..i] + [numbers[i]];
      if NumberKey(numbers[i]) != NumberKey(number) {
        kept := kept + [numbers[i]];
      }
    }
    assert numbers[..|numbers|] == numbers;
  }

  // ---- The list after any history ----

  datatype Op = Remember(number: string) | Forget(number: string)

  /** With `bounded` off, the list that would never be cut. */
  function Do(numbers: seq<string>, op: Op, bounded: bool): seq<string> {
    match op
    case Remember(n) => if bounded then Remembered(numbers, n) else [n] + Without(numbers, n)
    case Forget(n) => Without(numbers, n)
  }

  function DoAll(ops: seq<Op>, bounded: bool): seq<string> {
    if ops == [] then [] else Do(DoAll(ops[..|ops| - 1], bounded), ops[|ops| - 1], bounded)
  }

  ghost predicate Distinct(numbers: seq<string>) {
    forall i, j :: 0 <= i < j < |numbers| ==> NumberKey(numbers[i]) != NumberKey(numbers[j])
  }

  lemma {:induction false} WithoutHolds(numbers: seq<string>, number: string)
    ensures forall n :: n in Without(numbers, number) <==> n in numbers && NumberKey(n) != NumberKey(number)
  {
    hide NumberKey;
    if numbers != [] {
      WithoutHolds(numbers[1..], number);
      assert numbers == [numbers[0]] + numbers[1..];
    }
  }

  lemma DistinctTail(numbers: seq<string>)
    requires numbers != [] && Distinct(numbers)
    ensures Distinct(numbers[1..])
    ensures forall n :: n in numbers[1..] ==> NumberKey(n) != NumberKey(numbers[0])
  {
    hide NumberKey;
  }

  lemma DistinctCons(number: string, numbers: seq<string>)
    requires Distinct(numbers) && forall n :: n in numbers ==> NumberKey(n) != NumberKey(number)
    ensures Distinct([number] + numbers)
  {
    hide NumberKey;
    var all := [number] + numbers;
    assert forall i :: 1 <= i < |all| ==> all[i] == numbers[i - 1] && all[i] in numbers;
  }

  lemma {:induction false} WithoutAbsent(numbers: seq<string>, number: string)
    requires forall n :: n in numbers ==> NumberKey(n) != NumberKey(number)
    ensures Without(numbers, number) == numbers
  {
    hide NumberKey;
    if numbers != [] {
      WithoutAbsent(numbers[1..], number);
    }
  }

  /** Of distinct numbers at most one is removed. */
  lemma {:induction false} WithoutShape(numbers: seq<string>, number: string)
    requires Distinct(numbers)
    ensures Distinct(Without(numbers, number))
    ensures |numbers| - 1 <= |Without(numbers, number)| <= |numbers|
  {
    hide NumberKey;
    hide Distinct;
    if numbers != [] {
      var first, others := numbers[0], numbers[1..];
      DistinctTail(numbers);
      WithoutShape(others, number);
      WithoutHolds(others, number);
      if NumberKey(first) == NumberKey(number) {
        WithoutAbsent(others, number);
      } else {
        DistinctCons(first, Without(others, number));
      }
    }
  }

  lemma WithoutPrefix(a: seq<string>, b: seq<string>, number: string)
    requires a <= b
    ensures Without(a, number) <= Without(b, number)
  {
    WithoutConcat(a, b[|a|..], number);
    assert b == a + b[|a|..];
  }

  lemma DistinctPrefix(a: seq<string>, b: seq<string>)
    requires a <= b && Distinct(b)
    ensures Distinct(a)
  {
    hide NumberKey;
  }

  lemma DoKeeps(s: seq<string>, l: seq<string>, op: Op)
    requires s <= l && Distinct(l) && |s| <= MAX_NUMBERS
    ensures Do(s, op, true) <= Do(l, op, false)
    ensures |Do(s, op, true)| <= MAX_NUMBERS
    ensures Distinct(Do(l, op, false))
  {
    hide NumberKey;
    hide Without;
    hide Distinct;
    DistinctPrefix(s, l);
    WithoutPrefix(s, l, op.number);
    WithoutShape(l, op.number);
    WithoutShape(s, op.number);
    WithoutHolds(l, op.number);
    DistinctCons(op.number, Without(l, op.number));
    assert [op.number] + Without(s, op.number) <= [op.number] + Without(l, op.number);
  }

  /** Over every history of remembering and forgetting, no number is listed twice, there are at most
      three, and they are the first of those that an endless list would hold. */
  lemma {:induction false} BoundedIsPrefix(ops: seq<Op>)
    ensures DoAll(ops, true) <= DoAll(ops, false)
    ensures |DoAll(ops, true)| <= 3
    ensures Distinct(DoAll(ops, false)) && Distinct(DoAll(ops, true))
  {
    hide Do;
    hide NumberKey;
    if ops != [] {
      var before, op := ops[..|ops| - 1], ops[|ops| - 1];
      BoundedIsPrefix(before);
      DoKeeps(DoAll(before, true), DoAll(before, false), op);
    }
    DistinctPrefix(DoAll(ops, true), DoAll(ops, false));
  }

  function RememberAll(history: seq<string>): seq<Op> {
    seq(|history|, i requires 0 <= i < |history| => Remember(history[i]))
  }

  function Reversed(s: seq<string>): seq<string> {
    if s == [] then [] else [s[|s| - 1]] + Reversed(s[..|s| - 1])
  }

  predicate Listed(numbers: seq<string>, number: string) {
    exists n :: n in numbers && NumberKey(n) == NumberKey(number)
  }

  /** The entries that no earlier entry equals. */
  function Firsts(s: seq<string>): seq<string> {
    if s == [] then []
    else
      var front, last := s[..|s| - 1], s[|s| - 1];
      if Listed(front, last) then Firsts(front) else Firsts(front) + [last]
  }

  lemma ListedAfter(x: string, s: seq<string>, number: string)
    ensures Listed([x] + s, number) <==> NumberKey(x) == NumberKey(number) || Listed(s, number)
  {
    hide NumberKey;
    assert x in [x] + s;
  }

  lemma WithoutOne(n: string, number: string)
    ensures Without([n], number) == if NumberKey(n) == NumberKey(number) then [] else [n]
  {
    hide NumberKey;
    assert Without([n][1..], number) == [];
  }

  lemma {:induction false} FirstsOfNewest(x: string, s: seq<string>)
    ensures Firsts([x] + s) == [x] + Without(Firsts(s), x)
  {
    hide NumberKey;
    hide Listed;
    var all := [x] + s;
    if s == [] {
      assert all[..0] == [];
      ListedNone(x);
      assert Firsts(all) == Firsts([]) + [x];
    } else {
      hide Without;
      var front, last := s[..|s| - 1], s[|s| - 1];
      assert all[..|all| - 1] == [x] + front && all[|all| - 1] == last;
      FirstsOfNewest(x, front);
      WithoutConcat(Firsts(front), [last], x);
      WithoutOne(last, x);
      ListedAfter(x, front, last);
    }
  }

  lemma ListedNone(number: string)
    ensures !Listed([], number)
  {
  }

  /** The endless list is the history read backwards without repeats. */
  lemma {:induction false} EndlessIsHistory(history: seq<string>)
    ensures DoAll(RememberAll(history), false) == Firsts(Reversed(history))
  {
    if history != [] {
      var front, last := history[..|history| - 1], history[|history| - 1];
      EndlessIsHistory(front);
      FirstsOfNewest(last, Reversed(front));
      var ops := RememberAll(history);
      assert ops[..|ops| - 1] == RememberAll(front);
      hide Without;
      hide Firsts;
    }
  }

  lemma CutSooner(l: seq<string>, n: string)
    requires Distinct(l)
    ensures Remembered(Front(l), n) == Front([n] + Without(l, n))
  {
    hide NumberKey;
    if |l| > MAX_NUMBERS {
      WithoutShape(l[..3], n);
      WithoutConcat(l[..3], l[3..], n);
      assert l == l[..3] + l[3..];
      hide Without;
    }
  }

  /** Cutting the list at every step loses nothing: after remembering any numbers it holds the first
      three of the whole history, newest first, without repeats. */
  lemma {:induction false} CuttingLosesNothing(history: seq<string>)
    ensures var all := Firsts(Reversed(history));
            DoAll(RememberAll(history), true) == if |all| <= 3 then all else all[..3]
  {
    EndlessIsHistory(history);
    if history != [] {
      var front, last := history[..|history| - 1], history[|history| - 1];
      CuttingLosesNothing(front);
      EndlessIsHistory(front);
      BoundedIsPrefix(RememberAll(front));
      var ops := RememberAll(history);
      assert ops[..|ops| - 1] == RememberAll(front);
      CutSooner(Firsts(Reversed(front)), last);
      hide Without;
      hide Firsts;
      hide Reversed;
    }
  }
}
