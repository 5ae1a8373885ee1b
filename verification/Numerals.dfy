/** Which texts strconv takes for numbers and booleans, and what it leaves for the others. */
module Numerals {
  import opened Decimal

  predicate AllDigits(s: string) { forall i :: 0 <= i < |s| ==> IsDigit(s[i]) }

  /** The number a text of digits stands for, read from its last digit. */
  function ValueOf(s: string): nat
    requires AllDigits(s)
  {
    if s == "" then 0 else ValueOf(s[..|s| - 1]) * 10 + DigitValue(s[|s| - 1])
  }

  function Pow10(n: nat): nat { if n == 0 then 1 else 10 * Pow10(n - 1) }

  lemma {:induction false} Pow10Positive(n: nat)
    ensures Pow10(n) > 0
    decreases n
  {
    if n > 0 { Pow10Positive(n - 1); }
  }

  lemma {:induction false} ValueFromLeft(s: string)
    requires s != "" && AllDigits(s)
    ensures ValueOf(s) == DigitValue(s[0]) * Pow10(|s| - 1) + ValueOf(s[1..])
    decreases |s|
  {
    var n := |s| - 1;
    if n > 0 {
      ValueFromLeft(s[..n]);
      assert s[..n][1..] == s[1..][..n - 1];
      assert DigitValue(s[0]) * Pow10(n - 1) * 10 == DigitValue(s[0]) * Pow10(n);
    }
  }

  /** What the digits of p make of an accumulated number. */
  function Total(acc: nat, p: string): nat
    requires AllDigits(p)
  {
    acc * Pow10(|p|) + ValueOf(p)
  }

  lemma TotalStep(acc: nat, p: string)
    requires p != "" && AllDigits(p)
    ensures Total(acc, p) == Total(acc * 10 + DigitValue(p[0]), p[1..])
  {
    ValueFromLeft(p);
    StepAddsUp(acc, DigitValue(p[0]), Pow10(|p| - 1), Pow10(|p|), ValueOf(p[1..]));
  }

  lemma StepAddsUp(acc: nat, d: nat, w: nat, tens: nat, v: nat)
    requires tens == 10 * w
    ensures acc * tens + (d * w + v) == (acc * 10 + d) * w + v
  {
    assert acc * (10 * w) == acc * 10 * w;
    assert (acc * 10 + d) * w == acc * 10 * w + d * w;
  }

  lemma TotalGrows(acc: nat, p: string)
    requires AllDigits(p)
    ensures Total(acc, p) >= acc
  {
    Pow10Positive(|p|);
    assert acc * Pow10(|p|) >= acc;
  }

  /** Digits, and then the end or something else: too large a number is cut to the maximum wherever it
      is found out, and otherwise the end decides. */
  lemma {:induction false} DigitsThenRest(p: string, rest: string, acc: nat, max: nat)
    requires AllDigits(p) && (rest != "" ==> !IsDigit(rest[0])) && acc <= max
    ensures ParseDigits(p + rest, acc, max) ==
            if Total(acc, p) > max then Parsed(max, Range)
            else if rest == "" then Parsed(Total(acc, p), NoError)
            else Parsed(0, Syntax)
    decreases |p|
  {
    if p == "" {
      assert p + rest == rest;
    } else {
      var next := acc * 10 + DigitValue(p[0]);
      assert (p + rest)[0] == p[0] && (p + rest)[1..] == p[1..] + rest;
      TotalStep(acc, p);
      if next <= max {
        DigitsThenRest(p[1..], rest, next, max);
      } else {
        TotalGrows(next, p[1..]);
      }
    }
  }

  /** How many digits a text starts with. */
  function Leading(s: string): (n: nat)
    ensures n <= |s| && AllDigits(s[..n]) && (n < |s| ==> !IsDigit(s[n]))
  {
    if s == "" || !IsDigit(s[0]) then 0
    else
      var n := 1 + Leading(s[1..]);
      assert forall i :: 1 <= i < n ==> s[..n][i] == s[1..][..n - 1][i - 1];
      n
  }

  /** Digits alone are a number; what has none, or something after them, is not, and leaves zero, unless
      its first digits are too large already. */
  lemma UintTexts(s: string, max: nat)
    ensures var r, p := ParseUint(s, max), s[..Leading(s)];
            && (s != "" && AllDigits(s) && ValueOf(s) <= max ==> r == Parsed(ValueOf(s), NoError))
            && (ValueOf(p) > max ==> r == Parsed(max, Range))
            && ((s == "" || !AllDigits(s)) && ValueOf(p) <= max ==> r == Parsed(0, Syntax))
  {
    var n := Leading(s);
    DigitsThenRest(s[..n], s[n..], 0, max);
    assert s[..n] + s[n..] == s;
    assert Total(0, s[..n]) == ValueOf(s[..n]);
    if AllDigits(s) {
      assert n == |s| && s[..n] == s;
    }
  }

  predicate Signed(s: string) { s != "" && (s[0] == '-' || s[0] == '+') }

  function Unsigned(s: string): string { if Signed(s) then s[1..] else s }

  /** An optional sign and at least one digit. */
  predicate IsNumeral(s: string) { Unsigned(s) != "" && AllDigits(Unsigned(s)) }

  function NumeralValue(s: string): int
    requires IsNumeral(s)
  {
    if s[0] == '-' then -(ValueOf(Unsigned(s)) as int) else ValueOf(Unsigned(s))
  }

  /** A numeral in range is its number, and one out of range the nearest; anything else is an error and
      leaves zero, or a bound when its first digits are too large already. */
  lemma IntTexts(s: string, half: int)
    requires half > 1
    ensures var r := ParseInt(s, half);
            && (r.err == NoError <==> IsNumeral(s) && -half <= NumeralValue(s) < half)
            && (r.err == NoError ==> r.value == NumeralValue(s))
            && (IsNumeral(s) && NumeralValue(s) >= half ==> r == Parsed(half - 1, Range))
            && (IsNumeral(s) && NumeralValue(s) < -half ==> r == Parsed(-half, Range))
            && (!IsNumeral(s) && r.err == Syntax ==> r.value == 0)
            && (!IsNumeral(s) && r.err == Range ==> ValueOf(Unsigned(s)[..Leading(Unsigned(s))]) > 2 * half - 1)
  {
    var u := Unsigned(s);
    UintTexts(u, 2 * half - 1);
    if AllDigits(u) {
      assert u[..Leading(u)] == u;
    }
  }

  lemma BoolTexts(s: string)
    ensures ParseBool(s) == Parsed(true, NoError) <==> s in ["1", "t", "T", "TRUE", "true", "True"]
    ensures ParseBool(s) == Parsed(false, NoError) <==> s in ["0", "f", "F", "FALSE", "false", "False"]
    ensures ParseBool(s).err != NoError ==> ParseBool(s) == Parsed(false, Syntax)
  {
  }

  lemma {:induction false} PrintedDigits(n: nat)
    ensures var s := PrintNat(n); AllDigits(s) && ValueOf(s) == n && (n > 0 ==> s[0] != '0')
    decreases n
  {
    if n >= 10 {
      PrintedDigits(n / 10);
      assert PrintNat(n)[..|PrintNat(n)| - 1] == PrintNat(n / 10);
    } else {
      assert ValueOf("") == 0 && PrintNat(n)[..0] == "";
      assert DigitValue('0') == 0;
    }
  }

  /** A minus for a negative number, never a plus, and no zero in front. */
  predicate IsShortestFor(s: string, n: int) {
    && IsNumeral(s) && NumeralValue(s) == n
    && (s[0] == '-' <==> n < 0) && s[0] != '+'
    && if n == 0 then s == "0" else Unsigned(s)[0] != '0'
  }

  lemma PrintedIsShortest(n: int)
    ensures IsShortestFor(PrintInt(n), n)
  {
    PrintedDigits(if n < 0 then -n else n);
    if n < 0 {
      assert PrintInt(n)[1..] == PrintNat(-n);
    }
  }
}
