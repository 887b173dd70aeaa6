/** Decimal printing and parsing of Go's 64-bit `int` (strconv.Itoa, strconv.Atoi). */
module Decimal {
  import opened Basics

  const INT_MIN := -0x8000_0000_0000_0000
  const INT_MAX := 0x7fff_ffff_ffff_ffff

  type goint = n: int | INT_MIN <= n <= INT_MAX

  function Pow10(n: nat): (p: nat)
    ensures p > 0
  {
    if n == 0 then 1 else 10 * Pow10(n - 1)
  }

  function DigitChar(n: nat): (c: char)
    requires n < 10
    ensures '0' <= c <= '9'
  {
    ('0' as int + n) as char
  }

  predicate IsDigit(c: char) {
    '0' <= c <= '9'
  }

  function PrintNat(n: nat): (s: string)
    ensures s != [] && forall i :: 0 <= i < |s| ==> IsDigit(s[i])
  {
    if n < 10 then [DigitChar(n)] else PrintNat(n / 10) + [DigitChar(n % 10)]
  }

  function Itoa(n: int): string {
    if n < 0 then "-" + PrintNat(-n) else PrintNat(n)
  }

  /** The value of a non-empty run of digits. */
  function ParseNat(s: string): Option<nat> {
    if s == [] then
      None
    else
      var c := s[|s| - 1];
      if !IsDigit(c) then
        None
      else if |s| == 1 then
        Some(c as int - '0' as int)
      else
        var rest := ParseNat(s[..|s| - 1]);
        if rest.None? then None else Some(10 * rest.value + (c as int - '0' as int))
  }

  function Signed(s: string): Option<int> {
    var signed := s != [] && (s[0] == '-' || s[0] == '+');
    var m := ParseNat(if signed then s[1..] else s);
    if m.None? then
      None
    else
      var n: int := if signed && s[0] == '-' then 0 - m.value else m.value;
      Some(n)
  }

  /** An optional sign and digits, in the range of a 64-bit int. */
  function Atoi(s: string): Option<goint> {
    var n := Signed(s);
    if n.Some? && INT_MIN <= n.value <= INT_MAX then Some(n.value) else None
  }

  lemma {:induction false} ParsePrintNat(n: nat)
    ensures ParseNat(PrintNat(n)) == Some(n)
  {
    if n >= 10 {
      ParsePrintNat(n / 10);
      var s := PrintNat(n);
      assert s[..|s| - 1] == PrintNat(n / 10);
    }
  }

  lemma SignedNat(n: nat)
    ensures Signed(PrintNat(n)) == Some(n) && Signed("-" + PrintNat(n)) == Some(0 - n)
  {
    ParsePrintNat(n);
    var s := PrintNat(n);
    assert IsDigit(s[0]);
    assert ("-" + s)[1..] == s;
  }

  lemma SignedItoa(n: int)
    ensures Signed(Itoa(n)) == Some(n)
  {
    SignedNat(if n < 0 then -n else n);
  }

  /** A printed integer parses back, exactly when it fits the machine integer. */
  lemma AtoiItoa(n: int)
    ensures Atoi(Itoa(n)) == if INT_MIN <= n <= INT_MAX then Some(n) else None
  {
    SignedItoa(n);
  }

  lemma ItoaInjective(m: int, n: int)
    requires Itoa(m) == Itoa(n)
    ensures m == n
  {
    SignedItoa(m);
    SignedItoa(n);
  }

  // ----- Which texts are numbers -----

  ghost predicate AllDigits(s: string) {
    s != [] && forall i :: 0 <= i < |s| ==> '0' <= s[i] <= '9'
  }

  ghost function Digit(c: char): int {
    c as int - '0' as int
  }

  /** The positional value of a run of digits. */
  ghost function Positional(s: string): int {
    if s == [] then 0 else Digit(s[0]) * Pow10(|s| - 1) + Positional(s[1..])
  }

  lemma ShiftDigit(d: int, n: nat)
    ensures d * Pow10(n + 1) == 10 * (d * Pow10(n))
  {
    var p := Pow10(n);
    assert d * (10 * p) == 10 * (d * p);
  }

  lemma {:induction false} PositionalLast(s: string, c: char)
    ensures Positional(s + [c]) == 10 * Positional(s) + Digit(c)
  {
    var t := s + [c];
    if s == [] {
      assert t == [c] && t[1..] == [];
    } else {
      PositionalLast(s[1..], c);
      assert t[1..] == s[1..] + [c];
      ShiftDigit(Digit(s[0]), |s| - 1);
    }
  }

  /** A text parses as a natural number exactly when it is a non-empty run of digits, and then to its value. */
  lemma {:induction false} ParseNatExactly(s: string)
    ensures ParseNat(s).Some? <==> AllDigits(s)
    ensures AllDigits(s) ==> ParseNat(s) == Some(Positional(s))
  {
    if s != [] {
      var n := |s| - 1;
      ParseNatExactly(s[..n]);
      assert s == s[..n] + [s[n]];
      if AllDigits(s) {
        PositionalLast(s[..n], s[n]);
      }
    }
  }

  /** What stands after an optional sign. */
  ghost function Unsigned(s: string): string {
    if s != [] && (s[0] == '-' || s[0] == '+') then s[1..] else s
  }

  ghost function ValueOf(s: string): int
    requires AllDigits(Unsigned(s))
  {
    if s[0] == '-' then 0 - Positional(Unsigned(s)) else Positional(Unsigned(s))
  }

  /** Atoi accepts exactly an optional sign and digits whose value is in range, and gives that value. */
  lemma AtoiExactly(s: string)
    ensures Atoi(s).Some? <==> AllDigits(Unsigned(s)) && INT_MIN <= ValueOf(s) <= INT_MAX
    ensures Atoi(s).Some? ==> Atoi(s).value == ValueOf(s)
    ensures Atoi(s).Some? ==> AllDigits(s) || (s[0] == '-' && AllDigits(s[1..])) || (s[0] == '+' && AllDigits(s[1..]))
  {
    ParseNatExactly(Unsigned(s));
  }

  /** The same digits without a sign, with a plus and with a minus. */
  lemma AtoiForms(t: string)
    requires AllDigits(t)
    ensures Atoi(t) == Atoi("+" + t) == if Positional(t) <= 0x7fff_ffff_ffff_ffff then Some(Positional(t)) else None
    ensures Atoi("-" + t) == if Positional(t) <= 0x8000_0000_0000_0000 then Some(0 - Positional(t)) else None
  {
    ParseNatExactly(t);
    assert ("+" + t)[1..] == t && ("-" + t)[1..] == t;
    assert '0' <= t[0] <= '9';
  }

  /** A printed integer is a sign if it is negative, and digits of its value without leading zeros. */
  lemma ItoaCanonical(n: int)
    ensures var s := Itoa(n); var t := Unsigned(s);
      && AllDigits(t) && ValueOf(s) == n && (n >= 0 ==> t == s) && (n < 0 ==> s == "-" + t)
      && (t[0] == '0' ==> n == 0 && t == "0")
  {
    SignedItoa(n);
    ParseNatExactly(Unsigned(Itoa(n)));
    NoLeadingZero(if n < 0 then -n else n);
    assert n < 0 ==> Itoa(n)[1..] == PrintNat(-n);
  }

  lemma {:induction false} NoLeadingZero(n: nat)
    ensures PrintNat(n)[0] == '0' ==> n == 0 && PrintNat(n) == "0"
  {
    if n >= 10 {
      NoLeadingZero(n / 10);
    }
  }
}
