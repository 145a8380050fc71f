/** Integers printed in decimal, as Python's str and Qt's arg print them. */
module Decimal {
  predicate IsDigit(c: char) { '0' <= c <= '9' }

  function DigitChar(d: int): char
    requires 0 <= d < 10
  {
    ('0' as int + d) as char
  }

  function PrintNat(n: nat): (s: string)
    ensures s != ""
  {
    if n < 10 then [DigitChar(n)] else PrintNat(n / 10) + [DigitChar(n % 10)]
  }

  /** str of an int. */
  function PrintInt(n: int): string { if n < 0 then "-" + PrintNat(-n) else PrintNat(n) }

  lemma {:induction false} PrintsDigits(n: nat)
    ensures forall c :: c in PrintNat(n) ==> IsDigit(c)
  {
    if n >= 10 {
      PrintsDigits(n / 10);
    }
  }

  lemma {:induction false} PrintNatInjective(m: nat, n: nat)
    requires PrintNat(m) == PrintNat(n)
    ensures m == n
  {
    var s, t := PrintNat(m), PrintNat(n);
    assert s[|s| - 1] == t[|t| - 1];
    if m >= 10 && n >= 10 {
      assert s[..|s| - 1] == PrintNat(m / 10) && t[..|t| - 1] == PrintNat(n / 10);
      PrintNatInjective(m / 10, n / 10);
    }
  }

  /** Different integers print differently, and never with any character but a sign and digits. */
  lemma PrintIntInjective(m: int, n: int)
    ensures forall c :: c in PrintInt(m) ==> c == '-' || IsDigit(c)
    ensures PrintInt(m) == PrintInt(n) ==> m == n
  {
    hide PrintNat;
    var a, b := if m < 0 then -m else m, if n < 0 then -n else n;
    PrintsDigits(a);
    PrintsDigits(b);
    if PrintInt(m) == PrintInt(n) {
      assert m < 0 ==> PrintInt(m)[1..] == PrintNat(a);
      assert n < 0 ==> PrintInt(n)[1..] == PrintNat(b);
      assert PrintInt(m)[0] in PrintInt(m) && PrintNat(a)[0] in PrintNat(a) && PrintNat(b)[0] in PrintNat(b);
      PrintNatInjective(a, b);
    }
  }
}
