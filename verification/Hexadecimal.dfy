/** Hexadecimal texts: comparing lower-case ones of one length is comparing the numbers they stand for. */
module Hexadecimal {
  import opened Powers

  /** Comparison of strings by code units. */
  predicate LexLe(a: string, b: string) {
    if a == "" then true
    else if b == "" then false
    else if a[0] != b[0] then a[0] < b[0]
    else LexLe(a[1..], b[1..])
  }

  lemma {:induction false} LexOrder(a: string, b: string)
    ensures LexLe(a, b) || LexLe(b, a)
    ensures LexLe(a, b) && LexLe(b, a) ==> a == b
  {
    if a != "" && b != "" && a[0] == b[0] {
      LexOrder(a[1..], b[1..]);
      assert a == [a[0]] + a[1..] && b == [b[0]] + b[1..];
    }
  }

  predicate IsLowerHex(s: string) { forall i :: 0 <= i < |s| ==> '0' <= s[i] <= '9' || 'a' <= s[i] <= 'f' }

  /** The value of a hexadecimal digit of either case. */
  function Digit(c: char): int {
    if c <= '9' then c as int - '0' as int
    else if 'a' <= c then c as int - 'a' as int + 10
    else c as int - 'A' as int + 10
  }

  function Pow16(n: nat): (p: nat)
    ensures p > 0
  {
    if n == 0 then 1 else 16 * Pow16(n - 1)
  }

  /** The number a string of hexadecimal digits stands for. */
  function Number(s: string): int {
    if s == "" then 0 else Digit(s[0]) * Pow16(|s| - 1) + Number(s[1..])
  }

  lemma {:induction false} NumberRange(s: string)
    requires IsLowerHex(s)
    ensures 0 <= Number(s) < Pow16(|s|)
  {
    if s != "" {
      NumberRange(s[1..]);
      ScaledRange(Digit(s[0]), Pow16(|s| - 1), Number(s[1..]));
    }
  }

  lemma ScaledRange(d: int, p: int, r: int)
    requires 0 <= d < 16 && 0 <= r < p
    ensures 0 <= d * p + r < 16 * p
  {
    assert d * p <= 15 * p && 0 <= d * p;
  }

  lemma ScaledOrder(d: int, e: int, p: int, r: int, s: int)
    requires d < e && 0 <= r < p && 0 <= s < p
    ensures d * p + r < e * p + s
  {
    MultipleAtLeast(p, e - d);
    assert p * (e - d) == e * p - d * p;
  }

  /** On lower-case digits of one length, comparing strings is comparing numbers. */
  lemma {:induction false} LexIsNumeric(a: string, b: string)
    requires |a| == |b| && IsLowerHex(a) && IsLowerHex(b)
    ensures LexLe(a, b) <==> Number(a) <= Number(b)
  {
    if a != "" {
      NumberRange(a[1..]);
      NumberRange(b[1..]);
      var p := Pow16(|a| - 1);
      if a[0] == b[0] {
        LexIsNumeric(a[1..], b[1..]);
      } else if a[0] < b[0] {
        ScaledOrder(Digit(a[0]), Digit(b[0]), p, Number(a[1..]), Number(b[1..]));
      } else {
        ScaledOrder(Digit(b[0]), Digit(a[0]), p, Number(b[1..]), Number(a[1..]));
      }
    }
  }

  /** A lower-case text of one length is determined by its number. */
  lemma NumberDetermines(a: string, b: string)
    requires |a| == |b| && IsLowerHex(a) && IsLowerHex(b) && Number(a) == Number(b)
    ensures a == b
  {
    LexIsNumeric(a, b);
    LexIsNumeric(b, a);
    LexOrder(a, b);
  }
}
