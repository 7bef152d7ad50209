/**
  Sizes of text: the bytes of its UTF-8 form and the decimal digits of a number.
  A `char` is a Unicode scalar value, as in the strings that survive `encode("utf-8")`.
 */
module Utf8 {

  function CharBytes(c: char): (n: nat)
    ensures 1 <= n <= 4
  {
    if c as int < 0x80 then 1
    else if c as int < 0x800 then 2
    else if c as int < 0x10000 then 3
    else 4
  }

  function Utf8Length(s: string): nat {
    if s == [] then 0 else CharBytes(s[0]) + Utf8Length(s[1..])
  }

  function Digit(d: nat): char
    requires d < 10
  {
    '0' + d as char
  }

  function Decimal(n: nat): string {
    if n < 10 then [Digit(n)] else Decimal(n / 10) + [Digit(n % 10)]
  }

  lemma {:induction false} Utf8LengthConcat(s: string, t: string)
    ensures Utf8Length(s + t) == Utf8Length(s) + Utf8Length(t)
  {
    if s == [] {
      assert s + t == t;
    } else {
      assert (s + t)[1..] == s[1..] + t;
      Utf8LengthConcat(s[1..], t);
    }
  }
}
