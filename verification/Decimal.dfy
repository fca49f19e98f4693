/** Printing a number in decimal, and reading it back. */
module Decimal {
  import opened Wrappers

  function Digit(d: nat): char
    requires d < 10
  {
    ('0' as int + d) as char
  }

  function Print(n: nat): (s: string)
    ensures s != []
  {
    if n < 10 then [Digit(n)] else Print(n / 10) + [Digit(n % 10)]
  }

  predicate AllDigits(s: string) {
    forall i :: 0 <= i < |s| ==> '0' <= s[i] <= '9'
  }

  function Value(s: string): nat
    requires AllDigits(s)
  {
    if s == [] then 0 else Value(s[..|s| - 1]) * 10 + (s[|s| - 1] as int - '0' as int)
  }

  /** The number that decimal digits spell; none where the conversion raises. */
  function Parse(s: string): Option<nat> {
    if s != [] && AllDigits(s) then Some(Value(s)) else None
  }

  lemma {:induction false} PrintParses(n: nat)
    ensures Parse(Print(n)) == Some(n)
  {
    var s := Print(n);
    if n < 10 {
      assert s == [Digit(n)] && s[..0] == [] && s[0] as int == '0' as int + n;
      assert AllDigits(s);
      assert Value(s) == Value(s[..0]) * 10 + n;
    } else {
      PrintParses(n / 10);
      assert s[..|s| - 1] == Print(n / 10) && s[|s| - 1] == Digit(n % 10);
      assert AllDigits(s);
      assert Value(s) == Value(Print(n / 10)) * 10 + n % 10;
    }
  }

  /** What printing means: one digit for a number below ten, and one digit more for ten times
      a number and that digit. */
  lemma PrintAppends(m: nat, d: nat)
    requires d < 10
    ensures Print(10 * m + d) == (if m == 0 then [] else Print(m)) + ["0123456789"[d]]
  {
    assert (10 * m + d) / 10 == m && (10 * m + d) % 10 == d;
    assert Digit(d) == "0123456789"[d];
  }
}
