/** Decimal rendering of natural numbers.

    This is what Python's `str(n)` and JavaScript's template literals produce. Request ids,
    workload state names and allowlist keys are all built from it, so the other modules
    rely on two facts: equal numerals mean equal numbers, and a numeral ends where a
    character that is no digit begins. */
module Decimal {

  predicate IsDigit(c: char) {
    '0' <= c <= '9'
  }

  function Digit(d: nat): (c: char)
    requires d < 10
    ensures IsDigit(c) && c as int - '0' as int == d
  {
    ('0' as int + d) as char
  }

  function Str(n: nat): (s: string)
    ensures s != [] && forall i :: 0 <= i < |s| ==> IsDigit(s[i])
  {
    if n < 10 then [Digit(n)] else Str(n / 10) + [Digit(n % 10)]
  }

  /** The number a string of digits denotes: the reader that inverts `Str`. */
  function Value(s: string): (n: int) {
    if s == [] then 0
    else Value(s[..|s| - 1]) * 10 + (s[|s| - 1] as int - '0' as int)
  }

  lemma {:induction false} ValueOfStr(n: nat)
    ensures Value(Str(n)) == n
  {
    if n >= 10 {
      ValueOfStr(n / 10);
      var s := Str(n);
      assert s[..|s| - 1] == Str(n / 10);
    } else {
      assert Str(n)[..0] == [];
    }
  }

  lemma StrInjective(a: nat, b: nat)
    requires Str(a) == Str(b)
    ensures a == b
  {
    ValueOfStr(a);
    ValueOfStr(b);
  }

  /** A separator that does not occur in either head splits a string uniquely. */
  lemma SplitUnique(s: string, x: string, t: string, y: string, c: char)
    requires c !in s && c !in t
    requires s + [c] + x == t + [c] + y
    ensures s == t && x == y
  {
    var whole := s + [c] + x;
    assert whole[|s|] == c && whole[|t|] == c;
    assert forall i :: 0 <= i < |s| ==> whole[i] == s[i] != c;
    assert forall i :: 0 <= i < |t| ==> whole[i] == t[i] != c;
    assert whole[..|s|] == s && whole[..|t|] == t;
    assert whole[|s| + 1..] == x && whole[|t| + 1..] == y;
  }
}
