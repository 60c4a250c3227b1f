/**
 * fmt.Sprint of a non-negative Go int: its decimal rendering, without
 * leading zeros.  LunarFuzz compares filter entries against this text,
 * so a filter entry "050" is a different string from Sprint(50).
 */
module Fmt {

  predicate IsDigit(c: char) {
    '0' <= c <= '9'
  }

  function Digit(d: nat): (c: char)
    requires d < 10
    ensures IsDigit(c) && c as int - '0' as int == d
  {
    ('0' as int + d) as char
  }

  /** fmt.Sprint(n) for n >= 0. */
  function Sprint(n: nat): (s: string)
    ensures |s| >= 1
    ensures forall i :: 0 <= i < |s| ==> IsDigit(s[i])
    ensures s[0] == '0' ==> n == 0 && s == "0"
    decreases n
  {
    if n < 10 then [Digit(n)] else Sprint(n / 10) + [Digit(n % 10)]
  }

  /** The value of a string of decimal digits (an independent reading of a rendering). */
  function Value(s: string): nat
    requires forall i :: 0 <= i < |s| ==> IsDigit(s[i])
  {
    if s == [] then 0
    else
      assert IsDigit(s[|s| - 1]);
      10 * Value(s[..|s| - 1]) + (s[|s| - 1] as int - '0' as int)
  }

  /** Reading a rendering back gives the number. */
  lemma {:induction false} ValueOfSprint(n: nat)
    ensures Value(Sprint(n)) == n
    decreases n
  {
    var s := Sprint(n);
    if n >= 10 {
      assert s[..|s| - 1] == Sprint(n / 10);
      ValueOfSprint(n / 10);
    } else {
      assert s[..0] == [];
    }
  }

  /** Different numbers have different renderings. */
  lemma SprintInjective(m: nat, n: nat)
    ensures Sprint(m) == Sprint(n) <==> m == n
  {
    if Sprint(m) == Sprint(n) {
      ValueOfSprint(m);
      ValueOfSprint(n);
    }
  }

  /** No entry with a leading zero (other than "0" itself) is the rendering of any number. */
  lemma LeadingZeroNeverRendered(entry: string, n: nat)
    requires |entry| >= 2 && entry[0] == '0'
    ensures Sprint(n) != entry
  {
  }
}
