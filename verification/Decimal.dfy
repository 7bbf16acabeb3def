/** Timestamps written as decimal strings (`unix_timestamp_secs`) and compared as strings. */
module Decimal {
  import opened Orders

  function Pow10(n: nat): (p: nat)
    ensures p > 0
  {
    if n == 0 then 1 else 10 * Pow10(n - 1)
  }

  predicate IsDigits(s: string) {
    forall i :: 0 <= i < |s| ==> '0' <= s[i] <= '9'
  }

  function Digit(c: char): nat
    requires '0' <= c <= '9'
  {
    c as int - '0' as int
  }

  function Value(s: string): nat
    requires IsDigits(s)
  {
    if s == [] then 0 else Digit(s[0]) * Pow10(|s| - 1) + Value(s[1..])
  }

  lemma Tens(d: nat, p: nat, v: nat)
    ensures d * (10 * p) + 10 * v == 10 * (d * p + v)
  {
  }

  /** Reading a number digit by digit. */
  lemma {:induction false} ValueSnoc(s: string, c: char)
    requires IsDigits(s) && '0' <= c <= '9'
    ensures IsDigits(s + [c]) && Value(s + [c]) == 10 * Value(s) + (c as int - '0' as int)
  {
    if s == [] {
      assert [c][1..] == [];
    } else {
      ValueSnoc(s[1..], c);
      assert (s + [c])[1..] == s[1..] + [c];
      Tens(Digit(s[0]), Pow10(|s| - 1), Value(s[1..]));
    }
  }

  lemma LeadDigit(x: nat, y: nat, p: nat, u: nat, v: nat)
    requires u < p && v < p
    ensures x * p + u < y * p + v <==> x < y || (x == y && u < v)
  {
    if x < y {
      assert (x + 1) * p <= y * p;
    } else if y < x {
      assert (y + 1) * p <= x * p;
    }
  }

  lemma {:induction false} ValueBound(s: string)
    requires IsDigits(s)
    ensures Value(s) < Pow10(|s|)
  {
    if s != [] {
      ValueBound(s[1..]);
      LeadDigit(Digit(s[0]), 10, Pow10(|s| - 1), Value(s[1..]), 0);
    }
  }

  /** Comparing digit strings as text compares the numbers, exactly for equal digit counts. */
  lemma {:induction false} TextOrderIsNumericOrder(a: string, b: string)
    requires IsDigits(a) && IsDigits(b) && |a| == |b|
    ensures StrLt(a, b) <==> Value(a) < Value(b)
  {
    if a != [] {
      TextOrderIsNumericOrder(a[1..], b[1..]);
      ValueBound(a[1..]);
      ValueBound(b[1..]);
      LeadDigit(Digit(a[0]), Digit(b[0]), Pow10(|a| - 1), Value(a[1..]), Value(b[1..]));
    }
  }

  /** With different digit counts it does not: "9" sorts after "10". */
  lemma TextOrderNeedsEqualWidth()
    ensures Value("9") < Value("10") && StrLt("10", "9")
  {
    assert Pow10(1) == 10 * Pow10(0);
    assert "10"[1..] == "0" && "9"[1..] == "" && "0"[1..] == "";
  }
}
