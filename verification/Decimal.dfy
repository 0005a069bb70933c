/** Decimal numerals: what an id's numeric suffix prints and parses to. */
module Decimal {
  function Digit(d: nat): char
    requires d < 10
  {
    '0' + d as char
  }

  function Dec(n: nat): string {
    if n < 10 then [Digit(n)] else Dec(n / 10) + [Digit(n % 10)]
  }

  predicate IsDigit(c: char) {
    '0' <= c <= '9'
  }

  /** str.isdigit on ASCII text: at least one character and only digits. */
  predicate IsNumeral(s: string) {
    s != [] && forall i :: 0 <= i < |s| ==> IsDigit(s[i])
  }

  function Value(s: string): nat
    requires forall i :: 0 <= i < |s| ==> IsDigit(s[i])
  {
    if s == [] then 0
    else
      assert IsDigit(s[|s| - 1]);
      10 * Value(s[..|s| - 1]) + (s[|s| - 1] as int - '0' as int)
  }

  /** Printing and parsing a number gives it back. */
  lemma {:induction false} ValueOfDec(n: nat)
    ensures IsNumeral(Dec(n)) && Value(Dec(n)) == n
  {
    if n >= 10 {
      ValueOfDec(n / 10);
      assert Dec(n)[..|Dec(n)| - 1] == Dec(n / 10);
    } else {
      assert Dec(n)[..0] == [];
    }
  }

  lemma {:induction false} DecInjective(m: nat, n: nat)
    requires Dec(m) == Dec(n)
    ensures m == n
  {
    ValueOfDec(m);
    ValueOfDec(n);
  }

  function Noughts(k: nat): string {
    if k == 0 then "" else "0" + Noughts(k - 1)
  }

  lemma {:induction false} NumeralAppend(s: string, c: char)
    requires IsNumeral(s) && IsDigit(c)
    ensures IsNumeral(s + [c]) && Value(s + [c]) == 10 * Value(s) + (c as int - '0' as int)
  {
    assert (s + [c])[..|s|] == s;
  }

  /** Noughts before a number change nothing. */
  lemma {:induction false} NoughtsBefore(k: nat, n: nat)
    ensures IsNumeral(Noughts(k) + Dec(n)) && Value(Noughts(k) + Dec(n)) == n
    decreases n
  {
    AllNoughts(k);
    if n < 10 {
      var s := Noughts(k);
      assert (s + [Digit(n)])[..k] == s;
    } else {
      NoughtsBefore(k, n / 10);
      assert Noughts(k) + Dec(n) == Noughts(k) + Dec(n / 10) + [Digit(n % 10)];
      NumeralAppend(Noughts(k) + Dec(n / 10), Digit(n % 10));
    }
  }

  lemma {:induction false} AllNoughts(k: nat)
    ensures |Noughts(k)| == k && (forall i :: 0 <= i < k ==> Noughts(k)[i] == '0') && Value(Noughts(k)) == 0
  {
    if k > 0 {
      AllNoughts(k - 1);
      var s := Noughts(k);
      assert s[..k - 1] == Noughts(k - 1);
    }
  }

  /** A numeral is its value printed, with any number of noughts before it. */
  lemma {:induction false} NumeralsExactly(s: string, n: nat)
    ensures IsNumeral(s) && Value(s) == n <==> exists k: nat :: s == Noughts(k) + Dec(n)
    decreases |s|
  {
    if k: nat :| s == Noughts(k) + Dec(n) {
      NoughtsBefore(k, n);
    }
    if IsNumeral(s) && Value(s) == n {
      var k := NumeralIsPadded(s);
    }
  }

  lemma {:induction false} NumeralIsPadded(s: string) returns (k: nat)
    requires IsNumeral(s)
    ensures s == Noughts(k) + Dec(Value(s))
    decreases |s|
  {
    hide Noughts, Dec;
    var m := |s| - 1;
    var d := s[m] as int - '0' as int;
    assert IsDigit(s[m]);
    assert s == s[..m] + [Digit(d)];
    if m == 0 {
      k := 0;
      OneDigit(d);
    } else {
      k := NumeralIsPadded(s[..m]);
      k := AppendedIsPadded(s[..m], k, d);
    }
  }

  lemma {:induction false} AppendedIsPadded(s: string, j: nat, d: nat) returns (k: nat)
    requires d < 10 && IsNumeral(s) && s == Noughts(j) + Dec(Value(s))
    ensures IsNumeral(s + [Digit(d)]) && s + [Digit(d)] == Noughts(k) + Dec(Value(s + [Digit(d)]))
  {
    hide Noughts, Dec, Value;
    var v := Value(s);
    NumeralAppend(s, Digit(d));
    if v == 0 {
      k := j + 1;
      OneDigit(0);
      OneDigit(d);
      NoughtsOnRight(j);
      assert s == Noughts(k);
    } else {
      k := j;
      OneDigitMore(v, d);
      assert Noughts(k) + Dec(v) + [Digit(d)] == Noughts(k) + (Dec(v) + [Digit(d)]);
    }
  }

  lemma OneDigit(d: nat)
    requires d < 10
    ensures Noughts(0) + Dec(d) == [Digit(d)] && Dec(d) == [Digit(d)]
  {
  }

  lemma OneDigitMore(v: nat, d: nat)
    requires d < 10
    ensures v > 0 ==> Dec(10 * v + d) == Dec(v) + [Digit(d)]
  {
  }

  lemma {:induction false} NoughtsOnRight(k: nat)
    ensures Noughts(k + 1) == Noughts(k) + "0"
  {
    if k > 0 { NoughtsOnRight(k - 1); }
  }
}
