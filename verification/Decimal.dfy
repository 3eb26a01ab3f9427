/** Decimal text: how array indexes and timeout amounts are written and read back. */
module Decimal {

  predicate IsDigit(c: char) {
    '0' <= c <= '9'
  }

  predicate AllDigits(s: string) {
    forall i | 0 <= i < |s| :: IsDigit(s[i])
  }

  function Digit(d: nat): (c: char)
    requires d < 10
    ensures IsDigit(c)
  {
    ('0' as int + d) as char
  }

  /** `n` in decimal, without leading zeros. */
  function Print(n: nat): (s: string)
    ensures |s| >= 1 && AllDigits(s)
  {
    if n < 10 then [Digit(n)] else Print(n / 10) + [Digit(n % 10)]
  }

  /** The number a run of digits stands for, leading zeros allowed. */
  function Value(s: string): nat
    requires AllDigits(s)
  {
    if s == "" then 0 else 10 * Value(s[..|s| - 1]) + (s[|s| - 1] as int - '0' as int)
  }

  lemma {:induction false} ValueOfPrint(n: nat)
    ensures Value(Print(n)) == n
  {
    if n >= 10 {
      ValueOfPrint(n / 10);
      assert Print(n)[..|Print(n)| - 1] == Print(n / 10);
    }
  }

  function Pow10(k: nat): (p: nat)
    ensures p >= 1
  {
    if k == 0 then 1 else 10 * Pow10(k - 1)
  }

  /** A number under ten to the `k` prints in at most `k` digits. */
  lemma {:induction false} PrintFits(n: nat, k: nat)
    requires k >= 1 && n < Pow10(k)
    ensures |Print(n)| <= k
  {
    if n >= 10 {
      assert k >= 2 by {
        assert Pow10(1) == 10 * Pow10(0);
      }
      PrintFits(n / 10, k - 1);
    }
  }

  /** A run of at most `k` digits stands for a number under ten to the `k`. */
  lemma {:induction false} ValueFits(s: string, k: nat)
    requires AllDigits(s) && |s| <= k
    ensures Value(s) < Pow10(k)
  {
    if s != "" {
      ValueFits(s[..|s| - 1], k - 1);
    }
  }

  // ---- Every spelling of a number ----

  function Zeros(k: nat): (s: string)
    ensures |s| == k && forall i | 0 <= i < k :: s[i] == '0'
  {
    if k == 0 then "" else Zeros(k - 1) + "0"
  }

  /** The text is `n` printed, after any zeros. */
  predicate Writes(text: string, n: nat) {
    |Print(n)| <= |text| && text == Zeros(|text| - |Print(n)|) + Print(n)
  }

  lemma {:induction false} ValueOfWritten(k: nat, n: nat)
    ensures AllDigits(Zeros(k) + Print(n)) && Value(Zeros(k) + Print(n)) == n
    decreases n
  {
    var s := Zeros(k) + Print(n);
    assert s[..|s| - 1] == Zeros(k) + Print(n)[..|Print(n)| - 1];
    if n < 10 {
      assert s[..|s| - 1] == Zeros(k);
      ValueOfZeros(k);
    } else {
      assert Print(n)[..|Print(n)| - 1] == Print(n / 10);
      ValueOfWritten(k, n / 10);
    }
  }

  lemma {:induction false} ValueOfZeros(k: nat)
    ensures AllDigits(Zeros(k)) && Value(Zeros(k)) == 0
  {
    if k > 0 {
      ValueOfZeros(k - 1);
      assert Zeros(k)[..k - 1] == Zeros(k - 1);
    }
  }

  /** Any digits are some number printed after zeros. */
  lemma {:induction false} DigitsAreWritten(s: string)
    requires s != "" && AllDigits(s)
    ensures Writes(s, Value(s))
  {
    hide Writes, Print, Zeros;
    var t, d := s[..|s| - 1], LastDigit(s);
    assert s == t + [Digit(d)];
    if t == "" {
      OneDigit(d);
    } else {
      DigitsAreWritten(t);
      OneMoreDigit(t, Value(t), d);
    }
  }

  /** The last digit, as a number. */
  function LastDigit(s: string): (d: nat)
    requires s != "" && AllDigits(s)
    ensures d < 10 && Digit(d) == s[|s| - 1] && Value(s) == 10 * Value(s[..|s| - 1]) + d
  {
    s[|s| - 1] as int - '0' as int
  }

  lemma OneDigit(d: nat)
    requires d < 10
    ensures Writes([Digit(d)], d)
  {
    assert Zeros(0) + Print(d) == [Digit(d)];
  }

  lemma OneMoreDigit(t: string, v: nat, d: nat)
    requires Writes(t, v) && d < 10
    ensures Writes(t + [Digit(d)], 10 * v + d)
  {
    var s := t + [Digit(d)];
    if v == 0 {
      assert Print(0) == "0" && t == Zeros(|t| - 1) + "0" == Zeros(|t|);
      assert Print(d) == [Digit(d)] && s == Zeros(|t|) + Print(d);
    } else {
      assert (10 * v + d) / 10 == v && (10 * v + d) % 10 == d;
      assert Print(10 * v + d) == Print(v) + [Digit(d)];
      assert s == Zeros(|t| - |Print(v)|) + (Print(v) + [Digit(d)]);
    }
  }

  lemma WritesIs(s: string, n: nat)
    ensures Writes(s, n) <==> s != "" && AllDigits(s) && Value(s) == n
  {
    if Writes(s, n) {
      ValueOfWritten(|s| - |Print(n)|, n);
    }
    if s != "" && AllDigits(s) {
      DigitsAreWritten(s);
    }
  }

  lemma SignIsNoDigit(s: string, n: nat)
    requires s != "" && !IsDigit(s[0])
    ensures !Writes(s, n)
  {
    WritesIs(s, n);
  }
}
