/** The timeout header, written and read back. */
module Timeout {
  // Times are whole nanoseconds.

  import opened Options
  import Decimal

  datatype Unit = Hour | Minute | Second | Milli | Micro | Nano

  function Nanos(u: Unit): nat {
    match u
    case Hour => 3_600_000_000_000
    case Minute => 60_000_000_000
    case Second => 1_000_000_000
    case Milli => 1_000_000
    case Micro => 1_000
    case Nano => 1
  }

  function Letter(u: Unit): char {
    match u
    case Hour => 'H' case Minute => 'M' case Second => 'S' case Milli => 'm' case Micro => 'u' case Nano => 'n'
  }

  function UnitOf(c: char): Option<Unit> {
    match c
    case 'H' => Some(Hour) case 'M' => Some(Minute) case 'S' => Some(Second)
    case 'm' => Some(Milli) case 'u' => Some(Micro) case 'n' => Some(Nano)
    case _ => None
  }

  const FITS: nat := 100_000_000
  const LONGEST: nat := 99_999_999 * 3_600_000_000_000
  const U64: nat := 0x1_0000_0000_0000_0000

  // ---- Writing ----

  /** The remaining time held to what the grammar can say. */
  function Clamped(remaining: nat): nat {
    if remaining < 1 then 1 else if remaining > LONGEST then LONGEST else remaining
  }

  /** The first unit, from nanoseconds up, that needs no more than eight digits. */
  function FinestUnit(d: nat): (u: Unit)
    ensures d <= LONGEST ==> d / Nanos(u) < FITS
    ensures d <= LONGEST && u != Nano ==> d >= FITS
  {
    if d < FITS then Nano
    else if d / 1_000 < FITS then Micro
    else if d / 1_000_000 < FITS then Milli
    else if d / 1_000_000_000 < FITS then Second
    else if d / 60_000_000_000 < FITS then Minute
    else Hour
  }

  /** The header for the time left, its amount cut to whole units. */
  function Timed(remaining: nat): string {
    var d := Clamped(remaining);
    var u := FinestUnit(d);
    Decimal.Print(d / Nanos(u)) + [Letter(u)]
  }

  // ---- Reading ----

  function Parsed(text: string): Option<nat> {
    if text == "" then None
    else
      var at := |text| - 1;
      var digits, unit := text[..at], UnitOf(text[at]);
      if digits == "" || |digits| > 8 || !Decimal.AllDigits(digits) || unit.None? then None
      else Some(Decimal.Value(digits) * Nanos(unit.value))
  }

  /** The units of the header, finest first: the letter of each, and its length in nanoseconds. */
  const TABLE: seq<(char, nat)> := [
    ('n', 1), ('u', 1_000), ('m', 1_000_000), ('S', 1_000_000_000), ('M', 60_000_000_000), ('H', 3_600_000_000_000)]

  /** A text is read exactly when it is one to eight digits followed by a unit, */
  lemma ParsedByTheGrammar(text: string)
    ensures Parsed(text).Some? <==>
            && 2 <= |text| <= 9 && Decimal.AllDigits(text[..|text| - 1])
            && text[|text| - 1] in {'H', 'M', 'S', 'm', 'u', 'n'}
  {
  }

  /** and then as that many of the unit. */
  lemma ParsedIsTheAmount(digits: string, k: nat)
    requires 1 <= |digits| <= 8 && Decimal.AllDigits(digits) && k < 6
    ensures Parsed(digits + [TABLE[k].0]) == Some(Decimal.Value(digits) * TABLE[k].1)
  {
    hide Decimal.Value, Decimal.AllDigits, UnitOf, Nanos;
    var text, c := digits + [TABLE[k].0], TABLE[k].0;
    UnitIs(k);
    assert text[..|text| - 1] == digits && text[|text| - 1] == c;
  }

  lemma UnitIs(k: nat)
    requires k < 6
    ensures UnitOf(TABLE[k].0).Some? && Nanos(UnitOf(TABLE[k].0).value) == TABLE[k].1
  {
  }

  /** The time left is written in the finest unit whose amount has at most eight digits, cut to whole units. */
  lemma WrittenInTheFinest(remaining: nat) returns (k: nat)
    requires 1 <= remaining <= 99_999_999 * 3_600_000_000_000
    ensures k < 6 && remaining / TABLE[k].1 < 100_000_000
    ensures forall j | 0 <= j < k :: remaining / TABLE[j].1 >= 100_000_000
    ensures Timed(remaining) == Decimal.Print(remaining / TABLE[k].1) + [TABLE[k].0]
  {
    hide Decimal.Print;
    k := match FinestUnit(remaining)
      case Nano => 0 case Micro => 1 case Milli => 2 case Second => 3 case Minute => 4 case Hour => 5;
    forall j | 0 <= j < k
      ensures remaining / TABLE[j].1 >= 100_000_000
    {
      NotFiner(remaining, j);
    }
  }

  lemma NotFiner(d: nat, j: nat)
    requires j < 6 && (match FinestUnit(d)
      case Nano => 0 case Micro => 1 case Milli => 2 case Second => 3 case Minute => 4 case Hour => 5) > j
    ensures d / TABLE[j].1 >= 100_000_000
  {
  }

  /** Eight digits of hours are less than 2^64 seconds: no multiplication of the amount overflows. */
  lemma NoOverflow(digits: string, u: Unit)
    requires |digits| <= 8 && Decimal.AllDigits(digits)
    ensures Decimal.Value(digits) < FITS && Decimal.Value(digits) * 3600 < U64 &&
            Decimal.Value(digits) * Nanos(u) <= LONGEST
  {
    Decimal.ValueFits(digits, 8);
    TenToTheEighth();
    Scaled(Decimal.Value(digits), Nanos(u));
  }

  lemma TenToTheEighth()
    ensures Decimal.Pow10(8) == FITS
  {
    assert Decimal.Pow10(4) == 10_000;
  }

  lemma Scaled(amount: nat, nanos: nat)
    requires amount < FITS && nanos <= 3_600_000_000_000
    ensures amount * nanos <= LONGEST
  {
    NoSmaller(amount, nanos, 3_600_000_000_000);
    NoSmaller(3_600_000_000_000, amount, FITS - 1);
  }

  lemma NoSmaller(a: nat, b: nat, c: nat)
    requires b <= c
    ensures a * b <= a * c
  {
  }

  /**
   * The time read back is positive, never longer than the time left, and less than one unit short of
   * it; a time longer than the grammar holds is read back as `99999999H`.
   */
  lemma RoundTrip(remaining: nat)
    requires remaining >= 1
    ensures Parsed(Timed(remaining)).Some?
    ensures var read := Parsed(Timed(remaining)).value;
            && 0 < read <= remaining
            && (remaining <= LONGEST ==> remaining - read < Nanos(FinestUnit(remaining)))
            && (remaining >= LONGEST ==> read == LONGEST)
  {
    hide Parsed, Decimal.Print, Decimal.Value;
    var d := Clamped(remaining);
    var u := FinestUnit(d);
    var amount := d / Nanos(u);
    Decimal.ValueOfPrint(amount);
    TenToTheEighth();
    Decimal.PrintFits(amount, 8);
    ReadsBack(amount, u);
    Divided(d, Nanos(u));
    AtLeastOne(d, u);
    if remaining >= LONGEST {
      LongestIsExact();
    }
  }

  lemma ReadsBack(amount: nat, u: Unit)
    requires |Decimal.Print(amount)| <= 8 && Decimal.Value(Decimal.Print(amount)) == amount
    ensures Parsed(Decimal.Print(amount) + [Letter(u)]) == Some(amount * Nanos(u))
  {
    hide Decimal.Print, Decimal.Value, Nanos;
    var text := Decimal.Print(amount) + [Letter(u)];
    assert text[..|text| - 1] == Decimal.Print(amount) && text[|text| - 1] == Letter(u);
  }

  lemma Divided(d: nat, n: nat)
    requires n > 0
    ensures d / n * n <= d && d - d / n * n < n
    ensures d / n > 0 ==> d / n * n > 0
  {
    assert d == d / n * n + d % n;
  }

  lemma AtLeastOne(d: nat, u: Unit)
    requires 1 <= d <= LONGEST && u == FinestUnit(d)
    ensures d / Nanos(u) > 0
  {
  }

  lemma LongestIsExact()
    ensures FinestUnit(LONGEST) == Hour && LONGEST / Nanos(Hour) * Nanos(Hour) == LONGEST
    ensures Timed(LONGEST) == Decimal.Print(99_999_999) + "H"
  {
    assert LONGEST / 3_600_000_000_000 == 99_999_999;
    assert LONGEST / 60_000_000_000 == 5_999_999_940;
  }
}
