/**
 * Anonymous titles: "Untitled " followed by the decimal rendering of a
 * per-instance counter, as JavaScript's `"Untitled " + n` produces it.
 */
module Titles {

  const Digits := "0123456789"

  predicate IsDigit(c: char) {
    '0' <= c <= '9'
  }

  /** The decimal rendering of `n`: digits only, no leading zero. */
  function Decimal(n: nat): (r: string)
    ensures |r| >= 1 && (|r| == 1 <==> n < 10)
    ensures forall i :: 0 <= i < |r| ==> IsDigit(r[i])
    ensures r[0] != '0' || n == 0
  {
    if n < 10 then [Digits[n]] else Decimal(n / 10) + [Digits[n % 10]]
  }

  /** Reads a string of decimal digits back as a number. */
  function DecimalValue(s: string): nat
  {
    if s == [] then 0
    else DecimalValue(s[..|s| - 1]) * 10 + DigitValue(s[|s| - 1])
  }

  function DigitValue(c: char): nat
  {
    if IsDigit(c) then (c as int - '0' as int) else 0
  }

  /** Reading back the decimal rendering gives the number. */
  lemma {:induction false} DecimalRoundTrip(n: nat)
    ensures DecimalValue(Decimal(n)) == n
  {
    var r := Decimal(n);
    if n < 10 {
      assert r[..0] == [];
    } else {
      DecimalRoundTrip(n / 10);
      assert r[..|r| - 1] == Decimal(n / 10);
    }
  }

  /** Distinct numbers render differently. */
  lemma DecimalInjective(m: nat, n: nat)
    requires Decimal(m) == Decimal(n)
    ensures m == n
  {
    DecimalRoundTrip(m);
    DecimalRoundTrip(n);
  }

  const UntitledPrefix := "Untitled "

  /** The title handed out when the counter has reached `n`. */
  function UniqueTitle(n: nat): string
  {
    UntitledPrefix + Decimal(n)
  }

  /** Distinct counter values give distinct titles. */
  lemma UniqueTitleInjective(m: nat, n: nat)
    requires UniqueTitle(m) == UniqueTitle(n)
    ensures m == n
  {
    assert Decimal(m) == UniqueTitle(m)[|UntitledPrefix|..];
    assert Decimal(n) == UniqueTitle(n)[|UntitledPrefix|..];
    DecimalInjective(m, n);
  }

  /** The titles "Untitled 1" ... "Untitled n", in the order they are issued. */
  function IssuedTitles(n: nat): (r: seq<string>)
    ensures |r| == n
    ensures forall i :: 0 <= i < n ==> r[i] == UniqueTitle(i + 1)
  {
    if n == 0 then [] else IssuedTitles(n - 1) + [UniqueTitle(n)]
  }

  /** No title is issued twice, and the next one is new. */
  lemma IssuedTitlesDistinct(n: nat)
    ensures forall i, j :: 0 <= i < j < n ==> IssuedTitles(n)[i] != IssuedTitles(n)[j]
    ensures UniqueTitle(n + 1) !in IssuedTitles(n)
  {
    forall i, j | 0 <= i < j < n ensures IssuedTitles(n)[i] != IssuedTitles(n)[j] {
      if UniqueTitle(i + 1) == UniqueTitle(j + 1) {
        UniqueTitleInjective(i + 1, j + 1);
      }
    }
    if UniqueTitle(n + 1) in IssuedTitles(n) {
      var i :| 0 <= i < n && IssuedTitles(n)[i] == UniqueTitle(n + 1);
      UniqueTitleInjective(i + 1, n + 1);
    }
  }
}
