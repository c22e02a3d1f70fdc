/** The cache keys `${i}${j}` (and `first + second`) built from two
    four-digit tile numbers. */
module Keys {
  import opened JsNumber

  /** The template literal `${i}${j}` for two non-negative integers. */
  function PairKey(i: nat, j: nat): string {
    ToStringRadix(i, 10) + ToStringRadix(j, 10)
  }

  predicate IsFourDigit(n: int) {
    1000 <= n < 10000
  }

  lemma Pow10Facts()
    ensures Pow(10, 3) == 1000 && Pow(10, 4) == 10000
  {
    assert Pow(10, 2) == 100;
  }

  /** A four-digit number renders as exactly four decimal digits. */
  lemma FourDigitRendering(n: nat)
    requires IsFourDigit(n)
    ensures |ToStringRadix(n, 10)| == 4
    ensures AllDigits(ToStringRadix(n, 10), 10)
    ensures ParseRadix(ToStringRadix(n, 10), 10) == n
  {
    Pow10Facts();
    ToStringLengthAtMost(n, 10, 4);
    ToStringLengthAtLeast(n, 10, 4);
    ParseToString(n, 10);
  }

  /** A key of two four-digit numbers has eight decimal digits and reads as
      the number i * 10000 + j. */
  lemma PairKeyShape(i: nat, j: nat)
    requires IsFourDigit(i) && IsFourDigit(j)
    ensures |PairKey(i, j)| == 8
    ensures AllDigits(PairKey(i, j), 10)
    ensures ParseRadix(PairKey(i, j), 10) == i * 10000 + j
  {
    FourDigitRendering(i);
    FourDigitRendering(j);
    Pow10Facts();
    ParseAppend(ToStringRadix(i, 10), ToStringRadix(j, 10), 10);
  }

  /** Distinct pairs of four-digit numbers give distinct keys. */
  lemma PairKeyInjective(i: nat, j: nat, i': nat, j': nat)
    requires IsFourDigit(i) && IsFourDigit(j) && IsFourDigit(i') && IsFourDigit(j')
    requires PairKey(i, j) == PairKey(i', j')
    ensures i == i' && j == j'
  {
    PairKeyShape(i, j);
    PairKeyShape(i', j');
  }
}
