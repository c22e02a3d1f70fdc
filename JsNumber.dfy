/** JavaScript number semantics the widget relies on: the signed 32-bit
    conversion behind `<<` and `&`, `Math.abs`, and
    `Number.prototype.toString(radix)` on non-negative integers, with the
    positional parse that inverts it. */
module JsNumber {

  const TWO_31: int := 0x8000_0000
  const TWO_32: int := 0x1_0000_0000

  predicate IsInt32(x: int) {
    -TWO_31 <= x < TWO_31
  }

  /** ECMAScript ToInt32: the unique int32 congruent to x modulo 2^32. */
  function ToInt32(x: int): (r: int)
    ensures IsInt32(r)
    ensures (x - r) % TWO_32 == 0
  {
    var m := x % TWO_32;
    if m >= TWO_31 then m - TWO_32 else m
  }

  /** Adding a multiple of 2^32 does not change the residue. */
  lemma ModShift(y: int, k: int)
    ensures (y + k * TWO_32) % TWO_32 == y % TWO_32
  {
  }

  /** Any int32 congruent to x is ToInt32(x). */
  lemma ToInt32Unique(x: int, y: int)
    requires IsInt32(y) && (x - y) % TWO_32 == 0
    ensures ToInt32(x) == y
  {
    var k := (x - y) / TWO_32;
    assert x == y + k * TWO_32;
    ModShift(y, k);
  }

  lemma ToInt32Congruent(x: int, y: int)
    requires (x - y) % TWO_32 == 0
    ensures ToInt32(x) == ToInt32(y)
  {
    var k := (x - y) / TWO_32;
    assert x == y + k * TWO_32;
    ModShift(y, k);
  }

  /** `x << 5`: the operand is converted to int32, shifted, and the result
      converted to int32 again. */
  function ShiftLeft5(x: int): (r: int)
    ensures IsInt32(r)
  {
    ToInt32(ToInt32(x) * 32)
  }

  /** The bitwise conjunction of two non-negative integers. */
  function AndNat(a: nat, b: nat): nat
    decreases a
  {
    if a == 0 || b == 0 then 0
    else 2 * AndNat(a / 2, b / 2) + (if a % 2 == 1 && b % 2 == 1 then 1 else 0)
  }

  /** `x & y` on two numbers: both sides as 32-bit patterns, the conjunction
      read back as an int32. */
  function BitwiseAnd(x: int, y: int): (r: int)
    ensures IsInt32(r)
  {
    ToInt32(AndNat(x % TWO_32, y % TWO_32))
  }

  /** A bit pattern is its own conjunction. */
  lemma {:induction false} AndNatSelf(a: nat)
    ensures AndNat(a, a) == a
  {
    if a > 0 {
      AndNatSelf(a / 2);
    }
  }

  lemma {:induction false} PowAdd(base: nat, j: nat, k: nat)
    ensures Pow(base, j + k) == Pow(base, j) * Pow(base, k)
    decreases k
  {
    if k > 0 {
      PowAdd(base, j, k - 1);
      var p, q := Pow(base, j), Pow(base, k - 1);
      calc {
        Pow(base, j + k);
        base * Pow(base, j + k - 1);
        base * (p * q);
        { MulSwap(base, p, q); }
        p * (base * q);
      }
    }
  }

  lemma MulSwap(a: int, b: int, c: int)
    ensures a * (b * c) == b * (a * c)
  {
  }

  /** `x & x` is the int32 conversion of x. */
  lemma AndSelf(x: int)
    ensures BitwiseAnd(x, x) == ToInt32(x)
  {
    AndNatSelf(x % TWO_32);
    ToInt32Congruent(x % TWO_32, x);
  }

  lemma ShiftLeft5Congruent(h: int)
    requires IsInt32(h)
    ensures (ShiftLeft5(h) - 32 * h) % TWO_32 == 0
  {
    ToInt32Unique(h, h);
    var s := ShiftLeft5(h);
    var k := (32 * h - s) / TWO_32;
    assert 32 * h - s == k * TWO_32;
    assert s - 32 * h == (-k) * TWO_32;
  }

  /** Math.abs on an integer. */
  function Abs(x: int): (r: nat)
    ensures r == x || r == -x
  {
    if x < 0 then -x else x
  }

  function Pow(base: nat, k: nat): (r: nat)
    ensures base >= 1 ==> r >= 1
  {
    if k == 0 then 1 else base * Pow(base, k - 1)
  }

  predicate IsRadix(base: nat) {
    2 <= base <= 16
  }

  const DIGITS: string := "0123456789abcdef"

  /** The value of one digit character; 16 for a character that is not one
      of the sixteen lower-case digits. */
  function DigitValue(c: char): (d: nat)
    ensures d <= 16
    ensures d < 16 ==> DIGITS[d] == c
  {
    if '0' <= c <= '9' then c as int - '0' as int
    else if 'a' <= c <= 'f' then c as int - 'a' as int + 10
    else 16
  }

  lemma DigitValueOfDigit(d: nat)
    requires d < 16
    ensures DigitValue(DIGITS[d]) == d
  {
  }

  predicate AllDigits(s: string, base: nat) {
    forall i :: 0 <= i < |s| ==> DigitValue(s[i]) < base
  }

  /** `n.toString(base)` for a non-negative integer n: most significant
      digit first, no leading zeros, "0" for zero, lower-case letters. */
  function ToStringRadix(n: nat, base: nat): (s: string)
    requires IsRadix(base)
    decreases n
  {
    if n < base then [DIGITS[n]]
    else ToStringRadix(n / base, base) + [DIGITS[n % base]]
  }

  /** The value of a string of digits in the given base. */
  function ParseRadix(s: string, base: nat): nat
    requires IsRadix(base) && AllDigits(s, base)
  {
    if s == [] then 0
    else ParseRadix(s[..|s| - 1], base) * base + DigitValue(s[|s| - 1])
  }

  lemma AllDigitsAppend(a: string, b: string, base: nat)
    requires AllDigits(a, base) && AllDigits(b, base)
    ensures AllDigits(a + b, base)
  {
    forall i | 0 <= i < |a + b|
      ensures DigitValue((a + b)[i]) < base
    {
      if i < |a| {
        assert (a + b)[i] == a[i];
      } else {
        assert (a + b)[i] == b[i - |a|];
      }
    }
  }

  lemma AllDigitsPrefix(s: string, k: nat, base: nat)
    requires AllDigits(s, base) && k <= |s|
    ensures AllDigits(s[..k], base)
  {
  }

  /** Appending one digit multiplies by the base and adds the digit. */
  lemma ParseSnoc(p: string, c: char, base: nat)
    requires IsRadix(base) && AllDigits(p, base) && DigitValue(c) < base
    ensures AllDigits(p + [c], base)
    ensures ParseRadix(p + [c], base) == ParseRadix(p, base) * base + DigitValue(c)
  {
    AllDigitsAppend(p, [c], base);
    assert (p + [c])[..|p|] == p;
  }

  lemma DivMod(n: nat, base: nat)
    requires base >= 1
    ensures n == (n / base) * base + n % base
  {
  }

  lemma ParseToStringStep(n: nat, base: nat)
    requires IsRadix(base) && n >= base
    requires AllDigits(ToStringRadix(n / base, base), base)
    requires ParseRadix(ToStringRadix(n / base, base), base) == n / base
    ensures AllDigits(ToStringRadix(n, base), base)
    ensures ParseRadix(ToStringRadix(n, base), base) == n
  {
    var q, d := n / base, n % base;
    DigitValueOfDigit(d);
    DivMod(n, base);
    ParseSnoc(ToStringRadix(q, base), DIGITS[d], base);
  }

  /** Parsing a rendered number gives the number back. */
  lemma {:induction false} ParseToString(n: nat, base: nat)
    requires IsRadix(base)
    ensures AllDigits(ToStringRadix(n, base), base)
    ensures ParseRadix(ToStringRadix(n, base), base) == n
    decreases n
  {
    if n < base {
      DigitValueOfDigit(n);
      ParseSnoc([], DIGITS[n], base);
      assert [] + [DIGITS[n]] == [DIGITS[n]];
    } else {
      ParseToString(n / base, base);
      ParseToStringStep(n, base);
    }
  }

  lemma ParseAppendStep(a: string, b': string, c: char, base: nat)
    requires IsRadix(base) && AllDigits(a, base) && AllDigits(b', base) && DigitValue(c) < base
    requires AllDigits(a + b', base)
    requires ParseRadix(a + b', base) == ParseRadix(a, base) * Pow(base, |b'|) + ParseRadix(b', base)
    ensures AllDigits(a + (b' + [c]), base)
    ensures ParseRadix(a + (b' + [c]), base)
         == ParseRadix(a, base) * Pow(base, |b' + [c]|) + ParseRadix(b' + [c], base)
  {
    assert a + (b' + [c]) == (a + b') + [c];
    ParseSnoc(b', c, base);
    ParseSnoc(a + b', c, base);
    var pa, pb, w := ParseRadix(a, base), ParseRadix(b', base), Pow(base, |b'|);
    assert Pow(base, |b' + [c]|) == base * w;
    MulDistrib(pa, w, pb, base);
  }

  lemma MulDistrib(x: int, w: int, y: int, b: int)
    ensures (x * w + y) * b == x * (b * w) + y * b
  {
  }

  /** Reading a concatenation positionally. */
  lemma {:induction false} ParseAppend(a: string, b: string, base: nat)
    requires IsRadix(base) && AllDigits(a, base) && AllDigits(b, base)
    ensures AllDigits(a + b, base)
    ensures ParseRadix(a + b, base) == ParseRadix(a, base) * Pow(base, |b|) + ParseRadix(b, base)
    decreases |b|
  {
    if b == [] {
      assert a + b == a;
    } else {
      var b', c := b[..|b| - 1], b[|b| - 1];
      assert b == b' + [c];
      ParseAppend(a, b', base);
      ParseAppendStep(a, b', c, base);
    }
  }

  /** Zeros in front do not change the value. */
  lemma {:induction false} ParseLeadingZeros(z: nat, s: string, base: nat)
    requires IsRadix(base) && AllDigits(s, base)
    ensures AllDigits(seq(z, _ => '0') + s, base)
    ensures ParseRadix(seq(z, _ => '0') + s, base) == ParseRadix(s, base)
    decreases z
  {
    var zs: string := seq(z, _ => '0');
    if z == 0 {
      assert zs + s == s;
    } else {
      var zs' := seq(z - 1, _ => '0');
      ParseLeadingZeros(z - 1, s, base);
      assert zs + s == "0" + (zs' + s);
      assert DigitValue('0') == 0;
      ParseAppend("0", zs' + s, base);
      assert "0"[..0] == [];
    }
  }

  lemma DivBound(n: nat, base: nat, p: nat)
    requires base >= 1 && n < base * p
    ensures n / base < p
  {
    var q := n / base;
    assert q * base <= n;
    assert q >= p ==> q * base >= p * base;
  }

  lemma DivLower(n: nat, base: nat, p: nat)
    requires base >= 1 && base * p <= n
    ensures p <= n / base
  {
    var q := n / base;
    assert n < (q + 1) * base;
    assert q < p ==> (q + 1) * base <= p * base;
  }

  /** A number below base^k has at most k digits. */
  lemma {:induction false} ToStringLengthAtMost(n: nat, base: nat, k: nat)
    requires IsRadix(base) && 1 <= k && n < Pow(base, k)
    ensures |ToStringRadix(n, base)| <= k
    decreases k
  {
    assert Pow(base, 1) == base;
    if n >= base {
      assert k >= 2;
      DivBound(n, base, Pow(base, k - 1));
      ToStringLengthAtMost(n / base, base, k - 1);
    }
  }

  /** A number of at least base^(k-1) has at least k digits. */
  lemma {:induction false} ToStringLengthAtLeast(n: nat, base: nat, k: nat)
    requires IsRadix(base) && 1 <= k && Pow(base, k - 1) <= n
    ensures k <= |ToStringRadix(n, base)|
    decreases k
  {
    if k > 1 {
      assert Pow(base, k - 1) == base * Pow(base, k - 2);
      assert n >= base;
      DivLower(n, base, Pow(base, k - 2));
      ToStringLengthAtLeast(n / base, base, k - 1);
    }
  }
}
