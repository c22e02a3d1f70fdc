/** The non-cryptographic fallback digest `generateSimpleHash`: character
    codes folded into a signed 32-bit accumulator, the absolute value in
    hexadecimal left-padded to 64 digits, and the last digit forced to `f`
    for input of even length. */
module SimpleHash {
  import opened JsNumber
  import opened JsString

  /** One pass of the loop body:
      `hash = ((hash << 5) - hash) + char; hash = hash & hash`.
      The loop of `GenerateSimpleHash` performs the same two assignments
      as written; this function names their effect for `StepIsMul31`.
      The subtraction and addition are exact: every operand is far below
      2^53. */
  function Step(hash: int, code: int): (r: int)
    ensures IsInt32(r)
  {
    var t := ShiftLeft5(hash) - hash + code;
    BitwiseAnd(t, t)
  }

  /** The shift-subtract-add-mask sequence is multiplication by 31 and an
      addition, wrapped to 32 signed bits. */
  lemma StepIsMul31(hash: int, code: int)
    requires IsInt32(hash)
    ensures Step(hash, code) == ToInt32(31 * hash + code)
  {
    var t := ShiftLeft5(hash) - hash + code;
    AndSelf(t);
    ShiftLeft5Congruent(hash);
    assert t - (31 * hash + code) == ShiftLeft5(hash) - 32 * hash;
    ToInt32Congruent(t, 31 * hash + code);
  }

  /** The accumulator after the loop has consumed all of `text`: each
      character code c takes h to ToInt32(31 * h + c) (`charCodeAt` is the
      character's code). The loop body itself is `Step`. */
  function Accumulate(text: string): (h: int)
    ensures IsInt32(h)
  {
    if text == [] then 0
    else ToInt32(31 * Accumulate(text[..|text| - 1]) + text[|text| - 1] as int)
  }

  lemma AccumulatePrefix(text: string, i: nat)
    requires i < |text|
    ensures Accumulate(text[..i + 1]) == ToInt32(31 * Accumulate(text[..i]) + text[i] as int)
  {
    assert text[..i + 1][..i] == text[..i];
  }

  /** What follows the loop:
      `Math.abs(hash).toString(16).padStart(64, '0')`, then the last digit
      replaced by `f` when the input length is even. */
  function Finish(hash: int, length: nat): string {
    var hashHex := PadStart(ToStringRadix(Abs(hash), 16), 64, '0');
    if length % 2 == 0 then DropLast(hashHex) + "f" else hashHex
  }

  /** The hex of |hash| before the even-length rule. */
  function UnforcedHex(hash: int): string {
    PadStart(ToStringRadix(Abs(hash), 16), 64, '0')
  }

  /** The value `generateSimpleHash(text)` returns. */
  function SimpleHashOf(text: string): string {
    Finish(Accumulate(text), |text|)
  }

  lemma Pow16To8()
    ensures Pow(16, 8) == TWO_32
  {
    assert Pow(16, 2) == 256;
    PowAdd(16, 2, 2);
    PowAdd(16, 4, 4);
  }

  /** The unforced hex of an int32 is 64 lower-case hex digits whose value
      is |hash|. */
  lemma UnforcedHexShape(hash: int)
    requires IsInt32(hash)
    ensures |UnforcedHex(hash)| == 64
    ensures AllDigits(UnforcedHex(hash), 16)
    ensures ParseRadix(UnforcedHex(hash), 16) == Abs(hash)
  {
    var n := Abs(hash);
    var hex := ToStringRadix(n, 16);
    Pow16To8();
    ToStringLengthAtMost(n, 16, 8);
    ParseToString(n, 16);
    assert UnforcedHex(hash) == seq(64 - |hex|, _ => '0') + hex;
    ParseLeadingZeros(64 - |hex|, hex, 16);
  }

  /** 64 lower-case hex digits; for an even length the unforced hex with
      its last digit replaced by `f`, for an odd length the unforced hex
      itself. */
  lemma FinishShape(hash: int, length: nat)
    requires IsInt32(hash)
    ensures |Finish(hash, length)| == 64
    ensures AllDigits(Finish(hash, length), 16)
    ensures length % 2 == 0 ==>
      Finish(hash, length)[63] == 'f' && Finish(hash, length)[..63] == UnforcedHex(hash)[..63]
    ensures length % 2 == 1 ==> Finish(hash, length) == UnforcedHex(hash)
  {
    UnforcedHexShape(hash);
    var h := UnforcedHex(hash);
    if length % 2 == 0 {
      SlicesSplit(h);
      assert DigitValue('f') == 15;
      AllDigitsPrefix(h, 63, 16);
      AllDigitsAppend(h[..63], "f", 16);
    }
  }

  /** The fallback digest is 64 lower-case hex digits and depends on the
      text only; an even-length text gives the unforced hex of its
      accumulator with `f` in the last place, an odd-length text the
      unforced hex unchanged. */
  lemma SimpleHashShape(text: string)
    ensures |SimpleHashOf(text)| == 64
    ensures AllDigits(SimpleHashOf(text), 16)
    ensures |text| % 2 == 0 ==>
      SimpleHashOf(text)[63] == 'f' &&
      SimpleHashOf(text)[..63] == UnforcedHex(Accumulate(text))[..63]
    ensures |text| % 2 == 1 ==> SimpleHashOf(text) == UnforcedHex(Accumulate(text))
  {
    FinishShape(Accumulate(text), |text|);
  }

  /** For odd-length text, reading the digest as hex gives |hash| back. */
  lemma SimpleHashOddValue(text: string)
    requires |text| % 2 == 1
    ensures AllDigits(SimpleHashOf(text), 16)
    ensures ParseRadix(SimpleHashOf(text), 16) == Abs(Accumulate(text))
  {
    FinishShape(Accumulate(text), |text|);
    UnforcedHexShape(Accumulate(text));
  }

  /** `generateSimpleHash`, with its loop. */
  method GenerateSimpleHash(text: string) returns (hashHex: string)
    ensures hashHex == SimpleHashOf(text)
    ensures |hashHex| == 64 && AllDigits(hashHex, 16)
    ensures |text| % 2 == 0 ==> hashHex[63] == 'f'
  {
    var hash := 0;
    var i := 0;
    while i < |text|
      invariant 0 <= i <= |text|
      invariant hash == Accumulate(text[..i])
    {
      var code := text[i] as int;
      AccumulatePrefix(text, i);
      StepIsMul31(hash, code);
      hash := ShiftLeft5(hash) - hash + code;
      hash := BitwiseAnd(hash, hash);
      i := i + 1;
    }
    assert text[..i] == text;
    hashHex := PadStart(ToStringRadix(Abs(hash), 16), 64, '0');
    if |text| % 2 == 0 {
      hashHex := DropLast(hashHex) + "f";
    }
    FinishShape(hash, |text|);
  }
}
