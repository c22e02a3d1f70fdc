/** The JavaScript string methods the widget calls: `padStart`, `slice`
    with a negative bound, and `endsWith`. */
module JsString {

  /** `s.padStart(len, fill)` with a one-character fill string. */
  function PadStart(s: string, len: nat, fill: char): string {
    if |s| >= len then s else seq(len - |s|, _ => fill) + s
  }

  /** The padded string is at least len long, ends with s, and is fill
      before that. */
  lemma PadStartShape(s: string, len: nat, fill: char)
    ensures |PadStart(s, len, fill)| == if |s| >= len then |s| else len
    ensures PadStart(s, len, fill)[|PadStart(s, len, fill)| - |s|..] == s
    ensures forall i :: 0 <= i < |PadStart(s, len, fill)| - |s| ==> PadStart(s, len, fill)[i] == fill
  {
  }

  /** `s.slice(0, -1)`: everything but the last character. */
  function DropLast(s: string): string {
    if |s| == 0 then [] else s[..|s| - 1]
  }

  /** `s.slice(-1)`: the last character, or nothing for "". */
  function LastSlice(s: string): string {
    if |s| == 0 then [] else s[|s| - 1..]
  }

  /** `s.endsWith(suffix)`. */
  predicate EndsWith(s: string, suffix: string) {
    |suffix| <= |s| && s[|s| - |suffix|..] == suffix
  }

  /** The two slices put back together give the string, and the second one
      holds exactly the last character. */
  lemma SlicesSplit(s: string)
    ensures DropLast(s) + LastSlice(s) == s
    ensures |s| > 0 ==> LastSlice(s) == [s[|s| - 1]] && |DropLast(s)| == |s| - 1
    ensures |s| == 0 ==> DropLast(s) == [] && LastSlice(s) == []
  {
    if |s| > 0 {
      assert s[..|s| - 1] + s[|s| - 1..] == s;
    }
  }

  /** Ending in one character means the last character is that one. */
  lemma EndsWithChar(s: string, c: char)
    ensures EndsWith(s, [c]) <==> |s| > 0 && s[|s| - 1] == c
  {
    if |s| > 0 {
      assert s[|s| - 1..] == [s[|s| - 1]];
    }
  }
}
