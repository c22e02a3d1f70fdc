/** `displayHashResult` and the other states of the `hash-value` element:
    the digest with its last character wrapped in a highlight span, the
    `calculating` flag, and the `valid-hash` flag that holds exactly when
    the digest ends in `f`. */
module Display {
  import opened Optional
  import opened JsString

  const HIGHLIGHT_OPEN: string := "<span class=\"hash-highlight\">"
  const HIGHLIGHT_CLOSE: string := "</span>"
  const COMPUTING: string := "Computing hash..."
  const PLACEHOLDER: string := "Select two numbers to see their hash"
  const CALCULATION_ERROR: string := "Error calculating hash"

  /** `hashHex.slice(0, -1) + '<span class="hash-highlight">' +
      hashHex.slice(-1) + '</span>'`. */
  function Markup(hashHex: string): string {
    DropLast(hashHex) + HIGHLIGHT_OPEN + LastSlice(hashHex) + HIGHLIGHT_CLOSE
  }

  /** `hashHex.endsWith('f')`. */
  predicate IsValidHash(hashHex: string) {
    EndsWith(hashHex, "f")
  }

  /** The markup is the digest without its last character followed by a
      highlight span holding exactly that last character. */
  lemma MarkupShape(hashHex: string)
    requires |hashHex| > 0
    ensures Markup(hashHex)
         == hashHex[..|hashHex| - 1] + HIGHLIGHT_OPEN + [hashHex[|hashHex| - 1]] + HIGHLIGHT_CLOSE
  {
    SlicesSplit(hashHex);
  }

  /** A digest is valid exactly when its last character is `f`. */
  lemma ValidIffEndsInF(hashHex: string)
    ensures IsValidHash(hashHex) <==> |hashHex| > 0 && hashHex[|hashHex| - 1] == 'f'
  {
    EndsWithChar(hashHex, 'f');
  }

  /** Reads a digest back out of highlighted markup. */
  function Unmarkup(m: string): Option<string> {
    var o, c := |HIGHLIGHT_OPEN|, |HIGHLIGHT_CLOSE|;
    if |m| < o + 1 + c then None
    else if m[|m| - c..] != HIGHLIGHT_CLOSE then None
    else if m[|m| - c - 1 - o..|m| - c - 1] != HIGHLIGHT_OPEN then None
    else Some(m[..|m| - c - 1 - o] + [m[|m| - c - 1]])
  }

  /** The markup loses nothing: the digest can be read back from it. */
  lemma UnmarkupMarkup(hashHex: string)
    requires |hashHex| > 0
    ensures Unmarkup(Markup(hashHex)) == Some(hashHex)
  {
    MarkupShape(hashHex);
    var n := |hashHex|;
    var prefix, last := hashHex[..n - 1], hashHex[n - 1];
    var m := Markup(hashHex);
    var o, c := |HIGHLIGHT_OPEN|, |HIGHLIGHT_CLOSE|;
    assert m == prefix + HIGHLIGHT_OPEN + [last] + HIGHLIGHT_CLOSE;
    assert |m| == n - 1 + o + 1 + c;
    assert m[|m| - c..] == HIGHLIGHT_CLOSE;
    assert m[|m| - c - 1 - o..|m| - c - 1] == HIGHLIGHT_OPEN;
    assert m[..|m| - c - 1 - o] == prefix;
    assert m[|m| - c - 1] == last;
    assert prefix + [last] == hashHex;
  }

  /** What the element shows: its inner HTML and its two state classes. */
  datatype View = View(html: string, calculating: bool, validHash: bool)

  /** The element after `displayHashResult(hashHex, element)`. */
  function ResultView(hashHex: string): View {
    View(Markup(hashHex), false, IsValidHash(hashHex))
  }

  /** The element `#hash-value`. */
  class HashDisplay {
    var html: string
    var calculating: bool
    var validHash: bool

    constructor ()
      ensures html == [] && !calculating && !validHash
    {
      html, calculating, validHash := [], false, false;
    }

    function State(): View
      reads this
    {
      View(html, calculating, validHash)
    }

    /** `displayHashResult`: the highlighted digest, `calculating` removed,
        `valid-hash` present iff the digest ends in `f`. */
    method ShowResult(hashHex: string)
      modifies this
      ensures State() == ResultView(hashHex)
      ensures validHash <==> |hashHex| > 0 && hashHex[|hashHex| - 1] == 'f'
    {
      html := Markup(hashHex);
      calculating := false;
      validHash := EndsWith(hashHex, "f");
      ValidIffEndsInF(hashHex);
    }

    /** The "Computing hash..." state; `valid-hash` is left as it was. */
    method ShowComputing()
      modifies this
      ensures html == COMPUTING && calculating && validHash == old(validHash)
    {
      html := COMPUTING;
      calculating := true;
    }

    /** The idle placeholder; both state classes removed. */
    method ShowPlaceholder()
      modifies this
      ensures State() == View(PLACEHOLDER, false, false)
    {
      html := PLACEHOLDER;
      calculating, validHash := false, false;
    }

    /** The error text; `calculating` removed, `valid-hash` left as it was. */
    method ShowError()
      modifies this
      ensures html == CALCULATION_ERROR && !calculating && validHash == old(validHash)
    {
      html := CALCULATION_ERROR;
      calculating := false;
    }
  }
}
