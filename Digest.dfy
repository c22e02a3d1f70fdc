/** `computeHash`: SHA-256 from the platform rendered as lower-case hex,
    falling back to `generateSimpleHash` when the platform has no digest or
    the digest rejects. SHA-256, `TextEncoder` and the js-sha256 library are
    not modelled; they are functions carried by a `Platform` value. */
module Digest {
  import opened Optional
  import opened JsNumber
  import opened JsString
  import opened SimpleHash

  type Byte = b: int | 0 <= b < 256

  /** How one call of `crypto.subtle.digest` settles. */
  datatype DigestReply = Resolved(buffer: seq<Byte>) | Rejected

  /** How one call of the library function `sha256(text)` ends. */
  datatype LibReply = Returned(hex: string) | Threw

  /** The browser facilities the hashing code reaches through `window`. */
  datatype Platform = Platform(
    subtle: Option<seq<Byte> -> DigestReply>, // crypto.subtle.digest('SHA-256', ·), if window.crypto.subtle exists
    encode: string -> seq<Byte>,              // new TextEncoder().encode(·)
    sha256: Option<string -> LibReply>,       // window.sha256, once js-sha256 is on the page
    sha256Loaded: bool,                       // window.sha256Loaded
    idleCallback: bool                        // 'requestIdleCallback' in window
  )

  /** `b.toString(16).padStart(2, '0')`. */
  function ByteToHex(b: Byte): string {
    PadStart(ToStringRadix(b, 16), 2, '0')
  }

  /** Every byte becomes exactly two lower-case hex digits that read back as
      the byte. */
  lemma ByteToHexShape(b: Byte)
    ensures |ByteToHex(b)| == 2
    ensures AllDigits(ByteToHex(b), 16)
    ensures ParseRadix(ByteToHex(b), 16) == b
  {
    var hex := ToStringRadix(b, 16);
    assert Pow(16, 2) == 256;
    ToStringLengthAtMost(b, 16, 2);
    ParseToString(b, 16);
    assert ByteToHex(b) == seq(2 - |hex|, _ => '0') + hex;
    ParseLeadingZeros(2 - |hex|, hex, 16);
  }

  /** `hashArray.map(b => b.toString(16).padStart(2, '0')).join('')`. */
  function BytesToHex(bytes: seq<Byte>): string {
    if bytes == [] then [] else ByteToHex(bytes[0]) + BytesToHex(bytes[1..])
  }

  /** Reading a hex string two digits at a time. */
  function HexToBytes(s: string): seq<nat>
    requires |s| % 2 == 0 && AllDigits(s, 16)
  {
    if s == [] then [] else [ParseRadix(s[..2], 16)] + HexToBytes(s[2..])
  }

  /** The rendering is twice as long as the bytes, all lower-case hex, and
      decoding it in pairs gives the bytes back. */
  lemma {:induction false} BytesToHexRoundTrip(bytes: seq<Byte>)
    ensures |BytesToHex(bytes)| == 2 * |bytes|
    ensures AllDigits(BytesToHex(bytes), 16)
    ensures HexToBytes(BytesToHex(bytes)) == bytes
  {
    if bytes != [] {
      var head, tail := ByteToHex(bytes[0]), BytesToHex(bytes[1..]);
      ByteToHexShape(bytes[0]);
      BytesToHexRoundTrip(bytes[1..]);
      AllDigitsAppend(head, tail, 16);
      var s := head + tail;
      assert s[..2] == head;
      assert s[2..] == tail;
    }
  }

  /** The digest `computeHash(text)` resolves to. Its promise never
      rejects, so the model is a total function. */
  function ComputeHash(p: Platform, text: string): string {
    match p.subtle
    case None => SimpleHashOf(text)
    case Some(digest) =>
      match digest(p.encode(text))
      case Resolved(buffer) => BytesToHex(buffer)
      case Rejected => SimpleHashOf(text)
  }

  /** The platform digest, when it answers for this text, has SHA-256's 32 bytes. */
  predicate DigestFits(p: Platform, text: string) {
    p.subtle.Some? && p.subtle.value(p.encode(text)).Resolved? ==>
      |p.subtle.value(p.encode(text)).buffer| == 32
  }

  /** Without `crypto.subtle`, or when the digest rejects, the value is the
      fallback digest, still 64 lower-case hex digits. */
  lemma ComputeHashFallback(p: Platform, text: string)
    requires p.subtle.None? || p.subtle.value(p.encode(text)).Rejected?
    ensures ComputeHash(p, text) == SimpleHashOf(text)
    ensures |ComputeHash(p, text)| == 64 && AllDigits(ComputeHash(p, text), 16)
  {
    SimpleHashShape(text);
  }

  /** When the digest resolves, the value is its bytes as hex: decoding it
      in pairs gives exactly the digest's bytes. */
  lemma ComputeHashCrypto(p: Platform, text: string)
    requires p.subtle.Some? && p.subtle.value(p.encode(text)).Resolved?
    ensures |ComputeHash(p, text)| == 2 * |p.subtle.value(p.encode(text)).buffer|
    ensures AllDigits(ComputeHash(p, text), 16)
    ensures HexToBytes(ComputeHash(p, text)) == p.subtle.value(p.encode(text)).buffer
  {
    BytesToHexRoundTrip(p.subtle.value(p.encode(text)).buffer);
  }

  /** Whichever path is taken, the value is 64 lower-case hex digits. */
  lemma ComputeHashShape(p: Platform, text: string)
    requires DigestFits(p, text)
    ensures |ComputeHash(p, text)| == 64
    ensures AllDigits(ComputeHash(p, text), 16)
  {
    if p.subtle.Some? && p.subtle.value(p.encode(text)).Resolved? {
      ComputeHashCrypto(p, text);
    } else {
      SimpleHashShape(text);
    }
  }
}
