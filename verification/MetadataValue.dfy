/** The cap on a metadata value, which keeps it within its index's tuple size. */
module MetadataValue {
  import opened Wrappers
  import opened Utf8

  const MAX_BYTES: nat := 2000

  /** An ellipsis and "[truncated]". */
  const MARKER: seq<CodePoint> :=
    [0x2026, 0x5B, 0x74, 0x72, 0x75, 0x6E, 0x63, 0x61, 0x74, 0x65, 0x64, 0x5D]

  lemma MarkerIsFourteenBytes()
    ensures |Encode(MARKER)| == 14 && AllScalar(MARKER)
  {
    AsciiLength(MARKER[1..]);
  }

  /** An ellipsis, and then these characters. */
  lemma MarkerSpells()
    ensures |MARKER| == 12 && MARKER[0] == 0x2026
    ensures forall i :: 0 <= i < 11 ==> MARKER[i + 1] as int == "[truncated]"[i] as int
  {
  }

  /** The stored form of a value; none where the encoder refuses a surrogate. */
  function Fit(value: seq<CodePoint>): Option<seq<CodePoint>> {
    if !AllScalar(value) then None
    else
      var encoded := Encode(value);
      if |encoded| <= MAX_BYTES then Some(value)
      else
        MarkerIsFourteenBytes();
        Some(Decode(encoded[..MAX_BYTES - |Encode(MARKER)|]) + MARKER)
  }

  /** A value that fits is stored unchanged; any other becomes the longest prefix of whole
      characters within 1986 bytes, then the marker, and is within the cap. */
  lemma FitIsLongestPrefix(value: seq<CodePoint>)
    requires AllScalar(value)
    ensures Fit(value).Some? && |Encode(Fit(value).value)| <= MAX_BYTES && AllScalar(Fit(value).value)
    ensures |Encode(value)| <= MAX_BYTES ==> Fit(value) == Some(value)
    ensures |Encode(value)| > MAX_BYTES ==>
              exists k | 0 <= k < |value| ::
                && Fit(value) == Some(value[..k] + MARKER)
                && |Encode(value[..k])| <= 1986 < |Encode(value[..k + 1])|
  {
    hide Encode, Decode;
    MarkerIsFourteenBytes();
    if |Encode(value)| > MAX_BYTES {
      var k := Fitting(value, 1986);
      FittingIsLongest(value, 1986);
      DecodeOfCut(value, 1986);
      EncodeAppends(value[..k], MARKER);
      assert Fit(value) == Some(value[..k] + MARKER);
    }
  }

  /** Storing a stored value changes nothing. */
  lemma FitIsIdempotent(value: seq<CodePoint>)
    requires AllScalar(value)
    ensures Fit(Fit(value).value) == Fit(value)
  {
    hide Encode, Decode;
    FitIsLongestPrefix(value);
    FitIsLongestPrefix(Fit(value).value);
  }
}
