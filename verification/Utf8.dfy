/**
UTF-8 as section 3 of RFC 3629 defines it, and the decoder that skips what it cannot
decode: a byte that starts no character is dropped alone, and a character cut short is
dropped up to the byte that does not continue it, or to the end of the data.
 */
module Utf8 {
  import opened Wrappers

  type Byte = b: int | 0 <= b < 256
  type CodePoint = c: int | 0 <= c <= 0x10FFFF

  /** The code points that have an encoding: all but the surrogates. */
  predicate Scalar(c: CodePoint) {
    !(0xD800 <= c <= 0xDFFF)
  }

  predicate AllScalar(s: seq<CodePoint>) {
    forall c <- s :: Scalar(c)
  }

  function EncodeOne(c: CodePoint): (b: seq<Byte>)
    ensures 1 <= |b| <= 4
  {
    if c < 0x80 then [c]
    else if c < 0x800 then [0xC0 + c / 0x40, 0x80 + c % 0x40]
    else if c < 0x10000 then [0xE0 + c / 0x40 / 0x40, 0x80 + c / 0x40 % 0x40, 0x80 + c % 0x40]
    else [0xF0 + c / 0x40 / 0x40 / 0x40, 0x80 + c / 0x40 / 0x40 % 0x40, 0x80 + c / 0x40 % 0x40, 0x80 + c % 0x40]
  }

  function Encode(s: seq<CodePoint>): seq<Byte> {
    if s == [] then [] else EncodeOne(s[0]) + Encode(s[1..])
  }

  /** How many bytes a character with this first byte has; 0 for a byte that starts none. */
  function LengthOf(lead: Byte): nat {
    if lead < 0x80 then 1
    else if 0xC2 <= lead < 0xE0 then 2
    else if 0xE0 <= lead < 0xF0 then 3
    else if 0xF0 <= lead < 0xF5 then 4
    else 0
  }

  predicate Continues(b: Byte) {
    0x80 <= b < 0xC0
  }

  /** The second byte also rules out overlong forms, surrogates and what lies beyond the
      last code point. */
  predicate Follows(lead: Byte, b: Byte) {
    && Continues(b)
    && (lead == 0xE0 ==> b >= 0xA0)
    && (lead == 0xED ==> b < 0xA0)
    && (lead == 0xF0 ==> b >= 0x90)
    && (lead == 0xF4 ==> b < 0x90)
  }

  /** Six more bits, from a continuation byte. */
  function Join(high: int, b: Byte): (c: int)
    ensures Continues(b) ==> c / 0x40 == high && c % 0x40 == b - 0x80
  {
    high * 0x40 + (b as int - 0x80)
  }

  /** The bytes to consume at the front, and the character they spell, if any. */
  function Step(b: seq<Byte>): (r: (nat, Option<CodePoint>))
    requires b != []
    ensures 1 <= r.0 <= |b|
  {
    var n := LengthOf(b[0]);
    if n == 0 then (1, None)
    else if n == 1 then (1, Some(b[0]))
    else if |b| < 2 || !Follows(b[0], b[1]) then (1, None)
    else if n == 2 then (2, Some(Join(b[0] as int - 0xC0, b[1])))
    else if |b| < 3 || !Continues(b[2]) then (2, None)
    else if n == 3 then (3, Some(Join(Join(b[0] as int - 0xE0, b[1]), b[2])))
    else if |b| < 4 || !Continues(b[3]) then (3, None)
    else (4, Some(Join(Join(Join(b[0] as int - 0xF0, b[1]), b[2]), b[3])))
  }

  function Decode(b: seq<Byte>): seq<CodePoint>
    decreases |b|
  {
    if b == [] then []
    else
      var (n, c) := Step(b);
      (if c.Some? then [c.value] else []) + Decode(b[n..])
  }

  // ---------------------------------------------------------------- one character

  function Bits(b: Byte, marker: int): int {
    b as int - marker
  }

  /** The table of section 3 of RFC 3629: how many bytes there are, what each begins with, and
      that the remaining bits spell the code point, six in each byte but the first. */
  lemma EncodingIsTheTable(c: CodePoint)
    ensures var b := EncodeOne(c);
            && |b| == (if c < 0x80 then 1 else if c < 0x800 then 2 else if c < 0x1_0000 then 3 else 4)
            && (forall i :: 1 <= i < |b| ==> 0x80 <= b[i] < 0xC0)
            && match |b|
               case 1 => b[0] == c
               case 2 => 0xC0 <= b[0] < 0xE0 && c == 64 * Bits(b[0], 0xC0) + Bits(b[1], 0x80)
               case 3 => && 0xE0 <= b[0] < 0xF0
                         && c == 64 * (64 * Bits(b[0], 0xE0) + Bits(b[1], 0x80)) + Bits(b[2], 0x80)
               case _ => && 0xF0 <= b[0] < 0xF8
                         && c == 64 * (64 * (64 * Bits(b[0], 0xF0) + Bits(b[1], 0x80)) + Bits(b[2], 0x80))
                                 + Bits(b[3], 0x80)
  {
  }

  lemma StepReadsCharacter(c: CodePoint, rest: seq<Byte>)
    requires Scalar(c)
    ensures Step(EncodeOne(c) + rest) == (|EncodeOne(c)|, Some(c))
  {
  }

  /** A character cut short, at the end of the data or before a byte that does not continue
      one, is dropped whole, and nothing else with it. */
  lemma StepDropsCutCharacter(c: CodePoint, k: nat, rest: seq<Byte>)
    requires Scalar(c) && 0 < k < |EncodeOne(c)| && (rest == [] || rest[0] < 0x80 || rest[0] >= 0xC0)
    ensures Step(EncodeOne(c)[..k] + rest) == (k, None)
  {
  }

  /** A byte that starts no character is dropped alone. */
  lemma StepDropsStrayByte(b: Byte, rest: seq<Byte>)
    requires 0x80 <= b < 0xC2 || b >= 0xF5
    ensures Step([b] + rest) == (1, None)
  {
  }

  lemma StepReadsScalar(b: seq<Byte>)
    requires b != [] && Step(b).1.Some?
    ensures Scalar(Step(b).1.value) && EncodeOne(Step(b).1.value) == b[..Step(b).0]
  {
  }

  // ---------------------------------------------------------------- whole strings

  /** How many characters from the front fit in `n` bytes. */
  function Fitting(s: seq<CodePoint>, n: nat): (k: nat)
    ensures k <= |s|
  {
    if s == [] || |EncodeOne(s[0])| > n then 0
    else 1 + Fitting(s[1..], n - |EncodeOne(s[0])|)
  }

  lemma {:induction false} EncodeAppends(s: seq<CodePoint>, t: seq<CodePoint>)
    ensures Encode(s + t) == Encode(s) + Encode(t)
  {
    if s == [] {
      assert s + t == t;
    } else {
      assert (s + t)[1..] == s[1..] + t;
      EncodeAppends(s[1..], t);
    }
  }

  lemma {:induction false} AsciiLength(s: seq<CodePoint>)
    requires forall i :: 0 <= i < |s| ==> s[i] < 0x80
    ensures |Encode(s)| == |s|
  {
    if s != [] {
      AsciiLength(s[1..]);
    }
  }

  /** `Fitting` is the longest prefix whose encoding is within `n` bytes. */
  lemma {:induction false} FittingIsLongest(s: seq<CodePoint>, n: nat)
    ensures var k := Fitting(s, n);
            && |Encode(s[..k])| <= n
            && (k < |s| ==> |Encode(s[..k + 1])| > n)
            && (k == |s| <==> |Encode(s)| <= n)
  {
    if s != [] && |EncodeOne(s[0])| <= n {
      var k := Fitting(s, n);
      FittingIsLongest(s[1..], n - |EncodeOne(s[0])|);
      assert s[..k][1..] == s[1..][..k - 1];
      if k < |s| {
        assert s[..k + 1][1..] == s[1..][..k];
      }
    } else if s != [] {
      assert s[..1][1..] == [];
      assert Encode(s[..1]) == EncodeOne(s[0]) + Encode([]);
    }
  }

  /** Decoding any byte prefix of an encoding gives exactly the characters that fit in it. */
  lemma {:induction false} DecodeOfCut(s: seq<CodePoint>, n: nat)
    requires AllScalar(s) && n <= |Encode(s)|
    ensures Decode(Encode(s)[..n]) == s[..Fitting(s, n)]
  {
    hide Step, EncodeOne;
    if s == [] || n == 0 {
    } else {
      var one := EncodeOne(s[0]);
      var cut := Encode(s)[..n];
      if n < |one| {
        assert cut == one[..n];
        StepDropsCutCharacter(s[0], n, []);
        assert one[..n] + [] == one[..n];
        assert cut[n..] == [];
      } else {
        assert cut == one + Encode(s[1..])[..n - |one|];
        StepReadsCharacter(s[0], Encode(s[1..])[..n - |one|]);
        assert cut[|one|..] == Encode(s[1..])[..n - |one|];
        DecodeOfCut(s[1..], n - |one|);
        assert s[..Fitting(s, n)] == [s[0]] + s[1..][..Fitting(s[1..], n - |one|)];
      }
    }
  }

  lemma RoundTrip(s: seq<CodePoint>)
    requires AllScalar(s)
    ensures Decode(Encode(s)) == s
  {
    DecodeOfCut(s, |Encode(s)|);
    FittingIsLongest(s, |Encode(s)|);
    assert Encode(s)[..|Encode(s)|] == Encode(s);
    assert s[..|s|] == s;
  }

  /** Whatever the bytes, only encodable characters come out, and never more bytes' worth
      than went in. */
  lemma {:induction false} DecodeIsSound(b: seq<Byte>)
    ensures AllScalar(Decode(b)) && |Encode(Decode(b))| <= |b|
    decreases |b|
  {
    hide Step, EncodeOne;
    if b != [] {
      var (n, c) := Step(b);
      DecodeIsSound(b[n..]);
      if c.Some? {
        StepReadsScalar(b);
        EncodeAppends([c.value], Decode(b[n..]));
        assert Encode([c.value]) == EncodeOne(c.value);
      } else {
        assert Decode(b) == Decode(b[n..]);
      }
    }
  }
}
