/**
 UTF-8 as Python encodes and decodes it (section 3 of RFC 3629): surrogates have no encoding, and
 a decoder told to ignore errors skips the longest part of a character that went well.
 */
module Utf8 {
  import opened Bytes

  type CodePoint = x: int | 0 <= x < 0x110000
  type Text = seq<CodePoint>

  predicate Surrogate(c: CodePoint) {
    0xD800 <= c < 0xE000
  }

  predicate Encodable(text: Text) {
    forall k :: 0 <= k < |text| ==> !Surrogate(text[k])
  }

  function Continuation(c: CodePoint): byte {
    (0x80 + c % 0x40) as byte
  }

  function EncodeOne(c: CodePoint): (r: seq<byte>)
    ensures 1 <= |r| <= 4
  {
    if c < 0x80 then [c as byte]
    else if c < 0x800 then [(0xC0 + c / 0x40) as byte, Continuation(c)]
    else if c < 0x10000 then [(0xE0 + c / 0x1000) as byte, Continuation(c / 0x40), Continuation(c)]
    else [(0xF0 + c / 0x40000) as byte, Continuation(c / 0x1000), Continuation(c / 0x40), Continuation(c)]
  }

  function Encode(text: Text): seq<byte> {
    if text == [] then [] else EncodeOne(text[0]) + Encode(text[1..])
  }

  /** The continuation bytes that a first byte calls for, or None where no character starts with it. */
  datatype Need = Never | Need(count: nat)

  function NeedAfter(first: byte): Need {
    if first < 0x80 then Need(0)
    else if 0xC2 <= first < 0xE0 then Need(1)
    else if 0xE0 <= first < 0xF0 then Need(2)
    else if 0xF0 <= first < 0xF5 then Need(3)
    else Never
  }

  /**
   Whether the byte may come second, where overlong forms, surrogates and values above the last
   code point are out.
   */
  predicate MayComeSecond(first: byte, second: byte) {
    (if first == 0xE0 then 0xA0 else if first == 0xF0 then 0x90 else 0x80) <= second
    <= (if first == 0xED then 0x9F else if first == 0xF4 then 0x8F else 0xBF)
  }

  /** How many of the first n bytes form the beginning of a character. */
  function GoodPart(bytes: seq<byte>, n: nat): (k: nat)
    requires bytes != [] && n <= 4
    ensures 1 <= k <= |bytes| && (n >= 1 ==> k <= n)
  {
    if n < 2 || |bytes| < 2 || !MayComeSecond(bytes[0], bytes[1]) then 1
    else if n < 3 || |bytes| < 3 || !(0x80 <= bytes[2] <= 0xBF) then 2
    else if n < 4 || |bytes| < 4 || !(0x80 <= bytes[3] <= 0xBF) then 3
    else 4
  }

  function Bits(b: byte): int {
    b as int % 0x40
  }

  function DecodeWhole(bytes: seq<byte>, need: nat): int
    requires need <= 3 && |bytes| > need
  {
    if need == 0 then bytes[0] as int
    else if need == 1 then bytes[0] as int % 0x20 * 0x40 + Bits(bytes[1])
    else if need == 2 then bytes[0] as int % 0x10 * 0x1000 + Bits(bytes[1]) * 0x40 + Bits(bytes[2])
    else bytes[0] as int % 0x08 * 0x40000 + Bits(bytes[1]) * 0x1000 + Bits(bytes[2]) * 0x40 + Bits(bytes[3])
  }

  lemma WholeIsCodePoint(bytes: seq<byte>, need: nat)
    requires bytes != [] && NeedAfter(bytes[0]) == Need(need) && GoodPart(bytes, need + 1) == need + 1
    ensures |bytes| > need && 0 <= DecodeWhole(bytes, need) < 0x110000 && !Surrogate(DecodeWhole(bytes, need))
  {
  }

  /** Decoding that drops what is not a character. */
  function DecodeIgnoring(bytes: seq<byte>): Text {
    if bytes == [] then []
    else
      var need := NeedAfter(bytes[0]);
      if need.Never? then DecodeIgnoring(bytes[1..])
      else
        var k := GoodPart(bytes, need.count + 1);
        if k < need.count + 1 then DecodeIgnoring(bytes[k..])
        else
          WholeIsCodePoint(bytes, need.count);
          [DecodeWhole(bytes, need.count)] + DecodeIgnoring(bytes[k..])
  }

  // ----- decoding undoes encoding, whole or cut short

  lemma ContinuationBits(c: CodePoint)
    ensures 0x80 <= Continuation(c) <= 0xBF && Bits(Continuation(c)) == c % 0x40
  {
  }

  lemma TwoBytes(c: CodePoint, rest: seq<byte>)
    requires 0x80 <= c < 0x800
    ensures var bytes := EncodeOne(c) + rest;
            NeedAfter(bytes[0]) == Need(1) && GoodPart(bytes, 2) == 2 && DecodeWhole(bytes, 1) == c
  {
    var bytes := EncodeOne(c) + rest;
    ContinuationBits(c);
    hide Continuation, Bits;
    assert bytes[0] as int == 0xC0 + c / 0x40 && bytes[1] == Continuation(c);
  }

  lemma ThreeBytes(c: CodePoint, rest: seq<byte>)
    requires 0x800 <= c < 0x10000 && !Surrogate(c)
    ensures var bytes := EncodeOne(c) + rest;
            NeedAfter(bytes[0]) == Need(2) && GoodPart(bytes, 3) == 3 && DecodeWhole(bytes, 2) == c
  {
    var bytes := EncodeOne(c) + rest;
    var a, m, d := c / 0x1000, c / 0x40 % 0x40, c % 0x40;
    assert c == a * 0x1000 + m * 0x40 + d;
    ContinuationBits(c);
    ContinuationBits(c / 0x40);
    assert Continuation(c / 0x40) as int == 0x80 + m;
    hide Continuation, Bits;
    assert bytes[0] as int == 0xE0 + a && bytes[1] == Continuation(c / 0x40) && bytes[2] == Continuation(c);
    assert a == 0 ==> m >= 0x20;
    assert a == 0xD ==> m < 0x20;
    assert MayComeSecond(bytes[0], bytes[1]);
    assert bytes[0] as int % 0x10 == a;
  }

  lemma FourBytes(c: CodePoint, rest: seq<byte>)
    requires 0x10000 <= c
    ensures var bytes := EncodeOne(c) + rest;
            NeedAfter(bytes[0]) == Need(3) && GoodPart(bytes, 4) == 4 && DecodeWhole(bytes, 3) == c
  {
    var bytes := EncodeOne(c) + rest;
    var a, h, m, d := c / 0x40000, c / 0x1000 % 0x40, c / 0x40 % 0x40, c % 0x40;
    assert c == a * 0x40000 + h * 0x1000 + m * 0x40 + d;
    ContinuationBits(c);
    ContinuationBits(c / 0x40);
    ContinuationBits(c / 0x1000);
    assert Continuation(c / 0x1000) as int == 0x80 + h;
    hide Continuation, Bits;
    assert bytes[0] as int == 0xF0 + a && bytes[1] == Continuation(c / 0x1000);
    assert bytes[2] == Continuation(c / 0x40) && bytes[3] == Continuation(c);
    assert a <= 4 && (a == 0 ==> h >= 0x10) && (a == 4 ==> h < 0x10);
    assert MayComeSecond(bytes[0], bytes[1]);
    assert bytes[0] as int % 0x08 == a;
  }

  lemma EncodedOneIsGood(c: CodePoint, rest: seq<byte>)
    requires !Surrogate(c)
    ensures var bytes, n := EncodeOne(c) + rest, |EncodeOne(c)|;
            NeedAfter(bytes[0]) == Need(n - 1) && GoodPart(bytes, n) == n && DecodeWhole(bytes, n - 1) == c
  {
    if c >= 0x10000 {
      FourBytes(c, rest);
    } else if c >= 0x800 {
      ThreeBytes(c, rest);
    } else if c >= 0x80 {
      TwoBytes(c, rest);
    }
  }

  lemma EncodedOneDecodes(c: CodePoint, rest: seq<byte>)
    requires !Surrogate(c)
    ensures DecodeIgnoring(EncodeOne(c) + rest) == [c] + DecodeIgnoring(rest)
  {
    var bytes := EncodeOne(c) + rest;
    EncodedOneIsGood(c, rest);
    assert bytes[|EncodeOne(c)|..] == rest;
  }

  /** Part of a character decodes to nothing. */
  lemma CutOneDecodesToNothing(c: CodePoint, n: nat)
    requires !Surrogate(c) && n < |EncodeOne(c)|
    ensures DecodeIgnoring(EncodeOne(c)[..n]) == []
  {
    if n > 0 {
      var bytes := EncodeOne(c)[..n];
      EncodedOneIsGood(c, []);
      assert GoodPart(bytes, |EncodeOne(c)|) == n;
      assert bytes[n..] == [];
    }
  }

  /** The first k characters are the most that fit the limit. */
  ghost predicate LongestFit(text: Text, limit: nat, k: nat) {
    && k <= |text| && |Encode(text[..k])| <= limit
    && forall j :: k < j <= |text| ==> |Encode(text[..j])| > limit
  }

  lemma {:induction false} PrefixSizes(text: Text, i: nat, j: nat)
    requires i <= j <= |text|
    ensures |Encode(text[..i])| + (j - i) <= |Encode(text[..j])|
    decreases |text|
  {
    if i > 0 {
      PrefixSizes(text[1..], i - 1, j - 1);
      assert text[..i][1..] == text[1..][..i - 1] && text[..j][1..] == text[1..][..j - 1];
    } else if j > 0 {
      PrefixSizes(text[1..], 0, j - 1);
      assert text[..j][1..] == text[1..][..j - 1] && text[1..][..0] == text[..0] == [];
    }
  }

  lemma OneEncoded(text: Text)
    requires text != []
    ensures Encode(text[..1]) == EncodeOne(text[0])
  {
    assert text[..1][1..] == [];
  }

  lemma FitStep(text: Text, limit: nat, k: nat)
    requires text != [] && |EncodeOne(text[0])| <= limit && LongestFit(text[1..], limit - |EncodeOne(text[0])|, k)
    ensures LongestFit(text, limit, k + 1)
  {
    assert text[..k + 1][1..] == text[1..][..k];
    forall j | k + 1 < j <= |text| ensures |Encode(text[..j])| > limit {
      assert text[..j][1..] == text[1..][..j - 1];
    }
  }

  /** Bytes cut at a limit and decoded, errors ignored, are the longest prefix of whole characters that fits. */
  lemma {:induction false} CutDecodesToLongestFit(text: Text, limit: nat) returns (k: nat)
    requires Encodable(text) && limit <= |Encode(text)|
    ensures LongestFit(text, limit, k) && DecodeIgnoring(Encode(text)[..limit]) == text[..k]
    decreases |text|
  {
    k := 0;
    if text != [] {
      var c, rest := text[0], text[1..];
      var n := |EncodeOne(c)|;
      assert Encode(text) == EncodeOne(c) + Encode(rest);
      if limit < n {
        assert Encode(text)[..limit] == EncodeOne(c)[..limit];
        CutOneDecodesToNothing(c, limit);
        assert Encode(text[..1]) == EncodeOne(c) by { OneEncoded(text); }
        forall j | 0 < j <= |text| ensures |Encode(text[..j])| > limit { PrefixSizes(text, 1, j); }
      } else {
        k := CutDecodesToLongestFit(rest, limit - n);
        assert Encode(text)[..limit] == EncodeOne(c) + Encode(rest)[..limit - n];
        EncodedOneDecodes(c, Encode(rest)[..limit - n]);
        FitStep(text, limit, k);
        assert text[..k + 1] == [c] + rest[..k];
        k := k + 1;
      }
    }
  }

  lemma EncodedTextDecodes(text: Text)
    requires Encodable(text)
    ensures DecodeIgnoring(Encode(text)) == text
  {
    var k := CutDecodesToLongestFit(text, |Encode(text)|);
    assert Encode(text)[..|Encode(text)|] == Encode(text);
    assert text[..|text|] == text;
    assert k == |text|;
  }
}
