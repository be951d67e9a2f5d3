/** UTF-8 as Python encodes and decodes it (sections 3 and 4 of RFC 3629). A `str` is a list of code
    points, surrogates included; only texts without surrogates can be encoded. */
module Utf8 {
  newtype CodePoint = n: int | 0 <= n < 0x11_0000
  newtype Byte = n: int | 0 <= n < 256

  type Text = seq<CodePoint>
  type Bytes = seq<Byte>

  predicate IsSurrogate(c: CodePoint) {
    0xD800 <= c <= 0xDFFF
  }

  predicate Encodable(s: Text) {
    forall i :: 0 <= i < |s| ==> !IsSurrogate(s[i])
  }

  function EncodeChar(c: CodePoint): (b: Bytes)
    ensures 1 <= |b| <= 4
  {
    var n := c as int;
    if n < 0x80 then [n as Byte]
    else if n < 0x800 then [(0xC0 + n / 64) as Byte, (0x80 + n % 64) as Byte]
    else if n < 0x1_0000 then [(0xE0 + n / 4096) as Byte, (0x80 + n / 64 % 64) as Byte, (0x80 + n % 64) as Byte]
    else [(0xF0 + n / 262144) as Byte, (0x80 + n / 4096 % 64) as Byte, (0x80 + n / 64 % 64) as Byte, (0x80 + n % 64) as Byte]
  }

  function Encode(s: Text): Bytes {
    if s == [] then [] else EncodeChar(s[0]) + Encode(s[1..])
  }

  predicate IsContinuation(b: Byte) {
    0x80 <= b < 0xC0
  }

  /** One step of the decoder on a non-empty input: a code point, or an error to skip, and its length. */
  datatype Decoded = Char(c: CodePoint, size: nat) | Invalid(size: nat)

  /** Whether a second byte may follow the first: it excludes overlong forms, surrogates and code
      points above U+10FFFF. */
  predicate SecondFits(first: Byte, second: Byte) {
    && IsContinuation(second)
    && (first == 0xE0 ==> second >= 0xA0) && (first == 0xED ==> second < 0xA0)
    && (first == 0xF0 ==> second >= 0x90) && (first == 0xF4 ==> second < 0x90)
  }

  function SequenceLength(first: Byte): nat {
    if first < 0x80 then 1
    else if first < 0xC2 then 0
    else if first < 0xE0 then 2
    else if first < 0xF0 then 3
    else if first < 0xF5 then 4
    else 0
  }

  function DecodeStep(b: Bytes): (d: Decoded)
    requires b != []
    ensures 1 <= d.size <= |b|
  {
    var n := SequenceLength(b[0]);
    if n == 0 then Invalid(1)
    else if n == 1 then Char(b[0] as CodePoint, 1)
    else if |b| < 2 then Invalid(1)
    else if !SecondFits(b[0], b[1]) then Invalid(1)
    else if n == 2 then Char(((b[0] as int - 0xC0) * 64 + (b[1] as int - 0x80)) as CodePoint, 2)
    else if |b| < 3 then Invalid(2)
    else if !IsContinuation(b[2]) then Invalid(2)
    else if n == 3 then
      Char((((b[0] as int - 0xE0) * 64 + (b[1] as int - 0x80)) * 64 + (b[2] as int - 0x80)) as CodePoint, 3)
    else if |b| < 4 then Invalid(3)
    else if !IsContinuation(b[3]) then Invalid(3)
    else
      Char(((((b[0] as int - 0xF0) * 64 + (b[1] as int - 0x80)) * 64 + (b[2] as int - 0x80)) * 64 + (b[3] as int - 0x80)) as CodePoint, 4)
  }

  /** `bytes.decode("utf-8", errors="ignore")`. */
  function DecodeIgnore(b: Bytes): Text {
    if b == [] then []
    else
      var d := DecodeStep(b);
      (if d.Char? then [d.c] else []) + DecodeIgnore(b[d.size..])
  }

  /** A value split into its low six bits and the rest. */
  lemma SixBits(high: int, low: int)
    requires 0 <= low < 64
    ensures (high * 64 + low) / 64 == high && (high * 64 + low) % 64 == low
  {
  }

  lemma ThirdPart(n: int)
    ensures n / 4096 == n / 64 / 64 && n / 262144 == n / 64 / 64 / 64
  {
  }

  lemma TwoByteChar(b: Bytes)
    requires b != [] && DecodeStep(b).Char? && DecodeStep(b).size == 2
    ensures !IsSurrogate(DecodeStep(b).c) && EncodeChar(DecodeStep(b).c) == b[..2]
  {
    SixBits(b[0] as int - 0xC0, b[1] as int - 0x80);
    assert b[..2] == [b[0], b[1]];
  }

  lemma ThreeByteChar(b: Bytes)
    requires b != [] && DecodeStep(b).Char? && DecodeStep(b).size == 3
    ensures !IsSurrogate(DecodeStep(b).c) && EncodeChar(DecodeStep(b).c) == b[..3]
  {
    SixBits((b[0] as int - 0xE0) * 64 + (b[1] as int - 0x80), b[2] as int - 0x80);
    SixBits(b[0] as int - 0xE0, b[1] as int - 0x80);
    ThirdPart(DecodeStep(b).c as int);
    assert b[..3] == [b[0], b[1], b[2]];
  }

  lemma FourByteChar(b: Bytes)
    requires b != [] && DecodeStep(b).Char? && DecodeStep(b).size == 4
    ensures !IsSurrogate(DecodeStep(b).c) && EncodeChar(DecodeStep(b).c) == b[..4]
  {
    SixBits(((b[0] as int - 0xF0) * 64 + (b[1] as int - 0x80)) * 64 + (b[2] as int - 0x80), b[3] as int - 0x80);
    SixBits((b[0] as int - 0xF0) * 64 + (b[1] as int - 0x80), b[2] as int - 0x80);
    SixBits(b[0] as int - 0xF0, b[1] as int - 0x80);
    ThirdPart(DecodeStep(b).c as int);
    assert b[..4] == [b[0], b[1], b[2], b[3]];
  }

  /** A decoded code point is the one those bytes encode: no overlong forms, no surrogates. */
  lemma DecodedCharEncodes(b: Bytes)
    requires b != [] && DecodeStep(b).Char?
    ensures !IsSurrogate(DecodeStep(b).c) && EncodeChar(DecodeStep(b).c) == b[..DecodeStep(b).size]
  {
    var d := DecodeStep(b);
    if d.size == 2 {
      TwoByteChar(b);
    } else if d.size == 3 {
      ThreeByteChar(b);
    } else if d.size == 4 {
      FourByteChar(b);
    }
  }

  /** Whatever the bytes, the decoded text can be encoded and is no longer than they are. */
  lemma {:induction false} DecodeShrinks(b: Bytes)
    ensures Encodable(DecodeIgnore(b)) && |Encode(DecodeIgnore(b))| <= |b|
  {
    if b != [] {
      var d := DecodeStep(b);
      var rest := DecodeIgnore(b[d.size..]);
      DecodeShrinks(b[d.size..]);
      if d.Char? {
        DecodedCharEncodes(b);
        assert ([d.c] + rest)[1..] == rest;
      } else {
        assert [] + rest == rest;
      }
    }
  }

  /** Decoding reads one encoded code point back, whatever follows it. */
  lemma DecodeStepOfChar(c: CodePoint, rest: Bytes)
    requires !IsSurrogate(c)
    ensures DecodeStep(EncodeChar(c) + rest) == Char(c, |EncodeChar(c)|)
  {
    var b := EncodeChar(c) + rest;
    var n := c as int;
    assert forall i :: 0 <= i < |EncodeChar(c)| ==> b[i] == EncodeChar(c)[i];
    if 0x800 <= n < 0x1_0000 {
      assert n / 4096 == n / 64 / 64;
    } else if 0x1_0000 <= n {
      assert n / 4096 == n / 64 / 64 && n / 262144 == n / 64 / 64 / 64;
    }
  }

  /** A cut inside the encoding of one code point decodes to nothing. */
  lemma DecodeOfCutChar(c: CodePoint, k: nat)
    requires !IsSurrogate(c) && k < |EncodeChar(c)|
    ensures DecodeIgnore(EncodeChar(c)[..k]) == []
  {
    var b := EncodeChar(c)[..k];
    if k > 0 {
      var n := c as int;
      if 0x800 <= n < 0x1_0000 {
        assert n / 4096 == n / 64 / 64;
      } else if 0x1_0000 <= n {
        assert n / 4096 == n / 64 / 64 && n / 262144 == n / 64 / 64 / 64;
      }
      assert DecodeStep(b) == Invalid(k);
      assert b[k..] == [];
    }
  }

  /** How many leading code points of `s` fit whole into `n` bytes. */
  function Fitting(s: Text, n: nat): (m: nat)
    ensures m <= |s|
  {
    if s == [] || |EncodeChar(s[0])| > n then 0 else 1 + Fitting(s[1..], n - |EncodeChar(s[0])|)
  }

  lemma EncodeTake(s: Text, m: nat)
    requires 0 < m <= |s|
    ensures Encode(s[..m]) == EncodeChar(s[0]) + Encode(s[1..][..m - 1])
  {
    assert s[..m][1..] == s[1..][..m - 1];
  }

  lemma {:induction false} EncodeGrows(s: Text, m: nat, k: nat)
    requires m <= k <= |s|
    ensures |Encode(s[..m])| + (k - m) <= |Encode(s[..k])|
  {
    if k > 0 {
      EncodeTake(s, k);
      if m > 0 {
        EncodeTake(s, m);
        EncodeGrows(s[1..], m - 1, k - 1);
      } else {
        EncodeGrows(s[1..], 0, k - 1);
        assert s[..0] == [] && s[1..][..0] == [];
      }
    }
  }

  /** `Fitting` is the longest prefix within the budget, and it misses the budget by at most 3 bytes. */
  lemma {:induction false} FittingIsLongest(s: Text, n: nat)
    requires n <= |Encode(s)|
    ensures |Encode(s[..Fitting(s, n)])| <= n <= |Encode(s[..Fitting(s, n)])| + 3
    ensures forall k :: Fitting(s, n) < k <= |s| ==> |Encode(s[..k])| > n
  {
    var m := Fitting(s, n);
    if m == 0 {
      assert s[..0] == [];
      forall k | 0 < k <= |s| ensures |Encode(s[..k])| > n { EncodeTake(s, k); }
    } else {
      var size := |EncodeChar(s[0])|;
      FittingIsLongest(s[1..], n - size);
      EncodeTake(s, m);
      forall k | m < k <= |s| ensures |Encode(s[..k])| > n { EncodeTake(s, k); }
    }
  }

  lemma DecodeOfFirst(c: CodePoint, rest: Bytes)
    requires !IsSurrogate(c)
    ensures DecodeIgnore(EncodeChar(c) + rest) == [c] + DecodeIgnore(rest)
  {
    DecodeStepOfChar(c, rest);
    hide EncodeChar, DecodeStep;
    assert (EncodeChar(c) + rest)[|EncodeChar(c)|..] == rest;
  }

  /** Decoding a byte prefix, ignoring errors, keeps exactly the code points that fit whole. */
  lemma {:induction false} DecodeOfPrefix(s: Text, n: nat)
    requires Encodable(s) && n <= |Encode(s)|
    ensures DecodeIgnore(Encode(s)[..n]) == s[..Fitting(s, n)]
  {
    if s != [] {
      assert Encodable(s[1..]) && !IsSurrogate(s[0]);
      hide *;
      FirstChar(s, n);
      var c, rest := EncodeChar(s[0]), Encode(s[1..]);
      TakeBytes(c, rest, n);
      if |c| > n {
        DecodeOfCutChar(s[0], n);
      } else {
        DecodeOfFirst(s[0], rest[..n - |c|]);
        DecodeOfPrefix(s[1..], n - |c|);
        OneMoreChar(s, Fitting(s[1..], n - |c|));
      }
    }
  }

  lemma FirstChar(s: Text, n: nat)
    requires s != []
    ensures Encode(s) == EncodeChar(s[0]) + Encode(s[1..])
    ensures Fitting(s, n) == if |EncodeChar(s[0])| > n then 0 else 1 + Fitting(s[1..], n - |EncodeChar(s[0])|)
    ensures s[..0] == []
  {
  }

  lemma TakeBytes(c: Bytes, rest: Bytes, n: nat)
    requires n <= |c| + |rest|
    ensures (c + rest)[..n] == if n < |c| then c[..n] else c + rest[..n - |c|]
  {
  }

  lemma OneMoreChar(s: Text, m: nat)
    requires m + 1 <= |s|
    ensures s[..m + 1] == [s[0]] + s[1..][..m]
  {
  }

  lemma {:induction false} FittingAll(s: Text)
    ensures Fitting(s, |Encode(s)|) == |s|
  {
    if s != [] { FittingAll(s[1..]); }
  }

  /** Decoding undoes encoding. */
  lemma DecodeOfEncode(s: Text)
    requires Encodable(s)
    ensures DecodeIgnore(Encode(s)) == s
  {
    FittingAll(s);
    DecodeOfPrefix(s, |Encode(s)|);
    assert Encode(s)[..|Encode(s)|] == Encode(s) && s[..|s|] == s;
  }

  lemma {:induction false} EncodeConcat(a: Text, b: Text)
    ensures Encode(a + b) == Encode(a) + Encode(b)
  {
    if a == [] {
      assert a + b == b;
    } else {
      assert (a + b)[1..] == a[1..] + b;
      EncodeConcat(a[1..], b);
    }
  }

  lemma {:induction false} EncodeAscii(s: Text)
    requires forall i :: 0 <= i < |s| ==> s[i] < 0x80
    ensures |Encode(s)| == |s|
  {
    if s != [] { EncodeAscii(s[1..]); }
  }

  /** The examples in section 7 of RFC 3629, and one byte and the last code point. */
  lemma RfcExamples()
    ensures EncodeChar(0x41) == [0x41] && EncodeChar(0x391) == [0xCE, 0x91] && EncodeChar(0x2262) == [0xE2, 0x89, 0xA2]
    ensures EncodeChar(0x65E5) == [0xE6, 0x97, 0xA5] && EncodeChar(0xFEFF) == [0xEF, 0xBB, 0xBF]
    ensures EncodeChar(0x233B4) == [0xF0, 0xA3, 0x8E, 0xB4] && EncodeChar(0x10FFFF) == [0xF4, 0x8F, 0xBF, 0xBF]
  {
  }
}
