/** The byte limit on values kept in graph state. */
module OutputLimits {
  import opened Utf8

  datatype Result<T> = Ok(value: T) | NegativeLimit | NotEncodable

  /** A value and whether it was truncated. */
  datatype Limited = Limited(text: Text, truncated: bool)

  function Ascii(s: string): (t: Text)
    requires forall i :: 0 <= i < |s| ==> s[i] as int < 0x80
    ensures |t| == |s|
  {
    seq(|s|, i requires 0 <= i < |s| => s[i] as int as CodePoint)
  }

  /** The decimal digits of a natural number, as an f-string prints it. */
  function Digits(n: nat): (t: Text)
    ensures |t| >= 1
  {
    if n < 10 then [(0x30 + n) as CodePoint] else Digits(n / 10) + [(0x30 + n % 10) as CodePoint]
  }

  function Marker(omitted: nat): Text {
    Ascii("[truncated ") + Digits(omitted) + Ascii(" bytes]\n")
  }

  function TruncateUtf8(text: Text, maxBytes: int): Result<Limited> {
    if maxBytes < 0 then NegativeLimit
    else if !Encodable(text) then NotEncodable
    else
      var encoded := Encode(text);
      if |encoded| <= maxBytes then Ok(Limited(text, false))
      else
        var budget := maxBytes - |Encode(Marker(|encoded|))|;
        if budget < 0 then Ok(Limited([], true))
        else
          var retained := DecodeIgnore(encoded[..budget]);
          DecodeShrinks(encoded[..budget]);
          var omitted := |encoded| - |Encode(retained)|;
          Ok(Limited(Marker(omitted) + retained, true))
  }

  lemma {:induction false} DigitsAreAscii(n: nat)
    ensures forall i :: 0 <= i < |Digits(n)| ==> 0x30 <= Digits(n)[i] <= 0x39
  {
    if n >= 10 { DigitsAreAscii(n / 10); }
  }

  /** A smaller number never has more digits. */
  lemma {:induction false} FewerDigits(m: nat, n: nat)
    requires m <= n
    ensures |Digits(m)| <= |Digits(n)|
  {
    if m >= 10 { FewerDigits(m / 10, n / 10); }
  }

  lemma MarkerLength(n: nat)
    ensures |Encode(Marker(n))| == |Digits(n)| + 19
    ensures Encodable(Marker(n))
  {
    DigitsAreAscii(n);
    EncodeAscii(Marker(n));
  }

  /** The value of a list of decimal digits. */
  function ValueOf(t: Text): int {
    if t == [] then 0 else 10 * ValueOf(t[..|t| - 1]) + (t[|t| - 1] as int - 0x30)
  }

  lemma {:induction false} DigitsDenote(n: nat)
    ensures ValueOf(Digits(n)) == n
  {
    if n < 10 {
      assert Digits(n)[..0] == [];
    } else {
      DigitsDenote(n / 10);
      assert Digits(n)[..|Digits(n)| - 1] == Digits(n / 10);
    }
  }

  /** The decimal numeral of n, as people write it: digits, the first of them no zero unless it is alone. */
  predicate IsNumeral(t: Text, n: int) {
    && t != [] && (forall i :: 0 <= i < |t| ==> 0x30 <= t[i] <= 0x39) && (t[0] == 0x30 ==> |t| == 1)
    && ValueOf(t) == n
  }

  lemma {:induction false} DigitsAreNumeral(n: nat)
    ensures IsNumeral(Digits(n), n)
  {
    DigitsDenote(n);
    DigitsAreAscii(n);
    NoLeadingZero(n);
  }

  lemma {:induction false} NoLeadingZero(n: nat)
    ensures Digits(n)[0] == 0x30 ==> n == 0
  {
    if n >= 10 { NoLeadingZero(n / 10); }
  }

  /** What truncation promises, without its computation: `kept` code points of the text follow a
      marker whose number is the bytes left out, no longer prefix would fit the payload budget, at most
      3 bytes of that budget go unused, and the whole stays within the limit. */
  ghost predicate TruncatedAt(text: Text, maxBytes: int, result: Text, kept: nat, omitted: nat) {
    && kept <= |text|
    && (exists number ::
          && IsNumeral(number, omitted)
          && result == Ascii("[truncated ") + number + Ascii(" bytes]\n") + text[..kept])
    && omitted + |Encode(text[..kept])| == |Encode(text)|
    && |Encode(result)| <= maxBytes
    && var budget := maxBytes - |Encode(Marker(|Encode(text)|))|;
       && |Encode(text[..kept])| <= budget <= |Encode(text[..kept])| + 3
       && forall k :: kept < k <= |text| ==> |Encode(text[..k])| > budget
  }

  lemma TruncationIsExact(text: Text, maxBytes: nat)
    requires Encodable(text) && |Encode(text)| > maxBytes
    requires |Encode(Marker(|Encode(text)|))| <= maxBytes
    ensures TruncateUtf8(text, maxBytes).Ok? && TruncateUtf8(text, maxBytes).value.truncated
    ensures exists kept: nat, omitted: nat :: TruncatedAt(text, maxBytes, TruncateUtf8(text, maxBytes).value.text, kept, omitted)
  {
    var encoded := Encode(text);
    var budget := maxBytes - |Encode(Marker(|encoded|))|;
    var kept := Fitting(text, budget);
    DecodeOfPrefix(text, budget);
    FittingIsLongest(text, budget);
    EncodeGrows(text, kept, |text|);
    assert text[..|text|] == text;
    var omitted := |encoded| - |Encode(text[..kept])|;
    FewerDigits(omitted, |encoded|);
    MarkerLength(omitted);
    MarkerLength(|encoded|);
    EncodeConcat(Marker(omitted), text[..kept]);
    DigitsAreNumeral(omitted);
    assert TruncatedAt(text, maxBytes, Marker(omitted) + text[..kept], kept, omitted);
  }

  /** Every outcome, on every input: the errors, the untouched value, the empty one and the truncated
      one; the limit holds in bytes whenever there is a value, and limiting again changes nothing. */
  lemma LimitAlwaysHolds(text: Text, maxBytes: int)
    ensures TruncateUtf8(text, maxBytes).NegativeLimit? <==> maxBytes < 0
    ensures TruncateUtf8(text, maxBytes).NotEncodable? <==> maxBytes >= 0 && !Encodable(text)
    ensures TruncateUtf8(text, maxBytes).Ok? ==>
              var r := TruncateUtf8(text, maxBytes).value;
              && Encodable(r.text) && |Encode(r.text)| <= maxBytes
              && (r.truncated <==> |Encode(text)| > maxBytes)
              && (!r.truncated ==> r.text == text)
              && (r.truncated && maxBytes < |Encode(Marker(|Encode(text)|))| ==> r.text == [])
              && TruncateUtf8(r.text, maxBytes) == Ok(Limited(r.text, false))
  {
    if maxBytes >= 0 && Encodable(text) && |Encode(text)| > maxBytes {
      var marker := |Encode(Marker(|Encode(text)|))|;
      if maxBytes >= marker {
        TruncationIsExact(text, maxBytes);
        var r := TruncateUtf8(text, maxBytes).value.text;
        var kept: nat, omitted: nat :| TruncatedAt(text, maxBytes, r, kept, omitted);
        TruncatedFits(text, maxBytes, r, kept, omitted);
      }
    }
  }

  lemma TruncatedFits(text: Text, maxBytes: nat, r: Text, kept: nat, omitted: nat)
    requires Encodable(text) && TruncatedAt(text, maxBytes, r, kept, omitted)
    ensures Encodable(r) && |Encode(r)| <= maxBytes
  {
  }
}
