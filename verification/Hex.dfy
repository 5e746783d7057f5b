/** Hexadecimal text: lower-case encoding, case-insensitive decoding. */
module Hex {
  import opened Net

  function Digit(n: nat): Byte
    requires n < 16
  {
    if n < 10 then 48 + n else 87 + n
  }

  /** The value of one hexadecimal character, of either case. */
  function Value(c: Byte): (v: Option<nat>)
    ensures v.Some? ==> v.value < 16
  {
    if 48 <= c <= 57 then Some(c - 48)
    else if 97 <= c <= 102 then Some(c - 97 + 10)
    else if 65 <= c <= 70 then Some(c - 65 + 10)
    else None
  }

  predicate Digits(s: Bytes) { forall i :: 0 <= i < |s| ==> Value(s[i]).Some? }

  function Encode(b: Bytes): (s: Bytes) {
    seq(2 * |b|, i requires 0 <= i < 2 * |b| => if i % 2 == 0 then Digit(b[i / 2] / 16) else Digit(b[i / 2] % 16))
  }

  function Pair(s: Bytes, i: nat): Byte
    requires Digits(s) && 2 * i + 1 < |s|
  {
    Value(s[2 * i]).value * 16 + Value(s[2 * i + 1]).value
  }

  function Decode(s: Bytes): (b: Option<Bytes>) {
    if |s| % 2 == 0 && Digits(s) then Some(seq(|s| / 2, i requires 0 <= i < |s| / 2 => Pair(s, i)))
    else None
  }

  function Lower(s: Bytes): Bytes { seq(|s|, i requires 0 <= i < |s| => if 65 <= s[i] <= 70 then s[i] + 32 else s[i]) }

  // ---- the byte loops ----

  lemma EncodeSnoc(b: Bytes, x: Byte)
    ensures Encode(b + [x]) == Encode(b) + [Digit(x / 16), Digit(x % 16)]
  {
  }

  method ToHexLower(b: Bytes) returns (out: Bytes)
    ensures out == Encode(b)
  {
    out := [];
    for i := 0 to |b|
      invariant out == Encode(b[..i])
    {
      EncodeSnoc(b[..i], b[i]);
      assert b[..i + 1] == b[..i] + [b[i]];
      out := out + [Digit(b[i] / 16)] + [Digit(b[i] % 16)];
    }
    assert b[..|b|] == b;
  }

  method HexDecode(s: Bytes) returns (r: Option<Bytes>)
    ensures r == Decode(s)
  {
    if |s| % 2 != 0 {
      return None;
    }
    var out: Bytes := [];
    var i := 0;
    while i < |s|
      invariant i <= |s| && i % 2 == 0 && |out| == i / 2
      invariant forall j :: 0 <= j < i ==> Value(s[j]).Some?
      invariant forall j :: 0 <= j < |out| ==> out[j] == Value(s[2 * j]).value * 16 + Value(s[2 * j + 1]).value
    {
      var hi, lo := Value(s[i]), Value(s[i + 1]);
      if hi.None? || lo.None? {
        return None;
      }
      out := out + [hi.value * 16 + lo.value];
      i := i + 2;
    }
    assert Decode(s).value == out;
    r := Some(out);
  }

  // ---- laws ----

  lemma DigitValue(n: nat)
    requires n < 16
    ensures Value(Digit(n)) == Some(n)
  {
  }

  lemma EncodeIsDigits(b: Bytes)
    ensures Digits(Encode(b)) && |Encode(b)| == 2 * |b|
  {
    forall i | 0 <= i < 2 * |b| ensures Value(Encode(b)[i]).Some? {
      DigitValue(if i % 2 == 0 then b[i / 2] / 16 else b[i / 2] % 16);
    }
  }

  /** Decoding undoes encoding. */
  lemma RoundTrip(b: Bytes)
    ensures Decode(Encode(b)) == Some(b)
  {
    var s := Encode(b);
    EncodeIsDigits(b);
    forall i | 0 <= i < |b| ensures Pair(s, i) == b[i] {
      assert s[2 * i] == Digit(b[i] / 16) && s[2 * i + 1] == Digit(b[i] % 16);
      DigitValue(b[i] / 16);
      DigitValue(b[i] % 16);
    }
    assert Decode(s).value == b;
  }

  lemma LowerDigit(c: Byte)
    requires Value(c).Some?
    ensures Digit(Value(c).value) == if 65 <= c <= 70 then c + 32 else c
  {
  }

  /** Encoding undoes decoding up to the case of the letters, so two texts decode to the same
      bytes exactly when they agree up to case. */
  lemma EncodeDecode(s: Bytes)
    requires Decode(s).Some?
    ensures Encode(Decode(s).value) == Lower(s)
  {
    var b := Decode(s).value;
    forall i | 0 <= i < |s| ensures Encode(b)[i] == Lower(s)[i] {
      EncodeDecodeAt(s, b, i / 2);
      assert i == 2 * (i / 2) || i == 2 * (i / 2) + 1;
    }
  }

  lemma EncodeDecodeAt(s: Bytes, b: Bytes, j: nat)
    requires Digits(s) && |s| == 2 * |b| && j < |b| && b[j] == Pair(s, j)
    ensures Encode(b)[2 * j] == Lower(s)[2 * j] && Encode(b)[2 * j + 1] == Lower(s)[2 * j + 1]
  {
    LowerDigit(s[2 * j]);
    LowerDigit(s[2 * j + 1]);
    assert b[j] / 16 == Value(s[2 * j]).value && b[j] % 16 == Value(s[2 * j + 1]).value;
  }

  lemma SameBytesIff(s: Bytes, t: Bytes)
    requires Decode(s).Some? && Decode(t).Some?
    ensures Decode(s) == Decode(t) <==> Lower(s) == Lower(t)
  {
    EncodeDecode(s);
    EncodeDecode(t);
    LowerDecodes(s);
    LowerDecodes(t);
  }

  lemma LowerDecodes(s: Bytes)
    requires Decode(s).Some?
    ensures Decode(Lower(s)) == Decode(s)
  {
    EncodeDecode(s);
    RoundTrip(Decode(s).value);
  }
}
