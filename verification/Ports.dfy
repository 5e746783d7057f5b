/** Port numbers: decimal text of any length, clamped so that it never overflows and never wraps into
    range. */
module Ports {
  import opened Net
  import opened Texts

  newtype I64 = x: int | -0x8000_0000_0000_0000 <= x < 0x8000_0000_0000_0000

  const PLUS: Byte := 43
  const MINUS: Byte := 45
  const MAX: I64 := 0xFFFF_FFFF
  const CUTOFF: I64 := 0x4000_0000

  predicate IsDigit(c: Byte) { 48 <= c <= 57 }
  predicate Digits(s: Bytes) { forall i :: 0 <= i < |s| ==> IsDigit(s[i]) }

  /** The decimal value of a digit string. */
  function Value(s: Bytes): nat
    requires Digits(s)
  {
    if s == [] then 0 else 10 * Value(s[..|s|-1]) + (s[|s|-1] - 48)
  }

  lemma {:induction false} PrefixSmaller(s: Bytes, i: nat)
    requires Digits(s) && i <= |s|
    ensures Value(s[..i]) <= Value(s)
    decreases |s|
  {
    if i == |s| {
      assert s[..i] == s;
    } else {
      PrefixSmaller(s[..|s|-1], i);
      assert s[..|s|-1][..i] == s[..i];
    }
  }

  predicate Signed(s: Bytes) { s != [] && (s[0] == PLUS || s[0] == MINUS) }
  function Unsigned(s: Bytes): Bytes { if Signed(s) then s[1..] else s }
  predicate Negative(s: Bytes) { s != [] && s[0] == MINUS }

  function Min(a: int, b: int): int { if a <= b then a else b }

  method Scan(s: Bytes) returns (r: Option<I64>)
    ensures var k := Leading(s, IsDigit);
            if k < |s| && Value(s[..k]) <= MAX as int then r == None
            else && r.Some? && 0 <= r.value <= MAX
                 && (if Value(s[..k]) <= CUTOFF as int then r.value as int == Value(s[..k]) else r.value > CUTOFF)
  {
    ghost var k := Leading(s, IsDigit);
    var n: I64 := 0;
    for i := 0 to |s|
      invariant i <= k && 0 <= n <= MAX && Digits(s[..i]) && n as int == Value(s[..i])
    {
      if !IsDigit(s[i]) {
        return None;
      }
      PrefixSmaller(s[..k], i);
      PrefixSmaller(s[..k], i + 1);
      assert s[..k][..i] == s[..i] && s[..k][..i + 1] == s[..i + 1] && s[..i + 1][..i] == s[..i];
      if n >= CUTOFF {
        TenfoldAbove(s, i, k);
        return Some(MAX);
      }
      n := n * 10;
      var nn := n + (s[i] - 48) as I64;
      if nn < n || nn > MAX {
        return Some(MAX);
      }
      n := nn;
    }
    r := Some(n);
  }

  lemma TenfoldAbove(s: Bytes, i: nat, k: nat)
    requires i < k <= |s| && Digits(s[..k]) && Digits(s[..i]) && Value(s[..i]) >= CUTOFF as int
    ensures Value(s[..k]) > MAX as int
  {
    assert s[..k][..i + 1] == s[..i + 1] && s[..i + 1][..i] == s[..i];
    PrefixSmaller(s[..k], i + 1);
  }

  /** The digits a text starts with are too many to be a 32-bit number. */
  predicate Overflows(s: Bytes) { Value(s[..Leading(s, IsDigit)]) > MAX as int }

  /** `parse_port`. `None` leaves the text to the table of service names. */
  method ParsePort(s: Bytes) returns (r: Option<I64>)
    ensures Digits(Unsigned(s)) ==>
              var v := Value(Unsigned(s));
              r.Some? && r.value as int == if Negative(s) then -Min(v, CUTOFF as int) else Min(v, CUTOFF as int - 1)
    ensures !Digits(Unsigned(s)) ==>
              (r.None? <==> !Overflows(Unsigned(s))) && (r.Some? ==> !(0 <= r.value <= 65535))
  {
    if s == [] {
      return Some(0);
    }
    var d := if s[0] == PLUS || s[0] == MINUS then s[1..] else s;
    var neg := s[0] == MINUS;
    var scanned := Scan(d);
    if scanned.None? {
      return None;
    }
    assert d[..|d|] == d;
    var n := scanned.value;
    var v := if !neg && n >= CUTOFF then CUTOFF - 1 else if neg && n > CUTOFF then CUTOFF else n;
    r := Some(if neg then -v else v);
  }

  /** `lookup_port`: for digit strings of any length, with or without a sign, it succeeds exactly when the
      number lies between 0 and 65535, and then with that number; every other text is looked up among the
      service names, unless it starts with more digits than fit. */
  method LookupPort(s: Bytes, services: Bytes -> Option<nat>) returns (r: Option<nat>)
    ensures Digits(Unsigned(s)) ==>
              var v: int := if Negative(s) then 0 - Value(Unsigned(s)) else Value(Unsigned(s));
              if 0 <= v <= 65535 then r == Some(v) else r == None
    ensures !Digits(Unsigned(s)) ==> r == if Overflows(Unsigned(s)) then None else services(s)
  {
    var parsed := ParsePort(s);
    if parsed.Some? {
      return if 0 <= parsed.value <= 65535 then Some(parsed.value as nat) else None;
    }
    r := services(s);
  }
}
