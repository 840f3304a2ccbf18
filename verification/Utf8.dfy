/**
 * Strings are UTF-16; what is encrypted is their UTF-8. The encoder replaces a lone surrogate by
 * U+FFFD, the decoder every maximal invalid run.
 */
module Utf8 {
  import opened Base64

  type Unit = u: int | 0 <= u < 0x10000

  /** A code point that is not a surrogate. */
  type Scalar = c: int | 0 <= c < 0xD800 || 0xE000 <= c < 0x110000

  const REPLACEMENT: Scalar := 0xFFFD

  predicate High(u: Unit) { 0xD800 <= u < 0xDC00 }

  predicate Low(u: Unit) { 0xDC00 <= u < 0xE000 }

  predicate Pair(s: seq<Unit>) {
    |s| >= 2 && High(s[0]) && Low(s[1])
  }

  function Combined(high: Unit, low: Unit): Scalar
    requires High(high) && Low(low)
  {
    0x10000 + (high - 0xD800) * 0x400 + (low - 0xDC00)
  }

  function UnitsOf(c: Scalar): (s: seq<Unit>)
    ensures |s| >= 1
  {
    if c < 0x10000 then [c] else [0xD800 + (c - 0x10000) / 0x400, 0xDC00 + (c - 0x10000) % 0x400]
  }

  /** The scalars of a string, lone surrogates replaced. */
  function Scalars(s: seq<Unit>): seq<Scalar> {
    if s == [] then []
    else if Pair(s) then [Combined(s[0], s[1])] + Scalars(s[2..])
    else if High(s[0]) || Low(s[0]) then [REPLACEMENT] + Scalars(s[1..])
    else [s[0]] + Scalars(s[1..])
  }

  function EncodeScalar(c: Scalar): (b: seq<Byte>)
    ensures |b| >= 1
  {
    if c < 0x80 then [c]
    else if c < 0x800 then [0xC0 + c / 0x40, 0x80 + c % 0x40]
    else if c < 0x10000 then [0xE0 + c / 0x1000, 0x80 + c / 0x40 % 0x40, 0x80 + c % 0x40]
    else [0xF0 + c / 0x40000, 0x80 + c / 0x1000 % 0x40, 0x80 + c / 0x40 % 0x40, 0x80 + c % 0x40]
  }

  function EncodeScalars(cs: seq<Scalar>): seq<Byte> {
    if cs == [] then [] else EncodeScalar(cs[0]) + EncodeScalars(cs[1..])
  }

  function ToBytes(s: seq<Unit>): seq<Byte> {
    EncodeScalars(Scalars(s))
  }

  predicate Continues(b: seq<Byte>, i: nat, lower: int, upper: int) {
    i < |b| && lower <= b[i] <= upper
  }

  function Joined(a: int, b: int, c: int, d: int): int {
    a * 0x40000 + b * 0x1000 + c * 0x40 + d
  }

  /** One scalar off the front, and how many bytes it took; an invalid run gives the replacement. */
  function Step(b: seq<Byte>): (r: (Scalar, nat))
    requires b != []
    ensures 1 <= r.1 <= |b|
  {
    var x: int := b[0];
    if x < 0x80 then (x, 1)
    else if 0xC2 <= x <= 0xDF then
      if Continues(b, 1, 0x80, 0xBF) then (Joined(0, 0, x - 0xC0, b[1] - 0x80), 2) else (REPLACEMENT, 1)
    else if 0xE0 <= x <= 0xEF then
      var lower, upper := if x == 0xE0 then 0xA0 else 0x80, if x == 0xED then 0x9F else 0xBF;
      if !Continues(b, 1, lower, upper) then (REPLACEMENT, 1)
      else if !Continues(b, 2, 0x80, 0xBF) then (REPLACEMENT, 2)
      else (Joined(0, x - 0xE0, b[1] - 0x80, b[2] - 0x80), 3)
    else if 0xF0 <= x <= 0xF4 then
      var lower, upper := if x == 0xF0 then 0x90 else 0x80, if x == 0xF4 then 0x8F else 0xBF;
      if !Continues(b, 1, lower, upper) then (REPLACEMENT, 1)
      else if !Continues(b, 2, 0x80, 0xBF) then (REPLACEMENT, 2)
      else if !Continues(b, 3, 0x80, 0xBF) then (REPLACEMENT, 3)
      else (Joined(x - 0xF0, b[1] - 0x80, b[2] - 0x80, b[3] - 0x80), 4)
    else (REPLACEMENT, 1)
  }

  function FromBytes(b: seq<Byte>): seq<Unit> {
    if b == [] then [] else UnitsOf(Step(b).0) + FromBytes(b[Step(b).1..])
  }

  lemma StepTwo(c: Scalar, rest: seq<Byte>)
    requires 0x80 <= c < 0x800
    ensures Step(EncodeScalar(c) + rest) == (c, 2)
  {
    var b := EncodeScalar(c) + rest;
    assert b[0] == 0xC0 + c / 0x40 && b[1] == 0x80 + c % 0x40;
  }

  lemma StepThree(c: Scalar, rest: seq<Byte>)
    requires 0x800 <= c < 0x10000
    ensures Step(EncodeScalar(c) + rest) == (c, 3)
  {
    var b := EncodeScalar(c) + rest;
    Digits(c);
    assert b[0] == 0xE0 + c / 0x1000 && b[1] == 0x80 + c / 0x40 % 0x40 && b[2] == 0x80 + c % 0x40;
  }

  lemma StepFour(c: Scalar, rest: seq<Byte>)
    requires 0x10000 <= c
    ensures Step(EncodeScalar(c) + rest) == (c, 4)
  {
    var b := EncodeScalar(c) + rest;
    Digits(c);
    assert b[0] == 0xF0 + c / 0x40000 && b[1] == 0x80 + c / 0x1000 % 0x40;
    assert b[2] == 0x80 + c / 0x40 % 0x40 && b[3] == 0x80 + c % 0x40;
  }

  lemma StepEncoded(c: Scalar, rest: seq<Byte>)
    ensures Step(EncodeScalar(c) + rest) == (c, |EncodeScalar(c)|)
  {
    if c < 0x80 {
    } else if c < 0x800 {
      StepTwo(c, rest);
    } else if c < 0x10000 {
      StepThree(c, rest);
    } else {
      StepFour(c, rest);
    }
  }

  /** Base-64 digits, by peeling off one at a time. */
  lemma Digits(c: int)
    requires 0 <= c
    ensures c == c / 0x40000 * 0x40000 + c / 0x1000 % 0x40 * 0x1000 + c / 0x40 % 0x40 * 0x40 + c % 0x40
    ensures c < 0x40000 ==> c / 0x1000 % 0x40 == c / 0x1000
    ensures c < 0x1000 ==> c / 0x40 % 0x40 == c / 0x40
  {
    var d := c / 0x40;
    var e := d / 0x40;
    assert c == d * 0x40 + c % 0x40 && d == e * 0x40 + d % 0x40 && e == e / 0x40 * 0x40 + e % 0x40;
    Nested(c, 0x40);
    Nested(c, 0x1000);
  }

  lemma Nested(c: int, k: int)
    requires 0 <= c && (k == 0x40 || k == 0x1000)
    ensures c / k / 0x40 == c / (k * 0x40)
  {
  }

  function AllUnits(cs: seq<Scalar>): seq<Unit> {
    if cs == [] then [] else UnitsOf(cs[0]) + AllUnits(cs[1..])
  }

  lemma {:induction false} DecodeScalars(cs: seq<Scalar>)
    ensures FromBytes(EncodeScalars(cs)) == AllUnits(cs)
  {
    if cs != [] {
      var head, rest := EncodeScalar(cs[0]), EncodeScalars(cs[1..]);
      StepEncoded(cs[0], rest);
      assert (head + rest)[|head|..] == rest;
      DecodeScalars(cs[1..]);
    }
  }

  /** The string with every lone surrogate replaced by U+FFFD. */
  function Sanitized(s: seq<Unit>): seq<Unit> {
    if s == [] then []
    else if Pair(s) then s[..2] + Sanitized(s[2..])
    else [if High(s[0]) || Low(s[0]) then REPLACEMENT else s[0]] + Sanitized(s[1..])
  }

  lemma CombinedUnits(high: Unit, low: Unit)
    requires High(high) && Low(low)
    ensures UnitsOf(Combined(high, low)) == [high, low]
  {
  }

  lemma {:induction false} UnitsOfScalars(s: seq<Unit>)
    ensures AllUnits(Scalars(s)) == Sanitized(s)
  {
    if s == [] {
    } else if Pair(s) {
      CombinedUnits(s[0], s[1]);
      UnitsOfScalars(s[2..]);
    } else {
      UnitsOfScalars(s[1..]);
    }
  }

  /** There and back through bytes. */
  lemma {:induction false} FromToBytes(s: seq<Unit>)
    ensures FromBytes(ToBytes(s)) == Sanitized(s)
  {
    DecodeScalars(Scalars(s));
    UnitsOfScalars(s);
  }

  /** Every high surrogate is followed by a low one and every low one follows a high one. */
  ghost predicate WellFormed(s: seq<Unit>) {
    && (forall i | 0 <= i < |s| && High(s[i]) :: i + 1 < |s| && Low(s[i + 1]))
    && (forall i | 0 <= i < |s| && Low(s[i]) :: i > 0 && High(s[i - 1]))
  }

  lemma {:induction false} SanitizedIffWellFormed(s: seq<Unit>)
    ensures |Sanitized(s)| == |s|
    ensures Sanitized(s) == s <==> WellFormed(s)
  {
    if s == [] {
    } else if Pair(s) {
      SanitizedIffWellFormed(s[2..]);
      SkipsWellFormed(s, 2);
      assert s == s[..2] + s[2..];
    } else {
      SanitizedIffWellFormed(s[1..]);
      if !High(s[0]) && !Low(s[0]) {
        SkipsWellFormed(s, 1);
        assert s == [s[0]] + s[1..];
      } else {
        assert Sanitized(s)[0] == REPLACEMENT;
      }
    }
  }

  /** Well-formedness does not look past a front that ends with a whole character. */
  lemma SkipsWellFormed(s: seq<Unit>, n: nat)
    requires 1 <= n <= |s| && !High(s[n - 1])
    requires (n == 1 && !Low(s[0])) || (n == 2 && Pair(s))
    ensures WellFormed(s) <==> WellFormed(s[n..])
  {
    var t := s[n..];
    assert forall i | 0 <= i < |t| :: t[i] == s[n + i];
    if WellFormed(t) {
      forall i | 0 <= i < |s| && High(s[i]) ensures i + 1 < |s| && Low(s[i + 1]) {
        if i >= n {
          assert High(t[i - n]);
        }
      }
      forall i | 0 <= i < |s| && Low(s[i]) ensures i > 0 && High(s[i - 1]) {
        if i >= n {
          assert Low(t[i - n]);
        }
      }
    }
  }
}
