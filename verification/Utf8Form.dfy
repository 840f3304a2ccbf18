/**
 * What the two encodings are, apart from each other: the bytes of section 3 of RFC 3629, surrogate
 * pairs in code point order, and exactly which bytes the decoder takes for a character.
 */
module Utf8Form {
  import opened Base64
  import opened Utf8

  /** The bits a continuation byte adds to those before it. */
  function Onto(bits: int, b: Byte): int {
    bits * 0x40 + b % 0x40
  }

  predicate Continuation(b: Byte) {
    b / 0x40 == 2
  }

  /** The shortest form: lead byte, continuation bytes, and the code point in their free bits. */
  predicate Form(c: Scalar, b: seq<Byte>) {
    if c < 0x80 then b == [c]
    else if c < 0x800 then
      |b| == 2 && b[0] / 0x20 == 6 && Continuation(b[1]) && Onto(b[0] % 0x20, b[1]) == c
    else if c < 0x10000 then
      && |b| == 3 && b[0] / 0x10 == 14 && Continuation(b[1]) && Continuation(b[2])
      && Onto(Onto(b[0] % 0x10, b[1]), b[2]) == c
    else
      && |b| == 4 && b[0] / 8 == 30 && Continuation(b[1]) && Continuation(b[2]) && Continuation(b[3])
      && Onto(Onto(Onto(b[0] % 8, b[1]), b[2]), b[3]) == c
  }

  lemma FreeBits(c: int)
    requires 0 <= c < 0x40
    ensures (0x80 + c) % 0x40 == c && (0x80 + c) / 0x40 == 2
  {
  }

  lemma ScalarForm(c: Scalar)
    ensures Form(c, EncodeScalar(c))
  {
    Digits(c);
    FreeBits(c % 0x40);
    FreeBits(c / 0x40 % 0x40);
    FreeBits(c / 0x1000 % 0x40);
  }

  /** The pairs, in their order, are the code points from U+10000 on, in theirs. */
  lemma PairsInOrder(high: Unit, low: Unit)
    requires High(high) && Low(low)
    ensures Combined(0xD800, 0xDC00) == 0x10000 && Combined(0xDBFF, 0xDFFF) == 0x10FFFF
    ensures low < 0xDFFF ==> Combined(high, low + 1) == Combined(high, low) + 1
    ensures high < 0xDBFF ==> Combined(high + 1, 0xDC00) == Combined(high, 0xDFFF) + 1
  {
  }

  /** A code point outside the surrogates is itself or the one pair that combines to it. */
  lemma UnitsForm(c: Scalar)
    ensures c < 0x10000 ==> UnitsOf(c) == [c]
    ensures c >= 0x10000 ==> |UnitsOf(c)| == 2 && Pair(UnitsOf(c)) && Combined(UnitsOf(c)[0], UnitsOf(c)[1]) == c
  {
  }

  // ----- the decoder on any bytes

  /** Some character's bytes begin with these, and go on. */
  ghost predicate Begins(p: seq<Byte>) {
    exists c: Scalar :: p < EncodeScalar(c)
  }

  ghost predicate Whole(b: seq<Byte>, c: Scalar) {
    EncodeScalar(c) <= b
  }

  /** The possible second bytes after a lead byte: Table 3-7 of the Unicode Standard. */
  predicate Second(x: int, y: int) {
    if x == 0xE0 then 0xA0 <= y <= 0xBF
    else if x == 0xED then 0x80 <= y <= 0x9F
    else if x == 0xF0 then 0x90 <= y <= 0xBF
    else if x == 0xF4 then 0x80 <= y <= 0x8F
    else 0x80 <= y <= 0xBF
  }

  lemma Shape(c: Scalar)
    ensures
      var b := EncodeScalar(c);
      && (|b| == 1 ==> b[0] < 0x80)
      && (|b| == 2 ==> 0xC2 <= b[0] <= 0xDF)
      && (|b| == 3 ==> 0xE0 <= b[0] <= 0xEF)
      && (|b| == 4 ==> 0xF0 <= b[0] <= 0xF4)
      && (|b| >= 2 ==> Second(b[0], b[1]))
      && (forall i | 2 <= i < |b| :: 0x80 <= b[i] <= 0xBF)
      && |b| <= 4
  {
    Digits(c);
  }

  lemma TwoBytes(x: Byte, y: Byte) returns (c: Scalar)
    requires 0xC2 <= x <= 0xDF && 0x80 <= y <= 0xBF
    ensures EncodeScalar(c) == [x, y]
  {
    c := (x - 0xC0) * 0x40 + (y - 0x80);
  }

  lemma ThreeBytes(x: Byte, y: Byte, z: Byte) returns (c: Scalar)
    requires 0xE0 <= x <= 0xEF && Second(x, y) && 0x80 <= z <= 0xBF
    ensures EncodeScalar(c) == [x, y, z]
  {
    c := (x - 0xE0) * 0x1000 + (y - 0x80) * 0x40 + (z - 0x80);
  }

  lemma JoinedDigits(a: int, b: int, c: int, d: int)
    requires 0 <= a && 0 <= b < 0x40 && 0 <= c < 0x40 && 0 <= d < 0x40
    ensures
      var n := ((a * 0x40 + b) * 0x40 + c) * 0x40 + d;
      && n / 0x40000 == a && n / 0x1000 % 0x40 == b && n / 0x40 % 0x40 == c && n % 0x40 == d
  {
    var m := (a * 0x40 + b) * 0x40 + c;
    var n := m * 0x40 + d;
    assert n / 0x40 == m;
    assert m / 0x40 == a * 0x40 + b;
    assert n / 0x1000 == n / 0x40 / 0x40 && n / 0x40000 == n / 0x1000 / 0x40;
  }

  lemma FourBytes(x: Byte, y: Byte, z: Byte, u: Byte) returns (c: Scalar)
    requires 0xF0 <= x <= 0xF4 && Second(x, y) && 0x80 <= z <= 0xBF && 0x80 <= u <= 0xBF
    ensures EncodeScalar(c) == [x, y, z, u]
  {
    JoinedDigits(x - 0xF0, y - 0x80, z - 0x80, u - 0x80);
    c := (((x - 0xF0) * 0x40 + (y - 0x80)) * 0x40 + (z - 0x80)) * 0x40 + (u - 0x80);
  }

  /** Lead and following bytes as far as they go. */
  predicate Opens(p: seq<Byte>) {
    && |p| >= 1
    && (|p| >= 2 ==> Second(p[0], p[1]))
    && (|p| >= 3 ==> 0x80 <= p[2] <= 0xBF)
    && (if 0xC2 <= p[0] <= 0xDF then |p| == 1
        else if 0xE0 <= p[0] <= 0xEF then |p| <= 2
        else 0xF0 <= p[0] <= 0xF4 && |p| <= 3)
  }

  lemma BeginsIff(p: seq<Byte>)
    requires p != []
    ensures Begins(p) <==> Opens(p)
  {
    if c: Scalar :| p < EncodeScalar(c) {
      Shape(c);
      assert forall i | 0 <= i < |p| :: p[i] == EncodeScalar(c)[i];
    }
    if Opens(p) {
      OpensBegins(p);
    }
  }

  function SomeSecond(x: int): Byte {
    if x == 0xE0 then 0xA0 else if x == 0xF0 then 0x90 else 0x80
  }

  lemma OpensBegins(p: seq<Byte>)
    requires Opens(p)
    ensures Begins(p)
  {
    var x: Byte := p[0];
    var y: Byte := if |p| >= 2 then p[1] else SomeSecond(x);
    var z: Byte := if |p| >= 3 then p[2] else 0x80;
    var c: Scalar;
    if x <= 0xDF {
      c := TwoBytes(x, y);
    } else if x <= 0xEF {
      c := ThreeBytes(x, y, z);
    } else {
      c := FourBytes(x, y, z, 0x80);
    }
    assert p < EncodeScalar(c);
  }

  /** One step of the decoder takes a character's own bytes, if the bytes begin with any. */
  lemma StepWhole(b: seq<Byte>, c: Scalar)
    requires Whole(b, c)
    ensures Step(b) == (c, |EncodeScalar(c)|)
  {
    StepEncoded(c, b[|EncodeScalar(c)|..]);
    assert b == EncodeScalar(c) + b[|EncodeScalar(c)|..];
  }

  lemma StepTaken(b: seq<Byte>)
    requires b != []
    ensures
      var (c, n) := Step(b);
      || Whole(b, c)
      || (c == REPLACEMENT && (n == 1 || Opens(b[..n])) && (n < |b| ==> !Opens(b[..n + 1])))
  {
    var (c, n) := Step(b);
    var x: int := b[0];
    if x < 0x80 {
      assert b[..1] == EncodeScalar(c);
    } else if 0xC2 <= x <= 0xDF && n == 2 {
      var d := TwoBytes(b[0], b[1]);
      StepOf(b, d, [b[0], b[1]]);
    } else if 0xE0 <= x <= 0xEF && n == 3 {
      var d := ThreeBytes(b[0], b[1], b[2]);
      StepOf(b, d, [b[0], b[1], b[2]]);
    } else if 0xF0 <= x <= 0xF4 && n == 4 {
      var d := FourBytes(b[0], b[1], b[2], b[3]);
      StepOf(b, d, [b[0], b[1], b[2], b[3]]);
    }
  }

  lemma StepOf(b: seq<Byte>, d: Scalar, p: seq<Byte>)
    requires p <= b && EncodeScalar(d) == p
    ensures Step(b).0 == d && Whole(b, d)
  {
    StepWhole(b, d);
  }

  /** Otherwise it puts U+FFFD for the longest stretch that some character begins with, or for one
      byte that none begins with: the maximal subpart of the Unicode Standard, section 3.9. */
  lemma StepIsMaximal(b: seq<Byte>)
    requires b != []
    ensures
      var (c, n) := Step(b);
      if exists d: Scalar :: Whole(b, d) then Whole(b, c) && n == |EncodeScalar(c)|
      else
        && c == REPLACEMENT
        && (n == 1 || Begins(b[..n]))
        && (n < |b| ==> !Begins(b[..n + 1]))
  {
    var (c, n) := Step(b);
    if d: Scalar :| Whole(b, d) {
      StepWhole(b, d);
    } else {
      StepTaken(b);
      BeginsIff(b[..n]);
      if n < |b| {
        BeginsIff(b[..n + 1]);
      }
    }
  }
}
