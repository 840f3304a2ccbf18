/**
 * What base64 is, apart from the decoder: the alphabet, padding and bits of section 4 of RFC 4648,
 * and exactly which strings are encodings.
 */
module Base64Form {
  import opened Wrappers
  import opened Base64

  // ----- the letters

  const UPPER := "ABCDEFGHIJKLMNOPQRSTUVWXYZ"
  const LOWER := "abcdefghijklmnopqrstuvwxyz"
  const DIGITS := "0123456789"

  /** Table 1 of RFC 4648, section 4. */
  function Alphabet(): string {
    UPPER + LOWER + DIGITS + "+/"
  }

  lemma UpperCase(v: nat)
    requires v < 26
    ensures UPPER[v] == ('A' as int + v) as char
  {
  }

  lemma LowerCase(v: nat)
    requires v < 26
    ensures LOWER[v] == ('a' as int + v) as char
  {
  }

  lemma Digits(v: nat)
    requires v < 10
    ensures DIGITS[v] == ('0' as int + v) as char
  {
  }

  /** The encoder's letters are the alphabet, in its order. */
  lemma LetterIsAlphabet(v: Sextet)
    ensures |Alphabet()| == 64 && Letter(v) == Alphabet()[v]
  {
    if v < 26 {
      UpperCase(v);
    } else if v < 52 {
      LowerCase(v - 26);
    } else if v < 62 {
      Digits(v - 52);
    }
  }

  /** The decoder takes each letter for its place in the alphabet, and '-' and '_' for the last two. */
  lemma ValueIsPlace(c: char, v: Sextet)
    ensures |Alphabet()| == 64
    ensures ValueOf(c) == Some(v) <==> c == Alphabet()[v] || (v == 62 && c == '-') || (v == 63 && c == '_')
  {
    LetterIsAlphabet(v);
  }

  /** The letter stands for this digit. */
  predicate Stands(c: char, v: int) {
    0 <= v < 64 && Letter(v) == c
  }

  predicate InAlphabet(c: char) {
    ValueOf(c).Some? && c != '-' && c != '_'
  }

  lemma InAlphabetMeans(c: char)
    ensures InAlphabet(c) <==> c in Alphabet()
    ensures InAlphabet(c) ==> Stands(c, ValueOf(c).value)
  {
    if InAlphabet(c) {
      ValueIsPlace(c, ValueOf(c).value);
      LetterIsAlphabet(ValueOf(c).value);
    }
    if c in Alphabet() {
      LetterIsAlphabet(0);
      var v :| 0 <= v < |Alphabet()| && Alphabet()[v] == c;
      LetterIsAlphabet(v);
      ValueIsPlace(c, v);
    }
  }

  lemma LetterInAlphabet(v: Sextet)
    ensures InAlphabet(Letter(v)) && ValueOf(Letter(v)) == Some(v)
  {
  }

  // ----- what an encoding is, apart from the decoder

  function Padding(n: nat): nat {
    if n % 3 == 0 then 0 else 3 - n % 3
  }

  lemma ShortShape(b: seq<Byte>)
    requires 0 < |b| <= 3
    ensures |Encode(b)| == 4
    ensures Encode(b)[0] != '=' && Encode(b)[1] != '='
    ensures (Encode(b)[2] == '=' <==> |b| == 1) && (Encode(b)[3] == '=' <==> |b| < 3)
  {
    assert |b| == 3 ==> Encode(b[3..]) == "";
  }

  lemma EncodeSplits(b: seq<Byte>)
    requires |b| >= 3
    ensures |Encode(b[..3])| == 4 && Encode(b) == Encode(b[..3]) + Encode(b[3..])
  {
    assert b[..3][3..] == [];
  }

  /** Four letters for every three bytes begun, and '=' exactly in the last places that no byte
      reaches. */
  ghost predicate Padded(s: string, n: nat) {
    && |s| == (n + 2) / 3 * 4
    && forall i | 0 <= i < |s| :: s[i] == '=' <==> i >= |s| - Padding(n)
  }

  lemma PaddedOn(head: string, rest: string, n: nat)
    requires |head| == 4 && '=' !in head && Padded(rest, n) && n > 0
    ensures Padded(head + rest, n + 3)
  {
    var s := head + rest;
    assert |rest| >= 4 && (n + 5) / 3 == (n + 2) / 3 + 1;
    forall i | 0 <= i < |s| ensures s[i] == '=' <==> i >= |s| - Padding(n + 3) {
      if i >= 4 {
        assert s[i] == rest[i - 4];
      }
    }
  }

  lemma {:induction false} EncodingShape(b: seq<Byte>)
    ensures Padded(Encode(b), |b|)
  {
    if 0 < |b| <= 3 {
      ShortShape(b);
    } else if |b| > 3 {
      EncodingShape(b[3..]);
      EncodeSplits(b);
      ShortShape(b[..3]);
      PaddedOn(Encode(b[..3]), Encode(b[3..]), |b| - 3);
    }
  }

  /** The digit a place stands for; padding counts nothing. */
  predicate Reads(c: char, v: int) {
    if c == '=' then v == 0 else Stands(c, v)
  }

  function ByteAt(b: seq<Byte>, i: nat): Byte {
    if i < |b| then b[i] else 0
  }

  lemma FirstGroup(b: seq<Byte>)
    requires b != []
    ensures
      var x, y, z, e := ByteAt(b, 0), ByteAt(b, 1), ByteAt(b, 2), Encode(b);
      && |e| >= 4 && Reads(e[0], x / 4) && Reads(e[1], x % 4 * 16 + y / 16)
      && Reads(e[2], y % 16 * 4 + z / 64) && Reads(e[3], z % 64)
  {
  }

  lemma SameNumber(x: Byte, y: Byte, z: Byte)
    ensures ((x / 4 * 64 + (x % 4 * 16 + y / 16)) * 64 + (y % 16 * 4 + z / 64)) * 64 + z % 64 == (x * 256 + y) * 256 + z
  {
    assert x == x / 4 * 4 + x % 4 && y == y / 16 * 16 + y % 16 && z == z / 64 * 64 + z % 64;
  }

  predicate Group(e: string, i: nat, p: int, q: int, r: int, s: int) {
    && 4 * i + 3 < |e|
    && Reads(e[4 * i], p) && Reads(e[4 * i + 1], q) && Reads(e[4 * i + 2], r) && Reads(e[4 * i + 3], s)
  }

  function Number(b: seq<Byte>, i: nat): int {
    (ByteAt(b, 3 * i) * 256 + ByteAt(b, 3 * i + 1)) * 256 + ByteAt(b, 3 * i + 2)
  }

  lemma GroupOn(head: string, rest: string, i: nat, p: int, q: int, r: int, s: int)
    requires |head| == 4 && Group(rest, i, p, q, r, s)
    ensures Group(head + rest, i + 1, p, q, r, s)
  {
  }

  lemma NumberOn(b: seq<Byte>, i: nat)
    requires |b| >= 3 && i > 0
    ensures Number(b, i) == Number(b[3..], i - 1)
  {
  }

  /** Each group of four letters, read in base 64, is its three bytes, read in base 256. */
  lemma {:induction false} GroupIsNumber(b: seq<Byte>, i: nat) returns (p: int, q: int, r: int, s: int)
    requires 3 * i < |b|
    ensures Group(Encode(b), i, p, q, r, s)
    ensures ((p * 64 + q) * 64 + r) * 64 + s == Number(b, i)
  {
    if i == 0 {
      var x, y, z := ByteAt(b, 0), ByteAt(b, 1), ByteAt(b, 2);
      FirstGroup(b);
      SameNumber(x, y, z);
      p, q, r, s := x / 4, x % 4 * 16 + y / 16, y % 16 * 4 + z / 64, z % 64;
    } else {
      p, q, r, s := GroupIsNumber(b[3..], i - 1);
      EncodeSplits(b);
      GroupOn(Encode(b[..3]), Encode(b[3..]), i - 1, p, q, r, s);
      NumberOn(b, i);
    }
  }

  /** A letter whose last bits, all below this power of two, are zero. */
  predicate Spare(c: char, m: nat)
    requires m > 0
  {
    InAlphabet(c) && ValueOf(c).value % m == 0
  }

  /** Groups of four; letters of the alphabet but for up to two '=' at the end; and the bits no byte
      uses are zero. */
  predicate Canonical(s: string) {
    && |s| % 4 == 0
    && (forall i | 0 <= i < |s| - 2 :: InAlphabet(s[i]))
    && (s != "" ==> Ending(s[|s| - 3], s[|s| - 2], s[|s| - 1]))
  }

  predicate Ending(x: char, y: char, z: char) {
    || (InAlphabet(y) && InAlphabet(z))
    || (Spare(y, 4) && z == '=')
    || (Spare(x, 16) && y == '=' && z == '=')
  }

  lemma GroupBytes(p: Sextet, q: Sextet, r: Sextet, s: Sextet)
    ensures First(p, q) / 4 == p
    ensures First(p, q) % 4 * 16 + Second(q, r) / 16 == q
    ensures Second(q, r) % 16 * 4 + Third(r, s) / 64 == r
    ensures Third(r, s) % 64 == s
  {
  }

  lemma EncodeGroup(p: Sextet, q: Sextet, r: Sextet, s: Sextet, rest: seq<Byte>)
    ensures Encode([First(p, q), Second(q, r), Third(r, s)] + rest)
         == [Letter(p), Letter(q), Letter(r), Letter(s)] + Encode(rest)
  {
    var b := [First(p, q), Second(q, r), Third(r, s)] + rest;
    assert b[3..] == rest;
    GroupBytes(p, q, r, s);
  }

  lemma OnePadded(p: Sextet, q: Sextet, r: Sextet)
    requires r % 4 == 0
    ensures var s := [Letter(p), Letter(q), Letter(r), '=']; Encode(Decode(s)) == s
  {
    var s := [Letter(p), Letter(q), Letter(r), '='];
    QuadSextets(p, q, Letter(r), '=');
    SextetsOfOne(Letter(r));
    SextetsOfOne('=');
    LetterHasItsValue(r);
    assert Sextets(s) == [p, q, r];
    GroupBytes(p, q, r, 0);
  }

  lemma TwoPadded(p: Sextet, q: Sextet)
    requires q % 16 == 0
    ensures var s := [Letter(p), Letter(q), '=', '=']; Encode(Decode(s)) == s
  {
    var s := [Letter(p), Letter(q), '=', '='];
    QuadSextets(p, q, '=', '=');
    SextetsOfOne('=');
    assert Sextets(s) == [p, q];
    GroupBytes(p, q, 0, 0);
  }

  lemma FullGroup(p: Sextet, q: Sextet, r: Sextet, s: Sextet, rest: string)
    requires Encode(Decode(rest)) == rest
    ensures var t := [Letter(p), Letter(q), Letter(r), Letter(s)] + rest; Encode(Decode(t)) == t
  {
    FourSextets(p, q, r, s, rest);
    FourBytes(p, q, r, s, Sextets(rest));
    EncodeGroup(p, q, r, s, Decode(rest));
  }

  lemma FullLetters(a: char, b: char, c: char, d: char, rest: string)
    requires InAlphabet(a) && InAlphabet(b) && InAlphabet(c) && InAlphabet(d) && Encode(Decode(rest)) == rest
    ensures var t := [a, b, c, d] + rest; Encode(Decode(t)) == t
  {
    InAlphabetMeans(a);
    InAlphabetMeans(b);
    InAlphabetMeans(c);
    InAlphabetMeans(d);
    FullGroup(ValueOf(a).value, ValueOf(b).value, ValueOf(c).value, ValueOf(d).value, rest);
  }

  lemma LastLetters(a: char, b: char, c: char, d: char)
    requires InAlphabet(a) && InAlphabet(b) && Ending(b, c, d)
    ensures var t := [a, b, c, d]; Encode(Decode(t)) == t
  {
    InAlphabetMeans(a);
    InAlphabetMeans(b);
    InAlphabetMeans(c);
    if InAlphabet(c) && InAlphabet(d) {
      FullLetters(a, b, c, d, "");
      assert [a, b, c, d] == [a, b, c, d] + "";
    } else if Spare(c, 4) && d == '=' {
      OnePadded(ValueOf(a).value, ValueOf(b).value, ValueOf(c).value);
    } else {
      TwoPadded(ValueOf(a).value, ValueOf(b).value);
    }
  }

  lemma {:induction false} EncodeDecode(s: string)
    requires Canonical(s)
    ensures Encode(Decode(s)) == s
    decreases |s|
  {
    if s != "" {
      var rest := s[4..];
      assert s == [s[0], s[1], s[2], s[3]] + rest;
      if rest == "" {
        LastLetters(s[0], s[1], s[2], s[3]);
        assert s == [s[0], s[1], s[2], s[3]];
      } else {
        assert forall i | 0 <= i < |rest| :: rest[i] == s[i + 4];
        EncodeDecode(rest);
        FullLetters(s[0], s[1], s[2], s[3], rest);
      }
    }
  }

  lemma OneIsCanonical(x: Byte)
    ensures Canonical(Encode([x]))
  {
    LetterInAlphabet(x / 4);
    LetterInAlphabet(x % 4 * 16);
    assert x % 4 * 16 % 16 == 0;
  }

  lemma TwoIsCanonical(x: Byte, y: Byte)
    ensures Canonical(Encode([x, y]))
  {
    LetterInAlphabet(x / 4);
    LetterInAlphabet(x % 4 * 16 + y / 16);
    LetterInAlphabet(y % 16 * 4);
    assert y % 16 * 4 % 4 == 0;
  }

  lemma ThreeIsCanonical(x: Byte, y: Byte, z: Byte)
    ensures |Encode([x, y, z])| == 4 && forall i | 0 <= i < 4 :: InAlphabet(Encode([x, y, z])[i])
  {
    var p, q, r, s: Sextet := x / 4, x % 4 * 16 + y / 16, y % 16 * 4 + z / 64, z % 64;
    LetterInAlphabet(p);
    LetterInAlphabet(q);
    LetterInAlphabet(r);
    LetterInAlphabet(s);
    assert [x, y, z][3..] == [];
    assert Encode([x, y, z]) == [Letter(p), Letter(q), Letter(r), Letter(s)];
  }

  lemma ShortIsCanonical(b: seq<Byte>)
    requires 0 < |b| <= 3
    ensures Canonical(Encode(b))
    ensures |b| == 3 ==> |Encode(b)| == 4 && forall i | 0 <= i < 4 :: InAlphabet(Encode(b)[i])
  {
    if |b| == 1 {
      OneIsCanonical(b[0]);
      assert b == [b[0]];
    } else if |b| == 2 {
      TwoIsCanonical(b[0], b[1]);
      assert b == [b[0], b[1]];
    } else {
      ThreeIsCanonical(b[0], b[1], b[2]);
      assert b == [b[0], b[1], b[2]];
    }
  }

  lemma LongerIsCanonical(head: string, rest: string)
    requires |head| == 4 && forall i | 0 <= i < 4 :: InAlphabet(head[i])
    requires Canonical(rest) && rest != ""
    ensures Canonical(head + rest)
  {
    var s := head + rest;
    assert s[|s| - 3] == rest[|rest| - 3] && s[|s| - 2] == rest[|rest| - 2] && s[|s| - 1] == rest[|rest| - 1];
  }

  lemma {:induction false} EncodeIsCanonical(b: seq<Byte>)
    ensures Canonical(Encode(b))
  {
    if 0 < |b| <= 3 {
      ShortIsCanonical(b);
    } else if |b| > 3 {
      EncodeIsCanonical(b[3..]);
      EncodingShape(b[3..]);
      ShortIsCanonical(b[..3]);
      EncodeSplits(b);
      LongerIsCanonical(Encode(b[..3]), Encode(b[3..]));
    }
  }

  /** The encodings are exactly the canonical strings, each of one sequence of bytes. */
  lemma EncodingIffCanonical(s: string)
    ensures Canonical(s) <==> exists b :: Encode(b) == s
    ensures Canonical(s) <==> Encode(Decode(s)) == s
  {
    if Canonical(s) {
      EncodeDecode(s);
    }
    if b :| Encode(b) == s {
      EncodeIsCanonical(b);
    }
  }

  // ----- what the decoder makes of other strings

  lemma SextetsInside(s: string, c: char, t: string)
    ensures Sextets(s + [c] + t) == Sextets(s) + Sextets([c]) + Sextets(t)
  {
    SextetsAppend(s, [c]);
    SextetsAppend(s + [c], t);
  }

  /** It passes over what is neither in the alphabet nor URL-safe. */
  lemma DecodeSkips(s: string, c: char, t: string)
    requires !InAlphabet(c) && c != '-' && c != '_'
    ensures Decode(s + [c] + t) == Decode(s + t)
  {
    SextetsOfOne(c);
    SextetsInside(s, c, t);
    SextetsAppend(s, t);
    assert Sextets(s) + [] + Sextets(t) == Sextets(s + t);
  }

  /** And reads '-' as '+' and '_' as '/'. */
  lemma DecodeUrlSafe(s: string, t: string)
    ensures Decode(s + ['-'] + t) == Decode(s + ['+'] + t)
    ensures Decode(s + ['_'] + t) == Decode(s + ['/'] + t)
  {
    SextetsInside(s, '-', t);
    SextetsInside(s, '+', t);
    SextetsInside(s, '_', t);
    SextetsInside(s, '/', t);
    SextetsOfOne('-');
    SextetsOfOne('+');
    SextetsOfOne('_');
    SextetsOfOne('/');
  }
}
