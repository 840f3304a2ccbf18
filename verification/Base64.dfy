/**
 * Base64 as `Buffer` writes and reads it: the encoding of section 4 of RFC 4648, and a decoder
 * that also takes the URL-safe letters and skips everything else.
 */
module Base64 {
  import opened Wrappers

  type Byte = b: int | 0 <= b < 256
  type Sextet = v: int | 0 <= v < 64

  function Letter(v: Sextet): char {
    if v < 26 then ('A' as int + v) as char
    else if v < 52 then ('a' as int + v - 26) as char
    else if v < 62 then ('0' as int + v - 52) as char
    else if v == 62 then '+' else '/'
  }

  function ValueOf(c: char): Option<Sextet> {
    if 'A' <= c <= 'Z' then Some(c as int - 'A' as int)
    else if 'a' <= c <= 'z' then Some(c as int - 'a' as int + 26)
    else if '0' <= c <= '9' then Some(c as int - '0' as int + 52)
    else if c == '+' || c == '-' then Some(62)
    else if c == '/' || c == '_' then Some(63)
    else None
  }

  function Encode(b: seq<Byte>): string {
    if |b| == 0 then ""
    else if |b| == 1 then [Letter(b[0] / 4), Letter(b[0] % 4 * 16), '=', '=']
    else if |b| == 2 then [Letter(b[0] / 4), Letter(b[0] % 4 * 16 + b[1] / 16), Letter(b[1] % 16 * 4), '=']
    else
      [Letter(b[0] / 4), Letter(b[0] % 4 * 16 + b[1] / 16), Letter(b[1] % 16 * 4 + b[2] / 64), Letter(b[2] % 64)]
      + Encode(b[3..])
  }

  function Sextets(s: string): seq<Sextet> {
    if s == "" then []
    else (if ValueOf(s[0]).Some? then [ValueOf(s[0]).value] else []) + Sextets(s[1..])
  }

  function First(p: int, q: int): Byte
    requires 0 <= p < 64 && 0 <= q < 64
  {
    p * 4 + q / 16
  }

  function Second(q: int, r: int): Byte
    requires 0 <= q < 64 && 0 <= r < 64
  {
    q % 16 * 16 + r / 4
  }

  function Third(r: int, s: int): Byte
    requires 0 <= r < 64 && 0 <= s < 64
  {
    r % 4 * 64 + s
  }

  function Bytes(v: seq<Sextet>): seq<Byte> {
    if |v| < 2 then []
    else if |v| == 2 then [First(v[0], v[1])]
    else if |v| == 3 then [First(v[0], v[1]), Second(v[1], v[2])]
    else [First(v[0], v[1]), Second(v[1], v[2]), Third(v[2], v[3])] + Bytes(v[4..])
  }

  function Decode(s: string): seq<Byte> {
    Bytes(Sextets(s))
  }

  lemma {:induction false} SextetsAppend(s: string, t: string)
    ensures Sextets(s + t) == Sextets(s) + Sextets(t)
  {
    if s == "" {
      assert s + t == t;
    } else {
      SextetsAppend(s[1..], t);
      assert (s + t)[1..] == s[1..] + t;
    }
  }

  lemma LetterHasItsValue(v: Sextet)
    ensures ValueOf(Letter(v)) == Some(v)
  {
  }

  lemma SextetsOfOne(c: char)
    ensures Sextets([c]) == if ValueOf(c).Some? then [ValueOf(c).value] else []
  {
    assert [c][1..] == "";
  }

  lemma SextetsOfFour(a: char, b: char, c: char, d: char)
    ensures Sextets([a, b, c, d]) == Sextets([a]) + Sextets([b]) + Sextets([c]) + Sextets([d])
  {
    assert [a, b, c, d] == [a] + ([b] + ([c] + [d]));
    SextetsAppend([a], [b] + ([c] + [d]));
    SextetsAppend([b], [c] + [d]);
    SextetsAppend([c], [d]);
  }

  lemma QuadSextets(a: Sextet, b: Sextet, c: char, d: char)
    ensures Sextets([Letter(a), Letter(b), c, d]) == [a, b] + Sextets([c]) + Sextets([d])
  {
    SextetsOfFour(Letter(a), Letter(b), c, d);
    SextetsOfOne(Letter(a));
    SextetsOfOne(Letter(b));
    LetterHasItsValue(a);
    LetterHasItsValue(b);
  }

  lemma {:induction false} FourSextets(p: Sextet, q: Sextet, r: Sextet, s: Sextet, rest: string)
    ensures Sextets([Letter(p), Letter(q), Letter(r), Letter(s)] + rest) == [p, q, r, s] + Sextets(rest)
  {
    QuadSextets(p, q, Letter(r), Letter(s));
    SextetsOfOne(Letter(r));
    SextetsOfOne(Letter(s));
    LetterHasItsValue(r);
    LetterHasItsValue(s);
    SextetsAppend([Letter(p), Letter(q), Letter(r), Letter(s)], rest);
  }

  lemma {:induction false} FourBytes(p: Sextet, q: Sextet, r: Sextet, s: Sextet, rest: seq<Sextet>)
    ensures Bytes([p, q, r, s] + rest) == [First(p, q), Second(q, r), Third(r, s)] + Bytes(rest)
  {
    assert ([p, q, r, s] + rest)[4..] == rest;
  }

  lemma TripleBytes(x: Byte, y: Byte, z: Byte)
    ensures
      var p, q, r, s := x / 4, x % 4 * 16 + y / 16, y % 16 * 4 + z / 64, z % 64;
      First(p, q) == x && Second(q, r) == y && Third(r, s) == z
  {
  }

  lemma DecodeOne(x: Byte)
    ensures Decode(Encode([x])) == [x]
  {
    var p, q := x / 4, x % 4 * 16;
    QuadSextets(p, q, '=', '=');
    SextetsOfOne('=');
    assert Sextets(Encode([x])) == [p, q];
    TripleBytes(x, 0, 0);
  }

  lemma DecodeTwo(x: Byte, y: Byte)
    ensures Decode(Encode([x, y])) == [x, y]
  {
    var p, q, r := x / 4, x % 4 * 16 + y / 16, y % 16 * 4;
    QuadSextets(p, q, Letter(r), '=');
    SextetsOfOne(Letter(r));
    SextetsOfOne('=');
    LetterHasItsValue(r);
    assert Sextets(Encode([x, y])) == [p, q, r];
    TripleBytes(x, y, 0);
  }

  lemma {:induction false} DecodeTriple(x: Byte, y: Byte, z: Byte, rest: seq<Byte>)
    requires Decode(Encode(rest)) == rest
    ensures Decode(Encode([x, y, z] + rest)) == [x, y, z] + rest
  {
    var p, q, r, s := x / 4, x % 4 * 16 + y / 16, y % 16 * 4 + z / 64, z % 64;
    var b := [x, y, z] + rest;
    assert b[3..] == rest;
    assert Encode(b) == [Letter(p), Letter(q), Letter(r), Letter(s)] + Encode(rest);
    FourSextets(p, q, r, s, Encode(rest));
    FourBytes(p, q, r, s, Sextets(Encode(rest)));
    TripleBytes(x, y, z);
  }

  /** Reading back what was written, padding and all. */
  lemma {:induction false} DecodeEncode(b: seq<Byte>)
    ensures Decode(Encode(b)) == b
  {
    if |b| == 0 {
    } else if |b| == 1 {
      DecodeOne(b[0]);
      assert b == [b[0]];
    } else if |b| == 2 {
      DecodeTwo(b[0], b[1]);
      assert b == [b[0], b[1]];
    } else {
      DecodeEncode(b[3..]);
      DecodeTriple(b[0], b[1], b[2], b[3..]);
      assert b == [b[0], b[1], b[2]] + b[3..];
    }
  }

  /** The encoder emits its sixty-four letters and '=', so never a '.'. */
  lemma {:induction false} EncodeIsPlain(b: seq<Byte>)
    ensures forall i | 0 <= i < |Encode(b)| :: ValueOf(Encode(b)[i]).Some? || Encode(b)[i] == '='
  {
    if |b| >= 3 {
      EncodeIsPlain(b[3..]);
    }
  }
}
