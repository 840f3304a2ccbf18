/**
 * The encryption envelope of src/encryption/encryption.service.ts: printing, parsing and the
 * two layers of authenticated encryption. The cipher is any pair that opens what it sealed;
 * nothing is claimed about secrecy.
 */
module Envelope {
  import opened Wrappers
  import opened Base64
  import opened Base64Form
  import opened Utf8

  const KEY_BYTES := 32
  const IV_BYTES := 12
  const AUTH_TAG_BYTES := 16
  const VERSION := "v1"
  const SEPARATOR := '.'
  const FIELD_COUNT := 5

  // ----- the cipher

  datatype Sealed = Sealed(ciphertext: seq<Byte>, authTag: seq<Byte>)

  /** `open` answers None when the cipher object throws: wrong key, nonce or tag, or sizes it does
      not take. */
  datatype Cipher = Cipher(
    seal: (seq<Byte>, seq<Byte>, seq<Byte>) -> Sealed,
    open: (seq<Byte>, seq<Byte>, Sealed) -> Option<seq<Byte>>)

  /** All that is assumed of it: with a key and nonce of the right size it opens what it sealed,
      and its tags have their one size. */
  ghost predicate Opens(c: Cipher, key: seq<Byte>, iv: seq<Byte>, text: seq<Byte>) {
    c.open(key, iv, c.seal(key, iv, text)) == Some(text) && |c.seal(key, iv, text).authTag| == AUTH_TAG_BYTES
  }

  ghost predicate Faithful(c: Cipher) {
    forall key, iv, text | |key| == KEY_BYTES && |iv| == IV_BYTES :: Opens(c, key, iv, text)
  }

  /** The assumption can be met, if only by a cipher that hides nothing. */
  lemma SomeCipherIsFaithful() returns (c: Cipher)
    ensures Faithful(c)
  {
    var tag: seq<Byte> := seq(AUTH_TAG_BYTES, _ => 0);
    c := Cipher((key: seq<Byte>, iv: seq<Byte>, text: seq<Byte>) => Sealed(text, tag),
                (key: seq<Byte>, iv: seq<Byte>, sealed: Sealed) => Some(sealed.ciphertext));
    forall key: seq<Byte>, iv: seq<Byte>, text: seq<Byte> ensures Opens(c, key, iv, text) {
      assert c.seal(key, iv, text) == Sealed(text, tag);
    }
  }

  // ----- join and split

  function Join(parts: seq<string>): string {
    if parts == [] then "" else if |parts| == 1 then parts[0] else parts[0] + [SEPARATOR] + Join(parts[1..])
  }

  /** Everything up to the first separator, and what follows it. */
  function Cut(s: string): (string, Option<string>) {
    if s == "" then ("", None)
    else if s[0] == SEPARATOR then ("", Some(s[1..]))
    else
      var (front, rest) := Cut(s[1..]);
      ([s[0]] + front, rest)
  }

  lemma {:induction false} CutIsShorter(s: string)
    ensures Cut(s).1.Some? ==> |Cut(s).1.value| < |s|
  {
    if s != "" && s[0] != SEPARATOR {
      CutIsShorter(s[1..]);
    }
  }

  function Split(s: string): (parts: seq<string>)
    ensures parts != []
    decreases |s|
  {
    CutIsShorter(s);
    var (front, rest) := Cut(s);
    if rest.None? then [front] else [front] + Split(rest.value)
  }

  predicate Plain(s: string) {
    SEPARATOR !in s
  }

  lemma {:induction false} CutPlain(front: string, rest: string)
    requires Plain(front)
    ensures Cut(front) == (front, None)
    ensures Cut(front + [SEPARATOR] + rest) == (front, Some(rest))
  {
    if front == "" {
      assert (front + [SEPARATOR] + rest)[1..] == rest;
    } else {
      assert SEPARATOR !in front[1..] by {
        assert forall i | 0 <= i < |front[1..]| :: front[1..][i] == front[i + 1];
      }
      CutPlain(front[1..], rest);
      assert front == [front[0]] + front[1..];
      assert (front + [SEPARATOR] + rest)[1..] == front[1..] + [SEPARATOR] + rest;
    }
  }

  /** Fields that hold no separator come back one by one. */
  lemma {:induction false} SplitJoin(parts: seq<string>)
    requires parts != [] && forall i | 0 <= i < |parts| :: Plain(parts[i])
    ensures Split(Join(parts)) == parts
  {
    if |parts| == 1 {
      CutPlain(parts[0], "");
    } else {
      CutPlain(parts[0], Join(parts[1..]));
      SplitJoin(parts[1..]);
    }
  }

  lemma {:induction false} CutJoins(s: string)
    ensures Plain(Cut(s).0)
    ensures s == Cut(s).0 + (if Cut(s).1.Some? then [SEPARATOR] + Cut(s).1.value else "")
  {
    if s != "" && s[0] != SEPARATOR {
      CutJoins(s[1..]);
      assert s == [s[0]] + s[1..];
      assert Cut(s).0 == [s[0]] + Cut(s[1..]).0;
    }
  }

  /** Splitting finds every separator: the parts hold none, and joined they are the string. */
  lemma {:induction false} JoinSplit(s: string)
    ensures Join(Split(s)) == s
    ensures forall i | 0 <= i < |Split(s)| :: Plain(Split(s)[i])
    decreases |s|
  {
    CutIsShorter(s);
    CutJoins(s);
    var (front, rest) := Cut(s);
    if rest.Some? {
      JoinSplit(rest.value);
      assert Split(s)[1..] == Split(rest.value);
    }
  }

  lemma {:induction false} EncodedIsPlain(b: seq<Byte>)
    ensures Plain(Encode(b))
  {
    EncodeIsPlain(b);
    assert ValueOf(SEPARATOR).None?;
  }

  // ----- encrypt and decrypt

  datatype Error = NotAnEnvelope | Truncated | Undecryptable | BadMasterKey

  /** The random draws of one encryption. */
  datatype Draw = Draw(dataKey: seq<Byte>, iv: seq<Byte>, wrapIv: seq<Byte>)

  predicate Sized(d: Draw) {
    |d.dataKey| == KEY_BYTES && |d.iv| == IV_BYTES && |d.wrapIv| == IV_BYTES
  }

  function Fields(c: Cipher, masterKey: seq<Byte>, d: Draw, plaintext: seq<Unit>): seq<string> {
    var text := c.seal(d.dataKey, d.iv, ToBytes(plaintext));
    var wrapped := c.seal(masterKey, d.wrapIv, d.dataKey);
    [VERSION, Encode(d.wrapIv), Encode(wrapped.ciphertext), Encode(wrapped.authTag), Encode(d.iv),
     Encode(text.ciphertext + text.authTag)]
  }

  function Encrypted(c: Cipher, masterKey: seq<Byte>, d: Draw, plaintext: seq<Unit>): string {
    Join(Fields(c, masterKey, d, plaintext))
  }

  function UnwrapDataKey(c: Cipher, masterKey: seq<Byte>, iv: seq<Byte>, wrapped: Sealed): Result<seq<Byte>, Error> {
    match c.open(masterKey, iv, wrapped)
    case Some(key) => Ok(key)
    case None => Err(Undecryptable)
  }

  function OpenPayload(c: Cipher, dataKey: seq<Byte>, iv: seq<Byte>, payload: seq<Byte>): Result<seq<Unit>, Error> {
    var boundary := |payload| - AUTH_TAG_BYTES;
    if boundary < 0 then Err(Truncated)
    else
      match c.open(dataKey, iv, Sealed(payload[..boundary], payload[boundary..]))
      case Some(text) => Ok(FromBytes(text))
      case None => Err(Undecryptable)
  }

  predicate Recognised(parts: seq<string>) {
    |parts| == FIELD_COUNT + 1 && parts[0] == VERSION
  }

  function Decrypted(c: Cipher, masterKey: seq<Byte>, envelope: string): Result<seq<Unit>, Error> {
    var parts := Split(envelope);
    if !Recognised(parts) then Err(NotAnEnvelope)
    else
      match UnwrapDataKey(c, masterKey, Decode(parts[1]), Sealed(Decode(parts[2]), Decode(parts[3])))
      case Err(e) => Err(e)
      case Ok(dataKey) => OpenPayload(c, dataKey, Decode(parts[4]), Decode(parts[5]))
  }

  /** The data key of an envelope that is recognised and was wrapped under this master key. */
  function Unwrapped(c: Cipher, masterKey: seq<Byte>, envelope: string): Option<seq<Byte>> {
    var parts := Split(envelope);
    if !Recognised(parts) then None
    else c.open(masterKey, Decode(parts[1]), Sealed(Decode(parts[2]), Decode(parts[3])))
  }

  lemma FieldsComeBack(c: Cipher, masterKey: seq<Byte>, d: Draw, plaintext: seq<Unit>)
    ensures Split(Encrypted(c, masterKey, d, plaintext)) == Fields(c, masterKey, d, plaintext)
  {
    var text := c.seal(d.dataKey, d.iv, ToBytes(plaintext));
    var wrapped := c.seal(masterKey, d.wrapIv, d.dataKey);
    EncodedIsPlain(d.wrapIv);
    EncodedIsPlain(wrapped.ciphertext);
    EncodedIsPlain(wrapped.authTag);
    EncodedIsPlain(d.iv);
    EncodedIsPlain(text.ciphertext + text.authTag);
    SplitJoin(Fields(c, masterKey, d, plaintext));
  }

  lemma JoinSix(a: string, b: string, c: string, d: string, e: string, f: string)
    ensures Join([a, b, c, d, e, f]) == a + "." + b + "." + c + "." + d + "." + e + "." + f
  {
    JoinOn(a, [b, c, d, e, f]);
    JoinOn(b, [c, d, e, f]);
    JoinOn(c, [d, e, f]);
    JoinOn(d, [e, f]);
    JoinOn(e, [f]);
    assert Join([f]) == f;
  }

  lemma JoinOn(head: string, rest: seq<string>)
    requires rest != []
    ensures Join([head] + rest) == head + "." + Join(rest)
  {
    assert ([head] + rest)[1..] == rest;
  }

  /** The serialized form: the version, the wrapping of the data key, and the payload under it with
      its tag behind it. */
  lemma EnvelopeForm(c: Cipher, masterKey: seq<Byte>, d: Draw, plaintext: seq<Unit>)
    ensures
      var wrapped := c.seal(masterKey, d.wrapIv, d.dataKey);
      var text := c.seal(d.dataKey, d.iv, ToBytes(plaintext));
      Encrypted(c, masterKey, d, plaintext)
      == "v1." + Encode(d.wrapIv) + "." + Encode(wrapped.ciphertext) + "." + Encode(wrapped.authTag)
         + "." + Encode(d.iv) + "." + Encode(text.ciphertext + text.authTag)
  {
    var f := Fields(c, masterKey, d, plaintext);
    JoinSix(f[0], f[1], f[2], f[3], f[4], f[5]);
    assert f == [f[0], f[1], f[2], f[3], f[4], f[5]];
    assert "v1" + "." == "v1.";
  }

  /** A string that decrypts, and to what: six plain fields, a data key that opens under the master
      key, and a payload of a tag at least that opens under the data key. */
  ghost predicate Opened(c: Cipher, masterKey: seq<Byte>, envelope: string, f: seq<string>, key: seq<Byte>,
                         front: seq<Byte>, tag: seq<Byte>, text: seq<Byte>) {
    && |f| == 5 && (forall i | 0 <= i < 5 :: Plain(f[i]))
    && envelope == "v1" + "." + f[0] + "." + f[1] + "." + f[2] + "." + f[3] + "." + f[4]
    && c.open(masterKey, Decode(f[0]), Sealed(Decode(f[1]), Decode(f[2]))) == Some(key)
    && Decode(f[4]) == front + tag && |tag| == 16
    && c.open(key, Decode(f[3]), Sealed(front, tag)) == Some(text)
  }

  /** Decryption answers with a text exactly for such a string, and otherwise with an error. */
  lemma DecryptedIffOpened(c: Cipher, masterKey: seq<Byte>, envelope: string)
    ensures Decrypted(c, masterKey, envelope).Ok? <==>
      exists f, key, front, tag, text :: Opened(c, masterKey, envelope, f, key, front, tag, text)
    ensures forall f, key, front, tag, text | Opened(c, masterKey, envelope, f, key, front, tag, text) ::
      Decrypted(c, masterKey, envelope) == Ok(FromBytes(text))
  {
    if Decrypted(c, masterKey, envelope).Ok? {
      DecryptedIsOpened(c, masterKey, envelope);
    }
    forall f, key, front, tag, text | Opened(c, masterKey, envelope, f, key, front, tag, text)
      ensures Decrypted(c, masterKey, envelope) == Ok(FromBytes(text))
    {
      OpenedDecrypts(c, masterKey, envelope, f, key, front, tag, text);
    }
  }

  lemma OpenedDecrypts(c: Cipher, masterKey: seq<Byte>, envelope: string, f: seq<string>, key: seq<Byte>,
                       front: seq<Byte>, tag: seq<Byte>, text: seq<Byte>)
    requires Opened(c, masterKey, envelope, f, key, front, tag, text)
    ensures Decrypted(c, masterKey, envelope) == Ok(FromBytes(text))
  {
    var parts := ["v1", f[0], f[1], f[2], f[3], f[4]];
    JoinSix("v1", f[0], f[1], f[2], f[3], f[4]);
    SplitJoin(parts);
    assert Split(envelope) == parts;
    var payload := Decode(f[4]);
    var boundary := |payload| - AUTH_TAG_BYTES;
    assert payload[..boundary] == front && payload[boundary..] == tag;
  }

  lemma DecryptedIsOpened(c: Cipher, masterKey: seq<Byte>, envelope: string)
    requires Decrypted(c, masterKey, envelope).Ok?
    ensures exists f, key, front, tag, text :: Opened(c, masterKey, envelope, f, key, front, tag, text)
  {
    var parts := Split(envelope);
    JoinSplit(envelope);
    var f := parts[1..];
    assert parts == ["v1", f[0], f[1], f[2], f[3], f[4]];
    JoinSix("v1", f[0], f[1], f[2], f[3], f[4]);
    var key := c.open(masterKey, Decode(f[0]), Sealed(Decode(f[1]), Decode(f[2]))).value;
    var payload := Decode(f[4]);
    var boundary := |payload| - AUTH_TAG_BYTES;
    var front, tag := payload[..boundary], payload[boundary..];
    var text := c.open(key, Decode(f[3]), Sealed(front, tag)).value;
    assert Opened(c, masterKey, envelope, f, key, front, tag, text);
  }

  /** Decrypting what was encrypted gives the plaintext with lone surrogates replaced, for every
      plaintext, master key and draw. */
  lemma {:induction false} DecryptEncrypt(c: Cipher, masterKey: seq<Byte>, d: Draw, plaintext: seq<Unit>)
    requires Faithful(c) && |masterKey| == KEY_BYTES && Sized(d)
    ensures Decrypted(c, masterKey, Encrypted(c, masterKey, d, plaintext)) == Ok(Sanitized(plaintext))
  {
    var text := c.seal(d.dataKey, d.iv, ToBytes(plaintext));
    var wrapped := c.seal(masterKey, d.wrapIv, d.dataKey);
    assert Opens(c, d.dataKey, d.iv, ToBytes(plaintext)) && Opens(c, masterKey, d.wrapIv, d.dataKey);
    FieldsComeBack(c, masterKey, d, plaintext);
    DecodeEncode(d.wrapIv);
    DecodeEncode(wrapped.ciphertext);
    DecodeEncode(wrapped.authTag);
    DecodeEncode(d.iv);
    var payload := text.ciphertext + text.authTag;
    DecodeEncode(payload);
    var boundary := |payload| - AUTH_TAG_BYTES;
    assert payload[..boundary] == text.ciphertext && payload[boundary..] == text.authTag;
    FromToBytes(plaintext);
  }

  /** So the round trip is exact for exactly the well-formed strings. */
  lemma RoundTripIffWellFormed(c: Cipher, masterKey: seq<Byte>, d: Draw, plaintext: seq<Unit>)
    requires Faithful(c) && |masterKey| == KEY_BYTES && Sized(d)
    ensures Decrypted(c, masterKey, Encrypted(c, masterKey, d, plaintext)) == Ok(plaintext) <==> WellFormed(plaintext)
  {
    DecryptEncrypt(c, masterKey, d, plaintext);
    SanitizedIffWellFormed(plaintext);
  }

  /** A lone high surrogate comes back as U+FFFD. */
  lemma LoneSurrogateIsLost(c: Cipher, masterKey: seq<Byte>, d: Draw)
    requires Faithful(c) && |masterKey| == KEY_BYTES && Sized(d)
    ensures Decrypted(c, masterKey, Encrypted(c, masterKey, d, [0xD800])) == Ok([REPLACEMENT])
  {
    DecryptEncrypt(c, masterKey, d, [0xD800]);
    LoneSurrogateSanitized(0xD800);
  }

  lemma LoneSurrogateSanitized(u: Unit)
    requires High(u) || Low(u)
    ensures Sanitized([u]) == [REPLACEMENT]
  {
    assert Sanitized([u][1..]) == [];
  }

  // ----- the master key

  function ReadMasterKey(encoded: string): Result<seq<Byte>, Error> {
    var key := Decode(encoded);
    if |key| != KEY_BYTES || Encode(key) != encoded then Err(BadMasterKey) else Ok(key)
  }

  /** The accepted settings are exactly the canonical encodings of 32 bytes. */
  lemma {:induction false} MasterKeyIffCanonical(encoded: string, key: seq<Byte>)
    ensures ReadMasterKey(encoded) == Ok(key) <==> |key| == KEY_BYTES && encoded == Encode(key)
  {
    DecodeEncode(key);
  }

  /** 43 letters of the alphabet, the last with no bit to spare set, and one '='. */
  predicate Written(encoded: string) {
    && |encoded| == 44 && encoded[43] == '=' && Spare(encoded[42], 4)
    && forall i | 0 <= i < 43 :: encoded[i] in Alphabet()
  }

  /** The accepted settings as one writes them. */
  lemma MasterKeyIffWritten(encoded: string)
    ensures ReadMasterKey(encoded).Ok? <==> Written(encoded)
  {
    forall c: char ensures InAlphabet(c) <==> c in Alphabet() {
      InAlphabetMeans(c);
    }
    if ReadMasterKey(encoded).Ok? {
      AcceptedIsWritten(encoded);
    }
    if Written(encoded) {
      WrittenIsAccepted(encoded);
    }
  }

  lemma AcceptedIsWritten(encoded: string)
    requires ReadMasterKey(encoded).Ok?
    ensures |encoded| == 44 && encoded[43] == '=' && Spare(encoded[42], 4)
    ensures forall i | 0 <= i < 43 :: InAlphabet(encoded[i])
  {
    EncodingShape(Decode(encoded));
    EncodeIsCanonical(Decode(encoded));
    assert |encoded| == 44 && encoded[43] == '=' && encoded[42] != '=';
    assert Ending(encoded[41], encoded[42], encoded[43]);
    assert ValueOf('=').None?;
  }

  lemma WrittenIsAccepted(encoded: string)
    requires |encoded| == 44 && encoded[43] == '=' && Spare(encoded[42], 4)
    requires forall i | 0 <= i < 43 :: InAlphabet(encoded[i])
    ensures ReadMasterKey(encoded).Ok?
  {
    assert Canonical(encoded);
    EncodeDecode(encoded);
    EncodingShape(Decode(encoded));
    assert ValueOf('=').None? && encoded[42] != '=';
    OnePaddingMeansTwoLeft(|Decode(encoded)|, encoded);
  }

  lemma OnePaddingMeansTwoLeft(n: nat, s: string)
    requires Padded(s, n) && |s| == 44 && s[43] == '=' && s[42] != '='
    ensures n == 32
  {
    assert n % 3 != 0 ==> Padding(n) == 3 - n % 3;
  }

  // ----- the service

  class EncryptionService {
    const cipher: Cipher
    const masterKey: seq<Byte>

    /** Construction fails unless the setting is accepted. */
    constructor (cipher: Cipher, encoded: string)
      requires ReadMasterKey(encoded).Ok?
      ensures this.cipher == cipher && encoded == Encode(masterKey) && |masterKey| == KEY_BYTES
    {
      this.cipher := cipher;
      masterKey := ReadMasterKey(encoded).value;
    }

    /** `dataKey` is the freshly drawn buffer; it is left zeroed. */
    method Encrypt(plaintext: seq<Unit>, dataKey: array<Byte>, iv: seq<Byte>, wrapIv: seq<Byte>)
      returns (envelope: string)
      modifies dataKey
      ensures envelope == Encrypted(cipher, masterKey, Draw(old(dataKey[..]), iv, wrapIv), plaintext)
      ensures forall i | 0 <= i < dataKey.Length :: dataKey[i] == 0
    {
      var text := cipher.seal(dataKey[..], iv, ToBytes(plaintext));
      var wrapped := cipher.seal(masterKey, wrapIv, dataKey[..]);
      Zero(dataKey);
      envelope := Join([VERSION, Encode(wrapIv), Encode(wrapped.ciphertext), Encode(wrapped.authTag), Encode(iv),
                        Encode(text.ciphertext + text.authTag)]);
    }

    /** `buffer` is the unwrapped data key, there exactly if it came to one; it is left zeroed
        whatever happens after. */
    method Decrypt(envelope: string) returns (r: Result<seq<Unit>, Error>, ghost buffer: array?<Byte>)
      ensures r == Decrypted(cipher, masterKey, envelope)
      ensures buffer != null <==> Unwrapped(cipher, masterKey, envelope).Some?
      ensures buffer != null ==> fresh(buffer) && buffer.Length == |Unwrapped(cipher, masterKey, envelope).value|
      ensures buffer != null ==> forall i | 0 <= i < buffer.Length :: buffer[i] == 0
    {
      buffer := null;
      var parts := Split(envelope);
      if |parts| != FIELD_COUNT + 1 || parts[0] != VERSION {
        return Err(NotAnEnvelope), null;
      }
      var unwrapped := UnwrapDataKey(cipher, masterKey, Decode(parts[1]), Sealed(Decode(parts[2]), Decode(parts[3])));
      if unwrapped.Err? {
        return Err(unwrapped.error), null;
      }
      var key := unwrapped.value;
      var dataKey := new Byte[|key|](i requires 0 <= i < |key| => key[i]);
      assert dataKey[..] == key;
      r := OpenPayload(cipher, dataKey[..], Decode(parts[4]), Decode(parts[5]));
      Zero(dataKey);
      buffer := dataKey;
    }

    method Zero(a: array<Byte>)
      modifies a
      ensures forall i | 0 <= i < a.Length :: a[i] == 0
    {
      forall i | 0 <= i < a.Length {
        a[i] := 0;
      }
    }
  }
}
