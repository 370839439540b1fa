/** The secret envelope codec (src/security.js): passthrough when no usable key
    is configured, otherwise `enc:v1:<iv>:<tag>:<ciphertext>` envelopes sealed
    with an AEAD cipher under a key derived from 64 bytes of key material. */
module Security {
  import opened Wrappers
  import opened Js

  newtype byte = x: int | 0 <= x < 256

  type Bytes = seq<byte>

  /** What an AEAD encryption produces. */
  datatype Sealed = Sealed(cipherText: Bytes, tag: Bytes)

  /** The foreign primitives the codec calls, as functions:
      `Buffer.from(s, 'base64')` (which skips what it cannot read and never throws),
      `buf.toString('base64')`, SHA-256, UTF-8 encoding and decoding, and
      AES-256-GCM with empty associated data: `seal(key, iv, plaintext)`, and
      `open(key, iv, tag, cipherText)`, which is `None` whenever the decipher
      throws (a tag that does not verify, an unusable IV or tag length). */
  datatype Primitives = Primitives(
    base64Decode: string -> Bytes,
    base64Encode: Bytes -> string,
    sha256: Bytes -> Bytes,
    utf8Encode: string -> Bytes,
    utf8Decode: Bytes -> string,
    seal: (Bytes, Bytes, Bytes) -> Sealed,
    open: (Bytes, Bytes, Bytes, Bytes) -> Option<Bytes>)

  /** What the codec relies on its primitives for: Base64 text has no `:` and
      decodes back to its bytes, UTF-8 round-trips, and opening what was sealed
      under the same key and IV returns the plaintext. */
  ghost predicate Sound(p: Primitives)
  {
    && (forall b :: ':' !in p.base64Encode(b))
    && (forall b :: p.base64Decode(p.base64Encode(b)) == b)
    && (forall s :: p.utf8Decode(p.utf8Encode(s)) == s)
    && (forall k, iv, m :: p.open(k, iv, p.seal(k, iv, m).tag, p.seal(k, iv, m).cipherText) == Some(m))
  }

  /** Ciphertext integrity of the AEAD, idealised: `open` accepts only a tag and
      ciphertext that `seal` produces for some plaintext under that key and IV. */
  ghost predicate Authentic(p: Primitives)
  {
    forall k, iv, t, c, m :: p.open(k, iv, t, c) == Some(m) ==> p.seal(k, iv, m) == Sealed(c, t)
  }

  /** The codec: `key` is the derived AEAD key, or `None` in passthrough mode. */
  datatype Codec = Codec(key: Option<Bytes>)

  const Prefix: string := "enc:v1"

  /** `${PREFIX}:`, the marker of an encrypted envelope. */
  const Marker: string := Prefix + ":"

  /** The length of the random IV each encryption draws. */
  const IvLength: nat := 12

  /** The number of bytes the configured key material must decode to. */
  const KeyMaterialLength: nat := 64

  /** `createSecretCodec`: key material is used only when it is a non-empty
      string whose Base64 decoding is exactly 64 bytes; the key is then its
      SHA-256 digest. Anything else leaves the codec in passthrough mode. */
  function CreateCodec(p: Primitives, keyMaterial: Option<string>): (c: Codec)
    ensures c.key.Some? <==>
      (keyMaterial.Some? && keyMaterial.value != "" && |p.base64Decode(keyMaterial.value)| == KeyMaterialLength)
    ensures c.key.Some? ==> c.key.value == p.sha256(p.base64Decode(keyMaterial.value))
  {
    match keyMaterial
    case None => Codec(None)
    case Some(s) =>
      if s == "" then Codec(None)
      else
        var parsed := p.base64Decode(s);
        if |parsed| == KeyMaterialLength then Codec(Some(p.sha256(parsed))) else Codec(None)
  }

  /** `encryptionEnabled`, which is `Boolean(key)`. */
  predicate EncryptionEnabled(c: Codec)
  {
    c.key.Some?
  }

  /** `isEncryptedPayload`: a string that starts with `enc:v1:`. */
  predicate IsEncryptedPayload(v: Value): (r: bool)
    ensures r ==> v.Str? && |v.s| >= |Marker|
  {
    v.Str? && StartsWith(v.s, Marker)
  }

  /** The bare prefix without its trailing `:` is not an envelope (it is taken as
      plaintext), and neither is any non-string value. */
  lemma MarkerNeedsColon(v: Value)
    ensures !IsEncryptedPayload(Str(Prefix))
    ensures !v.Str? ==> !IsEncryptedPayload(v)
    ensures IsEncryptedPayload(v) ==> |v.s| >= 7 && v.s[..7] == "enc:v1:"
  {
  }

  /** The envelope text for an IV, a tag and a ciphertext. */
  function Envelope(p: Primitives, iv: Bytes, sealed: Sealed): string
  {
    Prefix + ":" + p.base64Encode(iv) + ":" + p.base64Encode(sealed.tag) + ":" + p.base64Encode(sealed.cipherText)
  }

  /** `encryptSecret` with the random IV passed in: the plaintext unchanged in
      passthrough mode, otherwise the envelope of its sealed UTF-8 bytes. */
  function Encrypt(p: Primitives, c: Codec, iv: Bytes, plainText: string): (r: string)
    requires |iv| == IvLength
    ensures c.key.None? ==> r == plainText
    ensures c.key.Some? ==> StartsWith(r, Marker)
  {
    match c.key
    case None => plainText
    case Some(key) => Envelope(p, iv, p.seal(key, iv, p.utf8Encode(plainText)))
  }

  /** Why `decryptSecret` throws. */
  datatype DecryptError = MissingKey | MalformedPayload | CipherRejected

  /** `decryptSecret`: anything that is not an envelope comes back unchanged,
      whether or not a key is configured; an envelope needs a key, exactly five
      `:`-separated fields, and an AEAD open that succeeds. On every failure no
      plaintext is returned. */
  function Decrypt(p: Primitives, c: Codec, value: Value): (r: Result<Value, DecryptError>)
    ensures !IsEncryptedPayload(value) ==> r == Ok(value)
    ensures IsEncryptedPayload(value) && c.key.None? ==> r == Err(MissingKey)
    ensures IsEncryptedPayload(value) && c.key.Some? && |Split(value.s, ':')| != 5 ==> r == Err(MalformedPayload)
    ensures IsEncryptedPayload(value) && r.Ok? ==>
      && c.key.Some?
      && var parts := Split(value.s, ':');
      && |parts| == 5
      && var unsealed := p.open(c.key.value, p.base64Decode(parts[2]), p.base64Decode(parts[3]), p.base64Decode(parts[4]));
      && unsealed.Some? && r.value == Str(p.utf8Decode(unsealed.value))
  {
    if !IsEncryptedPayload(value) then Ok(value)
    else if c.key.None? then Err(MissingKey)
    else
      var parts := Split(value.s, ':');
      if |parts| != 5 then Err(MalformedPayload)
      else
        var iv := p.base64Decode(parts[2]);
        var tag := p.base64Decode(parts[3]);
        var cipherText := p.base64Decode(parts[4]);
        match p.open(c.key.value, iv, tag, cipherText)
        case None => Err(CipherRejected)
        case Some(m) => Ok(Str(p.utf8Decode(m)))
  }

  /** An envelope splits on `:` into exactly five fields: the prefix, the version,
      and the Base64 of the IV, the tag and the ciphertext, each decoding back
      to what was encrypted. */
  lemma EnvelopeFields(p: Primitives, iv: Bytes, sealed: Sealed)
    requires Sound(p)
    ensures var parts := Split(Envelope(p, iv, sealed), ':');
      && parts == ["enc", "v1", p.base64Encode(iv), p.base64Encode(sealed.tag), p.base64Encode(sealed.cipherText)]
      && p.base64Decode(parts[2]) == iv
      && p.base64Decode(parts[3]) == sealed.tag
      && p.base64Decode(parts[4]) == sealed.cipherText
  {
    var a, b, d := p.base64Encode(iv), p.base64Encode(sealed.tag), p.base64Encode(sealed.cipherText);
    assert ':' !in a && ':' !in b && ':' !in d;
    var s3 := b + [':'] + d;
    var s2 := a + [':'] + s3;
    var s1 := "v1" + [':'] + s2;
    var s0 := "enc" + [':'] + s1;
    SplitNoSeparator(d, ':');
    SplitAfterPiece(b, d, ':');
    assert Split(s3, ':') == [b, d];
    SplitAfterPiece(a, s3, ':');
    assert Split(s2, ':') == [a, b, d];
    SplitAfterPiece("v1", s2, ':');
    assert Split(s1, ':') == ["v1", a, b, d];
    SplitAfterPiece("enc", s1, ':');
    assert Split(s0, ':') == ["enc", "v1", a, b, d];
    assert Envelope(p, iv, sealed) == s0;
  }

  /** With a key, the envelope `encryptSecret` returns starts with `enc:v1:` and
      has five fields, the third of which decodes to the 12-byte IV. */
  lemma EncryptedEnvelopeShape(p: Primitives, c: Codec, iv: Bytes, plainText: string)
    requires Sound(p) && c.key.Some? && |iv| == IvLength
    ensures var parts := Split(Encrypt(p, c, iv, plainText), ':');
      && |parts| == 5 && parts[0] == "enc" && parts[1] == "v1"
      && p.base64Decode(parts[2]) == iv && |p.base64Decode(parts[2])| == 12
  {
    EnvelopeFields(p, iv, p.seal(c.key.value, iv, p.utf8Encode(plainText)));
  }

  /** Decrypting what was encrypted with the same codec gives the plaintext back.
      In passthrough mode this needs the plaintext not to look like an envelope. */
  lemma DecryptEncrypt(p: Primitives, c: Codec, iv: Bytes, plainText: string)
    requires Sound(p) && |iv| == IvLength
    requires c.key.None? ==> !StartsWith(plainText, Marker)
    ensures Decrypt(p, c, Str(Encrypt(p, c, iv, plainText))) == Ok(Str(plainText))
  {
    if c.key.Some? {
      var sealed := p.seal(c.key.value, iv, p.utf8Encode(plainText));
      EnvelopeFields(p, iv, sealed);
    }
  }

  /** With no usable key material the codec is in passthrough mode, and
      `encryptSecret` returns its input unchanged. */
  lemma PassthroughWithoutKey(p: Primitives, keyMaterial: Option<string>, iv: Bytes, plainText: string)
    requires keyMaterial.None? || keyMaterial.value == "" || |p.base64Decode(keyMaterial.value)| != KeyMaterialLength
    requires |iv| == IvLength
    ensures !EncryptionEnabled(CreateCodec(p, keyMaterial))
    ensures Encrypt(p, CreateCodec(p, keyMaterial), iv, plainText) == plainText
  {
  }

  /** In passthrough mode a plaintext that starts with `enc:v1:` is stored as it
      is but cannot be read back: `decryptSecret` raises for it. */
  lemma PassthroughPrefixedPlaintext(p: Primitives, iv: Bytes)
    requires |iv| == IvLength
    ensures var c := Codec(None); var s := "enc:v1:abc";
      && Encrypt(p, c, iv, s) == s
      && Decrypt(p, c, Str(Encrypt(p, c, iv, s))) == Err(MissingKey)
  {
    assert StartsWith("enc:v1:abc", Marker);
  }

  /** Under an authentic AEAD, an envelope decrypts only if its tag and
      ciphertext are exactly what sealing the plaintext under its IV produces:
      a tampered tag or ciphertext never yields a plaintext. */
  lemma OnlyGenuineEnvelopesDecrypt(p: Primitives, c: Codec, value: Value)
    requires Authentic(p)
    requires IsEncryptedPayload(value) && Decrypt(p, c, value).Ok?
    ensures var parts := Split(value.s, ':');
      && |parts| == 5
      && exists m :: p.seal(c.key.value, p.base64Decode(parts[2]), m)
           == Sealed(p.base64Decode(parts[4]), p.base64Decode(parts[3]))
  {
    var parts := Split(value.s, ':');
    var m := p.open(c.key.value, p.base64Decode(parts[2]), p.base64Decode(parts[3]), p.base64Decode(parts[4])).value;
    assert p.seal(c.key.value, p.base64Decode(parts[2]), m) == Sealed(p.base64Decode(parts[4]), p.base64Decode(parts[3]));
  }
}
