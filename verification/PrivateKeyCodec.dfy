/** Private keys written to and read from byte streams, and sealed and opened in a buffer. */
module PrivateKeyCodec {
  import opened Basics
  import opened Wire
  import opened Kdf
  import opened PrivateKeys

  /** Check numbers, keypair, comment, padding; the comment's length must fit 32 bits. */
  method EncodePair(w: Writer, c: Primitives, k: Keypair, comment: seq<byte>, block: nat, checkint: u32)
    returns (ok: bool)
    requires 0 < block <= MAX_BLOCK_SIZE
    modifies w
    ensures ok <==> |comment| < U32_LIMIT
    ensures ok ==> w.bytes == old(w.bytes) + PairBytes(c, k, comment, checkint, block)
  {
    hide U32, Prefixed, PaddingLength;
    var unpadded := 8 + |c.encodeKeypair(k)| + 4 + |comment|;
    var padding := PaddingLength(block, unpadded);
    w.Write(U32(checkint));
    w.Write(U32(checkint));
    w.Write(c.encodeKeypair(k));
    ok := w.WritePrefixed(comment);
    if !ok {
      return false;
    }
    w.Write(PADDING_BYTES[..padding]);
    BodyLength(c, k, comment, checkint);
    assert w.bytes == old(w.bytes) + PairBytes(c, k, comment, checkint, block);
  }

  method EncodeHeader(w: Writer, c: Primitives, k: PrivateKey) returns (ok: bool)
    modifies w
    ensures ok <==> HeaderFits(c, k.cipher, k.kdf, k.public)
    ensures ok ==> w.bytes == old(w.bytes) + HeaderBytes(c, k.cipher, k.kdf, k.public)
  {
    hide U32, Prefixed, KdfBytes, AUTH_MAGIC;
    w.Write(AUTH_MAGIC);
    ok := w.WritePrefixed(k.cipher.name);
    if !ok {
      return false;
    }
    ok := EncodeKdf(w, k.kdf);
    if !ok {
      return false;
    }
    ok := w.WriteLength(1);
    ok := w.WritePrefixed(c.encodePublic(k.public));
    if ok {
      assert w.bytes == old(w.bytes) + HeaderBytes(c, k.cipher, k.kdf, k.public);
    }
  }

  /** Writes a whole key. The cipher of a plain key is `none`. */
  method Encode(w: Writer, c: Primitives, k: PrivateKey) returns (ok: bool)
    modifies w
    ensures ok <==> Fits(c, k)
    ensures ok ==> w.bytes == old(w.bytes) + KeyBytes(c, k)
  {
    hide U32, Prefixed, HeaderBytes, HeaderFits, PairBytes, PairLength;
    ok := EncodeHeader(w, c, k);
    if !ok {
      return false;
    }
    ghost var headed := w.bytes;
    match k.keyData {
      case Sealed(ciphertext) =>
        ok := w.WritePrefixed(ciphertext);
        if ok && k.tag.Some? {
          w.Write(k.tag.value);
        }
        if ok {
          assert w.bytes == headed + BodyBytes(c, k);
        }
      case Clear(keypair) =>
        var length := PairLength(c, keypair, k.comment, 8);
        ok := w.WriteLength(length);
        if ok {
          CommentFits(c, keypair, k.comment);
          PairLengthIs(c, keypair, k.comment, Checkint(c, k), 8);
          ok := EncodePair(w, c, keypair, k.comment, 8, Checkint(c, k));
          PrefixedIs(PairBytes(c, keypair, k.comment, Checkint(c, k), 8));
          assert w.bytes == headed + BodyBytes(c, k);
        }
    }
    if ok {
      assert w.bytes == old(w.bytes) + KeyBytes(c, k);
    }
  }

  lemma CommentFits(c: Primitives, k: Keypair, comment: seq<byte>)
    requires PairLength(c, k, comment, 8) < U32_LIMIT
    ensures |comment| < U32_LIMIT
  {
    hide PaddingLength;
  }

  lemma PrefixedIs(s: seq<byte>)
    requires |s| < U32_LIMIT
    ensures Prefixed(s) == U32(|s|) + s
  {
  }

  lemma PaddingBytesLength()
    ensures |PADDING_BYTES| == MAX_BLOCK_SIZE
  {
  }

  method DecodePairFrom(r: Reader, c: Primitives, public: PublicData, block: nat, most: nat)
    returns (result: Result<PrivateKey, Error>)
    requires most <= MAX_BLOCK_SIZE && r.limit == c.limit
    modifies r
    ensures result == DecodePair(c, old(r.rest), public, block, most)
    ensures result.Ok? ==> r.rest == []
  {
    hide TakeU32, TakePrefixed, PADDING_BYTES;
    PaddingBytesLength();
    if block == 0 || |r.rest| % block != 0 {
      return Err(Length);
    }
    var first := r.ReadU32();
    if first.Err? {
      return Err(first.error);
    }
    var second := r.ReadU32();
    if second.Err? {
      return Err(second.error);
    }
    if first.value != second.value {
      return Err(Crypto);
    }
    var pair := c.decodeKeypair(r.rest);
    if pair.None? {
      return Err(FormatEncoding);
    }
    var skipped := r.Read(pair.value.1);
    if skipped.Err? {
      return Err(skipped.error);
    }
    if c.publicOf(pair.value.0) != public {
      return Err(PublicKeyMismatch);
    }
    var comment := r.ReadPrefixed();
    if comment.Err? {
      return Err(comment.error);
    }
    var length := |r.rest|;
    assert r.rest[..length] == r.rest && PADDING_BYTES[..0] == [];
    if length > most {
      return Err(Length);
    }
    if length != 0 {
      var padding := r.Read(length);
      if padding.Err? || padding.value != PADDING_BYTES[..length] {
        return Err(FormatEncoding);
      }
    }
    return Ok(PlainKey(public, comment.value, pair.value.0, first.value));
  }

  method DecodeHeaderFrom(r: Reader, c: Primitives) returns (result: Result<Header, Error>)
    requires r.limit == c.limit
    modifies r
    ensures match DecodeHeader(c, old(r.rest))
            case Ok(t) => result == Ok(t.value) && r.rest == t.rest
            case Err(e) => result == Err(e)
  {
    hide TakeU32, TakePrefixed, DecodeKdf, AUTH_MAGIC;
    var magic := r.Read(15);
    if magic.Err? {
      return Err(magic.error);
    }
    if magic.value != AUTH_MAGIC {
      return Err(FormatEncoding);
    }
    var name := r.ReadPrefixed();
    if name.Err? {
      return Err(name.error);
    }
    var cipher := c.cipherNamed(name.value);
    if cipher.None? {
      return Err(AlgorithmUnknown);
    }
    var kdf := DecodeKdfFrom(r);
    if kdf.Err? {
      return Err(kdf.error);
    }
    var count := r.ReadLength();
    if count.Err? {
      return Err(count.error);
    }
    if count.value != 1 {
      return Err(Length);
    }
    var public := r.ReadPrefixed();
    if public.Err? {
      return Err(public.error);
    }
    var data := c.decodePublic(public.value);
    if data.None? {
      return Err(FormatEncoding);
    }
    return Ok(Header(cipher.value, kdf.value, data.value));
  }

  /** Reads a key from the front of a stream. */
  method Decode(r: Reader, c: Primitives) returns (result: Result<PrivateKey, Error>)
    requires r.limit == c.limit
    modifies r
    ensures match DecodeFront(c, old(r.rest))
            case Ok(t) => result == Ok(t.value) && r.rest == t.rest
            case Err(e) => result == Err(e)
  {
    hide DecodeHeader, TakePrefixed, DecodePair;
    var header := DecodeHeaderFrom(r, c);
    if header.Err? {
      return Err(header.error);
    }
    var h := header.value;
    if h.cipher != NO_CIPHER {
      var ciphertext := r.ReadPrefixed();
      if ciphertext.Err? {
        return Err(ciphertext.error);
      }
      if h.cipher.blockSize == 0 || |ciphertext.value| % h.cipher.blockSize != 0 {
        return Err(Crypto);
      }
      var tag: Option<seq<byte>> := None;
      if h.cipher.tagged {
        var bytes := r.Read(TAG_SIZE);
        if bytes.Err? {
          return Err(bytes.error);
        }
        tag := Some(bytes.value);
      }
      if r.rest != [] {
        return Err(TrailingData);
      }
      return Ok(PrivateKey(h.cipher, h.kdf, None, h.public, [], Sealed(ciphertext.value), tag));
    }
    if h.kdf.Bcrypt? {
      return Err(Crypto);
    }
    var pair := r.ReadPrefixed();
    if pair.Err? {
      return Err(pair.error);
    }
    var inner := new Reader(pair.value, c.limit);
    result := DecodePairFrom(inner, c, h.public, h.cipher.blockSize, MAX_BLOCK_SIZE);
  }

  /** Reads a whole file; nothing may follow the key. */
  method FromBytes(bytes: seq<byte>, c: Primitives) returns (result: Result<PrivateKey, Error>)
    ensures result == DecodeKey(c, bytes)
  {
    hide DecodeFront;
    var reader := new Reader(bytes, c.limit);
    result := Decode(reader, c);
    if result.Ok? && reader.rest != [] {
      return Err(TrailingData);
    }
  }

  /** Encodes the pair into a buffer and seals the buffer in place. */
  method SealKey(c: Primitives, k: PrivateKey, cipher: Cipher, kdf: Kdf, checkint: u32, password: seq<byte>)
    returns (r: Result<PrivateKey, Error>)
    ensures r == EncryptWith(c, k, cipher, kdf, checkint, password)
  {
    hide PairBytes;
    if k.keyData.Sealed? {
      return Err(IsEncrypted);
    }
    if cipher == NO_CIPHER || kdf.NoKdf? {
      return Err(IsDecrypted);
    }
    if !(0 < cipher.blockSize <= MAX_BLOCK_SIZE) {
      return Err(Length);
    }
    var out := new Writer();
    var ok := EncodePair(out, c, k.keyData.keypair, k.comment, cipher.blockSize, checkint);
    if !ok {
      return Err(Length);
    }
    assert out.bytes == PairBytes(c, k.keyData.keypair, k.comment, checkint, cipher.blockSize);
    var sealed := c.encrypt(cipher, kdf, password, out.bytes);
    if sealed.None? {
      return Err(Crypto);
    }
    out.bytes := sealed.value.ciphertext;
    return Ok(PrivateKey(cipher, kdf, None, k.public, [], Sealed(out.bytes), sealed.value.tag));
  }

  /** Opens a copy of the ciphertext in place and reads the pair from it. */
  method OpenKey(c: Primitives, k: PrivateKey, password: seq<byte>) returns (r: Result<PrivateKey, Error>)
    ensures r == Decrypt(c, k, password)
  {
    hide DecodePair;
    if k.cipher == NO_CIPHER || k.kdf.NoKdf? || k.keyData.Clear? {
      return Err(IsDecrypted);
    }
    var plain := c.decrypt(k.cipher, k.kdf, password, Encrypted(k.keyData.ciphertext, k.tag));
    if plain.None? {
      return Err(Crypto);
    }
    if !(0 < k.cipher.blockSize <= MAX_BLOCK_SIZE) {
      return Err(Length);
    }
    var buffer := new Reader(plain.value, c.limit);
    r := DecodePairFrom(buffer, c, k.public, k.cipher.blockSize, k.cipher.blockSize - 1);
  }
}
