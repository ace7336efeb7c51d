/** The private-key file byte by byte: byte order, padding, and the order of its parts. */
module FormatLaws {
  import opened Basics
  import opened Wire
  import opened Kdf
  import opened PrivateKeys

  // ---- Big-endian numbers (RFC 4251, section 5) ---------------------------------

  /** The first byte in which they differ decides. */
  predicate Below(a: seq<byte>, b: seq<byte>) {
    |a| > 0 && |b| > 0 && (a[0] < b[0] || (a[0] == b[0] && Below(a[1..], b[1..])))
  }

  lemma BelowFour(a: seq<byte>, b: seq<byte>)
    requires |a| == 4 && |b| == 4
    ensures Below(a, b) <==>
            || a[0] < b[0]
            || (a[0] == b[0] && (|| a[1] < b[1]
                                 || (a[1] == b[1] && (a[2] < b[2] || (a[2] == b[2] && a[3] < b[3])))))
  {
    assert a[1..][1..] == a[2..] && b[1..][1..] == b[2..] && a[2..][1..] == a[3..] && b[2..][1..] == b[3..];
    assert !Below(a[3..][1..], b[3..][1..]);
    assert Below(a[3..], b[3..]) <==> a[3] < b[3];
    assert Below(a[2..], b[2..]) <==> a[2] < b[2] || (a[2] == b[2] && a[3] < b[3]);
  }

  lemma ValueOrder(a: seq<byte>, b: seq<byte>)
    requires |a| == 4 && |b| == 4
    ensures U32Value(a) < U32Value(b) <==> Below(a, b)
  {
    BelowFour(a, b);
  }

  /** Numbers compare as their encodings do byte by byte: the most significant byte comes first. */
  lemma U32Order(n: u32, m: u32)
    ensures n < m <==> Below(U32(n), U32(m))
  {
    hide U32, U32Value;
    U32RoundTrip(n);
    U32RoundTrip(m);
    ValueOrder(U32(n), U32(m));
  }

  lemma U32OfByte(b: byte)
    ensures U32(b) == [0, 0, 0, b]
  {
  }

  /** A string shorter than 256 bytes. */
  function Short(s: seq<byte>): seq<byte>
    requires |s| < 256
  {
    [0, 0, 0, |s|] + s
  }

  lemma PrefixedShort(s: seq<byte>)
    requires |s| < 256
    ensures Prefixed(s) == Short(s)
  {
    U32OfByte(|s|);
  }

  /** The padding counts 1, 2, 3. */
  lemma PaddingCounts(n: nat, i: nat)
    requires i < n <= MAX_BLOCK_SIZE
    ensures |Padding(n)| == n && Padding(n)[i] == i + 1
  {
  }

  // ---- Whole files ----------------------------------------------------------------

  lemma Names()
    ensures Ascii("none") == NONE_NAME && Ascii("bcrypt") == BCRYPT_NAME && NO_CIPHER == Cipher(Ascii("none"), 8, false)
    ensures AUTH_MAGIC == Ascii("openssh-key-v1") + [0]
  {
  }

  /** Magic, cipher name, parameters, the number one, the public part. */
  function HeaderText(name: seq<byte>, kdf: seq<byte>, options: seq<byte>, public: seq<byte>): seq<byte>
    requires |name| < 256 && |kdf| < 256 && |options| < 256 && |public| < 256
  {
    Ascii("openssh-key-v1") + [0] + Short(name) + Short(kdf) + Short(options) + [0, 0, 0, 1] + Short(public)
  }

  /** Check number twice, keypair, comment, padding. */
  ghost predicate PairText(pair: seq<byte>, check: seq<byte>, keypair: seq<byte>, comment: seq<byte>, block: nat)
    requires |comment| < 256 && block > 0
  {
    exists padding: seq<byte> ::
      && pair == check + check + keypair + Short(comment) + padding
      && |padding| < block && |pair| % block == 0
      && forall i :: 0 <= i < |padding| ==> padding[i] == i + 1
  }

  lemma PairIsText(c: Primitives, k: Keypair, comment: seq<byte>, checkint: u32, block: nat)
    requires |comment| < 256 && 0 < block <= MAX_BLOCK_SIZE
    ensures PairText(PairBytes(c, k, comment, checkint, block), U32(checkint), c.encodeKeypair(k), comment, block)
  {
    hide U32, PaddingLength, Prefixed;
    PrefixedShort(comment);
    PairLengthIs(c, k, comment, checkint, block);
    var body := PairBody(c, k, comment, checkint);
    var padding := Padding(PaddingLength(block, |body|));
    forall i | 0 <= i < |padding| ensures padding[i] == i + 1 {
      PaddingCounts(|padding|, i);
    }
    assert PairBytes(c, k, comment, checkint, block)
        == U32(checkint) + U32(checkint) + c.encodeKeypair(k) + Short(comment) + padding;
  }

  /** The header of a plain key, and of one sealed under bcrypt, byte by byte. */
  lemma HeaderIsText(c: Primitives, cipher: Cipher, kdf: Kdf, public: PublicData)
    requires |cipher.name| < 256 && |c.encodePublic(public)| < 256 && (kdf.Bcrypt? ==> |kdf.salt| < 248)
    ensures HeaderFits(c, cipher, kdf, public)
    ensures kdf.NoKdf? ==>
              HeaderBytes(c, cipher, kdf, public) == HeaderText(cipher.name, Ascii("none"), [], c.encodePublic(public))
    ensures kdf.Bcrypt? ==>
              HeaderBytes(c, cipher, kdf, public)
              == HeaderText(cipher.name, Ascii("bcrypt"), Short(kdf.salt) + U32(kdf.rounds), c.encodePublic(public))
  {
    Names();
    U32OfByte(0);
    U32OfByte(1);
    hide U32, Ascii, AUTH_MAGIC, Prefixed;
    PrefixedShort(cipher.name);
    PrefixedShort(NONE_NAME);
    PrefixedShort(BCRYPT_NAME);
    PrefixedShort(c.encodePublic(public));
    if kdf.Bcrypt? {
      PrefixedShort(kdf.salt);
      PrefixedShort(Short(kdf.salt) + U32(kdf.rounds));
    } else {
      assert Short([]) == [0, 0, 0, 0];
    }
  }

  /** A plain key's file: the header with `none` twice and no options, then the pair as one string. */
  lemma PlainFile(c: Primitives, k: PrivateKey)
    requires k.cipher == NO_CIPHER && k.kdf == NoKdf && k.keyData.Clear? && |k.comment| < 256
    requires |c.encodePublic(k.public)| < 256 && PairLength(c, k.keyData.keypair, k.comment, 8) < 256
    ensures Fits(c, k)
    ensures exists pair: seq<byte> ::
              && |pair| < 256
              && PairText(pair, U32(Checkint(c, k)), c.encodeKeypair(k.keyData.keypair), k.comment, 8)
              && KeyBytes(c, k) == HeaderText(Ascii("none"), Ascii("none"), [], c.encodePublic(k.public)) + Short(pair)
  {
    Names();
    hide U32, Ascii, AUTH_MAGIC, Prefixed, HeaderText, PairText, HeaderBytes, PaddingLength;
    HeaderIsText(c, k.cipher, k.kdf, k.public);
    var pair := PairBytes(c, k.keyData.keypair, k.comment, Checkint(c, k), 8);
    PairLengthIs(c, k.keyData.keypair, k.comment, Checkint(c, k), 8);
    PairIsText(c, k.keyData.keypair, k.comment, Checkint(c, k), 8);
    PrefixedShort(pair);
  }

  /** A sealed key's file: salt and rounds among the options, then the ciphertext as one string, then the tag. */
  lemma SealedFile(c: Primitives, k: PrivateKey)
    requires k.kdf.Bcrypt? && |k.kdf.salt| < 248 && |k.cipher.name| < 256
    requires k.keyData.Sealed? && |k.keyData.ciphertext| < 256 && |c.encodePublic(k.public)| < 256
    ensures Fits(c, k)
    ensures KeyBytes(c, k)
            == HeaderText(k.cipher.name, Ascii("bcrypt"), Short(k.kdf.salt) + U32(k.kdf.rounds),
                          c.encodePublic(k.public))
               + Short(k.keyData.ciphertext) + if k.tag.Some? then k.tag.value else []
  {
    hide U32, Ascii, AUTH_MAGIC, Prefixed, HeaderText, HeaderBytes;
    HeaderIsText(c, k.cipher, k.kdf, k.public);
    PrefixedShort(k.keyData.ciphertext);
  }

  /** A real header is read: whatever follows is left to the body. */
  lemma ReadsHeader(c: Primitives, name: seq<byte>, cipher: Cipher, salt: Option<seq<byte>>, rounds: u32,
                    public: seq<byte>, p: PublicData, rest: seq<byte>)
    requires PublicCodec(c) && CipherTable(c) && 256 <= c.limit
    requires c.cipherNamed(name) == Some(cipher) && |public| < 256 && c.decodePublic(public) == Some(p)
    requires salt.Some? ==> |salt.value| < 248
    ensures |name| < 256
    ensures salt == None ==>
              DecodeHeader(c, HeaderText(name, Ascii("none"), [], public) + rest)
              == Ok(Taken(Header(cipher, NoKdf, p), rest))
    ensures salt.Some? ==>
              DecodeHeader(c, HeaderText(name, Ascii("bcrypt"), Short(salt.value) + U32(rounds), public) + rest)
              == Ok(Taken(Header(cipher, Bcrypt(salt.value, rounds), p), rest))
  {
    hide U32, Ascii, AUTH_MAGIC, Prefixed, HeaderText, HeaderBytes, DecodeHeader, CipherTable, PublicCodec;
    TableNames(c, name, cipher);
    PublicNames(c, public, p);
    var kdf := if salt.Some? then Bcrypt(salt.value, rounds) else NoKdf;
    HeaderIsText(c, cipher, kdf, p);
    DecodeOfHeader(c, cipher, kdf, p, rest);
  }

  lemma TableNames(c: Primitives, name: seq<byte>, cipher: Cipher)
    requires CipherTable(c) && c.cipherNamed(name) == Some(cipher)
    ensures Known(c, cipher) && cipher.name == name && |name| < 256
  {
  }

  lemma PublicNames(c: Primitives, public: seq<byte>, p: PublicData)
    requires PublicCodec(c) && c.decodePublic(public) == Some(p)
    ensures c.encodePublic(p) == public
  {
  }

  // ---- Sealing ----------------------------------------------------------------------

  /** What is encrypted is the pair, padded to the cipher's own block size. */
  lemma SealedPair(c: Primitives, k: PrivateKey, cipher: Cipher, kdf: Kdf, checkint: u32, password: seq<byte>)
    requires k.keyData.Clear? && |k.comment| < 256 && 0 < cipher.blockSize <= MAX_BLOCK_SIZE
    requires EncryptWith(c, k, cipher, kdf, checkint, password).Ok?
    ensures var e := EncryptWith(c, k, cipher, kdf, checkint, password).value;
            && e.cipher == cipher && e.kdf == kdf && e.public == k.public && e.keyData.Sealed?
            && exists pair: seq<byte> ::
                 && PairText(pair, U32(checkint), c.encodeKeypair(k.keyData.keypair), k.comment, cipher.blockSize)
                 && c.encrypt(cipher, kdf, password, pair) == Some(Encrypted(e.keyData.ciphertext, e.tag))
  {
    hide U32, PairText, PairBytes;
    PairIsText(c, k.keyData.keypair, k.comment, checkint, cipher.blockSize);
  }

  /** A key is opened only if the cipher accepts the password and the two check numbers agree. */
  lemma WrongPassword(c: Primitives, k: PrivateKey, password: seq<byte>)
    requires Known(c, k.cipher) && k.cipher != NO_CIPHER && k.kdf.Bcrypt? && k.keyData.Sealed?
    ensures var plain := c.decrypt(k.cipher, k.kdf, password, Encrypted(k.keyData.ciphertext, k.tag));
            && (plain == None ==> Decrypt(c, k, password) == Err(Crypto))
            && (plain.Some? && |plain.value| >= 8 && plain.value[..4] != plain.value[4..8] ==>
                  Decrypt(c, k, password) == Err(if |plain.value| % k.cipher.blockSize == 0 then Crypto else Length))
  {
    var plain := c.decrypt(k.cipher, k.kdf, password, Encrypted(k.keyData.ciphertext, k.tag));
    if plain.Some? && |plain.value| >= 8 && plain.value[..4] != plain.value[4..8] {
      assert plain.value[4..][..4] == plain.value[4..8];
      U32OfValue(plain.value[..4]);
      U32OfValue(plain.value[4..8]);
    }
  }
}
