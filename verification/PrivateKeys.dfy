/** The OpenSSH private-key format: encoding, decoding, encryption and decryption of one key. */
module PrivateKeys {
  import opened Basics
  import opened Wire
  import opened Kdf

  const AUTH_MAGIC: seq<byte> := [111, 112, 101, 110, 115, 115, 104, 45, 107, 101, 121, 45, 118, 49, 0]
  const PADDING_BYTES: seq<byte> := [1, 2, 3, 4, 5, 6, 7, 8, 9, 10, 11, 12, 13, 14, 15, 16]
  const MAX_BLOCK_SIZE := 16
  const TAG_SIZE := 16

  /** A cipher of the ssh-cipher crate: its name, block size, and whether it authenticates. */
  datatype Cipher = Cipher(name: seq<byte>, blockSize: nat, tagged: bool)

  /** The cipher `none` pads to eight bytes. */
  const NO_CIPHER := Cipher(NONE_NAME, 8, false)

  /** Key material of the algorithms, opaque here. */
  datatype PublicData = PublicData(material: seq<byte>)

  datatype Keypair = Keypair(material: seq<byte>)

  datatype KeyData = Clear(keypair: Keypair) | Sealed(ciphertext: seq<byte>)

  datatype PrivateKey =
      PrivateKey(cipher: Cipher, kdf: Kdf, checkint: Option<u32>, public: PublicData, comment: seq<byte>,
                                   keyData: KeyData, tag: Option<seq<byte>>)

  datatype Encrypted = Encrypted(ciphertext: seq<byte>, tag: Option<seq<byte>>)

  /** Codecs and primitives this module only calls. `limit` is the largest length the reader accepts. */
  datatype Primitives = Primitives(
    encodePublic: PublicData -> seq<byte>,
    decodePublic: seq<byte> -> Option<PublicData>,
    encodeKeypair: Keypair -> seq<byte>,
    decodeKeypair: seq<byte> -> Option<(Keypair, nat)>,
    publicOf: Keypair -> PublicData,
    checkintOf: Keypair -> u32,
    cipherNamed: seq<byte> -> Option<Cipher>,
    encrypt: (Cipher, Kdf, seq<byte>, seq<byte>) -> Option<Encrypted>,
    decrypt: (Cipher, Kdf, seq<byte>, Encrypted) -> Option<seq<byte>>,
    limit: nat)

  /** The keypair codec delimits itself, and reads only what it would write. */
  ghost predicate KeypairCodec(c: Primitives) {
    && (forall k, rest :: c.decodeKeypair(c.encodeKeypair(k) + rest) == Some((k, |c.encodeKeypair(k)|)))
    && forall s :: c.decodeKeypair(s).Some? ==>
        c.decodeKeypair(s).value.1 <= |s|
            && s[..c.decodeKeypair(s).value.1] == c.encodeKeypair(c.decodeKeypair(s).value.0)
  }

  ghost predicate PublicCodec(c: Primitives) {
    && (forall p :: c.decodePublic(c.encodePublic(p)) == Some(p))
    && forall s :: c.decodePublic(s).Some? ==> c.encodePublic(c.decodePublic(s).value) == s
  }

  /** Names and ciphers correspond; block sizes fit the padding. */
  ghost predicate CipherTable(c: Primitives) {
    && c.cipherNamed(NONE_NAME) == Some(NO_CIPHER)
    && forall s :: c.cipherNamed(s).Some? ==> Known(c, c.cipherNamed(s).value) && c.cipherNamed(s).value.name == s
  }

  predicate Known(c: Primitives, cipher: Cipher) {
    c.cipherNamed(cipher.name) == Some(cipher) && 0 < cipher.blockSize <= MAX_BLOCK_SIZE && |cipher.name| < 256
  }

  /** Encryption keeps the length, tags exactly when the cipher does, and is undone by the same password. */
  ghost predicate CipherWorks(c: Primitives) {
    forall cipher, kdf, password, plain :: c.encrypt(cipher, kdf, password, plain).Some? ==>
      var e := c.encrypt(cipher, kdf, password, plain).value;
      && |e.ciphertext| == |plain| && e.tag.Some? == cipher.tagged && (e.tag.Some? ==> |e.tag.value| == TAG_SIZE)
      && c.decrypt(cipher, kdf, password, e) == Some(plain)
  }

  // ---- Padding -------------------------------------------------------------

  function PaddingLength(block: nat, n: nat): (p: nat)
    requires block > 0
    ensures p < block && (n + p) % block == 0
  {
    PadsToBlock(block, n);
    if n % block == 0 then 0 else block - n % block
  }

  lemma PadsToBlock(block: nat, n: nat)
    requires block > 0
    ensures (n + if n % block == 0 then 0 else block - n % block) % block == 0
  {
    var q, r := n / block, n % block;
    if r != 0 {
      assert n + (block - r) == (q + 1) * block + 0;
      Euclid(n + (block - r), block, q + 1, 0);
    }
  }

  lemma ProductSign(d: int, block: nat)
    requires block > 0
    ensures d >= 1 ==> d * block >= block
    ensures d <= -1 ==> d * block + block <= 0
  {
    if d >= 1 {
      assert (d - 1) * block >= 0;
    } else if d <= -1 {
      assert (-1 - d) * block >= 0;
    }
  }

  lemma Euclid(n: nat, block: nat, q: nat, r: nat)
    requires block > 0 && n == q * block + r && r < block
    ensures n / block == q && n % block == r
  {
    var d := n / block - q;
    ProductSign(d, block);
    assert n == n / block * block + n % block;
    assert d * block == n / block * block - q * block == r - n % block;
  }

  /** The shortest padding is the only one below a block. */
  lemma PaddingIsUnique(block: nat, n: nat, p: nat)
    requires block > 0 && p < block && (n + p) % block == 0
    ensures p == PaddingLength(block, n)
  {
    hide PaddingLength;
    var s, t := n + p, n + PaddingLength(block, n);
    var d := s / block - t / block;
    assert s == s / block * block + s % block && t == t / block * block + t % block;
    ProductSign(d, block);
    assert d * block == s / block * block - t / block * block == p - PaddingLength(block, n);
  }

  function Padding(n: nat): seq<byte>
    requires n <= MAX_BLOCK_SIZE
  {
    PADDING_BYTES[..n]
  }

  // ---- Encoding ------------------------------------------------------------

  /** Both check numbers, the keypair and the comment. */
  function PairBody(c: Primitives, k: Keypair, comment: seq<byte>, checkint: u32): seq<byte>
    requires |comment| < U32_LIMIT
  {
    U32(checkint) + U32(checkint) + c.encodeKeypair(k) + Prefixed(comment)
  }

  function PairBytes(c: Primitives, k: Keypair, comment: seq<byte>, checkint: u32, block: nat): seq<byte>
    requires |comment| < U32_LIMIT && 0 < block <= MAX_BLOCK_SIZE
  {
    var body := PairBody(c, k, comment, checkint);
    body + Padding(PaddingLength(block, |body|))
  }

  function PairLength(c: Primitives, k: Keypair, comment: seq<byte>, block: nat): nat
    requires block > 0
  {
    var unpadded := 8 + |c.encodeKeypair(k)| + 4 + |comment|;
    unpadded + PaddingLength(block, unpadded)
  }

  lemma PairLengthIs(c: Primitives, k: Keypair, comment: seq<byte>, checkint: u32, block: nat)
    requires |comment| < U32_LIMIT && 0 < block <= MAX_BLOCK_SIZE
    ensures |PairBytes(c, k, comment, checkint, block)| == PairLength(c, k, comment, block)
    ensures |PairBytes(c, k, comment, checkint, block)| % block == 0
  {
    hide PaddingLength;
    BodyLength(c, k, comment, checkint);
  }

  lemma BodyLength(c: Primitives, k: Keypair, comment: seq<byte>, checkint: u32)
    requires |comment| < U32_LIMIT
    ensures |PairBody(c, k, comment, checkint)| == 8 + |c.encodeKeypair(k)| + 4 + |comment|
  {
  }

  /** The check number written for a key that has none. */
  function Checkint(c: Primitives, k: PrivateKey): u32
    requires k.keyData.Clear?
  {
    if k.checkint.Some? then k.checkint.value else c.checkintOf(k.keyData.keypair)
  }

  /** The last part of the file: the ciphertext and tag, or the padded pair. */
  predicate BodyFits(c: Primitives, k: PrivateKey) {
    match k.keyData
    case Sealed(ciphertext) => |ciphertext| < U32_LIMIT
    case Clear(keypair) => PairLength(c, keypair, k.comment, 8) < U32_LIMIT
  }

  function BodyBytes(c: Primitives, k: PrivateKey): seq<byte>
    requires BodyFits(c, k)
  {
    match k.keyData
    case Sealed(ciphertext) => Prefixed(ciphertext) + if k.tag.Some? then k.tag.value else []
    case Clear(keypair) =>
      PairLengthIs(c, keypair, k.comment, Checkint(c, k), 8);
      Prefixed(PairBytes(c, keypair, k.comment, Checkint(c, k), 8))
  }

  /** The parts before the key itself: magic, cipher, parameters, one key, its public part. */
  predicate HeaderFits(c: Primitives, cipher: Cipher, kdf: Kdf, public: PublicData) {
    |cipher.name| < U32_LIMIT && KdfFits(kdf) && |c.encodePublic(public)| < U32_LIMIT
  }

  function HeaderBytes(c: Primitives, cipher: Cipher, kdf: Kdf, public: PublicData): seq<byte>
    requires HeaderFits(c, cipher, kdf, public)
  {
    AUTH_MAGIC + Prefixed(cipher.name) + KdfBytes(kdf) + U32(1) + Prefixed(c.encodePublic(public))
  }

  predicate Fits(c: Primitives, k: PrivateKey) {
    HeaderFits(c, k.cipher, k.kdf, k.public) && BodyFits(c, k)
  }

  function KeyBytes(c: Primitives, k: PrivateKey): seq<byte>
    requires Fits(c, k)
  {
    HeaderBytes(c, k.cipher, k.kdf, k.public) + BodyBytes(c, k)
  }

  function EncodedLength(c: Primitives, k: PrivateKey): nat {
    var body := match k.keyData
      case Sealed(ciphertext) => 4 + |ciphertext|
      case Clear(keypair) => 4 + PairLength(c, keypair, k.comment, 8);
    15 + (4 + |k.cipher.name|) + KdfLength(k.kdf) + 4 + (4 + |c.encodePublic(k.public)|) + body
    + if k.tag.Some? then |k.tag.value| else 0
  }

  /** The announced length is the number of bytes written, except for a plain key that carries a tag. */
  lemma EncodedLengthIs(c: Primitives, k: PrivateKey)
    requires Fits(c, k)
    ensures |KeyBytes(c, k)| == EncodedLength(c, k) <==> !(k.keyData.Clear? && k.tag.Some? && |k.tag.value| > 0)
  {
    hide KdfBytes, KdfLength, PairBytes, U32, PaddingLength;
    KdfLengthIs(k.kdf);
    if k.keyData.Clear? {
      PairLengthIs(c, k.keyData.keypair, k.comment, Checkint(c, k), 8);
    }
  }

  // ---- Decoding ------------------------------------------------------------

  /** What a decoded plain pair becomes. */
  function PlainKey(public: PublicData, comment: seq<byte>, keypair: Keypair, checkint: u32): PrivateKey {
    PrivateKey(NO_CIPHER, NoKdf, Some(checkint), public, comment, Clear(keypair), None)
  }

  /** Up to `most` bytes of the padding sequence and nothing else. */
  function CheckPadding(rest: seq<byte>, most: nat): Result<(), Error>
    requires most <= MAX_BLOCK_SIZE
  {
    if |rest| > most then Err(Length)
    else if rest != Padding(|rest|) then Err(FormatEncoding)
    else Ok(())
  }

  function DecodePair(c: Primitives, s: seq<byte>, public: PublicData, block: nat, most: nat): Result<PrivateKey, Error>
    requires most <= MAX_BLOCK_SIZE
  {
    if block == 0 || |s| % block != 0 then Err(Length)
    else
      match TakeU32(s)
      case Err(e) => Err(e)
      case Ok(first) =>
        match TakeU32(first.rest)
        case Err(e) => Err(e)
        case Ok(second) =>
          if first.value != second.value then Err(Crypto) else DecodeKeypair(c, second.rest, public, first.value, most)
  }

  function DecodeKeypair(c: Primitives, s: seq<byte>, public: PublicData, checkint: u32, most: nat)
    : Result<PrivateKey, Error>
    requires most <= MAX_BLOCK_SIZE
  {
    match c.decodeKeypair(s)
    case None => Err(FormatEncoding)
    case Some(pair) =>
      match Take(s, pair.1)
      case Err(e) => Err(e)
      case Ok(t) =>
        if c.publicOf(pair.0) != public then Err(PublicKeyMismatch)
        else
          match TakePrefixed(t.rest, c.limit)
          case Err(e) => Err(e)
          case Ok(comment) =>
            match CheckPadding(comment.rest, most)
            case Err(e) => Err(e)
            case Ok(_) => Ok(PlainKey(public, comment.value, pair.0, checkint))
  }

  datatype Header = Header(cipher: Cipher, kdf: Kdf, public: PublicData)

  function DecodeHeader(c: Primitives, s: seq<byte>): Result<Taken<Header>, Error> {
    match Take(s, 15)
    case Err(e) => Err(e)
    case Ok(magic) =>
      if magic.value != AUTH_MAGIC then Err(FormatEncoding)
      else
        match TakePrefixed(magic.rest, c.limit)
        case Err(e) => Err(e)
        case Ok(name) =>
          match c.cipherNamed(name.value)
          case None => Err(AlgorithmUnknown)
          case Some(cipher) =>
            match DecodeKdf(name.rest, c.limit)
            case Err(e) => Err(e)
            case Ok(kdf) => DecodePublic(c, cipher, kdf.value, kdf.rest)
  }

  function DecodePublic(c: Primitives, cipher: Cipher, kdf: Kdf, s: seq<byte>): Result<Taken<Header>, Error> {
    match TakeLength(s, c.limit)
    case Err(e) => Err(e)
    case Ok(count) =>
      if count.value != 1 then Err(Length)
      else
        match TakePrefixed(count.rest, c.limit)
        case Err(e) => Err(e)
        case Ok(public) =>
          match c.decodePublic(public.value)
          case None => Err(FormatEncoding)
          case Some(p) => Ok(Taken(Header(cipher, kdf, p), public.rest))
  }

  function DecodeSealed(c: Primitives, h: Header, s: seq<byte>): Result<PrivateKey, Error> {
    match TakePrefixed(s, c.limit)
    case Err(e) => Err(e)
    case Ok(ciphertext) =>
      if h.cipher.blockSize == 0 || |ciphertext.value| % h.cipher.blockSize != 0 then Err(Crypto)
      else
        match Take(ciphertext.rest, if h.cipher.tagged then TAG_SIZE else 0)
        case Err(e) => Err(e)
        case Ok(tag) =>
          if tag.rest != [] then Err(TrailingData)
          else Ok(PrivateKey(h.cipher, h.kdf, None, h.public, [], Sealed(ciphertext.value),
                             if h.cipher.tagged then Some(tag.value) else None))
  }

  function DecodePlain(c: Primitives, h: Header, s: seq<byte>): Result<Taken<PrivateKey>, Error> {
    if h.kdf.Bcrypt? then Err(Crypto)
    else
      match TakePrefixed(s, c.limit)
      case Err(e) => Err(e)
      case Ok(pair) =>
        match DecodePair(c, pair.value, h.public, h.cipher.blockSize, MAX_BLOCK_SIZE)
        case Err(e) => Err(e)
        case Ok(k) => Ok(Taken(k, pair.rest))
  }

  /** A key at the front of a stream; a sealed one must be all there is. */
  function DecodeFront(c: Primitives, s: seq<byte>): Result<Taken<PrivateKey>, Error> {
    match DecodeHeader(c, s)
    case Err(e) => Err(e)
    case Ok(h) =>
      if h.value.cipher != NO_CIPHER then
        match DecodeSealed(c, h.value, h.rest)
        case Err(e) => Err(e)
        case Ok(k) => Ok(Taken(k, []))
      else DecodePlain(c, h.value, h.rest)
  }

  function Finish(r: Result<Taken<PrivateKey>, Error>): Result<PrivateKey, Error> {
    match r
    case Err(e) => Err(e)
    case Ok(t) => if t.rest == [] then Ok(t.value) else Err(TrailingData)
  }

  /** A whole file: nothing may follow the key. */
  function DecodeKey(c: Primitives, s: seq<byte>): Result<PrivateKey, Error> {
    Finish(DecodeFront(c, s))
  }

  // ---- Decoding what was encoded ---------------------------------------------

  lemma CheckPaddingOf(n: nat, most: nat)
    requires n <= MAX_BLOCK_SIZE && most <= MAX_BLOCK_SIZE
    ensures |Padding(n)| == n
    ensures CheckPadding(Padding(n), most).Ok? <==> n <= most
  {
  }

  /** A well-formed pair with padding bytes up to the allowed number is read back. */
  lemma DecodeOfPair(c: Primitives, k: Keypair, comment: seq<byte>, checkint: u32, n: nat, block: nat, most: nat)
    requires KeypairCodec(c) && |comment| <= c.limit && |comment| < U32_LIMIT && n <= most <= MAX_BLOCK_SIZE
             && block > 0
    requires |PairBody(c, k, comment, checkint) + Padding(n)| % block == 0
    ensures DecodePair(c, PairBody(c, k, comment, checkint) + Padding(n), c.publicOf(k), block, most)
            == Ok(PlainKey(c.publicOf(k), comment, k, checkint))
  {
    hide Padding, U32, Prefixed, TakeU32, TakePrefixed, CheckPadding, DecodeKeypair, KeypairCodec;
    var s := PairBody(c, k, comment, checkint) + Padding(n);
    var tail := Prefixed(comment) + Padding(n);
    var pair := c.encodeKeypair(k) + tail;
    PairParts(c, k, comment, checkint, Padding(n));
    TakeU32Of(checkint, U32(checkint) + pair);
    TakeU32Of(checkint, pair);
    DecodeOfKeypair(c, k, comment, checkint, n, most);
  }

  lemma PairParts(c: Primitives, k: Keypair, comment: seq<byte>, checkint: u32, padding: seq<byte>)
    requires |comment| < U32_LIMIT
    ensures PairBody(c, k, comment, checkint) + padding
            == U32(checkint) + (U32(checkint) + (c.encodeKeypair(k) + (Prefixed(comment) + padding)))
  {
    hide U32, Prefixed;
  }

  lemma DecodeOfKeypair(c: Primitives, k: Keypair, comment: seq<byte>, checkint: u32, n: nat, most: nat)
    requires KeypairCodec(c) && |comment| <= c.limit && |comment| < U32_LIMIT && n <= most <= MAX_BLOCK_SIZE
    ensures DecodeKeypair(c, c.encodeKeypair(k) + (Prefixed(comment) + Padding(n)), c.publicOf(k), checkint, most)
            == Ok(PlainKey(c.publicOf(k), comment, k, checkint))
  {
    hide Padding, U32, Prefixed, TakePrefixed, Take, CheckPadding;
    var tail := Prefixed(comment) + Padding(n);
    assert c.decodeKeypair(c.encodeKeypair(k) + tail) == Some((k, |c.encodeKeypair(k)|));
    TakeOf(c.encodeKeypair(k), tail);
    TakePrefixedOf(comment, Padding(n), c.limit);
    CheckPaddingOf(n, most);
  }

  lemma DecodeOfHeader(c: Primitives, cipher: Cipher, kdf: Kdf, public: PublicData, rest: seq<byte>)
    requires PublicCodec(c) && Known(c, cipher) && HeaderFits(c, cipher, kdf, public) && 256 <= c.limit
    requires KdfReadable(kdf, c.limit) && |c.encodePublic(public)| <= c.limit
    ensures DecodeHeader(c, HeaderBytes(c, cipher, kdf, public) + rest) == Ok(Taken(Header(cipher, kdf, public), rest))
  {
    hide U32, Prefixed, Take, TakeU32, TakePrefixed, DecodeKdf, KdfBytes, AUTH_MAGIC, DecodePublic, PublicCodec;
    var key := U32(1) + (Prefixed(c.encodePublic(public)) + rest);
    HeaderParts(c, cipher, kdf, public, rest);
    MagicLength();
    TakeOf(AUTH_MAGIC, Prefixed(cipher.name) + (KdfBytes(kdf) + key));
    TakePrefixedOf(cipher.name, KdfBytes(kdf) + key, c.limit);
    DecodeOfKdf(kdf, key, c.limit);
    DecodeOfPublic(c, cipher, kdf, public, rest);
  }

  lemma MagicLength()
    ensures |AUTH_MAGIC| == 15
  {
  }

  lemma HeaderParts(c: Primitives, cipher: Cipher, kdf: Kdf, public: PublicData, rest: seq<byte>)
    requires HeaderFits(c, cipher, kdf, public)
    ensures HeaderBytes(c, cipher, kdf, public) + rest
            == AUTH_MAGIC
                + (Prefixed(cipher.name) + (KdfBytes(kdf) + (U32(1) + (Prefixed(c.encodePublic(public)) + rest))))
  {
    hide U32, Prefixed, KdfBytes, AUTH_MAGIC;
  }

  lemma DecodeOfPublic(c: Primitives, cipher: Cipher, kdf: Kdf, public: PublicData, rest: seq<byte>)
    requires PublicCodec(c) && |c.encodePublic(public)| <= c.limit && |c.encodePublic(public)| < U32_LIMIT
             && 1 <= c.limit
    ensures DecodePublic(c, cipher, kdf, U32(1) + (Prefixed(c.encodePublic(public)) + rest))
            == Ok(Taken(Header(cipher, kdf, public), rest))
  {
    hide U32, Prefixed, TakeU32, TakePrefixed;
    TakeU32Of(1, Prefixed(c.encodePublic(public)) + rest);
    TakePrefixedOf(c.encodePublic(public), rest, c.limit);
  }

  /** What constructors and decoding guarantee of a key: it is sealed exactly when it has a cipher; a plain key has no
      parameters, no tag, and the public part of its keypair; a sealed key fills whole blocks and carries a tag when
      its cipher makes one. */
  predicate Valid(c: Primitives, k: PrivateKey) {
    && Known(c, k.cipher)
    && match k.keyData
       case Clear(keypair) => k.cipher == NO_CIPHER && k.kdf == NoKdf && k.tag == None
           && c.publicOf(keypair) == k.public
       case Sealed(ciphertext) =>
         && k.cipher != NO_CIPHER && |ciphertext| % k.cipher.blockSize == 0
         && k.tag.Some? == k.cipher.tagged && (k.tag.Some? ==> |k.tag.value| == TAG_SIZE)
  }

  /** All lengths stay within what the reader accepts. */
  predicate Readable(c: Primitives, k: PrivateKey) {
    && 256 <= c.limit < U32_LIMIT
    && KdfReadable(k.kdf, c.limit)
    && |c.encodePublic(k.public)| <= c.limit
    && match k.keyData
       case Clear(keypair) => PairLength(c, keypair, k.comment, 8) <= c.limit
       case Sealed(ciphertext) => |ciphertext| <= c.limit
  }

  lemma ReadableFits(c: Primitives, k: PrivateKey)
    requires Valid(c, k) && Readable(c, k)
    ensures Fits(c, k)
  {
    hide PaddingLength;
  }

  /** What a file keeps of a key: the check number it was written with, and no comment on a sealed key. */
  function Stored(c: Primitives, k: PrivateKey): PrivateKey {
    match k.keyData
    case Clear(_) => k.(checkint := Some(Checkint(c, k)))
    case Sealed(_) => k.(checkint := None, comment := [])
  }

  ghost predicate Lawful(c: Primitives) {
    KeypairCodec(c) && PublicCodec(c) && CipherTable(c)
  }

  lemma DecodeOfPlain(c: Primitives, k: PrivateKey)
    requires Lawful(c) && Valid(c, k) && Readable(c, k) && Fits(c, k) && k.keyData.Clear?
    ensures DecodePlain(c, Header(k.cipher, k.kdf, k.public), BodyBytes(c, k)) == Ok(Taken(Stored(c, k), []))
  {
    hide U32, Prefixed, TakePrefixed, DecodePair, PaddingLength, Padding, KeypairCodec, PublicCodec, CipherTable;
    var keypair, checkint := k.keyData.keypair, Checkint(c, k);
    var pair := PairBytes(c, keypair, k.comment, checkint, 8);
    PairLengthIs(c, keypair, k.comment, checkint, 8);
    var n := PaddingLength(8, |PairBody(c, keypair, k.comment, checkint)|);
    DecodeOfPair(c, keypair, k.comment, checkint, n, 8, MAX_BLOCK_SIZE);
    TakePrefixedOf(pair, [], c.limit);
    assert Prefixed(pair) + [] == Prefixed(pair);
  }

  lemma DecodeOfSealed(c: Primitives, k: PrivateKey)
    requires Valid(c, k) && Readable(c, k) && Fits(c, k) && k.keyData.Sealed?
    ensures DecodeSealed(c, Header(k.cipher, k.kdf, k.public), BodyBytes(c, k)) == Ok(Stored(c, k))
  {
    hide U32, Prefixed, TakePrefixed, Take;
    var tag := if k.tag.Some? then k.tag.value else [];
    TakePrefixedOf(k.keyData.ciphertext, tag, c.limit);
    TakeOf(tag, []);
    assert tag + [] == tag;
  }

  /** Decoding an encoded key gives the key back, with the check number it was written with. */
  lemma DecodeOfEncode(c: Primitives, k: PrivateKey)
    requires Lawful(c) && Valid(c, k) && Readable(c, k)
    ensures Fits(c, k)
    ensures DecodeKey(c, KeyBytes(c, k)) == Ok(Stored(c, k))
  {
    hide HeaderBytes, BodyBytes, DecodeHeader, DecodeSealed, DecodePlain, PublicCodec, KeypairCodec, CipherTable;
    ReadableFits(c, k);
    DecodeOfHeader(c, k.cipher, k.kdf, k.public, BodyBytes(c, k));
    if k.keyData.Clear? {
      DecodeOfPlain(c, k);
    } else {
      DecodeOfSealed(c, k);
    }
  }

  /** The equality of keys: check numbers and tags do not count. */
  predicate SameKey(a: PrivateKey, b: PrivateKey) {
    a.cipher == b.cipher && a.kdf == b.kdf && a.public == b.public && a.comment == b.comment && a.keyData == b.keyData
  }

  /** The decoded key equals the encoded one, except for a sealed key that was given a comment. */
  lemma DecodedEqual(c: Primitives, k: PrivateKey)
    requires Lawful(c) && Valid(c, k) && Readable(c, k)
    ensures Fits(c, k) && DecodeKey(c, KeyBytes(c, k)).Ok?
    ensures SameKey(DecodeKey(c, KeyBytes(c, k)).value, k) <==> k.keyData.Clear? || k.comment == []
  {
    hide KeyBytes, DecodeKey, Lawful, Readable;
    DecodeOfEncode(c, k);
  }

  /** The announced length of a well-formed key is the number of bytes written. */
  lemma EncodedLengthExact(c: Primitives, k: PrivateKey)
    requires Valid(c, k) && Fits(c, k)
    ensures |KeyBytes(c, k)| == EncodedLength(c, k)
  {
    hide KeyBytes, EncodedLength, Fits;
    EncodedLengthIs(c, k);
  }

  // ---- Encoding what was decoded ---------------------------------------------

  lemma PairOfKeypair(c: Primitives, s: seq<byte>, public: PublicData, checkint: u32, most: nat)
    requires KeypairCodec(c) && most <= MAX_BLOCK_SIZE && c.limit < U32_LIMIT
    requires DecodeKeypair(c, s, public, checkint, most).Ok?
    ensures var k := DecodeKeypair(c, s, public, checkint, most).value;
            && k.keyData.Clear? && k == PlainKey(public, k.comment, k.keyData.keypair, checkint)
            && c.publicOf(k.keyData.keypair) == public && |k.comment| <= c.limit
            && exists n: nat :: n <= most
                && s == c.encodeKeypair(k.keyData.keypair) + (Prefixed(k.comment) + Padding(n))
  {
    hide Prefixed, TakePrefixed, Padding;
    var pair := c.decodeKeypair(s).value;
    var rest := Take(s, pair.1).value.rest;
    assert s == c.encodeKeypair(pair.0) + rest;
    TakenPrefixed(rest, c.limit);
    var padding := TakePrefixed(rest, c.limit).value.rest;
    var n := |padding|;
    assert padding == Padding(n);
  }

  /** An accepted pair is check numbers, keypair, comment, and an allowed number of padding bytes, in whole blocks. */
  lemma PairOfDecode(c: Primitives, s: seq<byte>, public: PublicData, block: nat, most: nat) returns (n: nat)
    requires KeypairCodec(c) && most <= MAX_BLOCK_SIZE && c.limit < U32_LIMIT
    requires DecodePair(c, s, public, block, most).Ok?
    ensures var k := DecodePair(c, s, public, block, most).value;
            && k.keyData.Clear? && k.checkint.Some?
                && k == PlainKey(public, k.comment, k.keyData.keypair, k.checkint.value)
            && c.publicOf(k.keyData.keypair) == public && |k.comment| <= c.limit
            && n <= most && s == PairBody(c, k.keyData.keypair, k.comment, k.checkint.value) + Padding(n)
            && block > 0 && |s| % block == 0
  {
    hide U32, Prefixed, TakeU32, DecodeKeypair, Padding, KeypairCodec, PairBody;
    TakenU32(s);
    var first := TakeU32(s).value;
    TakenU32(first.rest);
    var second := TakeU32(first.rest).value;
    PairOfKeypair(c, second.rest, public, first.value, most);
    var k := DecodeKeypair(c, second.rest, public, first.value, most).value;
    n :| n <= most && second.rest == c.encodeKeypair(k.keyData.keypair) + (Prefixed(k.comment) + Padding(n));
    PairParts(c, k.keyData.keypair, k.comment, first.value, Padding(n));
  }

  lemma HeaderOfDecode(c: Primitives, s: seq<byte>)
    requires Lawful(c) && c.limit < U32_LIMIT
    ensures match DecodeHeader(c, s)
            case Err(_) => true
            case Ok(t) =>
              && Known(c, t.value.cipher) && HeaderFits(c, t.value.cipher, t.value.kdf, t.value.public)
              && s == HeaderBytes(c, t.value.cipher, t.value.kdf, t.value.public) + t.rest
  {
    hide U32, Prefixed, TakeU32, TakePrefixed, DecodeKdf, KdfBytes, AUTH_MAGIC, HeaderBytes;
    if DecodeHeader(c, s).Ok? {
      var magic := Take(s, 15).value;
      TakenPrefixed(magic.rest, c.limit);
      var name := TakePrefixed(magic.rest, c.limit).value;
      var cipher := c.cipherNamed(name.value).value;
      KdfOfDecode(name.rest, c.limit);
      var kdf := DecodeKdf(name.rest, c.limit).value;
      TakenU32(kdf.rest);
      var count := TakeU32(kdf.rest).value;
      TakenPrefixed(count.rest, c.limit);
      var public := TakePrefixed(count.rest, c.limit).value;
      HeaderParts(c, cipher, kdf.value, c.decodePublic(public.value).value, public.rest);
    }
  }

  /** The padding a decoded plain file carries. */
  function PaddingIn(c: Primitives, s: seq<byte>, k: PrivateKey): int
    requires k.keyData.Clear? && |k.comment| < U32_LIMIT && HeaderFits(c, k.cipher, k.kdf, k.public)
  {
    |s| - |HeaderBytes(c, k.cipher, k.kdf, k.public)| - 4 - |PairBody(c, k.keyData.keypair, k.comment, Checkint(c, k))|
  }

  lemma SealedOfDecode(c: Primitives, h: Header, s: seq<byte>)
    requires c.limit < U32_LIMIT && DecodeSealed(c, h, s).Ok?
    ensures var k := DecodeSealed(c, h, s).value;
            && k.cipher == h.cipher && k.kdf == h.kdf && k.public == h.public && k.keyData.Sealed?
            && BodyFits(c, k) && s == BodyBytes(c, k)
  {
    hide Prefixed, TakePrefixed;
    TakenPrefixed(s, c.limit);
  }

  lemma PlainOfDecode(c: Primitives, h: Header, s: seq<byte>) returns (n: nat)
    requires KeypairCodec(c) && c.limit < U32_LIMIT && h.cipher == NO_CIPHER && Finish(DecodePlain(c, h, s)).Ok?
    ensures var k := Finish(DecodePlain(c, h, s)).value;
            && k.cipher == h.cipher && k.kdf == h.kdf && k.public == h.public && k.keyData.Clear? && k.checkint.Some?
            && |k.comment| <= c.limit && n <= MAX_BLOCK_SIZE
            && var body := PairBody(c, k.keyData.keypair, k.comment, k.checkint.value);
               && |body + Padding(n)| < U32_LIMIT && |Padding(n)| == n && (|body| + n) % 8 == 0
               && s == Prefixed(body + Padding(n))
  {
    hide Prefixed, TakePrefixed, DecodePair, Padding, KeypairCodec, PairBody;
    TakenPrefixed(s, c.limit);
    var pair := TakePrefixed(s, c.limit).value;
    n := PairOfDecode(c, pair.value, h.public, 8, MAX_BLOCK_SIZE);
    CheckPaddingOf(n, MAX_BLOCK_SIZE);
    assert Prefixed(pair.value) + [] == Prefixed(pair.value);
  }

  /** Encoding a decoded file gives its bytes back exactly when the file is sealed or padded by less than a block:
      a full extra block of padding is read but never written. */
  lemma EncodeOfDecode(c: Primitives, s: seq<byte>)
    requires Lawful(c) && c.limit < U32_LIMIT - 64
    ensures match DecodeKey(c, s)
            case Err(_) => true
            case Ok(k) => Fits(c, k) && (KeyBytes(c, k) == s <==> k.keyData.Sealed? || PaddingIn(c, s, k) < 8)
  {
    hide HeaderBytes, DecodeHeader, DecodeSealed, DecodePlain, PublicCodec, KeypairCodec, CipherTable, Prefixed,
        PairBody, Padding, Known;
    if DecodeKey(c, s).Ok? {
      HeaderOfDecode(c, s);
      var h := DecodeHeader(c, s).value;
      if h.value.cipher != NO_CIPHER {
        SealedOfDecode(c, h.value, h.rest);
      } else {
        var n := PlainOfDecode(c, h.value, h.rest);
        var k := DecodeKey(c, s).value;
        var body := PairBody(c, k.keyData.keypair, k.comment, k.checkint.value);
        PlainFits(c, k, body, n);
        PlainBack(c, k, body, n, s);
      }
    }
  }

  lemma PlainFits(c: Primitives, k: PrivateKey, body: seq<byte>, n: nat)
    requires k.keyData.Clear? && k.checkint.Some? && |k.comment| < U32_LIMIT - 64 && n <= MAX_BLOCK_SIZE
    requires body == PairBody(c, k.keyData.keypair, k.comment, k.checkint.value)
    requires |body| + n < U32_LIMIT && (|body| + n) % 8 == 0
    ensures BodyFits(c, k)
  {
    hide PairBody;
    BodyLength(c, k.keyData.keypair, k.comment, k.checkint.value);
    var p := PaddingLength(8, |body|);
    assert (|body| + p) % 8 == 0;
  }

  lemma PlainBack(c: Primitives, k: PrivateKey, body: seq<byte>, n: nat, s: seq<byte>)
    requires k.keyData.Clear? && k.checkint.Some? && |k.comment| < U32_LIMIT && n <= MAX_BLOCK_SIZE && Fits(c, k)
    requires body == PairBody(c, k.keyData.keypair, k.comment, k.checkint.value)
    requires |body + Padding(n)| < U32_LIMIT && |Padding(n)| == n && (|body| + n) % 8 == 0
    requires s == HeaderBytes(c, k.cipher, k.kdf, k.public) + Prefixed(body + Padding(n))
    ensures PaddingIn(c, s, k) == n
    ensures KeyBytes(c, k) == s <==> n < 8
  {
    hide HeaderBytes, U32, PairBody, Padding;
    var p := PaddingLength(8, |body|);
    CheckPaddingOf(p, MAX_BLOCK_SIZE);
    if n < 8 {
      PaddingIsUnique(8, |body|, n);
    } else {
      assert |KeyBytes(c, k)| == |HeaderBytes(c, k.cipher, k.kdf, k.public)| + 4 + |body| + p;
    }
  }

  /** The file of a plain key with a whole block of padding more than needed. */
  function OverpaddedBytes(c: Primitives, k: PrivateKey): seq<byte>
    requires k.keyData.Clear? && |k.comment| < U32_LIMIT && HeaderFits(c, k.cipher, k.kdf, k.public)
    requires PairLength(c, k.keyData.keypair, k.comment, 8) + 8 < U32_LIMIT
  {
    var body := PairBody(c, k.keyData.keypair, k.comment, Checkint(c, k));
    BodyLength(c, k.keyData.keypair, k.comment, Checkint(c, k));
    HeaderBytes(c, k.cipher, k.kdf, k.public) + Prefixed(body + Padding(PaddingLength(8, |body|) + 8))
  }

  /** Every plain key has a second file, with a whole extra block of padding, that is read as the same key and never
      written. */
  lemma OverpaddedIsRead(c: Primitives, k: PrivateKey)
    requires Lawful(c) && Valid(c, k) && Readable(c, k) && k.keyData.Clear?
    requires PairLength(c, k.keyData.keypair, k.comment, 8) + 8 <= c.limit
    ensures Fits(c, k)
    ensures DecodeKey(c, OverpaddedBytes(c, k)) == Ok(Stored(c, k))
    ensures Fits(c, Stored(c, k)) && KeyBytes(c, Stored(c, k)) != OverpaddedBytes(c, k)
  {
    hide HeaderBytes, DecodeHeader, DecodeSealed, Prefixed, TakePrefixed, DecodePair, PublicCodec, KeypairCodec,
        CipherTable, Padding,
      PaddingLength, PairBody, PairLength;
    ReadableFits(c, k);
    OverpaddedLength(c, k);
    var keypair, checkint := k.keyData.keypair, Checkint(c, k);
    var body := PairBody(c, keypair, k.comment, checkint);
    var n := PaddingLength(8, |body|) + 8;
    var pair := body + Padding(n);
    DecodeOfHeader(c, k.cipher, k.kdf, k.public, Prefixed(pair));
    TakePrefixedOf(pair, [], c.limit);
    assert Prefixed(pair) + [] == Prefixed(pair);
    DecodeOfPair(c, keypair, k.comment, checkint, n, 8, MAX_BLOCK_SIZE);
    PlainBack(c, Stored(c, k), body, n, OverpaddedBytes(c, k));
  }

  lemma OverpaddedLength(c: Primitives, k: PrivateKey)
    requires Valid(c, k) && Readable(c, k) && k.keyData.Clear?
    requires PairLength(c, k.keyData.keypair, k.comment, 8) + 8 <= c.limit
    ensures |k.comment| <= c.limit
    ensures var body := PairBody(c, k.keyData.keypair, k.comment, Checkint(c, k));
            var n := PaddingLength(8, |body|) + 8;
            && n <= MAX_BLOCK_SIZE && |Padding(n)| == n && (|body| + n) % 8 == 0
            && |body + Padding(n)| == PairLength(c, k.keyData.keypair, k.comment, 8) + 8
  {
    hide PairBody;
    BodyLength(c, k.keyData.keypair, k.comment, Checkint(c, k));
    var body := PairBody(c, k.keyData.keypair, k.comment, Checkint(c, k));
    CheckPaddingOf(PaddingLength(8, |body|) + 8, MAX_BLOCK_SIZE);
  }

  // ---- Encryption ------------------------------------------------------------

  /** Sealing a plain key. Deriving a key needs both a cipher and parameters. */
  function EncryptWith(c: Primitives, k: PrivateKey, cipher: Cipher, kdf: Kdf, checkint: u32, password: seq<byte>)
    : Result<PrivateKey, Error>
  {
    if k.keyData.Sealed? then Err(IsEncrypted)
    else if cipher == NO_CIPHER || kdf.NoKdf? then Err(IsDecrypted)
    else if |k.comment| >= U32_LIMIT || !(0 < cipher.blockSize <= MAX_BLOCK_SIZE) then Err(Length)
    else
      match c.encrypt(cipher, kdf, password, PairBytes(c, k.keyData.keypair, k.comment, checkint, cipher.blockSize))
      case None => Err(Crypto)
      case Some(e) => Ok(PrivateKey(cipher, kdf, None, k.public, [], Sealed(e.ciphertext), e.tag))
  }

  function Decrypt(c: Primitives, k: PrivateKey, password: seq<byte>): Result<PrivateKey, Error> {
    if k.cipher == NO_CIPHER || k.kdf.NoKdf? then Err(IsDecrypted)
    else
      match k.keyData
      case Clear(_) => Err(IsDecrypted)
      case Sealed(ciphertext) =>
        match c.decrypt(k.cipher, k.kdf, password, Encrypted(ciphertext, k.tag))
        case None => Err(Crypto)
        case Some(plain) =>
          if !(0 < k.cipher.blockSize <= MAX_BLOCK_SIZE) then Err(Length)
          else DecodePair(c, plain, k.public, k.cipher.blockSize, k.cipher.blockSize - 1)
  }

  /** Sealing makes a valid key whose comment is no longer visible. */
  lemma EncryptedIsValid(c: Primitives, k: PrivateKey, cipher: Cipher, kdf: Kdf, checkint: u32, password: seq<byte>)
    requires Lawful(c) && CipherWorks(c) && Valid(c, k) && Known(c, cipher)
    requires EncryptWith(c, k, cipher, kdf, checkint, password).Ok?
    ensures var e := EncryptWith(c, k, cipher, kdf, checkint, password).value;
            Valid(c, e) && e.comment == [] && e.public == k.public && e.keyData.Sealed?
            && |e.keyData.ciphertext| == PairLength(c, k.keyData.keypair, k.comment, cipher.blockSize)
  {
    hide PairBytes, PairLength;
    PairLengthIs(c, k.keyData.keypair, k.comment, checkint, cipher.blockSize);
    var plain := PairBytes(c, k.keyData.keypair, k.comment, checkint, cipher.blockSize);
    assert c.encrypt(cipher, kdf, password, plain).Some?;
  }

  /** The right password gives back the keypair, the public part and the comment. */
  lemma DecryptOfEncrypt(c: Primitives, k: PrivateKey, cipher: Cipher, kdf: Kdf, checkint: u32, password: seq<byte>)
    requires Lawful(c) && CipherWorks(c) && Valid(c, k) && Known(c, cipher) && |k.comment| <= c.limit < U32_LIMIT
    requires EncryptWith(c, k, cipher, kdf, checkint, password).Ok?
    ensures Decrypt(c, EncryptWith(c, k, cipher, kdf, checkint, password).value, password) ==
            Ok(k.(checkint := Some(checkint)))
  {
    hide PaddingLength, Padding, PairBody, DecodePair, KeypairCodec, PublicCodec, CipherTable;
    var keypair := k.keyData.keypair;
    var plain := PairBytes(c, keypair, k.comment, checkint, cipher.blockSize);
    assert c.encrypt(cipher, kdf, password, plain).Some?;
    PairLengthIs(c, keypair, k.comment, checkint, cipher.blockSize);
    var n := PaddingLength(cipher.blockSize, |PairBody(c, keypair, k.comment, checkint)|);
    DecodeOfPair(c, keypair, k.comment, checkint, n, cipher.blockSize, cipher.blockSize - 1);
  }

  /** A sealed key survives its file: decrypting the decoded key gives the original keypair, public part and comment. */
  lemma DecryptOfFile(c: Primitives, k: PrivateKey, cipher: Cipher, kdf: Kdf, checkint: u32, password: seq<byte>)
    requires Lawful(c) && CipherWorks(c) && Valid(c, k) && Known(c, cipher) && |k.comment| <= c.limit
    requires EncryptWith(c, k, cipher, kdf, checkint, password).Ok?
    requires Readable(c, EncryptWith(c, k, cipher, kdf, checkint, password).value)
    ensures var e := EncryptWith(c, k, cipher, kdf, checkint, password).value;
            && Fits(c, e) && DecodeKey(c, KeyBytes(c, e)) == Ok(e)
            && Decrypt(c, DecodeKey(c, KeyBytes(c, e)).value, password) == Ok(k.(checkint := Some(checkint)))
  {
    hide KeyBytes, DecodeKey, Lawful, CipherWorks, Decrypt, Valid;
    var e := EncryptWith(c, k, cipher, kdf, checkint, password).value;
    EncryptedIsValid(c, k, cipher, kdf, checkint, password);
    DecodeOfEncode(c, e);
    DecryptOfEncrypt(c, k, cipher, kdf, checkint, password);
  }
}
