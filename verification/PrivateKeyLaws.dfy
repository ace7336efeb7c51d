/** The assumptions about key codecs and ciphers can be met together; sample keys the file format treats unevenly. */
module PrivateKeyLaws {
  import opened Basics
  import opened Wire
  import opened Kdf
  import opened PrivateKeys

  /** Bytes each announced by a one, closed by a zero. */
  function Delimited(s: seq<byte>): seq<byte> {
    if s == [] then [0] else [1, s[0]] + Delimited(s[1..])
  }

  function Undelimited(s: seq<byte>): (r: Option<(seq<byte>, nat)>)
    ensures r.Some? ==> r.value.1 <= |s|
  {
    if |s| > 0 && s[0] == 0 then Some(([], 1))
    else if |s| < 2 || s[0] != 1 then None
    else
      match Undelimited(s[2..])
      case None => None
      case Some(tail) => Some(([s[1]] + tail.0, tail.1 + 2))
  }

  lemma {:induction false} UndelimitedOf(s: seq<byte>, rest: seq<byte>)
    ensures Undelimited(Delimited(s) + rest) == Some((s, |Delimited(s)|))
  {
    if s != [] {
      UndelimitedOf(s[1..], rest);
      assert (Delimited(s) + rest)[2..] == Delimited(s[1..]) + rest;
      assert [s[0]] + s[1..] == s;
    } else {
      assert (Delimited(s) + rest)[0] == 0;
    }
  }

  lemma {:induction false} DelimitedOf(s: seq<byte>)
    requires Undelimited(s).Some?
    ensures s[..Undelimited(s).value.1] == Delimited(Undelimited(s).value.0)
  {
    if s[0] != 0 {
      DelimitedOf(s[2..]);
      var tail := Undelimited(s[2..]).value;
      assert ([s[1]] + tail.0)[1..] == tail.0;
      assert s[..tail.1 + 2] == [1, s[1]] + s[2..][..tail.1];
    } else {
      assert s[..1] == [0];
    }
  }

  const SAMPLE_CIPHER := Cipher([97], 16, true)

  function SampleTag(): (t: seq<byte>)
    ensures |t| == TAG_SIZE
  {
    Padding(TAG_SIZE)
  }

  /** Codecs that only frame the material, one cipher that changes nothing. */
  function Sample(): Primitives {
    Primitives(
      (p: PublicData) => p.material,
      (s: seq<byte>) => Some(PublicData(s)),
      (k: Keypair) => Delimited(k.material),
      (s: seq<byte>) => match Undelimited(s) case None => None case Some(u) => Some((Keypair(u.0), u.1)),
      (k: Keypair) => PublicData(k.material),
      (k: Keypair) => 7,
      (s: seq<byte>) => if s == NONE_NAME then Some(NO_CIPHER) else if s == [97] then Some(SAMPLE_CIPHER) else None,
      (cipher: Cipher, kdf: Kdf, password: seq<byte>, plain: seq<byte>) =>
        Some(Encrypted(plain, if cipher.tagged then Some(SampleTag()) else None)),
      (cipher: Cipher, kdf: Kdf, password: seq<byte>, e: Encrypted) => Some(e.ciphertext),
      0xFFFFF)
  }

  lemma SampleKeypairs()
    ensures KeypairCodec(Sample())
  {
    var c := Sample();
    forall k, rest ensures c.decodeKeypair(c.encodeKeypair(k) + rest) == Some((k, |c.encodeKeypair(k)|)) {
      UndelimitedOf(k.material, rest);
    }
    forall s | c.decodeKeypair(s).Some?
      ensures c.decodeKeypair(s).value.1 <= |s|
              && s[..c.decodeKeypair(s).value.1] == c.encodeKeypair(c.decodeKeypair(s).value.0)
    {
      DelimitedOf(s);
    }
  }

  lemma SampleCiphers()
    ensures PublicCodec(Sample()) && CipherTable(Sample())
    ensures Known(Sample(), SAMPLE_CIPHER) && SAMPLE_CIPHER != NO_CIPHER
  {
    hide Delimited, Undelimited;
  }

  lemma SampleEncryption()
    ensures CipherWorks(Sample())
  {
    hide Delimited, Undelimited;
  }

  lemma LawsAreConsistent()
    ensures Lawful(Sample()) && CipherWorks(Sample()) && 256 <= Sample().limit < U32_LIMIT
    ensures Known(Sample(), SAMPLE_CIPHER) && SAMPLE_CIPHER != NO_CIPHER
  {
    SampleKeypairs();
    SampleCiphers();
    SampleEncryption();
    hide KeypairCodec, PublicCodec, CipherTable, CipherWorks, Known, SAMPLE_CIPHER, NO_CIPHER;
  }

  const SAMPLE_PLAIN := PrivateKey(NO_CIPHER, NoKdf, Some(7), PublicData([]), [65], Clear(Keypair([])), None)

  function SampleSealed(): PrivateKey {
    PrivateKey(SAMPLE_CIPHER, Bcrypt([1, 2], 16), None, PublicData([]), [65], Sealed([]), Some(SampleTag()))
  }

  lemma SamplePlainIsReadable()
    ensures Valid(Sample(), SAMPLE_PLAIN) && Readable(Sample(), SAMPLE_PLAIN)
    ensures PairLength(Sample(), SAMPLE_PLAIN.keyData.keypair, SAMPLE_PLAIN.comment, 8) == 16
    ensures Stored(Sample(), SAMPLE_PLAIN) == SAMPLE_PLAIN
  {
    hide Undelimited, SampleTag;
    assert Delimited([]) == [0];
  }

  lemma SampleSealedIsReadable()
    ensures Valid(Sample(), SampleSealed()) && Readable(Sample(), SampleSealed())
  {
    hide Delimited, Undelimited, SampleTag;
  }

  /** One key, two files: the one with eight more bytes of padding is read and not written. */
  lemma OverpaddedExample()
    ensures Fits(Sample(), SAMPLE_PLAIN) && |SAMPLE_PLAIN.comment| < U32_LIMIT
    ensures DecodeKey(Sample(), KeyBytes(Sample(), SAMPLE_PLAIN)) == Ok(SAMPLE_PLAIN)
    ensures PairLength(Sample(), SAMPLE_PLAIN.keyData.keypair, SAMPLE_PLAIN.comment, 8) + 8 < U32_LIMIT
    ensures DecodeKey(Sample(), OverpaddedBytes(Sample(), SAMPLE_PLAIN)) == Ok(SAMPLE_PLAIN)
    ensures OverpaddedBytes(Sample(), SAMPLE_PLAIN) != KeyBytes(Sample(), SAMPLE_PLAIN)
  {
    LawsAreConsistent();
    SamplePlainIsReadable();
    SampleLimit();
    hide *;
    DecodeOfEncode(Sample(), SAMPLE_PLAIN);
    OverpaddedIsRead(Sample(), SAMPLE_PLAIN);
  }

  lemma SampleLimit()
    ensures Sample().limit == 0xFFFFF && |SAMPLE_PLAIN.comment| == 1 && SAMPLE_PLAIN.keyData.Clear?
  {
  }

  /** A sealed key with a comment comes back without it. */
  lemma LostCommentExample()
    ensures Fits(Sample(), SampleSealed()) && DecodeKey(Sample(), KeyBytes(Sample(), SampleSealed())).Ok?
    ensures SampleSealed().comment == [65]
    ensures DecodeKey(Sample(), KeyBytes(Sample(), SampleSealed())).value.comment == []
  {
    hide Sample, KeyBytes, DecodeKey, Lawful, Valid, Readable, Fits;
    LawsAreConsistent();
    SampleSealedIsReadable();
    DecodeOfEncode(Sample(), SampleSealed());
  }
}
