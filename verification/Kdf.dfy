/** The key derivation parameters of a private-key file. */
module Kdf {
  import opened Basics
  import opened Wire

  datatype Kdf = NoKdf | Bcrypt(salt: seq<byte>, rounds: u32)

  const NONE_NAME: seq<byte> := [110, 111, 110, 101]
  const BCRYPT_NAME: seq<byte> := [98, 99, 114, 121, 112, 116]

  function KdfName(k: Kdf): seq<byte> {
    if k.NoKdf? then NONE_NAME else BCRYPT_NAME
  }

  predicate KdfFits(k: Kdf) {
    k.Bcrypt? ==> 8 + |k.salt| < U32_LIMIT
  }

  function KdfBytes(k: Kdf): seq<byte>
    requires KdfFits(k)
  {
    Prefixed(KdfName(k)) + if k.NoKdf? then U32(0) else Prefixed(Prefixed(k.salt) + U32(k.rounds))
  }

  function KdfLength(k: Kdf): nat {
    4 + |KdfName(k)| + if k.NoKdf? then 4 else 12 + |k.salt|
  }

  lemma KdfLengthIs(k: Kdf)
    requires KdfFits(k)
    ensures |KdfBytes(k)| == KdfLength(k)
  {
  }

  function DecodeOptions(options: seq<byte>, limit: nat): Result<Kdf, Error> {
    match TakePrefixed(options, limit)
    case Err(e) => Err(e)
    case Ok(salt) =>
      match TakeU32(salt.rest)
      case Err(e) => Err(e)
      case Ok(rounds) => if rounds.rest == [] then Ok(Bcrypt(salt.value, rounds.value)) else Err(TrailingData)
  }

  function DecodeKdf(s: seq<byte>, limit: nat): Result<Taken<Kdf>, Error> {
    match TakePrefixed(s, limit)
    case Err(e) => Err(e)
    case Ok(name) =>
      if name.value == NONE_NAME then
        match TakeLength(name.rest, limit)
        case Err(e) => Err(e)
        case Ok(n) => if n.value == 0 then Ok(Taken(NoKdf, n.rest)) else Err(AlgorithmUnknown)
      else if name.value == BCRYPT_NAME then
        match TakePrefixed(name.rest, limit)
        case Err(e) => Err(e)
        case Ok(options) =>
          match DecodeOptions(options.value, limit)
          case Err(e) => Err(e)
          case Ok(k) => Ok(Taken(k, options.rest))
      else Err(AlgorithmUnknown)
  }

  /** Everything a reader with this limit accepts of the parameters. */
  predicate KdfReadable(k: Kdf, limit: nat) {
    6 <= limit && (k.Bcrypt? ==> 8 + |k.salt| <= limit)
  }

  lemma DecodeOptionsOf(salt: seq<byte>, rounds: u32, limit: nat)
    requires |salt| <= limit && |salt| < U32_LIMIT
    ensures DecodeOptions(Prefixed(salt) + U32(rounds), limit) == Ok(Bcrypt(salt, rounds))
  {
    hide TakePrefixed, TakeU32, Prefixed, U32;
    TakePrefixedOf(salt, U32(rounds), limit);
    TakeU32Of(rounds, []);
    assert U32(rounds) + [] == U32(rounds);
  }

  lemma NamesDiffer()
    ensures |NONE_NAME| == 4 && |BCRYPT_NAME| == 6
  {
  }

  /** The parameters written are the parameters read. */
  lemma DecodeOfKdf(k: Kdf, rest: seq<byte>, limit: nat)
    requires KdfFits(k) && KdfReadable(k, limit)
    ensures DecodeKdf(KdfBytes(k) + rest, limit) == Ok(Taken(k, rest))
  {
    hide TakePrefixed, TakeU32, Prefixed, U32, DecodeOptions, NONE_NAME, BCRYPT_NAME;
    NamesDiffer();
    if k.NoKdf? {
      assert KdfBytes(k) + rest == Prefixed(NONE_NAME) + (U32(0) + rest);
      TakePrefixedOf(NONE_NAME, U32(0) + rest, limit);
      TakeU32Of(0, rest);
    } else {
      var options := Prefixed(k.salt) + U32(k.rounds);
      OptionsLength(k.salt, k.rounds);
      assert KdfBytes(k) + rest == Prefixed(BCRYPT_NAME) + (Prefixed(options) + rest);
      TakePrefixedOf(BCRYPT_NAME, Prefixed(options) + rest, limit);
      TakePrefixedOf(options, rest, limit);
      DecodeOptionsOf(k.salt, k.rounds, limit);
    }
  }

  lemma OptionsLength(salt: seq<byte>, rounds: u32)
    requires |salt| < U32_LIMIT
    ensures |Prefixed(salt) + U32(rounds)| == 8 + |salt|
  {
  }

  /** The parameters read are the parameters written. */
  lemma KdfOfDecode(s: seq<byte>, limit: nat)
    requires DecodeKdf(s, limit).Ok?
    ensures var t := DecodeKdf(s, limit).value; KdfFits(t.value) && s == KdfBytes(t.value) + t.rest
  {
    hide TakePrefixed, TakeU32, Prefixed, U32, NONE_NAME, BCRYPT_NAME;
    TakenPrefixed(s, limit);
    var name := TakePrefixed(s, limit).value;
    if name.value == NONE_NAME {
      TakenU32(name.rest);
    } else {
      TakenPrefixed(name.rest, limit);
      var options := TakePrefixed(name.rest, limit).value;
      TakenPrefixed(options.value, limit);
      TakenU32(TakePrefixed(options.value, limit).value.rest);
      var k := DecodeOptions(options.value, limit).value;
      assert options.value == Prefixed(k.salt) + U32(k.rounds) by {
        assert U32(k.rounds) + [] == U32(k.rounds);
      }
      OptionsLength(k.salt, k.rounds);
    }
  }

  lemma OptionsBytes(salt: seq<byte>, rounds: u32, before: seq<byte>)
    requires 8 + |salt| < U32_LIMIT
    ensures before + U32(8 + |salt|) + Prefixed(salt) + U32(rounds) == before + Prefixed(Prefixed(salt) + U32(rounds))
  {
    OptionsLength(salt, rounds);
    hide U32;
  }

  method EncodeKdf(w: Writer, k: Kdf) returns (ok: bool)
    modifies w
    ensures ok <==> KdfFits(k)
    ensures ok ==> w.bytes == old(w.bytes) + KdfBytes(k)
  {
    hide U32, Prefixed, NONE_NAME, BCRYPT_NAME;
    NamesDiffer();
    ok := w.WritePrefixed(KdfName(k));
    ghost var named := w.bytes;
    match k {
      case NoKdf =>
        ok := w.WriteLength(0);
      case Bcrypt(salt, rounds) =>
        ok := w.WriteLength(8 + |salt|);
        if ok {
          ok := w.WritePrefixed(salt);
          w.Write(U32(rounds));
          OptionsLength(salt, rounds);
          OptionsBytes(salt, rounds, named);
        }
    }
    if ok {
      assert w.bytes == old(w.bytes) + KdfBytes(k);
    }
  }

  method DecodeKdfFrom(r: Reader) returns (result: Result<Kdf, Error>)
    modifies r
    ensures match DecodeKdf(old(r.rest), r.limit)
            case Ok(t) => result == Ok(t.value) && r.rest == t.rest
            case Err(e) => result == Err(e)
  {
    hide TakePrefixed, TakeU32, NONE_NAME, BCRYPT_NAME;
    var name := r.ReadPrefixed();
    if name.Err? {
      return Err(name.error);
    }
    if name.value == NONE_NAME {
      var n := r.ReadLength();
      if n.Err? {
        return Err(n.error);
      }
      return if n.value == 0 then Ok(NoKdf) else Err(AlgorithmUnknown);
    }
    if name.value != BCRYPT_NAME {
      return Err(AlgorithmUnknown);
    }
    var options := r.ReadPrefixed();
    if options.Err? {
      return Err(options.error);
    }
    var inner := new Reader(options.value, r.limit);
    var salt := inner.ReadPrefixed();
    if salt.Err? {
      return Err(salt.error);
    }
    var rounds := inner.ReadU32();
    if rounds.Err? {
      return Err(rounds.error);
    }
    return if inner.rest == [] then Ok(Bcrypt(salt.value, rounds.value)) else Err(TrailingData);
  }
}
