/** The binary encoding of SSH data: big-endian numbers and length-prefixed strings (RFC 4251, section 5). */
module Wire {
  import opened Basics

  const U32_LIMIT := 0x1_0000_0000

  type u32 = n: int | 0 <= n < 0x1_0000_0000

  datatype Error =
    | Length | Crypto | PublicKeyMismatch | FormatEncoding | TrailingData | AlgorithmUnknown
    | IsEncrypted | IsDecrypted

  datatype Taken<+T> = Taken(value: T, rest: seq<byte>)

  // ---- Encodings -----------------------------------------------------------

  function U32(n: u32): (b: seq<byte>)
    ensures |b| == 4
  {
    [n / 0x100_0000, n / 0x1_0000 % 256, n / 256 % 256, n % 256]
  }

  function U32Value(b: seq<byte>): u32
    requires |b| == 4
  {
    b[0] as int * 0x100_0000 + b[1] as int * 0x1_0000 + b[2] as int * 256 + b[3] as int
  }

  function Prefixed(s: seq<byte>): seq<byte>
    requires |s| < U32_LIMIT
  {
    U32(|s|) + s
  }

  lemma U32RoundTrip(n: u32)
    ensures U32Value(U32(n)) == n
  {
    assert n == n / 256 * 256 + n % 256;
    assert n / 256 == n / 0x1_0000 * 256 + n / 256 % 256;
    assert n / 0x1_0000 == n / 0x100_0000 * 256 + n / 0x1_0000 % 256;
  }

  lemma U32OfValue(b: seq<byte>)
    requires |b| == 4
    ensures U32(U32Value(b)) == b
  {
    var n := U32Value(b);
    var a: int := b[0] as int * 0x1_0000 + b[1] as int * 256 + b[2] as int;
    assert n == a * 256 + b[3] && n / 256 == a && n % 256 == b[3];
    var z: int := b[0] as int * 256 + b[1] as int;
    assert a == z * 256 + b[2] && a / 256 == z && a % 256 == b[2];
    assert n / 0x1_0000 == z;
    assert n / 0x100_0000 == b[0];
  }

  // ---- Decodings: a value and what follows it -------------------------------

  function Take(s: seq<byte>, n: nat): Result<Taken<seq<byte>>, Error> {
    if |s| < n then Err(Length) else Ok(Taken(s[..n], s[n..]))
  }

  function TakeU32(s: seq<byte>): Result<Taken<u32>, Error> {
    if |s| < 4 then Err(Length) else Ok(Taken(U32Value(s[..4]), s[4..]))
  }

  /** A length; larger ones than `limit` are refused. */
  function TakeLength(s: seq<byte>, limit: nat): Result<Taken<nat>, Error> {
    match TakeU32(s)
    case Err(e) => Err(e)
    case Ok(t) => if t.value > limit then Err(Length) else Ok(Taken(t.value, t.rest))
  }

  function TakePrefixed(s: seq<byte>, limit: nat): Result<Taken<seq<byte>>, Error> {
    match TakeLength(s, limit)
    case Err(e) => Err(e)
    case Ok(t) => Take(t.rest, t.value)
  }

  lemma TakeOf(a: seq<byte>, rest: seq<byte>)
    ensures Take(a + rest, |a|) == Ok(Taken(a, rest))
  {
    assert (a + rest)[..|a|] == a && (a + rest)[|a|..] == rest;
  }

  lemma TakeU32Of(n: u32, rest: seq<byte>)
    ensures TakeU32(U32(n) + rest) == Ok(Taken(n, rest))
  {
    hide U32, U32Value;
    U32RoundTrip(n);
    assert (U32(n) + rest)[..4] == U32(n) && (U32(n) + rest)[4..] == rest;
  }

  lemma TakePrefixedOf(s: seq<byte>, rest: seq<byte>, limit: nat)
    requires |s| < U32_LIMIT
    ensures TakePrefixed(Prefixed(s) + rest, limit) == if |s| <= limit then Ok(Taken(s, rest)) else Err(Length)
  {
    hide U32, TakeU32, Take;
    TakeU32Of(|s|, s + rest);
    TakeOf(s, rest);
    assert Prefixed(s) + rest == U32(|s|) + (s + rest);
  }

  lemma TakenU32(s: seq<byte>)
    requires TakeU32(s).Ok?
    ensures s == U32(TakeU32(s).value.value) + TakeU32(s).value.rest
  {
    hide U32, U32Value;
    U32OfValue(s[..4]);
  }

  lemma TakenPrefixed(s: seq<byte>, limit: nat)
    requires TakePrefixed(s, limit).Ok?
    ensures var t := TakePrefixed(s, limit).value;
            |t.value| <= limit && |t.value| < U32_LIMIT && s == Prefixed(t.value) + t.rest
  {
    hide U32, U32Value;
    TakenU32(s);
  }

  // ---- Writer and reader ----------------------------------------------------

  class Writer {
    var bytes: seq<byte>

    constructor ()
      ensures bytes == []
    {
      bytes := [];
    }

    method Write(data: seq<byte>)
      modifies this
      ensures bytes == old(bytes) + data
    {
      bytes := bytes + data;
    }

    /** A length; it must fit 32 bits. */
    method WriteLength(n: nat) returns (ok: bool)
      modifies this
      ensures ok <==> n < U32_LIMIT
      ensures bytes == if ok then old(bytes) + U32(n) else old(bytes)
    {
      if n >= U32_LIMIT {
        return false;
      }
      Write(U32(n));
      return true;
    }

    method WritePrefixed(data: seq<byte>) returns (ok: bool)
      modifies this
      ensures ok <==> |data| < U32_LIMIT
      ensures bytes == if ok then old(bytes) + Prefixed(data) else old(bytes)
    {
      ok := WriteLength(|data|);
      if ok {
        Write(data);
      }
    }
  }

  class Reader {
    var rest: seq<byte>
    const limit: nat

    constructor (data: seq<byte>, limit: nat)
      ensures rest == data && this.limit == limit
    {
      rest := data;
      this.limit := limit;
    }

    method Read(n: nat) returns (r: Result<seq<byte>, Error>)
      modifies this
      ensures match Take(old(rest), n)
              case Ok(t) => r == Ok(t.value) && rest == t.rest
              case Err(e) => r == Err(e) && rest == old(rest)
    {
      if |rest| < n {
        return Err(Length);
      }
      r := Ok(rest[..n]);
      rest := rest[n..];
    }

    method ReadU32() returns (r: Result<u32, Error>)
      modifies this
      ensures match TakeU32(old(rest))
              case Ok(t) => r == Ok(t.value) && rest == t.rest
              case Err(e) => r == Err(e)
    {
      var b := Read(4);
      return match b case Ok(v) => Ok(U32Value(v)) case Err(e) => Err(e);
    }

    method ReadLength() returns (r: Result<nat, Error>)
      modifies this
      ensures match TakeLength(old(rest), limit)
              case Ok(t) => r == Ok(t.value) && rest == t.rest
              case Err(e) => r == Err(e)
    {
      var n := ReadU32();
      if n.Err? {
        return Err(n.error);
      }
      return if n.value > limit then Err(Length) else Ok(n.value);
    }

    method ReadPrefixed() returns (r: Result<seq<byte>, Error>)
      modifies this
      ensures match TakePrefixed(old(rest), limit)
              case Ok(t) => r == Ok(t.value) && rest == t.rest
              case Err(e) => r == Err(e)
    {
      var n := ReadLength();
      if n.Err? {
        return Err(n.error);
      }
      r := Read(n.value);
    }
  }
}
