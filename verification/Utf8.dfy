/** The UTF-8 checker of the terminal's effect decoder (RFC 3629, section 4). */
module Utf8 {
  import opened Basics

  /** A Unicode scalar value: a code point that is not a surrogate. */
  type scalar = v: int | 0 <= v < 0xD800 || 0xE000 <= v <= 0x10FFFF

  /** The unique encoding of a Unicode scalar value, from the table in RFC 3629, section 3. */
  function EncodeScalar(v: scalar): (b: seq<byte>) {
    if v < 0x80 then [v]
    else if v < 0x800 then [0xC0 + v / 64, 0x80 + v % 64]
    else if v < 0x10000 then [0xE0 + v / 4096, 0x80 + v / 64 % 64, 0x80 + v % 64]
    else [0xF0 + v / 262144, 0x80 + v / 4096 % 64, 0x80 + v / 64 % 64, 0x80 + v % 64]
  }

  function EncodeScalars(vs: seq<scalar>): seq<byte> {
    if |vs| == 0 then [] else EncodeScalar(vs[0]) + EncodeScalars(vs[1..])
  }

  /** Length announced by a lead byte; 0 for a byte that cannot lead. */
  function LeadLength(b: byte): nat {
    if b < 0x80 then 1 else if b < 0xC0 then 0
    else if b < 0xE0 then 2 else if b < 0xF0 then 3 else if b < 0xF8 then 4 else 0
  }

  /** Shifts six bits of each byte of `tail` into `c`. */
  function Payload(c: int, tail: seq<byte>): int
    decreases |tail|
  {
    if |tail| == 0 then c else Payload(c * 64 + tail[0] as int % 64, tail[1..])
  }

  /** The number spelled by the first `n` bytes once the marker bits are dropped. */
  function Candidate(text: seq<byte>, n: nat): int
    requires 1 <= n <= 4 && n <= |text|
  {
    var lead := if n == 1 then text[0] else if n == 2 then text[0] % 32 else if n == 3 then text[0] % 16
        else text[0] % 8;
    Payload(lead, text[1..n])
  }

  /** The scalar value at the front of `text`: accepted exactly when re-encoding it gives those bytes back. */
  function DecodeFirst(text: seq<byte>): (r: Option<scalar>)
    ensures r.Some? ==> EncodeScalar(r.value) <= text
  {
    var n := if |text| == 0 then 0 else LeadLength(text[0]);
    if n == 0 || n > |text| then None
    else
      var v := Candidate(text, n);
      if (0 <= v < 0xD800 || 0xE000 <= v <= 0x10FFFF) && EncodeScalar(v) <= text then Some(v) else None
  }

  /** What the announced bytes spell, written out for each length. */
  lemma CandidateByLength(text: seq<byte>, n: nat)
    requires 1 <= n <= 4 && n <= |text|
    ensures n == 1 ==> Candidate(text, n) == text[0]
    ensures n == 2 ==> Candidate(text, n) == text[0] as int % 32 * 64 + text[1] as int % 64
    ensures n == 3 ==> Candidate(text, n) == (text[0] as int % 16 * 64 + text[1] as int % 64) * 64 + text[2] as int % 64
    ensures n == 4 ==>
              Candidate(text, n) ==
              ((text[0] as int % 8 * 64 + text[1] as int % 64) * 64 + text[2] as int % 64) * 64 + text[3] as int % 64
  {
    var tail := text[1..n];
    if n == 2 {
      PayloadCons(text[0] % 32, text[1], []);
      assert tail == [text[1]] + [];
    } else if n == 3 {
      PayloadCons(text[0] % 16, text[1], [text[2]]);
      PayloadCons(text[0] as int % 16 * 64 + text[1] as int % 64, text[2], []);
      assert tail == [text[1]] + [text[2]] && [text[2]] == [text[2]] + [];
    } else if n == 4 {
      PayloadCons(text[0] % 8, text[1], [text[2], text[3]]);
      PayloadCons(text[0] as int % 8 * 64 + text[1] as int % 64, text[2], [text[3]]);
      PayloadCons((text[0] as int % 8 * 64 + text[1] as int % 64) * 64 + text[2] as int % 64, text[3], []);
      assert tail == [text[1]] + [text[2], text[3]];
      assert [text[2], text[3]] == [text[2]] + [text[3]] && [text[3]] == [text[3]] + [];
    }
  }

  lemma PayloadCons(c: int, b: byte, tail: seq<byte>)
    ensures Payload(c, [b] + tail) == Payload(c * 64 + b as int % 64, tail)
    ensures Payload(c, []) == c
  {
    assert ([b] + tail)[1..] == tail;
  }

  /** Stripping the marker bits of an encoding and reassembling the rest gives the value back. */
  lemma EncodingBits(v: scalar)
    ensures v < 0x80 || (v % 64 < 64 && v == v / 64 * 64 + v % 64)
    ensures v / 4096 == v / 64 / 64 && v / 262144 == v / 4096 / 64
    ensures v / 64 == v / 4096 * 64 + v / 64 % 64
    ensures v / 4096 == v / 262144 * 64 + v / 4096 % 64
    ensures v / 262144 <= 4 && (v < 0x10000 ==> v / 4096 < 16) && (v < 0x800 ==> v / 64 < 32)
  {
  }

  lemma EncodedBytes(v: scalar)
    ensures var e := EncodeScalar(v);
            && 1 <= |e| <= 4 && |e| == LeadLength(e[0])
            && (v >= 0x80 ==> 0xC2 <= e[0] <= 0xF4)
            && forall j :: 1 <= j < |e| ==> 0x80 <= e[j] < 0xC0
  {
    EncodingBits(v);
  }

  lemma StripMarker(low: nat)
    ensures low < 64 ==> (0x80 + low) % 64 == low
    ensures low < 32 ==> (0xC0 + low) % 32 == low
    ensures low < 16 ==> (0xE0 + low) % 16 == low
    ensures low < 8 ==> (0xF0 + low) % 8 == low
  {
  }

  lemma CandidateOfEncoding(v: scalar)
    ensures var e := EncodeScalar(v); 1 <= |e| <= 4 && Candidate(e, |e|) == v
  {
    EncodingBits(v);
    var e := EncodeScalar(v);
    if v < 0x80 {
      CandidateByLength(e, 1);
    } else if v < 0x800 {
      CandidateOfTwo(v);
    } else if v < 0x10000 {
      CandidateOfThree(v);
    } else {
      CandidateOfFour(v);
    }
  }

  lemma CandidateOfTwo(v: scalar)
    requires 0x80 <= v < 0x800
    ensures Candidate(EncodeScalar(v), 2) == v
  {
    EncodingBits(v);
    CandidateByLength(EncodeScalar(v), 2);
    StripMarker(v / 64);
    StripMarker(v % 64);
  }

  lemma CandidateOfThree(v: scalar)
    requires 0x800 <= v < 0x10000
    ensures Candidate(EncodeScalar(v), 3) == v
  {
    EncodingBits(v);
    CandidateByLength(EncodeScalar(v), 3);
    StripMarker(v / 4096);
    StripMarker(v / 64 % 64);
    StripMarker(v % 64);
  }

  lemma CandidateOfFour(v: scalar)
    requires 0x10000 <= v
    ensures Candidate(EncodeScalar(v), 4) == v
  {
    EncodingBits(v);
    CandidateByLength(EncodeScalar(v), 4);
    StripMarker(v / 262144);
    StripMarker(v / 4096 % 64);
    StripMarker(v / 64 % 64);
    StripMarker(v % 64);
  }

  lemma CandidateStart(text: seq<byte>, n: nat)
    requires 2 <= n <= 4 && |text| >= 1
    ensures n <= |text| ==>
      Candidate(text, n) == Payload(text[0] as int % (if n == 2 then 32 else if n == 3 then 16 else 8), text[1..n])
  {
  }

  lemma PayloadNext(c: int, text: seq<byte>, k: nat, n: nat)
    requires k < n <= |text|
    ensures Payload(c, text[k..n]) == Payload(c * 64 + text[k] as int % 64, text[k + 1..n])
  {
    assert text[k..n][1..] == text[k + 1..n];
  }

  lemma DecodeFirstOfEncoding(v: scalar, rest: seq<byte>)
    ensures DecodeFirst(EncodeScalar(v) + rest) == Some(v)
  {
    var e := EncodeScalar(v);
    var text := e + rest;
    EncodedBytes(v);
    CandidateOfEncoding(v);
    assert text[1..|e|] == e[1..|e|];
    assert Candidate(text, |e|) == Candidate(e, |e|);
    assert e <= text;
  }

  function Decode(text: seq<byte>): Option<seq<scalar>> {
    if |text| == 0 then Some([])
    else match DecodeFirst(text)
      case None => None
      case Some(v) =>
        match Decode(text[|EncodeScalar(v)|..])
        case None => None
        case Some(vs) => Some([v] + vs)
  }

  /** Decoding inverts encoding, so a text spells at most one sequence of scalar values. */
  lemma {:induction false} DecodeOfEncoding(vs: seq<scalar>)
    ensures Decode(EncodeScalars(vs)) == Some(vs)
  {
    hide EncodeScalar, Candidate;
    if |vs| > 0 {
      DecodeFirstOfEncoding(vs[0], EncodeScalars(vs[1..]));
      EncodedBytes(vs[0]);
      DecodeOfEncoding(vs[1..]);
      assert EncodeScalars(vs)[|EncodeScalar(vs[0])|..] == EncodeScalars(vs[1..]);
      assert [vs[0]] + vs[1..] == vs;
    }
  }

  lemma {:induction false} EncodingOfDecode(text: seq<byte>)
    requires Decode(text).Some?
    ensures EncodeScalars(Decode(text).value) == text
  {
    hide EncodeScalar, Candidate;
    if |text| > 0 {
      var v := DecodeFirst(text).value;
      EncodingOfDecode(text[|EncodeScalar(v)|..]);
    }
  }

  lemma EncodingIsUnique(vs: seq<scalar>, ws: seq<scalar>)
    requires EncodeScalars(vs) == EncodeScalars(ws)
    ensures vs == ws
  {
    DecodeOfEncoding(vs);
    DecodeOfEncoding(ws);
  }

  /** RFC 3629 text: a concatenation of encodings of scalar values. */
  ghost predicate WellFormed(text: seq<byte>) {
    exists vs: seq<scalar> :: EncodeScalars(vs) == text
  }

  lemma WellFormedIffDecodes(text: seq<byte>)
    ensures WellFormed(text) <==> Decode(text).Some?
  {
    if Decode(text).Some? {
      EncodingOfDecode(text);
    }
    if vs: seq<scalar> :| EncodeScalars(vs) == text {
      DecodeOfEncoding(vs);
    }
  }

  /** The bytes after the lead, up to position `n`, are continuation bytes. */
  predicate Continuations(front: seq<byte>, n: nat)
    requires n <= |front|
  {
    forall k :: 1 <= k < n ==> 0x80 <= front[k] < 0xC0
  }

  /** Marker bits and payload bits together are the byte. */
  lemma MarkerBits(b: byte)
    ensures 0x80 <= b < 0xC0 ==> 0x80 + b as int % 64 == b
    ensures 0xC0 <= b < 0xE0 ==> 0xC0 + b as int % 32 == b
    ensures 0xE0 <= b < 0xF0 ==> 0xE0 + b as int % 16 == b
    ensures 0xF0 <= b < 0xF8 ==> 0xF0 + b as int % 8 == b
  {
  }

  lemma Shifted(hi: nat, lo: nat)
    requires lo < 64
    ensures (hi * 64 + lo) / 64 == hi && (hi * 64 + lo) % 64 == lo
  {
  }

  lemma ReencodeTwo(text: seq<byte>)
    requires |text| >= 2 && LeadLength(text[0]) == 2 && Continuations(text, 2)
    ensures var c := Candidate(text, 2); 0x80 <= c ==> c <= 0x10FFFF && (c < 0x800 && EncodeScalar(c) == text[..2])
  {
    CandidateByLength(text, 2);
    MarkerBits(text[0]);
    MarkerBits(text[1]);
    Shifted(text[0] as int % 32, text[1] as int % 64);
  }

  lemma ReencodeThree(text: seq<byte>)
    requires |text| >= 3 && LeadLength(text[0]) == 3 && Continuations(text, 3)
    ensures var c := Candidate(text, 3);
            0x800 <= c && !(0xD800 <= c <= 0xDFFF) ==> c < 0x10000 && EncodeScalar(c) == text[..3]
  {
    CandidateByLength(text, 3);
    MarkerBits(text[0]);
    MarkerBits(text[1]);
    MarkerBits(text[2]);
    var hi := text[0] as int % 16 * 64 + text[1] as int % 64;
    Shifted(text[0] as int % 16, text[1] as int % 64);
    Shifted(hi, text[2] as int % 64);
    var c := Candidate(text, 3);
    assert c / 4096 == hi / 64;
  }

  lemma ReencodeFour(text: seq<byte>)
    requires |text| >= 4 && LeadLength(text[0]) == 4 && Continuations(text, 4)
    ensures var c := Candidate(text, 4); 0x10000 <= c <= 0x10FFFF ==> EncodeScalar(c) == text[..4]
  {
    CandidateByLength(text, 4);
    MarkerBits(text[0]);
    MarkerBits(text[1]);
    MarkerBits(text[2]);
    MarkerBits(text[3]);
    var high := text[0] as int % 8 * 64 + text[1] as int % 64;
    var hi := high * 64 + text[2] as int % 64;
    Shifted(text[0] as int % 8, text[1] as int % 64);
    Shifted(high, text[2] as int % 64);
    Shifted(hi, text[3] as int % 64);
    var c := Candidate(text, 4);
    assert c / 4096 == hi / 64 && c / 262144 == high / 64;
  }

  /** The source's range checks accept the same front as re-encoding does. */
  lemma RangeChecksMeanReencoding(text: seq<byte>, n: nat, minimum: nat)
    requires 2 <= n <= 4 && n <= |text| && LeadLength(text[0]) == n
    requires minimum == if n == 2 then 0x80 else if n == 3 then 0x800 else 0x10000
    requires Continuations(text, n)
    ensures var c := Candidate(text, n);
            (DecodeFirst(text) == if c < minimum || c > 0x10FFFF || 0xD800 <= c <= 0xDFFF then None else Some(c))
    ensures DecodeFirst(text).Some? ==> |EncodeScalar(DecodeFirst(text).value)| == n
  {
    var c := Candidate(text, n);
    if n == 2 {
      ReencodeTwo(text);
    } else if n == 3 {
      ReencodeThree(text);
    } else {
      ReencodeFour(text);
    }
    var r := DecodeFirst(text);
    if r.Some? {
      EncodedBytes(r.value);
      assert EncodeScalar(r.value)[0] == text[0];
    }
  }

  /** A lead byte the source rejects, a missing byte or a bad continuation byte leaves nothing to decode. */
  lemma BadFront(text: seq<byte>, k: nat)
    requires |text| > 0 && text[0] >= 0x80
    requires || !(0xC2 <= text[0] <= 0xF4)
             || |text| < LeadLength(text[0])
             || (1 <= k < LeadLength(text[0]) <= |text| && !(0x80 <= text[k] < 0xC0))
    ensures DecodeFirst(text) == None
  {
    var r := DecodeFirst(text);
    if r.Some? {
      var e := EncodeScalar(r.value);
      assert e[0] == text[0] && |e| == LeadLength(e[0]);
      assert forall j :: 0 <= j < |e| ==> e[j] == text[j];
      EncodedBytes(r.value);
    }
  }

  /** Whether the rest of a text is well formed once its front has been looked at. */
  lemma FrontDecides(text: seq<byte>, start: nat, r: Option<scalar>, n: nat)
    requires start < |text| && r == DecodeFirst(text[start..])
    requires r.Some? ==> n == |EncodeScalar(r.value)|
    ensures r == None ==> !WellFormed(text[start..])
    ensures r.Some? ==> start + n <= |text| && (WellFormed(text[start..]) <==> WellFormed(text[start + n..]))
  {
    var front := text[start..];
    hide EncodeScalar, Candidate;
    WellFormedIffDecodes(front);
    if r.Some? {
      assert front[n..] == text[start + n..];
      WellFormedIffDecodes(front[n..]);
    }
  }

  lemma AsciiFront(text: seq<byte>)
    requires |text| > 0 && text[0] < 0x80
    ensures DecodeFirst(text) == Some(text[0]) && |EncodeScalar(text[0])| == 1
  {
    CandidateByLength(text, 1);
    assert EncodeScalar(text[0]) == text[..1];
  }

  method Utf8(text: seq<byte>) returns (ok: bool)
    ensures ok <==> WellFormed(text)
  {
    var i := 0;
    assert text == text[0..];
    while i < |text|
      invariant 0 <= i <= |text|
      invariant WellFormed(text) <==> WellFormed(text[i..])
    {
      var valid, consumed := ConsumeOne(text, i);
      if !valid {
        return false;
      }
      i := i + consumed;
    }
    assert EncodeScalars([]) == text[i..];
    return true;
  }

  /** One round of the outer loop: reads the encoded scalar value starting at `start`. */
  method ConsumeOne(text: seq<byte>, start: nat) returns (valid: bool, consumed: nat)
    requires start < |text|
    ensures valid ==> 0 < consumed <= |text| - start
    ensures WellFormed(text[start..]) <==> valid && WellFormed(text[start + consumed..])
  {
    hide EncodeScalar, Candidate, Payload, WellFormed, DecodeFirst;
    ghost var front := text[start..];
    var i := start;
    var c: int := text[i];
    i := i + 1;
    var remaining, minimum := 0, 0;
    if c < 128 {
      AsciiFront(front);
      FrontDecides(text, start, Some(front[0]), 1);
      return true, 1;
    }
    if 0xC2 <= c <= 0xDF {
      c, remaining, minimum := c % 32, 1, 0x80;
    } else if 0xE0 <= c <= 0xEF {
      c, remaining, minimum := c % 16, 2, 0x800;
    } else if 0xF0 <= c <= 0xF4 {
      c, remaining, minimum := c % 8, 3, 0x10000;
    } else {
      BadFront(front, 0);
      FrontDecides(text, start, None, 0);
      return false, 0;
    }
    ghost var n := remaining + 1;
    CandidateStart(front, n);
    while remaining > 0
      invariant 0 <= remaining < n && i == start + n - remaining <= |text|
      invariant Continuations(front, n - remaining)
      invariant |front| >= n ==> Payload(c, front[n - remaining..n]) == Candidate(front, n)
    {
      remaining := remaining - 1;
      if i == |text| {
        BadFront(front, 0);
        FrontDecides(text, start, None, 0);
        return false, 0;
      }
      var next := text[i];
      i := i + 1;
      ghost var k := n - remaining - 1;
      assert next == front[k];
      if !(0x80 <= next < 0xC0) {
        BadFront(front, k);
        FrontDecides(text, start, None, 0);
        return false, 0;
      }
      if |front| >= n {
        PayloadNext(c, front, k, n);
      }
      c := c * 64 + next as int % 64;
    }
    assert front[n..n] == [];
    PayloadCons(c, 0, []);
    RangeChecksMeanReencoding(front, n, minimum);
    FrontDecides(text, start, DecodeFirst(front), n);
    if c < minimum || c > 0x10FFFF || 0xD800 <= c <= 0xDFFF {
      return false, 0;
    }
    return true, i - start;
  }
}
