/** Base64 (RFC 4648, section 4): the effect decoder and the fixture's encoder. */
module Base64 {
  import opened Basics

  const CLIPBOARD_LIMIT: nat := 1024 * 1024
  const MAX_TEXT: nat := (CLIPBOARD_LIMIT + 2) / 3 * 4
  const PAD: byte := 61

  /** The symbol for a six-bit value: `A`-`Z`, `a`-`z`, `0`-`9`, `+`, `/`. */
  function Symbol(v: nat): (c: byte)
    requires v < 64
    ensures c != PAD && Digit(c) == Some(v)
  {
    if v < 26 then 65 + v
    else if v < 52 then 71 + v
    else if v < 62 then v - 4
    else if v == 62 then 43
    else 47
  }

  /** The position of a symbol in the alphabet, if it has one. */
  function Digit(c: byte): (r: Option<nat>)
    ensures r.Some? ==> r.value < 64
  {
    if 65 <= c <= 90 then Some(c - 65)
    else if 97 <= c <= 122 then Some(c - 71)
    else if 48 <= c <= 57 then Some(c + 4)
    else if c == 43 then Some(62)
    else if c == 47 then Some(63)
    else None
  }

  lemma SymbolOfDigit(c: byte)
    requires Digit(c).Some?
    ensures Symbol(Digit(c).value) == c
  {
  }

  /** Up to three octets read as one 24-bit number. */
  function GroupOctets(group: seq<byte>): (n: nat)
    requires 1 <= |group| <= 3
    ensures n < 16777216
  {
    group[0] as int * 65536 + (if |group| > 1 then group[1] as int * 256 else 0) + (if |group| > 2 then group[2] else 0)
  }

  /** Three octets as four symbols; the last one or two are dropped from the number and shown as padding. */
  function EncodeGroup(group: seq<byte>): (text: seq<byte>)
    requires 1 <= |group| <= 3
    ensures |text| == 4
  {
    var n := GroupOctets(group);
    [Symbol(n / 262144), Symbol(n / 4096 % 64),
     if |group| > 1 then Symbol(n / 64 % 64) else PAD,
     if |group| > 2 then Symbol(n % 64) else PAD]
  }

  function Encode(input: seq<byte>): (text: seq<byte>)
    ensures |text| == (|input| + 2) / 3 * 4
  {
    if |input| == 0 then []
    else if |input| <= 3 then EncodeGroup(input)
    else EncodeGroup(input[..3]) + Encode(input[3..])
  }

  predicate IsDigit(c: byte) {
    Digit(c).Some?
  }

  /** Number of padding characters of one group, or `None` when it is not a group at all. */
  function GroupPadding(g: seq<byte>): (r: Option<nat>)
    requires |g| == 4
    ensures r.Some? ==> r.value <= 2
  {
    if !IsDigit(g[0]) || !IsDigit(g[1]) then None
    else if IsDigit(g[2]) && IsDigit(g[3]) then Some(0)
    else if IsDigit(g[2]) && g[3] == PAD then Some(1)
    else if g[2] == PAD && g[3] == PAD then Some(2)
    else None
  }

  /** Padded text: whole groups of four, padding only in the last one. Yields the padding count. */
  function TextPadding(s: seq<byte>): (r: Option<nat>)
    ensures r.Some? ==> r.value <= 2 && |s| % 4 == 0
    ensures r.Some? && r.value > 0 ==> |s| >= 4
  {
    if |s| == 0 then Some(0)
    else if |s| < 4 then None
    else if |s| == 4 then GroupPadding(s)
    else if GroupPadding(s[..4]) == Some(0) then TextPadding(s[4..])
    else None
  }

  function ValueOf(c: byte): (v: nat)
    ensures v < 64
  {
    if IsDigit(c) then Digit(c).value else 0
  }

  function GroupNumber(g: seq<byte>): (n: nat)
    requires |g| == 4
    ensures n < 16777216
  {
    ValueOf(g[0]) * 262144 + ValueOf(g[1]) * 4096 + ValueOf(g[2]) * 64 + ValueOf(g[3])
  }

  function DecodeGroup(g: seq<byte>): (out: seq<byte>)
    requires |g| == 4 && GroupPadding(g).Some?
    ensures |out| == 3 - GroupPadding(g).value
  {
    var n := GroupNumber(g);
    [n / 65536, n / 256 % 256, n % 256][..3 - GroupPadding(g).value]
  }

  function DecodeText(s: seq<byte>): (out: seq<byte>)
    requires TextPadding(s).Some?
    ensures |out| == |s| / 4 * 3 - TextPadding(s).value
  {
    if |s| == 0 then []
    else if |s| == 4 then DecodeGroup(s)
    else DecodeGroup(s[..4]) + DecodeText(s[4..])
  }

  /** The texts the terminal takes: padded, and not longer than the clipboard limit either way. */
  predicate Acceptable(s: seq<byte>) {
    TextPadding(s).Some? && |s| <= MAX_TEXT && |s| / 4 * 3 - TextPadding(s).value <= CLIPBOARD_LIMIT
  }

  lemma GroupRoundTrip(group: seq<byte>)
    requires 1 <= |group| <= 3
    ensures GroupPadding(EncodeGroup(group)) == Some(3 - |group|)
    ensures DecodeGroup(EncodeGroup(group)) == group
  {
    EncodedNumber(group);
    var b: nat := if |group| > 1 then group[1] else 0;
    var c: nat := if |group| > 2 then group[2] else 0;
    EightBits(group[0], b, c);
  }

  /** The digits of an encoded group spell the number of its octets. */
  lemma EncodedNumber(group: seq<byte>)
    requires 1 <= |group| <= 3
    ensures GroupNumber(EncodeGroup(group)) == GroupOctets(group)
  {
    var b: nat := if |group| > 1 then group[1] else 0;
    var c: nat := if |group| > 2 then group[2] else 0;
    var n := GroupOctets(group);
    SixBits(n);
    LowBits(group[0], b, c);
  }

  lemma SixBits(n: nat)
    requires n < 16777216
    ensures n / 262144 * 262144 + n / 4096 % 64 * 4096 + n / 64 % 64 * 64 + n % 64 == n
    ensures n / 262144 < 64
  {
    assert n == n / 64 * 64 + n % 64;
    assert n / 64 / 64 == n / 4096 && n / 4096 / 64 == n / 262144;
    assert n / 64 == n / 4096 * 64 + n / 64 % 64;
    assert n / 4096 == n / 262144 * 64 + n / 4096 % 64;
  }

  lemma EightBits(a: byte, b: nat, c: nat)
    requires b < 256 && c < 256
    ensures var n := a * 65536 + b * 256 + c; n / 65536 == a && n / 256 % 256 == b && n % 256 == c
  {
    var n := a * 65536 + b * 256 + c;
    assert n == (a * 256 + b) * 256 + c;
    assert n / 256 == a * 256 + b;
  }

  lemma LowBits(a: byte, b: nat, c: nat)
    requires b < 256 && c < 256
    ensures var n := a * 65536 + b * 256 + c;
            (c == 0 ==> n % 64 == 0) && (b == 0 && c == 0 ==> n / 64 % 64 == 0)
  {
    var n := a * 65536 + b * 256 + c;
    if c == 0 {
      assert n == 64 * (a * 1024 + b * 4);
      if b == 0 {
        assert n / 64 == 64 * (a * 16);
      }
    }
  }

  /** Decoding undoes encoding for every input. */
  lemma {:induction false} DecodeOfEncode(input: seq<byte>)
    ensures TextPadding(Encode(input)).Some?
    ensures DecodeText(Encode(input)) == input
  {
    if |input| == 0 {
    } else if |input| <= 3 {
      GroupRoundTrip(input);
    } else {
      var group, rest := EncodeGroup(input[..3]), Encode(input[3..]);
      GroupRoundTrip(input[..3]);
      DecodeOfEncode(input[3..]);
      assert Encode(input)[..4] == group && Encode(input)[4..] == rest;
      assert input == input[..3] + input[3..];
    }
  }

  /** Up to the clipboard limit the terminal accepts whatever the fixture encodes, and nothing is lost. */
  lemma ClipboardRoundTrip(input: seq<byte>)
    ensures Acceptable(Encode(input)) <==> |input| <= CLIPBOARD_LIMIT
    ensures TextPadding(Encode(input)).Some? && DecodeText(Encode(input)) == input
  {
    hide TextPadding, DecodeText, Encode;
    DecodeOfEncode(input);
    var groups := (|input| + 2) / 3;
    assert |Encode(input)| / 4 == groups;
    assert |input| <= CLIPBOARD_LIMIT ==> groups <= (CLIPBOARD_LIMIT + 2) / 3;
  }

  /** The bits a padded group does not use are zero. */
  predicate CanonicalGroup(g: seq<byte>)
    requires |g| == 4
  {
    match GroupPadding(g)
    case None => false
    case Some(p) => (p == 2 ==> ValueOf(g[1]) % 16 == 0) && (p == 1 ==> ValueOf(g[2]) % 4 == 0)
  }

  predicate Canonical(s: seq<byte>) {
    |s| < 4 || CanonicalGroup(s[|s| - 4..])
  }

  lemma GroupReencode(g: seq<byte>)
    requires |g| == 4 && GroupPadding(g).Some?
    ensures EncodeGroup(DecodeGroup(g)) == g <==> CanonicalGroup(g)
  {
    var p := GroupPadding(g).value;
    ReencodedDigits(g);
    SymbolOfDigit(g[0]);
    SymbolOfDigit(g[1]);
    if p < 2 {
      SymbolOfDigit(g[2]);
    }
    if p == 0 {
      SymbolOfDigit(g[3]);
    }
  }

  /** The digits of a decoded group: as written, except that bits beyond the last octet are cleared. */
  lemma ReencodedDigits(g: seq<byte>)
    requires |g| == 4 && GroupPadding(g).Some?
    ensures var n := GroupOctets(DecodeGroup(g));
            && n / 262144 == ValueOf(g[0])
            && n / 4096 % 64 == ValueOf(g[1]) - (if GroupPadding(g).value == 2 then ValueOf(g[1]) % 16 else 0)
            && (GroupPadding(g).value < 2 ==>
                n / 64 % 64 == ValueOf(g[2]) - if GroupPadding(g).value == 1 then ValueOf(g[2]) % 4 else 0)
            && (GroupPadding(g).value == 0 ==> n % 64 == ValueOf(g[3]))
  {
    hide Digit, Symbol;
    var p := GroupPadding(g).value;
    var n := GroupNumber(g);
    if p == 0 {
      ThreeOctets(n);
      GroupDigits(ValueOf(g[0]), ValueOf(g[1]), ValueOf(g[2]), ValueOf(g[3]));
    } else if p == 1 {
      TruncatedOne(ValueOf(g[0]), ValueOf(g[1]), ValueOf(g[2]));
    } else {
      TruncatedTwo(ValueOf(g[0]), ValueOf(g[1]));
    }
  }

  lemma ThreeOctets(n: nat)
    ensures n / 65536 * 65536 + n / 256 % 256 * 256 + n % 256 == n
  {
    assert n / 256 / 256 == n / 65536;
  }

  lemma GroupDigits(v0: nat, v1: nat, v2: nat, v3: nat)
    requires v0 < 64 && v1 < 64 && v2 < 64 && v3 < 64
    ensures var n := v0 * 262144 + v1 * 4096 + v2 * 64 + v3;
            n / 262144 == v0 && n / 4096 % 64 == v1 && n / 64 % 64 == v2 && n % 64 == v3
  {
    var n := v0 * 262144 + v1 * 4096 + v2 * 64 + v3;
    assert n == ((v0 * 64 + v1) * 64 + v2) * 64 + v3;
    assert n / 64 == (v0 * 64 + v1) * 64 + v2;
    assert n / 4096 == v0 * 64 + v1;
  }

  lemma TruncatedOne(v0: nat, v1: nat, v2: nat)
    requires v0 < 64 && v1 < 64 && v2 < 64
    ensures var n := v0 * 262144 + v1 * 4096 + v2 * 64;
            var m := n / 65536 * 65536 + n / 256 % 256 * 256;
            m / 262144 == v0 && m / 4096 % 64 == v1 && m / 64 % 64 == v2 - v2 % 4
  {
    var n := v0 * 262144 + v1 * 4096 + v2 * 64;
    var q := v0 * 1024 + v1 * 16 + v2 / 4;
    assert v2 == v2 / 4 * 4 + v2 % 4;
    assert n == 256 * q + v2 % 4 * 64;
    assert n / 256 == q && n / 65536 == q / 256;
    assert q == q / 256 * 256 + q % 256;
    GroupDigits(v0, v1, v2 / 4 * 4, 0);
  }

  lemma TruncatedTwo(v0: nat, v1: nat)
    requires v0 < 64 && v1 < 64
    ensures var n := v0 * 262144 + v1 * 4096;
            var m := n / 65536 * 65536;
            m / 262144 == v0 && m / 4096 % 64 == v1 - v1 % 16
  {
    var n := v0 * 262144 + v1 * 4096;
    var q := v0 * 4 + v1 / 16;
    assert v1 == v1 / 16 * 16 + v1 % 16;
    assert n == 65536 * q + v1 % 16 * 4096;
    assert n / 65536 == q;
    GroupDigits(v0, v1 / 16 * 16, 0, 0);
  }

  lemma FullGroupIsCanonical(g: seq<byte>)
    requires |g| == 4 && GroupPadding(g) == Some(0)
    ensures CanonicalGroup(g)
  {
  }

  /** The decoder is lenient about unused bits: re-encoding gives the text back exactly when they are zero. */
  lemma {:induction false} EncodeOfDecode(s: seq<byte>)
    requires TextPadding(s).Some?
    ensures Encode(DecodeText(s)) == s <==> Canonical(s)
  {
    hide EncodeGroup, DecodeGroup, GroupPadding, CanonicalGroup;
    if |s| == 0 {
    } else if |s| == 4 {
      GroupReencode(s);
      assert s[0..] == s;
    } else {
      GroupReencode(s[..4]);
      FullGroupIsCanonical(s[..4]);
      EncodeOfDecode(s[4..]);
      var head, tail := DecodeGroup(s[..4]), DecodeText(s[4..]);
      assert |head| == 3 && |tail| >= 1;
      assert (head + tail)[..3] == head && (head + tail)[3..] == tail;
      assert s == s[..4] + s[4..];
      assert s[4..][|s[4..]| - 4..] == s[|s| - 4..];
      assert Encode(head + tail)[4..] == Encode(tail);
      assert Encode(head + tail)[..4] == s[..4];
    }
  }

  /** A group whose fourth six bits are unused but not zero: two texts decode to the same octet. */
  lemma LenientExample()
    ensures DecodeText([81, 82, PAD, PAD]) == DecodeText([81, 81, PAD, PAD]) == [65]
    ensures Encode(DecodeText([81, 82, PAD, PAD])) != [81, 82, PAD, PAD]
  {
    EncodeOfDecode([81, 82, PAD, PAD]);
    assert [81, 82, PAD, PAD][0..] == [81, 82, PAD, PAD];
  }

  lemma EncodeStep(input: seq<byte>, at: nat)
    requires at < |input|
    ensures var next := if at + 3 < |input| then at + 3 else |input|;
            Encode(input[at..]) == EncodeGroup(input[at..next]) + Encode(input[next..])
  {
    var rest := input[at..];
    if |rest| > 3 {
      assert rest[..3] == input[at..at + 3] && rest[3..] == input[at + 3..];
    } else {
      assert rest == input[at..|input|] && input[|input|..] == [];
    }
  }

  method EncodeBase64(input: seq<byte>) returns (output: seq<byte>)
    ensures output == Encode(input)
  {
    hide Encode, EncodeGroup, Symbol;
    output := [];
    var at := 0;
    assert input[0..] == input;
    while at < |input|
      invariant 0 <= at <= |input|
      invariant Encode(input) == output + Encode(input[at..])
    {
      var chunk := input[at..if at + 3 < |input| then at + 3 else |input|];
      var first := chunk[0];
      var second := if |chunk| > 1 then chunk[1] else 0;
      var third := if |chunk| > 2 then chunk[2] else 0;
      EncodeStep(input, at);
      ShiftedGroup(chunk);
      ghost var before := output;
      output := output + [Symbol(first / 4)];
      output := output + [Symbol(first % 4 * 16 + second / 16)];
      output := output + [if |chunk| > 1 then Symbol(second % 16 * 4 + third / 64) else PAD];
      output := output + [if |chunk| > 2 then Symbol(third % 64) else PAD];
      assert output == before + EncodeGroup(chunk);
      at := at + |chunk|;
    }
    assert Encode(input[at..]) == [] by {
      assert |Encode(input[at..])| == 0;
    }
  }

  /** The shifts and masks of the encoder pick the six-bit digits of the group's number. */
  lemma ShiftedGroup(chunk: seq<byte>)
    requires 1 <= |chunk| <= 3
    ensures var first := chunk[0];
            var second := if |chunk| > 1 then chunk[1] else 0;
            var third := if |chunk| > 2 then chunk[2] else 0;
            EncodeGroup(chunk) ==
            [Symbol(first / 4), Symbol(first % 4 * 16 + second / 16),
             if |chunk| > 1 then Symbol(second % 16 * 4 + third / 64) else PAD,
             if |chunk| > 2 then Symbol(third % 64) else PAD]
  {
    var a: int := chunk[0];
    var b: int := if |chunk| > 1 then chunk[1] else 0;
    var c: int := if |chunk| > 2 then chunk[2] else 0;
    var n := GroupOctets(chunk);
    var v0, v1, v2, v3 := a / 4, a % 4 * 16 + b / 16, b % 16 * 4 + c / 64, c % 64;
    assert n == v0 * 262144 + v1 * 4096 + v2 * 64 + v3;
    GroupDigits(v0, v1, v2, v3);
  }

  function Partial(g: seq<byte>, n: nat): nat
    requires n <= |g|
  {
    if n == 0 then 0 else Partial(g, n - 1) * 64 + ValueOf(g[n - 1])
  }

  lemma PartialIsNumber(g: seq<byte>)
    requires |g| == 4
    ensures Partial(g, 4) == GroupNumber(g)
  {
    assert Partial(g, 1) == ValueOf(g[0]);
    assert Partial(g, 2) == Partial(g, 1) * 64 + ValueOf(g[1]);
    assert Partial(g, 3) == Partial(g, 2) * 64 + ValueOf(g[2]);
    assert Partial(g, 4) == Partial(g, 3) * 64 + ValueOf(g[3]);
  }

  /** Reads one group of four; padding is taken only in the last group and only at its end. */
  method ReadGroup(g: seq<byte>, last: bool) returns (ok: bool, value: nat, padding: nat)
    requires |g| == 4
    ensures ok <==> GroupPadding(g).Some? && (GroupPadding(g) == Some(0) || last)
    ensures ok ==> padding == GroupPadding(g).value && value == GroupNumber(g)
  {
    value, padding := 0, 0;
    var n := 0;
    while n < 4
      invariant 0 <= n <= 4
      invariant forall k :: 0 <= k < n && k < 2 ==> IsDigit(g[k])
      invariant n <= 2 ==> padding == 0
      invariant n >= 3 ==> IsDigit(g[2]) || (last && g[2] == PAD)
      invariant n == 3 ==> padding == if IsDigit(g[2]) then 0 else 1
      invariant n == 4 && IsDigit(g[2]) ==> if padding == 0 then IsDigit(g[3]) else padding == 1 && g[3] == PAD && last
      invariant n == 4 && !IsDigit(g[2]) ==> padding == 2 && g[3] == PAD
      invariant value == Partial(g, n)
    {
      var c := g[n];
      if c == PAD && n >= 2 && last {
        padding := padding + 1;
        value := value * 64;
      } else {
        if Digit(c).None? || padding > 0 {
          return false, value, padding;
        }
        value := value * 64 + Digit(c).value;
      }
      n := n + 1;
    }
    PartialIsNumber(g);
    return true, value, padding;
  }

  lemma DecodeStep(s: seq<byte>, i: nat)
    requires i % 4 == 0 && |s| % 4 == 0 && i < |s|
    ensures i + 4 <= |s|
    ensures var g := s[i..i + 4];
            && (TextPadding(s[i..]).Some? <==>
                GroupPadding(g).Some? && (GroupPadding(g) == Some(0) || i + 4 == |s|) && TextPadding(s[i + 4..]).Some?)
            && (TextPadding(s[i..]).Some? ==> DecodeText(s[i..]) == DecodeGroup(g) + DecodeText(s[i + 4..]))
  {
    var rest := s[i..];
    if i + 4 < |s| {
      assert rest[..4] == s[i..i + 4] && rest[4..] == s[i + 4..];
    } else {
      assert rest == s[i..i + 4] && s[i + 4..] == [];
    }
  }

  /** The source's decoder: checks and decodes group by group. */
  method DecodeBase64(encoded: seq<byte>) returns (ok: bool, decoded: seq<byte>)
    ensures ok <==> Acceptable(encoded)
    ensures ok ==> decoded == DecodeText(encoded)
  {
    hide TextPadding, DecodeText, GroupPadding, DecodeGroup, GroupNumber;
    if |encoded| % 4 != 0 || |encoded| > MAX_TEXT {
      return false, [];
    }
    decoded := [];
    var i := 0;
    assert encoded[0..] == encoded;
    while i < |encoded|
      invariant 0 <= i <= |encoded| && i % 4 == 0
      invariant TextPadding(encoded).Some? <==> TextPadding(encoded[i..]).Some?
      invariant TextPadding(encoded).Some? ==> DecodeText(encoded) == decoded + DecodeText(encoded[i..])
    {
      DecodeStep(encoded, i);
      ghost var g := encoded[i..i + 4];
      var valid, value, padding := ReadGroup(encoded[i..i + 4], i + 4 == |encoded|);
      if !valid {
        return false, decoded;
      }
      var octets := [value / 65536];
      if padding < 2 {
        octets := octets + [value / 256 % 256];
      }
      if padding == 0 {
        octets := octets + [value % 256];
      }
      GroupDecodes(g, octets);
      decoded := decoded + octets;
      i := i + 4;
    }
    NothingLeft(encoded[i..]);
    return |decoded| <= CLIPBOARD_LIMIT, decoded;
  }

  lemma GroupDecodes(g: seq<byte>, octets: seq<byte>)
    requires |g| == 4 && GroupPadding(g).Some?
    requires var n := GroupNumber(g); octets == [n / 65536, n / 256 % 256, n % 256][..3 - GroupPadding(g).value]
    ensures DecodeGroup(g) == octets
  {
  }

  lemma NothingLeft(s: seq<byte>)
    requires |s| == 0
    ensures TextPadding(s) == Some(0) && DecodeText(s) == []
  {
  }
}
