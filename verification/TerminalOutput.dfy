/** Output delivery into the terminal: chunked observation of control sequences at the VT's ground boundary. */
module TerminalOutput {
  import opened Basics
  import opened Base64
  import opened TerminalEffects

  const SEQUENCE_LIMIT: nat := (CLIPBOARD_LIMIT + 2) / 3 * 4 + 16

  /** The VT parser, known only as a byte automaton with a ground state. */
  datatype Vt<!S> = Vt(step: (S, byte) -> S, ground: S -> bool)

  /** The parser contract the fast path relies on: in ground, every byte but ESC stays in ground. */
  ghost predicate OnlyEscapeLeavesGround<S(!new)>(vt: Vt<S>) {
    forall s: S, b: byte :: vt.ground(s) && b != ESC ==> vt.ground(vt.step(s, b))
  }

  function Feed<S>(vt: Vt<S>, s: S, bytes: seq<byte>): S {
    if |bytes| == 0 then s else Feed(vt, vt.step(s, bytes[0]), bytes[1..])
  }

  // ---- The byte-at-a-time reference machine --------------------------------

  /** `open` holds every byte since the VT left ground, if it left ground while this owner was writing. */
  datatype Reference<!S> = Reference(vt: S, owner: nat, open: Option<seq<byte>>)

  function Byte<S>(vt: Vt<S>, m: Reference<S>, b: byte): (r: (Reference<S>, seq<seq<byte>>)) {
    var next := vt.step(m.vt, b);
    if vt.ground(m.vt) then (m.(vt := next, open := if b == ESC then Some([ESC]) else None), [])
    else
      var grown := if m.open.Some? then Some(m.open.value + [b]) else None;
      if vt.ground(next) then (m.(vt := next, open := None), if grown.Some? then [grown.value] else [])
      else (m.(vt := next, open := grown), [])
  }

  /** Feeds bytes one at a time; yields the excursions from ground completed on the way, in order. */
  function Bytes<S>(vt: Vt<S>, m: Reference<S>, bytes: seq<byte>): (r: (Reference<S>, seq<seq<byte>>))
    ensures r.0.owner == m.owner
    decreases |bytes|
  {
    if |bytes| == 0 then (m, [])
    else
      var (m1, e1) := Byte(vt, m, bytes[0]);
      var (m2, e2) := Bytes(vt, m1, bytes[1..]);
      (m2, e1 + e2)
  }

  datatype Command = Command(owner: nat, bytes: seq<byte>)

  /** A write by another owner closes whatever was being collected. */
  function Own<S>(m: Reference<S>, owner: nat): Reference<S> {
    m.(owner := owner, open := if m.owner == owner then m.open else None)
  }

  function Commands<S>(vt: Vt<S>, m: Reference<S>, commands: seq<Command>): (Reference<S>, seq<seq<byte>>)
    decreases |commands|
  {
    if |commands| == 0 then (m, [])
    else
      var (m1, e1) := Bytes(vt, Own(m, commands[0].owner), commands[0].bytes);
      var (m2, e2) := Commands(vt, m1, commands[1..]);
      (m2, e1 + e2)
  }

  /** The excursions that reach the effect decoder: OSC sequences of at most `SEQUENCE_LIMIT` bytes. */
  predicate Kept(x: seq<byte>) {
    2 <= |x| <= SEQUENCE_LIMIT && x[0] == ESC && x[1] == 93
  }

  function KeptOnly(xs: seq<seq<byte>>): seq<seq<byte>> {
    if |xs| == 0 then [] else (if Kept(xs[0]) then [xs[0]] else []) + KeptOnly(xs[1..])
  }

  lemma {:induction false} KeptOnlyAppend(a: seq<seq<byte>>, b: seq<seq<byte>>)
    ensures KeptOnly(a + b) == KeptOnly(a) + KeptOnly(b)
  {
    if |a| == 0 {
      assert a + b == b;
    } else {
      assert (a + b)[1..] == a[1..] + b;
      KeptOnlyAppend(a[1..], b);
    }
  }

  lemma {:induction false} BytesAppend<S>(vt: Vt<S>, m: Reference<S>, a: seq<byte>, b: seq<byte>)
    ensures Bytes(vt, m, a + b).0 == Bytes(vt, Bytes(vt, m, a).0, b).0
    ensures Bytes(vt, m, a + b).1 == Bytes(vt, m, a).1 + Bytes(vt, Bytes(vt, m, a).0, b).1
    decreases |a|
  {
    if |a| == 0 {
      assert a + b == b;
    } else {
      assert (a + b)[0] == a[0] && (a + b)[1..] == a[1..] + b;
      BytesAppend(vt, Byte(vt, m, a[0]).0, a[1..], b);
    }
  }

  lemma {:induction false} FeedAppend<S>(vt: Vt<S>, s: S, a: seq<byte>, b: seq<byte>)
    ensures Feed(vt, s, a + b) == Feed(vt, Feed(vt, s, a), b)
    decreases |a|
  {
    if |a| == 0 {
      assert a + b == b;
    } else {
      assert (a + b)[0] == a[0] && (a + b)[1..] == a[1..] + b;
      FeedAppend(vt, vt.step(s, a[0]), a[1..], b);
    }
  }

  lemma {:induction false} BytesFeed<S>(vt: Vt<S>, m: Reference<S>, bytes: seq<byte>)
    ensures Bytes(vt, m, bytes).0.vt == Feed(vt, m.vt, bytes)
    decreases |bytes|
  {
    if |bytes| > 0 {
      BytesFeed(vt, Byte(vt, m, bytes[0]).0, bytes[1..]);
    }
  }

  /** In ground, a stretch without ESC changes nothing but the VT's own state. */
  lemma {:induction false} GroundStretch<S(!new)>(vt: Vt<S>, m: Reference<S>, bytes: seq<byte>)
    requires OnlyEscapeLeavesGround(vt) && vt.ground(m.vt)
    requires ESC !in bytes
    ensures vt.ground(Feed(vt, m.vt, bytes))
    ensures Bytes(vt, m, bytes) == (m.(vt := Feed(vt, m.vt, bytes), open := if |bytes| == 0 then m.open else None), [])
    decreases |bytes|
  {
    if |bytes| > 0 {
      assert bytes[0] != ESC;
      var m1 := m.(vt := vt.step(m.vt, bytes[0]), open := None);
      assert Byte(vt, m, bytes[0]) == (m1, []);
      GroundStretch(vt, m1, bytes[1..]);
      var none: seq<seq<byte>> := [];
      assert none + none == none;
    }
  }

  /** The VT stays away from ground through every proper prefix. */
  predicate Away<S>(vt: Vt<S>, s: S, bytes: seq<byte>)
    decreases |bytes|
  {
    !vt.ground(s) && (|bytes| > 1 ==> Away(vt, vt.step(s, bytes[0]), bytes[1..]))
  }

  /** Away from ground, a stretch is appended to the open excursion, which its last byte may complete. */
  lemma {:induction false} AwayStretch<S>(vt: Vt<S>, m: Reference<S>, bytes: seq<byte>)
    requires |bytes| > 0 && Away(vt, m.vt, bytes)
    ensures var end := Feed(vt, m.vt, bytes);
            var grown := if m.open.Some? then Some(m.open.value + bytes) else None;
            Bytes(vt, m, bytes) ==
            if vt.ground(end) then (m.(vt := end, open := None), if grown.Some? then [grown.value] else [])
            else (m.(vt := end, open := grown), [])
    decreases |bytes|
  {
    if |bytes| == 1 {
      assert bytes == [bytes[0]];
      OneByte(vt, m, bytes[0]);
    } else {
      var next := vt.step(m.vt, bytes[0]);
      assert !vt.ground(next);
      AwayStretch(vt, Byte(vt, m, bytes[0]).0, bytes[1..]);
      var rest := Bytes(vt, Byte(vt, m, bytes[0]).0, bytes[1..]).1;
      assert Byte(vt, m, bytes[0]).1 == [] && [] + rest == rest;
      if m.open.Some? {
        assert m.open.value + [bytes[0]] + bytes[1..] == m.open.value + bytes;
      }
    }
  }

  // ---- What the runtime keeps of the open excursion ------------------------

  /** The collected sequence: dropped for good once it is no OSC or grows past the limit. */
  function Bounded(open: Option<seq<byte>>): seq<byte> {
    if open == None || |open.value| > SEQUENCE_LIMIT || (|open.value| > 1 && open.value[1] != 93) then []
    else open.value
  }

  /** Appending `consumed` bytes the way the runtime does keeps that relation. */
  function Collect(sequence: seq<byte>, consumed: seq<byte>): seq<byte> {
    if sequence == [] || |sequence| + |consumed| > SEQUENCE_LIMIT then []
    else
      var grown := sequence + consumed;
      if |grown| > 1 && grown[1] != 93 then [] else grown
  }

  lemma CollectIsBounded(open: Option<seq<byte>>, consumed: seq<byte>)
    requires open.Some? ==> |open.value| > 0
    ensures Collect(Bounded(open), consumed) == Bounded(if open.Some? then Some(open.value + consumed) else None)
  {
  }

  lemma BoundedIsKept(x: seq<byte>)
    requires |x| >= 2 && x[0] == ESC
    ensures Bounded(Some(x)) == if Kept(x) then x else []
  {
  }

  lemma {:induction false} AwayAppend<S>(vt: Vt<S>, s: S, bytes: seq<byte>, b: byte)
    requires !vt.ground(s)
    requires |bytes| > 0 ==> Away(vt, s, bytes) && !vt.ground(Feed(vt, s, bytes))
    ensures Away(vt, s, bytes + [b])
    decreases |bytes|
  {
    if |bytes| > 0 {
      assert (bytes + [b])[0] == bytes[0] && (bytes + [b])[1..] == bytes[1..] + [b];
      if |bytes| == 1 {
        assert bytes[1..] == [];
        assert Feed(vt, s, bytes) == Feed(vt, vt.step(s, bytes[0]), []);
      }
      AwayAppend(vt, vt.step(s, bytes[0]), bytes[1..], b);
    }
  }

  /** The fast ground branch: up to and including the next ESC, or everything when there is none. */
  lemma GroundChunk<S(!new)>(vt: Vt<S>, m: Reference<S>, bytes: seq<byte>, offset: nat, length: nat)
    requires OnlyEscapeLeavesGround(vt) && vt.ground(m.vt) && offset < |bytes|
    requires var escape := IndexFrom(bytes, ESC, offset);
             length == if escape < |bytes| then escape - offset + 1 else |bytes| - offset
    ensures 0 < length <= |bytes| - offset
    ensures var stretch := bytes[offset..offset + length];
            var open := if IndexFrom(bytes, ESC, offset) < |bytes| then Some([ESC]) else None;
            Bytes(vt, m, stretch) == (m.(vt := Feed(vt, m.vt, stretch), open := open), [])
  {
    hide IndexFrom;
    var escape := IndexFrom(bytes, ESC, offset);
    var quiet := bytes[offset..escape];
    var stretch := bytes[offset..offset + length];
    assert ESC !in quiet;
    GroundStretch(vt, m, quiet);
    if escape < |bytes| {
      assert stretch == quiet + [ESC];
      var m1 := Bytes(vt, m, quiet).0;
      BytesAppend(vt, m, quiet, [ESC]);
      FeedAppend(vt, m.vt, quiet, [ESC]);
      OneByte(vt, m1, ESC);
    } else {
      assert stretch == quiet;
    }
  }

  lemma OneByte<S>(vt: Vt<S>, m: Reference<S>, b: byte)
    ensures Bytes(vt, m, [b]) == Byte(vt, m, b)
    ensures Feed(vt, m.vt, [b]) == vt.step(m.vt, b)
  {
    assert [b][1..] == [];
    assert Feed(vt, vt.step(m.vt, b), []) == vt.step(m.vt, b);
    assert Byte(vt, m, b).1 + [] == Byte(vt, m, b).1;
  }

  /** Running a stretch and then the rest is running both. */
  lemma Advance<S>(vt: Vt<S>, m: Reference<S>, bytes: seq<byte>, offset: nat, length: nat)
    requires offset + length <= |bytes|
    ensures var m1 := Bytes(vt, m, bytes[offset..offset + length]).0;
            && Bytes(vt, m, bytes[offset..]).0 == Bytes(vt, m1, bytes[offset + length..]).0
            && Bytes(vt, m, bytes[offset..]).1
               == Bytes(vt, m, bytes[offset..offset + length]).1 + Bytes(vt, m1, bytes[offset + length..]).1
  {
    assert bytes[offset..] == bytes[offset..offset + length] + bytes[offset + length..];
    BytesAppend(vt, m, bytes[offset..offset + length], bytes[offset + length..]);
  }

  /** The system effects of the sequences handed over, in order. */
  ghost function EventsOf(owner: nat, sequences: seq<seq<byte>>): seq<Event> {
    if |sequences| == 0 then []
    else (match EffectOf(owner, sequences[0]) case None => [] case Some(e) => [e]) + EventsOf(owner, sequences[1..])
  }

  lemma {:induction false} EventsAppend(owner: nat, a: seq<seq<byte>>, b: seq<seq<byte>>)
    ensures EventsOf(owner, a + b) == EventsOf(owner, a) + EventsOf(owner, b)
  {
    hide EffectOf;
    if |a| == 0 {
      assert a + b == b;
    } else {
      assert (a + b)[1..] == a[1..] + b;
      EventsAppend(owner, a[1..], b);
    }
  }

  /** What reaches the effect decoder when an excursion completes. */
  lemma CompletedIsKept(owner: nat, open: Option<seq<byte>>, stretch: seq<byte>, sequence: seq<byte>)
    requires |stretch| > 0 && (open.Some? ==> |open.value| > 0 && open.value[0] == ESC)
    requires sequence == Bounded(if open.Some? then Some(open.value + stretch) else None)
    ensures var completed := if open.Some? then [open.value + stretch] else [];
            && KeptOnly(completed) == (if sequence == [] then [] else [sequence])
            && EventsOf(owner, KeptOnly(completed)) ==
                 match EffectOf(owner, sequence) case None => [] case Some(e) => [e]
  {
    assert EffectOf(owner, []) == None;
    hide EffectOf;
    if open.Some? {
      var x := open.value + stretch;
      BoundedIsKept(x);
      var tail: seq<seq<byte>> := [x][1..];
      assert tail == [];
      assert KeptOnly([x]) == (if Kept(x) then [x] else []) + KeptOnly([]);
      if Kept(x) {
        assert EventsOf(owner, [x]) ==
               (match EffectOf(owner, x) case None => [] case Some(e) => [e]) + EventsOf(owner, []);
      }
    }
  }

  // ---- The runtime ---------------------------------------------------------

  class TerminalRuntime<S(!new)> {
    const vt: Vt<S>
    var active: S
    var effectSequence: seq<byte>
    var effectOwner: nat
    var events: seq<Event>
    /** Every byte written to the VT, and every non-empty sequence handed to the effect decoder. */
    ghost var fed: seq<byte>
    ghost var collected: seq<seq<byte>>
    /** The reference machine run beside the runtime. */
    ghost var reference: Reference<S>

    ghost predicate Valid()
      reads this
    {
      && OnlyEscapeLeavesGround(vt)
      && reference.vt == active && reference.owner == effectOwner
      && (reference.open.Some? ==> |reference.open.value| > 0 && reference.open.value[0] == ESC)
      && effectSequence == Bounded(reference.open)
    }

    constructor (vt: Vt<S>, start: S)
      requires OnlyEscapeLeavesGround(vt)
      ensures Valid() && this.vt == vt && reference == Reference(start, 0, None)
      ensures fed == [] && collected == [] && events == []
    {
      this.vt, active, effectSequence, effectOwner, events := vt, start, [], 0, [];
      fed, collected, reference := [], [], Reference(start, 0, None);
    }

    /** Ghostty's unconditional write. */
    method VtWrite(bytes: seq<byte>)
      modifies this`active, this`fed
      ensures active == Feed(vt, old(active), bytes) && fed == old(fed) + bytes
    {
      ghost var before := active;
      for i := 0 to |bytes|
        invariant fed == old(fed)
        invariant Feed(vt, before, bytes) == Feed(vt, active, bytes[i..])
      {
        assert bytes[i..][1..] == bytes[i + 1..];
        active := vt.step(active, bytes[i]);
      }
      fed := fed + bytes;
    }

    /** Ghostty's bounded write: stops right after the first byte that reaches ground. */
    method VtWriteUntilGround(bytes: seq<byte>) returns (consumed: nat, success: bool)
      requires |bytes| > 0 && !vt.ground(active)
      modifies this`active, this`fed
      ensures 0 < consumed <= |bytes| && Away(vt, old(active), bytes[..consumed])
      ensures active == Feed(vt, old(active), bytes[..consumed]) && fed == old(fed) + bytes[..consumed]
      ensures success <==> vt.ground(active)
      ensures !success ==> consumed == |bytes|
    {
      ghost var before := active;
      consumed, success := 0, false;
      while consumed < |bytes| && !success
        invariant 0 <= consumed <= |bytes| && fed == old(fed)
        invariant active == Feed(vt, before, bytes[..consumed])
        invariant success <==> vt.ground(active)
        invariant consumed == 0 ==> active == before
        invariant consumed > 0 ==> Away(vt, before, bytes[..consumed])
      {
        assert bytes[..consumed + 1] == bytes[..consumed] + [bytes[consumed]];
        FeedAppend(vt, before, bytes[..consumed], [bytes[consumed]]);
        assert Feed(vt, active, [bytes[consumed]]) == Feed(vt, vt.step(active, bytes[consumed]), []) by {
          assert [bytes[consumed]][1..] == [];
        }
        AwayAppend(vt, before, bytes[..consumed], bytes[consumed]);
        active := vt.step(active, bytes[consumed]);
        consumed := consumed + 1;
        success := vt.ground(active);
      }
      fed := fed + bytes[..consumed];
    }

    /** Hands the collected sequence to the effect decoder. */
    method RunEffect(owner: nat)
      modifies this`events, this`collected
      ensures collected == old(collected) + if effectSequence == [] then [] else [effectSequence]
      ensures events == old(events) + match EffectOf(owner, effectSequence) case None => [] case Some(e) => [e]
    {
      var event := Effect(owner, effectSequence);
      if event.Some? {
        events := events + [event.value];
      }
      if effectSequence != [] {
        collected := collected + [effectSequence];
      }
    }

    /** In ground: writes up to the next ESC in one go and starts collecting there. */
    method WriteFromGround(bytes: seq<byte>, offset: nat) returns (length: nat)
      requires Valid() && offset < |bytes| && vt.ground(active)
      modifies this`active, this`fed, this`effectSequence, this`reference
      ensures Valid() && 0 < length <= |bytes| - offset
      ensures fed == old(fed) + bytes[offset..offset + length]
      ensures (reference, []) == Bytes(vt, old(reference), bytes[offset..offset + length])
    {
      hide IndexFrom, Feed, Bytes, OnlyEscapeLeavesGround;
      effectSequence := [];
      var escape := IndexFrom(bytes, ESC, offset);
      length := if escape < |bytes| then escape - offset + 1 else |bytes| - offset;
      GroundChunk(vt, reference, bytes, offset, length);
      reference := Bytes(vt, reference, bytes[offset..offset + length]).0;
      VtWrite(bytes[offset..offset + length]);
      if escape < |bytes| {
        effectSequence := [ESC];
      }
    }

    /** Away from ground: writes until ground is reached, collecting what may become an OSC sequence. */
    method WriteUntilGround(owner: nat, bytes: seq<byte>) returns (consumed: nat)
      requires Valid() && 0 < |bytes| && !vt.ground(active)
      modifies this
      ensures Valid() && effectOwner == old(effectOwner) && 0 < consumed <= |bytes|
      ensures fed == old(fed) + bytes[..consumed]
      ensures reference == Bytes(vt, old(reference), bytes[..consumed]).0
      ensures collected == old(collected) + KeptOnly(Bytes(vt, old(reference), bytes[..consumed]).1)
      ensures events == old(events) + EventsOf(owner, KeptOnly(Bytes(vt, old(reference), bytes[..consumed]).1))
    {
      hide Feed, Byte, Kept, EffectOf, Bytes, KeptOnly, EventsOf, OnlyEscapeLeavesGround, Away;
      ghost var m := reference;
      var success;
      consumed, success := VtWriteUntilGround(bytes);
      var stretch := bytes[..consumed];
      AwayStretch(vt, m, stretch);
      CollectIsBounded(m.open, stretch);
      if effectSequence != [] {
        if |effectSequence| + consumed <= SEQUENCE_LIMIT {
          effectSequence := effectSequence + stretch;
          if |effectSequence| > 1 && effectSequence[1] != 93 {
            effectSequence := [];
          }
        } else {
          effectSequence := [];
        }
      }
      reference := Bytes(vt, m, stretch).0;
      if success {
        CompletedIsKept(owner, m.open, stretch, effectSequence);
        RunEffect(owner);
        effectSequence := [];
      } else {
        NothingKept(owner);
      }
    }

    /** One round: the fast branch in ground, the bounded one away from it. */
    method WriteStretch(c: Command, offset: nat) returns (length: nat)
      requires Valid() && offset < |c.bytes|
      modifies this
      ensures Valid() && effectOwner == old(effectOwner) && 0 < length <= |c.bytes| - offset
      ensures fed == old(fed) + c.bytes[offset..offset + length]
      ensures reference == Bytes(vt, old(reference), c.bytes[offset..offset + length]).0
      ensures collected == old(collected) + KeptOnly(Bytes(vt, old(reference), c.bytes[offset..offset + length]).1)
      ensures events ==
              old(events) + EventsOf(c.owner, KeptOnly(Bytes(vt, old(reference), c.bytes[offset..offset + length]).1))
    {
      hide EffectOf, Byte, Kept, Bytes, KeptOnly, EventsOf, Bounded, OnlyEscapeLeavesGround;
      if vt.ground(active) {
        length := WriteFromGround(c.bytes, offset);
        NothingKept(c.owner);
      } else {
        length := WriteUntilGround(c.owner, c.bytes[offset..]);
        assert c.bytes[offset..][..length] == c.bytes[offset..offset + length];
      }
    }

    /** Delivers one write command: however the bytes are cut into stretches, the outcome is the reference machine's. */
    method WriteOutput(c: Command)
      requires Valid()
      modifies this
      ensures Valid() && fed == old(fed) + c.bytes
      ensures reference == Bytes(vt, Own(old(reference), c.owner), c.bytes).0
      ensures collected == old(collected) + KeptOnly(Bytes(vt, Own(old(reference), c.owner), c.bytes).1)
      ensures events == old(events) + EventsOf(c.owner, KeptOnly(Bytes(vt, Own(old(reference), c.owner), c.bytes).1))
    {
      hide EffectOf, Byte, Kept, Bytes, KeptOnly, EventsOf, Bounded, OnlyEscapeLeavesGround;
      if effectOwner != c.owner {
        effectSequence := [];
        NothingOpen();
      }
      effectOwner := c.owner;
      ghost var start := Own(reference, c.owner);
      reference := start;
      var offset := 0;
      ghost var done: seq<seq<byte>> := [];
      NothingKept(c.owner);
      assert c.bytes[0..] == c.bytes;
      while offset < |c.bytes|
        invariant 0 <= offset <= |c.bytes|
        invariant Valid() && effectOwner == c.owner && fed == old(fed) + c.bytes[..offset]
        invariant Bytes(vt, start, c.bytes).0 == Bytes(vt, reference, c.bytes[offset..]).0
        invariant Bytes(vt, start, c.bytes).1 == done + Bytes(vt, reference, c.bytes[offset..]).1
        invariant collected == old(collected) + KeptOnly(done)
        invariant events == old(events) + EventsOf(c.owner, KeptOnly(done))
      {
        ghost var m := reference;
        var length := WriteStretch(c, offset);
        ghost var completed := Bytes(vt, m, c.bytes[offset..offset + length]).1;
        Advance(vt, m, c.bytes, offset, length);
        DoneAppend(c.owner, done, completed);
        done := done + completed;
        assert c.bytes[..offset + length] == c.bytes[..offset] + c.bytes[offset..offset + length];
        offset := offset + length;
      }
      NothingMore(vt, reference);
      assert c.bytes[offset..] == [] && c.bytes[..offset] == c.bytes;
      assert done + [] == done;
    }
  }

  lemma DoneAppend(owner: nat, done: seq<seq<byte>>, completed: seq<seq<byte>>)
    ensures KeptOnly(done + completed) == KeptOnly(done) + KeptOnly(completed)
    ensures EventsOf(owner, KeptOnly(done + completed)) ==
            EventsOf(owner, KeptOnly(done)) + EventsOf(owner, KeptOnly(completed))
  {
    hide EventsOf;
    KeptOnlyAppend(done, completed);
    EventsAppend(owner, KeptOnly(done), KeptOnly(completed));
  }

  lemma NothingKept(owner: nat)
    ensures KeptOnly([]) == [] && EventsOf(owner, []) == []
  {
  }

  lemma NothingOpen()
    ensures Bounded(None) == []
  {
  }

  lemma NothingMore<S>(vt: Vt<S>, m: Reference<S>)
    ensures Bytes(vt, m, []) == (m, [])
  {
  }

  // ---- What the outcome means ----------------------------------------------

  function Written(commands: seq<Command>): seq<byte> {
    if |commands| == 0 then [] else commands[0].bytes + Written(commands[1..])
  }

  predicate OneOwner(commands: seq<Command>, owner: nat) {
    forall k :: 0 <= k < |commands| ==> commands[k].owner == owner
  }

  /** One owner's commands amount to their concatenation. */
  lemma {:induction false} OneOwnerRun<S>(vt: Vt<S>, m: Reference<S>, commands: seq<Command>, owner: nat)
    requires |commands| > 0 && OneOwner(commands, owner)
    ensures Commands(vt, m, commands) == Bytes(vt, Own(m, owner), Written(commands))
    decreases |commands|
  {
    var first := commands[0].bytes;
    var (m1, e1) := Bytes(vt, Own(m, owner), first);
    BytesAppend(vt, Own(m, owner), first, Written(commands[1..]));
    if |commands| == 1 {
      NothingMore(vt, m1);
      assert Commands(vt, m1, []) == (m1, []);
    } else {
      OneOwnerRun(vt, m1, commands[1..], owner);
      assert Own(m1, owner) == m1;
    }
  }

  /** However one owner's output is cut into commands, the VT state, the open excursion and the
      sequences handed over are the same. */
  lemma ChunkingIsIrrelevant<S>(vt: Vt<S>, m: Reference<S>, a: seq<Command>, b: seq<Command>, owner: nat)
    requires |a| > 0 && |b| > 0 && OneOwner(a, owner) && OneOwner(b, owner) && Written(a) == Written(b)
    ensures Commands(vt, m, a) == Commands(vt, m, b)
    ensures RunEvents(vt, m, a) == RunEvents(vt, m, b)
  {
    hide Bytes, RunEvents, Commands, KeptOnly, EventsOf;
    OneOwnerRun(vt, m, a, owner);
    OneOwnerRun(vt, m, b, owner);
    OneOwnerEvents(vt, m, a, owner);
    OneOwnerEvents(vt, m, b, owner);
  }

  lemma {:induction false} OneOwnerEvents<S>(vt: Vt<S>, m: Reference<S>, commands: seq<Command>, owner: nat)
    requires OneOwner(commands, owner)
    ensures RunEvents(vt, m, commands) == EventsOf(owner, KeptOnly(Commands(vt, m, commands).1))
    decreases |commands|
  {
    hide Bytes, KeptOnly, EventsOf;
    if |commands| == 0 {
      NothingKept(owner);
    } else {
      var (m1, e1) := Bytes(vt, Own(m, owner), commands[0].bytes);
      OneOwnerEvents(vt, m1, commands[1..], owner);
      DoneAppend(owner, e1, Commands(vt, m1, commands[1..]).1);
    }
  }

  /** A written byte together with the owner that wrote it. */
  datatype Token = Token(owner: nat, value: byte)

  function Tagged(owner: nat, bytes: seq<byte>): (r: seq<Token>)
    ensures |r| == |bytes| && forall k :: 0 <= k < |r| ==> r[k] == Token(owner, bytes[k])
  {
    seq(|bytes|, k requires 0 <= k < |bytes| => Token(owner, bytes[k]))
  }

  function Plain(stream: seq<Token>): (r: seq<byte>)
    ensures |r| == |stream| && forall k :: 0 <= k < |r| ==> r[k] == stream[k].value
  {
    seq(|stream|, k requires 0 <= k < |stream| => stream[k].value)
  }

  function Stream(commands: seq<Command>): seq<Token> {
    if |commands| == 0 then [] else Tagged(commands[0].owner, commands[0].bytes) + Stream(commands[1..])
  }

  function StateAt<S>(vt: Vt<S>, s0: S, stream: seq<Token>, k: nat): S
    requires k <= |stream|
  {
    Feed(vt, s0, Plain(stream[..k]))
  }

  /** Tokens `i` to `j` take the VT from ground through an ESC back to ground for the first time, and one
      owner wrote all of them. */
  ghost predicate Excursion<S>(vt: Vt<S>, s0: S, stream: seq<Token>, i: nat, j: nat) {
    && i < j < |stream|
    && stream[i].value == ESC && vt.ground(StateAt(vt, s0, stream, i))
    && (forall k :: i < k <= j ==> !vt.ground(StateAt(vt, s0, stream, k)))
    && vt.ground(StateAt(vt, s0, stream, j + 1))
    && forall k :: i <= k <= j ==> stream[k].owner == stream[i].owner
  }

  ghost predicate IsExcursion<S>(vt: Vt<S>, s0: S, stream: seq<Token>, x: seq<byte>) {
    exists i: nat, j: nat :: Excursion(vt, s0, stream, i, j) && x == Plain(stream[i..j + 1])
  }

  /** The open excursion is the end of the stream, written by the current owner since the VT left ground. */
  ghost predicate Tracks<S>(vt: Vt<S>, s0: S, stream: seq<Token>, m: Reference<S>) {
    && m.vt == StateAt(vt, s0, stream, |stream|)
    && (m.open.Some? ==>
        && 0 < |m.open.value| <= |stream|
        && var i := |stream| - |m.open.value|;
           && m.open.value == Plain(stream[i..])
           && stream[i].value == ESC && vt.ground(StateAt(vt, s0, stream, i))
           && (forall k :: i < k < |stream| ==> !vt.ground(StateAt(vt, s0, stream, k)))
           && forall k :: i <= k < |stream| ==> stream[k].owner == m.owner)
  }

  lemma StateInPrefix<S>(vt: Vt<S>, s0: S, stream: seq<Token>, more: seq<Token>)
    ensures forall k :: 0 <= k <= |stream| ==> StateAt(vt, s0, stream + more, k) == StateAt(vt, s0, stream, k)
  {
    forall k | 0 <= k <= |stream| ensures StateAt(vt, s0, stream + more, k) == StateAt(vt, s0, stream, k) {
      assert (stream + more)[..k] == stream[..k];
    }
  }

  lemma ExcursionInLonger<S>(vt: Vt<S>, s0: S, stream: seq<Token>, more: seq<Token>, x: seq<byte>)
    requires IsExcursion(vt, s0, stream, x)
    ensures IsExcursion(vt, s0, stream + more, x)
  {
    hide StateAt;
    var i: nat, j: nat :| Excursion(vt, s0, stream, i, j) && x == Plain(stream[i..j + 1]);
    StateInPrefix(vt, s0, stream, more);
    assert (stream + more)[i..j + 1] == stream[i..j + 1];
    assert Excursion(vt, s0, stream + more, i, j);
  }

  lemma TokenState<S>(vt: Vt<S>, s0: S, stream: seq<Token>, t: Token)
    ensures StateAt(vt, s0, stream + [t], |stream| + 1) == vt.step(StateAt(vt, s0, stream, |stream|), t.value)
  {
    assert (stream + [t])[..|stream| + 1] == stream + [t] && stream[..|stream|] == stream;
    assert Plain(stream + [t]) == Plain(stream) + [t.value];
    FeedAppend(vt, s0, Plain(stream), [t.value]);
    var none: seq<byte> := [t.value][1..];
    assert none == [];
  }

  lemma ByteTracks<S>(vt: Vt<S>, s0: S, stream: seq<Token>, m: Reference<S>, b: byte)
    requires Tracks(vt, s0, stream, m)
    ensures var longer := stream + [Token(m.owner, b)];
            && Tracks(vt, s0, longer, Byte(vt, m, b).0)
            && forall x :: x in Byte(vt, m, b).1 ==> IsExcursion(vt, s0, longer, x)
  {
    hide StateAt;
    var t := Token(m.owner, b);
    var longer := stream + [t];
    TokenState(vt, s0, stream, t);
    StateInPrefix(vt, s0, stream, [t]);
    if vt.ground(m.vt) {
      assert longer[|stream|..] == [t];
      assert Plain([t]) == [b];
    } else if m.open.Some? {
      var i: nat := |stream| - |m.open.value|;
      assert longer[i..] == stream[i..] + [t];
      assert Plain(longer[i..]) == m.open.value + [b];
      if vt.ground(vt.step(m.vt, b)) {
        assert longer[i..|stream| + 1] == longer[i..];
        assert Excursion(vt, s0, longer, i, |stream|);
      }
    }
  }

  lemma {:induction false} BytesTrack<S>(vt: Vt<S>, s0: S, stream: seq<Token>, m: Reference<S>, bytes: seq<byte>)
    requires Tracks(vt, s0, stream, m)
    ensures var longer := stream + Tagged(m.owner, bytes);
            && Tracks(vt, s0, longer, Bytes(vt, m, bytes).0)
            && forall x :: x in Bytes(vt, m, bytes).1 ==> IsExcursion(vt, s0, longer, x)
    decreases |bytes|
  {
    hide Tracks, IsExcursion, Byte;
    if |bytes| == 0 {
      assert stream + Tagged(m.owner, bytes) == stream;
    } else {
      ByteTracks(vt, s0, stream, m, bytes[0]);
      var m1 := Byte(vt, m, bytes[0]).0;
      assert m1.owner == m.owner by {
        OneByte(vt, m, bytes[0]);
      }
      var next := stream + [Token(m.owner, bytes[0])];
      var more := Tagged(m.owner, bytes[1..]);
      BytesTrack(vt, s0, next, m1, bytes[1..]);
      assert stream + Tagged(m.owner, bytes) == next + more;
      forall x | x in Byte(vt, m, bytes[0]).1 ensures IsExcursion(vt, s0, next + more, x) {
        ExcursionInLonger(vt, s0, next, more, x);
      }
    }
  }

  lemma OwnTracks<S>(vt: Vt<S>, s0: S, stream: seq<Token>, m: Reference<S>, owner: nat)
    requires Tracks(vt, s0, stream, m)
    ensures Tracks(vt, s0, stream, Own(m, owner))
  {
    hide StateAt;
  }

  lemma {:induction false} CommandsTrack<S>(vt: Vt<S>, s0: S, stream: seq<Token>, m: Reference<S>,
                                            commands: seq<Command>)
    requires Tracks(vt, s0, stream, m)
    ensures var longer := stream + Stream(commands);
            && Tracks(vt, s0, longer, Commands(vt, m, commands).0)
            && forall x :: x in Commands(vt, m, commands).1 ==> IsExcursion(vt, s0, longer, x)
    decreases |commands|
  {
    hide Tracks, IsExcursion, Bytes;
    if |commands| == 0 {
      assert stream + Stream(commands) == stream;
    } else {
      var c := commands[0];
      var start := Own(m, c.owner);
      OwnTracks(vt, s0, stream, m, c.owner);
      BytesTrack(vt, s0, stream, start, c.bytes);
      var (m1, e1) := Bytes(vt, start, c.bytes);
      var next := stream + Tagged(c.owner, c.bytes);
      var more := Stream(commands[1..]);
      CommandsTrack(vt, s0, next, m1, commands[1..]);
      assert stream + Stream(commands) == next + more;
      forall x | x in e1 ensures IsExcursion(vt, s0, next + more, x) {
        ExcursionInLonger(vt, s0, next, more, x);
      }
    }
  }

  lemma {:induction false} KeptAreCompleted(xs: seq<seq<byte>>)
    ensures forall x :: x in KeptOnly(xs) ==> x in xs && Kept(x)
  {
    if |xs| > 0 {
      KeptAreCompleted(xs[1..]);
    }
  }

  /** Only an uninterrupted excursion of one owner is ever handed over: it starts with ESC `]` in ground,
      ends where the VT first returns to ground, has at most `SEQUENCE_LIMIT` bytes, and no byte of it was
      written by anyone else. */
  lemma OnlyWholeSequencesTakeEffect<S>(vt: Vt<S>, s0: S, owner: nat, commands: seq<Command>, x: seq<byte>)
    requires x in KeptOnly(Commands(vt, Reference(s0, owner, None), commands).1)
    ensures IsExcursion(vt, s0, Stream(commands), x) && Kept(x)
  {
    hide IsExcursion, Commands, Kept;
    var m := Reference(s0, owner, None);
    assert Plain([]) == [];
    assert Tracks(vt, s0, [], m);
    CommandsTrack(vt, s0, [], m, commands);
    KeptAreCompleted(Commands(vt, m, commands).1);
    assert [] + Stream(commands) == Stream(commands);
  }

  /** And one owner's every such excursion is handed over, wherever the chunks were cut. */
  lemma EveryWholeSequenceTakesEffect<S>(vt: Vt<S>, m: Reference<S>, before: seq<byte>, x: seq<byte>, after: seq<byte>)
    requires |x| >= 2 && x[0] == ESC && vt.ground(Feed(vt, m.vt, before))
    requires Away(vt, Feed(vt, m.vt, before + [ESC]), x[1..]) && vt.ground(Feed(vt, m.vt, before + x))
    ensures x in Bytes(vt, m, before + x + after).1
    ensures Kept(x) ==> x in KeptOnly(Bytes(vt, m, before + x + after).1)
  {
    hide Bytes, Byte, Feed, Away, Kept;
    BytesAppend(vt, m, before + x, after);
    BytesAppend(vt, m, before, x);
    BytesFeed(vt, m, before);
    FeedAppend(vt, m.vt, before, [ESC]);
    FeedAppend(vt, m.vt, before, x);
    var m1 := Bytes(vt, m, before).0;
    assert x == [ESC] + x[1..];
    FeedAppend(vt, m1.vt, [ESC], x[1..]);
    BytesAppend(vt, m1, [ESC], x[1..]);
    EscapeOpens(vt, m1);
    AwayStretch(vt, Bytes(vt, m1, [ESC]).0, x[1..]);
    assert x in Bytes(vt, m, before + x + after).1;
    if Kept(x) {
      KeptStays(Bytes(vt, m, before + x + after).1, x);
    }
  }

  lemma EscapeOpens<S>(vt: Vt<S>, m: Reference<S>)
    requires vt.ground(m.vt)
    ensures Bytes(vt, m, [ESC]).0 == m.(vt := Feed(vt, m.vt, [ESC]), open := Some([ESC]))
  {
    OneByte(vt, m, ESC);
  }

  lemma {:induction false} KeptStays(xs: seq<seq<byte>>, x: seq<byte>)
    requires x in xs && Kept(x)
    ensures x in KeptOnly(xs)
  {
    if xs[0] != x {
      KeptStays(xs[1..], x);
    }
  }

  // ---- Every excursion of a run of many owners -------------------------------------

  lemma {:induction false} CommandsAppend<S>(vt: Vt<S>, m: Reference<S>, a: seq<Command>, b: seq<Command>)
    ensures Commands(vt, m, a + b).0 == Commands(vt, Commands(vt, m, a).0, b).0
    ensures Commands(vt, m, a + b).1 == Commands(vt, m, a).1 + Commands(vt, Commands(vt, m, a).0, b).1
    decreases |a|
  {
    hide Bytes;
    if |a| == 0 {
      assert a + b == b;
    } else {
      assert (a + b)[0] == a[0] && (a + b)[1..] == a[1..] + b;
      CommandsAppend(vt, Bytes(vt, Own(m, a[0].owner), a[0].bytes).0, a[1..], b);
    }
  }

  lemma {:induction false} WrittenAppend(a: seq<Command>, b: seq<Command>)
    ensures Written(a + b) == Written(a) + Written(b)
  {
    if |a| == 0 {
      assert a + b == b;
    } else {
      assert (a + b)[0] == a[0] && (a + b)[1..] == a[1..] + b;
      WrittenAppend(a[1..], b);
    }
  }

  lemma {:induction false} PlainStream(commands: seq<Command>)
    ensures Plain(Stream(commands)) == Written(commands)
  {
    if |commands| > 0 {
      var first, rest := Tagged(commands[0].owner, commands[0].bytes), Stream(commands[1..]);
      PlainStream(commands[1..]);
      assert Plain(first + rest) == Plain(first) + Plain(rest);
      assert Plain(first) == commands[0].bytes;
    }
  }

  /** Staying off ground at every proper prefix is staying away. */
  lemma {:induction false} AwayFromStates<S>(vt: Vt<S>, s: S, bytes: seq<byte>)
    requires |bytes| > 0 && forall k :: 0 <= k < |bytes| ==> !vt.ground(Feed(vt, s, bytes[..k]))
    ensures Away(vt, s, bytes)
    decreases |bytes|
  {
    assert bytes[..0] == [];
    assert Feed(vt, s, []) == s;
    if |bytes| > 1 {
      var rest := bytes[1..];
      forall k | 0 <= k < |rest| ensures !vt.ground(Feed(vt, vt.step(s, bytes[0]), rest[..k])) {
        assert bytes[..k + 1][0] == bytes[0] && bytes[..k + 1][1..] == rest[..k];
      }
      AwayFromStates(vt, vt.step(s, bytes[0]), rest);
    }
  }

  /** The state before token `k` of a stream is the state after its first `k` written bytes. */
  lemma StateAtWritten<S>(vt: Vt<S>, s0: S, commands: seq<Command>, k: nat)
    requires k <= |Stream(commands)|
    ensures |Stream(commands)| == |Written(commands)|
    ensures StateAt(vt, s0, Stream(commands), k) == Feed(vt, s0, Written(commands)[..k])
  {
    hide Feed;
    PlainStream(commands);
    assert Plain(Stream(commands)[..k]) == Plain(Stream(commands))[..k];
  }

  /** An excursion inside one owner's consecutive commands, seen from the state in which they begin. */
  lemma ExcursionOfOwner<S>(vt: Vt<S>, s0: S, a: seq<Command>, mid: seq<Command>, b: seq<Command>, i: nat, j: nat)
    requires Excursion(vt, s0, Stream(a + mid + b), i, j)
    requires |Written(a)| <= i && j < |Written(a)| + |Written(mid)|
    ensures i < j
    ensures var start, w, n := Feed(vt, s0, Written(a)), Written(mid), |Written(a)|;
            var p, x := w[..i - n], w[i - n..j + 1 - n];
            && x == Plain(Stream(a + mid + b)[i..j + 1]) && |x| >= 2 && x[0] == ESC
            && vt.ground(Feed(vt, start, p))
            && Away(vt, Feed(vt, start, p + [ESC]), x[1..])
            && vt.ground(Feed(vt, start, p + x))
  {
    hide Feed, Away, StateAt, Written, Stream;
    var commands, n := a + mid + b, |Written(a)|;
    var all, w := Written(commands), Written(mid);
    WrittenAppend(a + mid, b);
    WrittenAppend(a, mid);
    assert all == Written(a) + w + Written(b);
    StateAtWritten(vt, s0, commands, 0);
    PlainStream(commands);
    var start, p, x := Feed(vt, s0, Written(a)), w[..i - n], w[i - n..j + 1 - n];
    assert Plain(Stream(commands)[i..j + 1]) == all[i..j + 1] == x;
    forall k | n <= k <= j + 1 ensures StateAt(vt, s0, Stream(commands), k) == Feed(vt, start, w[..k - n]) {
      StateAtWritten(vt, s0, commands, k);
      assert all[..k] == Written(a) + w[..k - n];
      FeedAppend(vt, s0, Written(a), w[..k - n]);
    }
    assert p + x == w[..j + 1 - n] && p + [ESC] == w[..i + 1 - n];
    var left, rest := Feed(vt, start, p + [ESC]), x[1..];
    forall k | 0 <= k < |rest| ensures !vt.ground(Feed(vt, left, rest[..k])) {
      assert p + [ESC] + rest[..k] == w[..i + 1 + k - n];
      FeedAppend(vt, start, p + [ESC], rest[..k]);
      assert !vt.ground(StateAt(vt, s0, Stream(commands), i + 1 + k));
    }
    AwayFromStates(vt, left, rest);
  }

  /** In a run of any owners, every excursion that lies within consecutive commands of one owner is handed over if it is
      one to keep: only a command of another owner, even an empty one, interrupts it. */
  lemma EveryExcursionTakesEffect<S>(vt: Vt<S>, s0: S, first: nat, a: seq<Command>, mid: seq<Command>, b: seq<Command>,
                                     owner: nat, i: nat, j: nat)
    requires OneOwner(mid, owner) && Excursion(vt, s0, Stream(a + mid + b), i, j)
    requires |Written(a)| <= i && j < |Written(a)| + |Written(mid)|
    ensures var x := Plain(Stream(a + mid + b)[i..j + 1]);
            var completed := Commands(vt, Reference(s0, first, None), a + mid + b).1;
            x in completed && (Kept(x) ==> x in KeptOnly(completed))
  {
    hide Commands, Bytes, Feed, Away, Kept, Excursion, Stream, Written;
    var m, n, w := Reference(s0, first, None), |Written(a)|, Written(mid);
    ExcursionOfOwner(vt, s0, a, mid, b, i, j);
    var p, x, q := w[..i - n], w[i - n..j + 1 - n], w[j + 1 - n..];
    var begun := Commands(vt, m, a).0;
    CommandsFeed(vt, m, a);
    CommandsAppend(vt, m, a + mid, b);
    CommandsAppend(vt, m, a, mid);
    NotEmpty(mid);
    OneOwnerRun(vt, begun, mid, owner);
    assert w == p + x + q;
    EveryWholeSequenceTakesEffect(vt, Own(begun, owner), p, x, q);
    var completed := Commands(vt, m, a + mid + b).1;
    assert x in completed;
    if Kept(x) {
      KeptStays(completed, x);
    }
  }

  lemma NotEmpty(commands: seq<Command>)
    ensures |Written(commands)| > 0 ==> |commands| > 0
  {
  }

  /** The system effects of a run of commands, each under the owner that wrote it. */
  ghost function RunEvents<S>(vt: Vt<S>, m: Reference<S>, commands: seq<Command>): seq<Event>
    decreases |commands|
  {
    if |commands| == 0 then []
    else
      var (m1, e1) := Bytes(vt, Own(m, commands[0].owner), commands[0].bytes);
      EventsOf(commands[0].owner, KeptOnly(e1)) + RunEvents(vt, m1, commands[1..])
  }

  /** The VT is fed exactly the bytes of the commands, in order. */
  lemma {:induction false} CommandsFeed<S>(vt: Vt<S>, m: Reference<S>, commands: seq<Command>)
    ensures Commands(vt, m, commands).0.vt == Feed(vt, m.vt, Written(commands))
    decreases |commands|
  {
    hide Bytes, Feed;
    if |commands| == 0 {
      NothingFed(vt, m.vt);
    } else {
      var start := Own(m, commands[0].owner);
      var m1 := Bytes(vt, start, commands[0].bytes).0;
      BytesFeed(vt, start, commands[0].bytes);
      CommandsFeed(vt, m1, commands[1..]);
      FeedAppend(vt, m.vt, commands[0].bytes, Written(commands[1..]));
    }
  }

  lemma NothingFed<S>(vt: Vt<S>, s: S)
    ensures Feed(vt, s, []) == s
  {
  }

  lemma CommandsUnfold<S>(vt: Vt<S>, m: Reference<S>, commands: seq<Command>, k: nat)
    requires k < |commands|
    ensures var c := commands[k];
            var (m1, e1) := Bytes(vt, Own(m, c.owner), c.bytes);
            && Commands(vt, m, commands[k..]).0 == Commands(vt, m1, commands[k + 1..]).0
            && RunEvents(vt, m, commands[k..]) == EventsOf(c.owner, KeptOnly(e1)) + RunEvents(vt, m1, commands[k + 1..])
  {
    hide Bytes, KeptOnly, EventsOf;
    assert commands[k..][1..] == commands[k + 1..];
  }

  /** The runtime's command loop over a whole run: VT state and system effects are the reference machine's. */
  method Deliver<S(!new)>(vt: Vt<S>, s0: S, commands: seq<Command>) returns (state: S, events: seq<Event>)
    requires OnlyEscapeLeavesGround(vt)
    ensures state == Feed(vt, s0, Written(commands))
    ensures events == RunEvents(vt, Reference(s0, 0, None), commands)
  {
    hide Bytes, KeptOnly, EventsOf, OnlyEscapeLeavesGround, Bounded, Commands, RunEvents, Feed;
    var runtime := new TerminalRuntime(vt, s0);
    ghost var m0 := Reference(s0, 0, None);
    assert commands[0..] == commands;
    for k := 0 to |commands|
      invariant fresh(runtime) && runtime.Valid() && runtime.vt == vt
      invariant Commands(vt, m0, commands).0 == Commands(vt, runtime.reference, commands[k..]).0
      invariant RunEvents(vt, m0, commands) == runtime.events + RunEvents(vt, runtime.reference, commands[k..])
    {
      CommandsUnfold(vt, runtime.reference, commands, k);
      runtime.WriteOutput(commands[k]);
    }
    assert commands[|commands|..] == [];
    NoCommands(vt, runtime.reference);
    CommandsFeed(vt, m0, commands);
    events := runtime.events;
    state := runtime.active;
  }

  lemma NoCommands<S>(vt: Vt<S>, m: Reference<S>)
    ensures Commands(vt, m, []) == (m, []) && RunEvents(vt, m, []) == []
  {
  }
}
