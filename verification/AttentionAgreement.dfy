/** The terminal and the outer observer: which bells one rings and the other counts. */
module AttentionAgreement {
  import opened Basics
  import opened Base64
  import opened Utf8
  import opened TerminalEffects
  import opened AgentCapture
  import opened AttentionObserver

  lemma PlainParts(a: seq<byte>, b: seq<byte>)
    requires NoTerminator(a) && NoTerminator(b)
    ensures NoTerminator(a + [COLON] + b) && NoTerminator(a + [SEMICOLON] + b)
  {
  }

  lemma EntryIsPlain(entry: seq<byte>, fields: Fields)
    requires FieldTaken(entry, fields)
    ensures NoTerminator(entry) && |entry| >= 2
  {
    assert entry == [entry[0], entry[1]] + entry[2..];
    assert NoTerminator(entry[2..]);
  }

  /** Readable metadata has no byte that could end the sequence. */
  lemma {:induction false} MetadataIsPlain(meta: seq<byte>, fields: Fields)
    requires ReadFields(meta, fields).Some?
    ensures NoTerminator(meta)
    decreases |meta|
  {
    hide IndexFrom, FieldTaken, ReadFields, NoTerminator;
    if |meta| > 0 {
      ReadFieldsUnfold(meta, fields);
      var stop := IndexFrom(meta, COLON, 0);
      var entry := meta[..stop];
      EntryIsPlain(entry, fields);
      if stop < |meta| {
        MetadataIsPlain(meta[stop + 1..], fields[entry[0] := entry[2..]]);
        PlainParts(entry, meta[stop + 1..]);
        assert meta == entry + [COLON] + meta[stop + 1..];
      } else {
        assert meta == entry;
      }
    } else {
      NothingIsPlain();
    }
  }

  lemma NothingIsPlain()
    ensures NoTerminator([])
  {
  }

  lemma {:induction false} PatternIsPlain(s: seq<byte>)
    requires PatternMatches(s)
    ensures NoTerminator(s)
  {
    if |s| >= 4 && PatternMatches(s[4..]) && forall k :: 0 <= k < 4 ==> PatternDigit(s[k]) {
      PatternIsPlain(s[4..]);
      assert s == s[..4] + s[4..];
    }
  }

  lemma ContentIsPlain(fields: Fields, content: seq<byte>)
    requires ContentShown(fields, content)
    ensures NoTerminator(content)
  {
    hide PatternMatches, TextPadding, WellFormed;
    if KEY_E in fields {
      PatternIsPadding(content);
      PatternIsPlain(content);
    }
  }

  /** A notification that rings has a payload the observer's pattern matches. */
  lemma RingingIsPlain(owner: nat, payload: seq<byte>)
    requires Rings(owner, payload)
    ensures NoTerminator(payload)
  {
    hide NoTerminator, ReadFields, ContentShown, SupportedNotification;
    var n := SplitNotification(payload).value;
    var fields := ReadFields(n.meta, map[]).value;
    MetadataIsPlain(n.meta, map[]);
    ContentIsPlain(fields, n.content);
    PlainParts(n.meta, n.content);
  }

  lemma FrameMatches(s: seq<byte>, osc: Osc)
    requires Frame(s) == Some(osc) && AllDecimal(osc.code) && NoTerminator(osc.payload)
    ensures MatchOsc(s) == Some(OscMatch(osc.code, Some(osc.payload)))
  {
    hide Frame, MatchOsc, AllDecimal, NoTerminator;
    FrameExact(s, osc);
    var bel: bool :| s == Sequence(osc, bel);
    var m := OscMatch(osc.code, Some(osc.payload));
    SameText(osc, bel);
    MatchOfText(m, bel);
  }

  lemma SameText(osc: Osc, bel: bool)
    ensures Sequence(osc, bel) == MatchText(OscMatch(osc.code, Some(osc.payload)), bel)
  {
  }

  lemma PrintableIsPlain(text: seq<byte>)
    requires Printable(text)
    ensures NoTerminator(text)
  {
  }

  /** A sequence that rings the terminal's bell is an attention event for the observer, exactly unless it is an
      OSC 99 notification whose metadata ends in a colon. */
  lemma BellIsCounted(owner: nat, s: seq<byte>)
    requires EffectOf(owner, s) == Some(Bell(owner))
    ensures Frame(s).Some?
    ensures IsAttention(s) <==> !(Frame(s).value.code == CODE_KITTY_NOTIFY && EndsWithColon(Frame(s).value.payload))
  {
    hide Frame, MatchOsc, NoTerminator, WellFormed, KittyEffect, RxvtShape, ClipboardEffect, Accepts, Printable,
        EndsWithColon;
    var osc := Frame(s).value;
    ClipboardRingsNot(owner, osc.payload);
    if osc.code == CODE_KITTY_NOTIFY {
      RingingIsPlain(owner, osc.payload);
      FrameMatches(s, osc);
      ColonDecides(owner, osc.payload);
    } else {
      PrintableIsPlain(osc.payload);
      FrameMatches(s, osc);
    }
  }

  lemma ClipboardRingsNot(owner: nat, payload: seq<byte>)
    ensures ClipboardEffect(owner, payload) != Some(Bell(owner))
  {
    hide Acceptable, WellFormed;
  }

  lemma ColonDecides(owner: nat, payload: seq<byte>)
    requires Rings(owner, payload)
    ensures Accepts(Some(payload)) <==> !EndsWithColon(payload)
  {
    AgreementExact(owner, payload);
    ParsersAgree(owner, payload);
    hide Rings, FlaggedOrText, Accepts, EndsWithColon;
  }
}
