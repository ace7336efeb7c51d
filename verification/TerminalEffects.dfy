/** System effects of complete OSC sequences: clipboard writes, bells and capability replies. */
module TerminalEffects {
  import opened Basics
  import opened Utf8
  import opened Base64

  const ESC: byte := 27
  const BEL: byte := 7
  const SEMICOLON: byte := 59
  const COLON: byte := 58
  const EQUALS: byte := 61
  const OSC_START: seq<byte> := [27, 93]
  const STRING_TERMINATOR: seq<byte> := [27, 92]
  const CODE_NOTIFY: seq<byte> := [57]
  const CODE_CLIPBOARD: seq<byte> := [53, 50]
  const CODE_KITTY_NOTIFY: seq<byte> := [57, 57]
  const CODE_RXVT_NOTIFY: seq<byte> := [55, 55, 55]
  /** `notify;` */
  const RXVT_PREFIX: seq<byte> := [110, 111, 116, 105, 102, 121, 59]
  const TITLE: seq<byte> := [116, 105, 116, 108, 101]
  const BODY: seq<byte> := [98, 111, 100, 121]
  const ONE: seq<byte> := [49]
  const QUERY: seq<byte> := [63]
  const KEY_I: byte := 105
  const KEY_P: byte := 112
  const KEY_E: byte := 101
  const KEY_D: byte := 100
  /** `\x1b]99;i=` and `:p=?;p=title,body\x1b\` */
  const REPLY_HEAD: seq<byte> := [27, 93, 57, 57, 59, 105, 61]
  const REPLY_TAIL: seq<byte> := [58, 112, 61, 63, 59, 112, 61, 116, 105, 116, 108, 101, 44, 98, 111, 100, 121, 27, 92]
  const MAX_NOTIFICATION: nat := 1024

  datatype Event = Clipboard(owner: nat, text: seq<byte>) | Bell(owner: nat) | Reply(owner: nat, text: seq<byte>)

  predicate NoControls(text: seq<byte>) {
    forall k :: 0 <= k < |text| ==> text[k] >= 32 && text[k] != 127
  }

  ghost predicate Printable(text: seq<byte>) {
    WellFormed(text) && NoControls(text)
  }

  predicate Alphanumeric(c: byte) {
    65 <= c <= 90 || 97 <= c <= 122 || 48 <= c <= 57
  }

  /** `-_ /+.,(){}[]*&^%$#@!` and the backquote and tilde, in the order the terminal lists them. */
  const PUNCTUATION: seq<byte> :=
    [45, 95, 32, 47, 43, 46, 44, 40, 41, 123, 125, 91, 93, 42, 38, 94, 37, 36, 35, 64, 33, 96, 126]

  predicate MetadataByte(c: byte) {
    Alphanumeric(c) || (c != 32 && c in PUNCTUATION)
  }

  predicate MetadataValue(value: seq<byte>) {
    |value| > 0 && forall k :: 0 <= k < |value| ==> MetadataByte(value[k])
  }

  // ---- Framing -------------------------------------------------------------

  datatype Osc = Osc(code: seq<byte>, payload: seq<byte>)

  /** Splits a terminated control sequence into code and payload. */
  function Frame(s: seq<byte>): (r: Option<Osc>) {
    if |s| < 4 || s[..2] != OSC_START then None
    else
      var end := if s[|s| - 1] == BEL then |s| - 1 else if s[|s| - 2..] == STRING_TERMINATOR then |s| - 2 else 0;
      var separator := IndexFrom(s, SEMICOLON, 2);
      if separator >= end then None else Some(Osc(s[2..separator], s[separator + 1..end]))
  }

  /** The text of an OSC sequence with either terminator. */
  function Sequence(osc: Osc, bel: bool): seq<byte> {
    OSC_START + osc.code + [SEMICOLON] + osc.payload + (if bel then [BEL] else STRING_TERMINATOR)
  }

  /** Framing recognises exactly `ESC ] code ; payload` closed by BEL or by ESC backslash. */
  lemma FrameExact(s: seq<byte>, osc: Osc)
    ensures Frame(s) == Some(osc) <==>
            SEMICOLON !in osc.code && exists bel: bool :: s == Sequence(osc, bel)
  {
    hide Frame, Sequence;
    if Frame(s) == Some(osc) {
      SequenceOfFrame(s);
    }
    if SEMICOLON !in osc.code {
      FrameOfSequence(osc, true);
      FrameOfSequence(osc, false);
    }
  }

  lemma SequenceOfFrame(s: seq<byte>)
    requires Frame(s).Some?
    ensures SEMICOLON !in Frame(s).value.code && s == Sequence(Frame(s).value, s[|s| - 1] == BEL)
  {
    hide IndexFrom;
    var osc, bel := Frame(s).value, s[|s| - 1] == BEL;
    var end := if bel then |s| - 1 else |s| - 2;
    var separator := 2 + |osc.code|;
    assert s == s[..2] + s[2..separator] + s[separator..separator + 1] + s[separator + 1..end] + s[end..];
    assert s[separator..separator + 1] == [SEMICOLON];
    assert s[end..] == if bel then [BEL] else STRING_TERMINATOR;
  }

  lemma FrameOfSequence(osc: Osc, bel: bool)
    requires SEMICOLON !in osc.code
    ensures Frame(Sequence(osc, bel)) == Some(osc)
  {
    hide IndexFrom;
    var s := Sequence(osc, bel);
    var at := 2 + |osc.code|;
    assert s[at] == SEMICOLON;
    assert forall k :: 2 <= k < at ==> s[k] == osc.code[k - 2] && s[k] in osc.code;
    IndexIs(s, SEMICOLON, 2, at);
    assert s[2..at] == osc.code;
    assert s[at + 1..at + 1 + |osc.payload|] == osc.payload;
    assert s[..2] == OSC_START;
    if !bel {
      assert s[|s| - 2..] == STRING_TERMINATOR;
    }
  }

  // ---- OSC 99 metadata, as the terminal reads it ---------------------------

  type Fields = map<byte, seq<byte>>

  predicate FieldShape(entry: seq<byte>) {
    |entry| >= 3 && entry[1] == EQUALS && entry[0] in {KEY_I, KEY_P, KEY_E, KEY_D}
  }

  predicate FieldTaken(entry: seq<byte>, fields: Fields) {
    && FieldShape(entry)
    && entry[0] !in fields
    && (MetadataValue(entry[2..]) || (entry[0] == KEY_P && entry[2..] == QUERY))
  }

  /** Reads `key=value` entries up to each colon; a colon at the very end is tolerated. */
  function ReadFields(meta: seq<byte>, fields: Fields): (r: Option<Fields>)
    decreases |meta|
  {
    if |meta| == 0 then Some(fields)
    else
      var stop := IndexFrom(meta, COLON, 0);
      var entry := meta[..stop];
      if !FieldTaken(entry, fields) then None
      else ReadFields(if stop < |meta| then meta[stop + 1..] else [], fields[entry[0] := entry[2..]])
  }

  function FieldOr(fields: Fields, key: byte, default: seq<byte>): seq<byte> {
    if key in fields then fields[key] else default
  }

  predicate SupportedNotification(fields: Fields) {
    && FieldOr(fields, KEY_P, TITLE) in {TITLE, BODY}
    && FieldOr(fields, KEY_E, ONE) == ONE
    && FieldOr(fields, KEY_D, ONE) == ONE
  }

  /** Metadata before the first semicolon, content after it. */
  datatype Notification = Notification(meta: seq<byte>, content: seq<byte>)

  function SplitNotification(payload: seq<byte>): (r: Option<Notification>)
    ensures r.Some? ==> payload == r.value.meta + [SEMICOLON] + r.value.content
  {
    var at := IndexFrom(payload, SEMICOLON, 0);
    if at == |payload| then None else Some(Notification(payload[..at], payload[at + 1..]))
  }

  ghost predicate ContentShown(fields: Fields, content: seq<byte>) {
    if KEY_E in fields then Acceptable(content) else Printable(content)
  }

  ghost function KittyEffect(owner: nat, payload: seq<byte>): Option<Event> {
    match SplitNotification(payload)
    case None => None
    case Some(n) =>
      match ReadFields(n.meta, map[])
      case None => None
      case Some(fields) =>
        if n.content == [] then
          if fields.Keys == {KEY_I, KEY_P} && fields[KEY_P] == QUERY
          then Some(Reply(owner, REPLY_HEAD + fields[KEY_I] + REPLY_TAIL)) else None
        else if SupportedNotification(fields) && ContentShown(fields, n.content) then Some(Bell(owner)) else None
  }

  predicate RxvtShape(payload: seq<byte>) {
    |payload| > 7 && payload[..7] == RXVT_PREFIX &&
    var split := IndexFrom(payload, SEMICOLON, 7); 7 < split && split + 1 < |payload|
  }

  ghost function ClipboardEffect(owner: nat, payload: seq<byte>): Option<Event> {
    match SplitNotification(payload)
    case None => None
    case Some(n) =>
      if n.meta in {[], [99]} && Acceptable(n.content) && WellFormed(DecodeText(n.content))
      then Some(Clipboard(owner, DecodeText(n.content))) else None
  }

  /** What one complete control sequence does to the system. */
  ghost function EffectOf(owner: nat, sequence: seq<byte>): Option<Event> {
    match Frame(sequence)
    case None => None
    case Some(osc) =>
      if owner == 0 then None
      else if osc.code == CODE_CLIPBOARD then ClipboardEffect(owner, osc.payload)
      else if osc.payload == [] || |osc.payload| > MAX_NOTIFICATION then None
      else if osc.code == CODE_NOTIFY then if Printable(osc.payload) then Some(Bell(owner)) else None
      else if osc.code == CODE_RXVT_NOTIFY then
        if RxvtShape(osc.payload) && Printable(osc.payload) then Some(Bell(owner)) else None
      else if osc.code == CODE_KITTY_NOTIFY then KittyEffect(owner, osc.payload)
      else None
  }

  // ---- The source's procedures ---------------------------------------------

  method IsPrintable(text: seq<byte>) returns (r: bool)
    ensures r <==> Printable(text)
  {
    var valid := Utf8.Utf8(text);
    return valid && forall k :: 0 <= k < |text| ==> text[k] >= 32 && text[k] != 127;
  }

  lemma NoFields(fields: Fields)
    ensures ReadFields([], fields) == Some(fields)
  {
  }

  function Rest(meta: seq<byte>, start: nat): seq<byte> {
    if start < |meta| then meta[start..] else []
  }

  lemma ReadFieldsUnfold(meta: seq<byte>, fields: Fields)
    requires |meta| > 0
    ensures var stop := IndexFrom(meta, COLON, 0);
            var entry := meta[..stop];
            ReadFields(meta, fields) ==
            if FieldTaken(entry, fields)
            then ReadFields(if stop < |meta| then meta[stop + 1..] else [], fields[entry[0] := entry[2..]]) else None
  {
  }

  lemma RestOfRest(meta: seq<byte>, start: nat, stop: nat)
    requires start < |meta| && start <= stop <= |meta|
    ensures meta[start..][..stop - start] == meta[start..stop]
    ensures stop < |meta| ==> meta[start..][stop - start + 1..] == Rest(meta, stop + 1)
  {
  }

  lemma ReadFieldsStep(meta: seq<byte>, start: nat, fields: Fields)
    requires start < |meta|
    ensures var stop := IndexFrom(meta, COLON, start);
            var entry := meta[start..stop];
            ReadFields(Rest(meta, start), fields) ==
            if FieldTaken(entry, fields) then ReadFields(Rest(meta, stop + 1), fields[entry[0] := entry[2..]]) else None
  {
    hide FieldTaken, IndexFrom, ReadFields;
    ReadFieldsUnfold(meta[start..], fields);
    IndexInSuffix(meta, COLON, start);
    RestOfRest(meta, start, IndexFrom(meta, COLON, start));
  }

  /** Fills the field map entry by entry, leaving early on the first entry it does not take. */
  method CollectFields(payload: seq<byte>, split: nat) returns (ok: bool, fields: Fields)
    requires split <= |payload|
    ensures ReadFields(payload[..split], map[]) == if ok then Some(fields) else None
  {
    hide MetadataValue, IndexFrom, ReadFields;
    fields := map[];
    var start := 0;
    ghost var meta := payload[..split];
    assert Rest(meta, 0) == meta;
    while start < split
      invariant 0 <= start <= split + 1
      invariant ReadFields(meta, map[]) == ReadFields(Rest(meta, start), fields)
      decreases split - start
    {
      ReadFieldsStep(meta, start, fields);
      IndexInPrefix(payload, split, COLON, start);
      var stop := IndexFrom(payload, COLON, start);
      if stop > split {
        stop := split;
      }
      ghost var entry := meta[start..stop];
      assert forall k :: 0 <= k < stop - start ==> entry[k] == payload[start + k];
      if stop - start < 3 || payload[start + 1] != EQUALS {
        return false, fields;
      }
      var key := payload[start];
      var value := payload[start + 2..stop];
      assert entry[2..] == value && entry[0] == key && entry[1] == payload[start + 1];
      if key in fields || key !in {KEY_I, KEY_P, KEY_E, KEY_D} ||
         (!MetadataValue(value) && !(key == KEY_P && value == QUERY)) {
        return false, fields;
      }
      fields := fields[key := value];
      start := stop + 1;
    }
    NoFields(fields);
    return true, fields;
  }

  method KittyNotify(owner: nat, payload: seq<byte>) returns (event: Option<Event>)
    ensures event == KittyEffect(owner, payload)
  {
    hide IndexFrom, ReadFields, Acceptable, Printable;
    var split := IndexFrom(payload, SEMICOLON, 0);
    if split == |payload| {
      return None;
    }
    var taken, fields := CollectFields(payload, split);
    if !taken {
      return None;
    }
    var content := payload[split + 1..];
    if |content| == 0 {
      if |fields| == 2 && KEY_I in fields && KEY_P in fields && fields[KEY_P] == QUERY {
        TwoKeys(fields.Keys);
        return Some(Reply(owner, REPLY_HEAD + fields[KEY_I] + REPLY_TAIL));
      }
      assert fields.Keys == {KEY_I, KEY_P} ==> |fields.Keys| == 2;
      return None;
    }
    if (KEY_P in fields && fields[KEY_P] != TITLE && fields[KEY_P] != BODY)
       || (KEY_E in fields && fields[KEY_E] != ONE) || (KEY_D in fields && fields[KEY_D] != ONE) {
      return None;
    }
    var shown;
    if KEY_E in fields {
      var decoded;
      shown, decoded := DecodeBase64(content);
    } else {
      shown := IsPrintable(content);
    }
    return if shown then Some(Bell(owner)) else None;
  }

  lemma TwoKeys(keys: set<byte>)
    requires |keys| == 2 && KEY_I in keys && KEY_P in keys
    ensures keys == {KEY_I, KEY_P}
  {
    var rest := keys - {KEY_I, KEY_P};
    assert keys == rest + {KEY_I, KEY_P};
    assert |rest| == 0;
  }

  /** The terminal's reaction to one complete sequence. */
  method Effect(owner: nat, sequence: seq<byte>) returns (event: Option<Event>)
    ensures event == EffectOf(owner, sequence)
  {
    hide IndexFrom, KittyEffect, ClipboardEffect, RxvtShape, Printable;
    if owner == 0 || |sequence| < 4 || sequence[..2] != OSC_START {
      return None;
    }
    var end := |sequence|;
    if sequence[|sequence| - 1] == BEL {
      end := end - 1;
    } else if sequence[end - 2..end] == STRING_TERMINATOR {
      end := end - 2;
    } else {
      return None;
    }
    var separator := IndexFrom(sequence, SEMICOLON, 2);
    if separator == |sequence| || separator >= end {
      return None;
    }
    var code, payload := sequence[2..separator], sequence[separator + 1..end];
    assert Frame(sequence) == Some(Osc(code, payload));
    if code == CODE_CLIPBOARD {
      event := ClipboardWrite(owner, payload);
      return;
    }
    if |payload| == 0 || |payload| > MAX_NOTIFICATION {
      return None;
    }
    if code == CODE_NOTIFY {
      var shown := IsPrintable(payload);
      return if shown then Some(Bell(owner)) else None;
    }
    if code == CODE_RXVT_NOTIFY {
      event := RxvtNotify(owner, payload);
      return;
    }
    if code != CODE_KITTY_NOTIFY {
      return None;
    }
    event := KittyNotify(owner, payload);
  }

  method ClipboardWrite(owner: nat, payload: seq<byte>) returns (event: Option<Event>)
    ensures event == ClipboardEffect(owner, payload)
  {
    hide IndexFrom, Acceptable, WellFormed, DecodeText;
    var split := IndexFrom(payload, SEMICOLON, 0);
    if split == |payload| || (split != 0 && payload[..split] != [99]) {
      return None;
    }
    var ok, decoded := DecodeBase64(payload[split + 1..]);
    if ok {
      var text := Utf8.Utf8(decoded);
      if text {
        return Some(Clipboard(owner, decoded));
      }
    }
    return None;
  }

  method RxvtNotify(owner: nat, payload: seq<byte>) returns (event: Option<Event>)
    ensures event == if RxvtShape(payload) && Printable(payload) then Some(Bell(owner)) else None
  {
    hide IndexFrom, Printable;
    if |payload| >= 7 && payload[..7] == RXVT_PREFIX {
      var split := IndexFrom(payload, SEMICOLON, 7);
      if split > 7 && split != |payload| && split + 1 < |payload| {
        var shown := IsPrintable(payload);
        return if shown then Some(Bell(owner)) else None;
      }
    }
    return None;
  }
}
