/** The capture analyser's reading of OSC sequences, and its agreement with the terminal's. */
module AgentCapture {
  import opened Basics
  import opened Utf8
  import opened Base64
  import opened TerminalEffects

  // ---- OSC 99 payloads -----------------------------------------------------

  /** `[A-Za-z0-9\-_\/+.,(){}\[\]*&^%$#@!]` with backquote and tilde: the analyser's value alphabet. */
  predicate ValueByte(c: byte) {
    || 65 <= c <= 90 || 97 <= c <= 122 || 48 <= c <= 57
    || c in {45, 95, 47, 43, 46, 44, 40, 41, 123, 125, 91, 93, 42, 38, 94, 37, 36, 35, 64, 33, 96, 126}
  }

  predicate ValueText(value: seq<byte>) {
    |value| > 0 && forall k :: 0 <= k < |value| ==> ValueByte(value[k])
  }

  predicate EntryAccepted(entry: seq<byte>, fields: Fields) {
    && |entry| > 2 && entry[1] == EQUALS
    && entry[0] in {KEY_I, KEY_P, KEY_E, KEY_D} && entry[0] !in fields
    && ValueText(entry[2..])
  }

  function CollectEntries(entries: seq<seq<byte>>, fields: Fields): Option<Fields> {
    if |entries| == 0 then Some(fields)
    else if EntryAccepted(entries[0], fields)
    then CollectEntries(entries[1..], fields[entries[0][0] := entries[0][2..]])
    else None
  }

  predicate PatternDigit(c: byte) {
    65 <= c <= 90 || 97 <= c <= 122 || 48 <= c <= 57 || c == 43 || c == 47
  }

  /** The language of the analyser's base64 pattern: groups of four, then an optional padded group. */
  predicate PatternMatches(s: seq<byte>) {
    || |s| == 0
    || (|s| >= 4 && (forall k :: 0 <= k < 4 ==> PatternDigit(s[k])) && PatternMatches(s[4..]))
    || (|s| == 4 && PatternDigit(s[0]) && PatternDigit(s[1]) && PatternDigit(s[2]) && s[3] == PAD)
    || (|s| == 4 && PatternDigit(s[0]) && PatternDigit(s[1]) && s[2] == PAD && s[3] == PAD)
  }

  predicate ContentCounts(fields: Fields, content: seq<byte>) {
    if KEY_E in fields then |content| % 4 != 1 && PatternMatches(content) else NoControls(content)
  }

  function FieldsOf(meta: seq<byte>): Option<Fields> {
    if |meta| == 0 then Some(map[]) else CollectEntries(Split(meta, COLON), map[])
  }

  /** Whether the analyser counts an OSC 99 payload as attention. */
  predicate Accepts(payload: Option<seq<byte>>) {
    && payload.Some? && 0 < |payload.value| <= MAX_NOTIFICATION
    && match SplitNotification(payload.value)
       case None => false
       case Some(n) =>
         && n.content != []
         && match FieldsOf(n.meta)
            case None => false
            case Some(fields) => SupportedNotification(fields) && ContentCounts(fields, n.content)
  }

  method IsOsc99Attention(payload: Option<seq<byte>>) returns (r: bool)
    ensures r == Accepts(payload)
  {
    hide IndexFrom, ValueText, PatternMatches, NoControls;
    if payload == None || |payload.value| == 0 || |payload.value| > MAX_NOTIFICATION {
      return false;
    }
    var separator := IndexFrom(payload.value, SEMICOLON, 0);
    if separator == |payload.value| {
      return false;
    }
    var metadata, content := payload.value[..separator], payload.value[separator + 1..];
    if |content| == 0 {
      return false;
    }
    var fields: Fields := map[];
    if |metadata| > 0 {
      var entries := Split(metadata, COLON);
      for at := 0 to |entries|
        invariant CollectEntries(entries, map[]) == CollectEntries(entries[at..], fields)
      {
        var entry := entries[at];
        assert entries[at..][1..] == entries[at + 1..];
        if |entry| <= 2 || entry[1] != EQUALS {
          return false;
        }
        var key, value := entry[0], entry[2..];
        if key !in {KEY_I, KEY_P, KEY_E, KEY_D} || key in fields {
          return false;
        }
        if !ValueText(value) {
          return false;
        }
        fields := fields[key := value];
      }
    }
    if FieldOr(fields, KEY_P, TITLE) !in {TITLE, BODY} || FieldOr(fields, KEY_D, ONE) != ONE {
      return false;
    }
    if KEY_E in fields && fields[KEY_E] != ONE {
      return false;
    }
    if KEY_E in fields {
      return |content| % 4 != 1 && PatternMatches(content);
    }
    return NoControls(content);
  }

  // ---- Agreement with the terminal -----------------------------------------

  lemma SameAlphabets(c: byte)
    ensures ValueByte(c) <==> MetadataByte(c)
    ensures PatternDigit(c) <==> IsDigit(c)
  {
  }

  lemma SameValues(value: seq<byte>)
    ensures ValueText(value) <==> MetadataValue(value)
  {
    forall k | 0 <= k < |value| ensures ValueByte(value[k]) <==> MetadataByte(value[k]) {
      SameAlphabets(value[k]);
    }
  }

  /** The pattern and the hand-written decoder recognise the same padded texts. */
  lemma {:induction false} PatternIsPadding(s: seq<byte>)
    ensures PatternMatches(s) <==> TextPadding(s).Some?
  {
    forall k | 0 <= k < |s| ensures PatternDigit(s[k]) <==> IsDigit(s[k]) {
      SameAlphabets(s[k]);
    }
    if |s| >= 4 {
      PatternIsPadding(s[4..]);
      assert s[4..] == [] || |s| > 4;
      assert forall k :: 0 <= k < 4 ==> s[..4][k] == s[k];
    }
  }

  /** A field once read keeps its value. */
  lemma {:induction false} FieldKept(meta: seq<byte>, fields: Fields, key: byte)
    requires ReadFields(meta, fields).Some? && key in fields
    ensures var g := ReadFields(meta, fields).value; key in g && g[key] == fields[key]
    decreases |meta|
  {
    hide IndexFrom, FieldTaken, ReadFields;
    if |meta| > 0 {
      ReadFieldsUnfold(meta, fields);
      var stop := IndexFrom(meta, COLON, 0);
      var entry := meta[..stop];
      TakenEntry(entry, fields);
      FieldKept(if stop < |meta| then meta[stop + 1..] else [], fields[entry[0] := entry[2..]], key);
    } else {
      NoFields(fields);
    }
  }

  lemma TakenEntry(entry: seq<byte>, fields: Fields)
    requires FieldTaken(entry, fields)
    ensures |entry| >= 3 && entry[0] !in fields
    ensures EntryAccepted(entry, fields) <==> !(entry[0] == KEY_P && entry[2..] == QUERY)
  {
    SameValues(entry[2..]);
    if entry[2..] == QUERY {
      assert !MetadataByte(QUERY[0]);
      assert !MetadataValue(QUERY);
    }
  }

  lemma RefusedEntry(entry: seq<byte>, fields: Fields)
    requires !FieldTaken(entry, fields)
    ensures !EntryAccepted(entry, fields)
  {
    if EntryAccepted(entry, fields) {
      SameValues(entry[2..]);
    }
  }

  predicate Queries(fields: Fields) {
    KEY_P in fields && fields[KEY_P] == QUERY
  }

  function DropQueries(g: Option<Fields>): Option<Fields> {
    if g.Some? && Queries(g.value) then None else g
  }

  /** The analyser's reading, one entry at a time. */
  lemma CollectUnfold(meta: seq<byte>, fields: Fields)
    ensures var stop := IndexFrom(meta, COLON, 0);
            var entry := meta[..stop];
            CollectEntries(Split(meta, COLON), fields) ==
            if !EntryAccepted(entry, fields) then None
            else if stop < |meta| then CollectEntries(Split(meta[stop + 1..], COLON), fields[entry[0] := entry[2..]])
            else Some(fields[entry[0] := entry[2..]])
  {
    hide EntryAccepted;
    var stop := IndexFrom(meta, COLON, 0);
    assert Split(meta, COLON)[0] == meta[..stop];
    assert Split(meta, COLON)[1..] == if stop < |meta| then Split(meta[stop + 1..], COLON) else [];
  }

  /** Off a trailing colon both readers build the same fields, save that only the terminal takes `p=?`. */
  lemma {:induction false} FieldsAgree(meta: seq<byte>, fields: Fields)
    requires |meta| > 0 && meta[|meta| - 1] != COLON
    requires !Queries(fields)
    ensures CollectEntries(Split(meta, COLON), fields) == DropQueries(ReadFields(meta, fields))
    decreases |meta|
  {
    hide IndexFrom, FieldTaken, EntryAccepted, ReadFields, CollectEntries, Split;
    var stop := IndexFrom(meta, COLON, 0);
    var entry := meta[..stop];
    ReadFieldsUnfold(meta, fields);
    CollectUnfold(meta, fields);
    if !FieldTaken(entry, fields) {
      RefusedEntry(entry, fields);
      return;
    }
    TakenEntry(entry, fields);
    var next := fields[entry[0] := entry[2..]];
    var rest := if stop < |meta| then meta[stop + 1..] else [];
    if entry[0] == KEY_P && entry[2..] == QUERY {
      if ReadFields(rest, next).Some? {
        FieldKept(rest, next, KEY_P);
      }
    } else if stop < |meta| {
      assert stop != |meta| - 1;
      FieldsAgree(rest, next);
    } else {
      NoFields(next);
    }
  }

  /** The terminal ignores one colon at the end of the metadata. */
  lemma {:induction false} TrailingColon(meta: seq<byte>, fields: Fields)
    requires |meta| > 0
    ensures ReadFields(meta + [COLON], fields) == if meta[|meta| - 1] == COLON then None else ReadFields(meta, fields)
    decreases |meta|
  {
    hide IndexFrom, FieldTaken, ReadFields;
    var longer := meta + [COLON];
    var stop := IndexFrom(meta, COLON, 0);
    IndexIs(longer, COLON, 0, stop);
    ReadFieldsUnfold(meta, fields);
    ReadFieldsUnfold(longer, fields);
    assert longer[..stop] == meta[..stop];
    if FieldTaken(meta[..stop], fields) {
      TakenEntry(meta[..stop], fields);
      var next := fields[meta[0] := meta[..stop][2..]];
      if stop + 1 < |meta| {
        assert longer[stop + 1..] == meta[stop + 1..] + [COLON];
        TrailingColon(meta[stop + 1..], next);
      } else if stop < |meta| {
        assert longer[stop + 1..] == [COLON];
        LoneColon(next);
      } else {
        assert longer[stop + 1..] == [];
      }
    } else {
      RefusedThenNone(meta, fields);
    }
  }

  lemma LoneColon(fields: Fields)
    ensures ReadFields([COLON], fields) == None
  {
    IndexIs([COLON], COLON, 0, 0);
    assert [COLON][..0] == [];
  }

  /** A refused first entry makes the whole metadata unreadable, whatever it ends with. */
  lemma RefusedThenNone(meta: seq<byte>, fields: Fields)
    requires |meta| > 0 && !FieldTaken(meta[..IndexFrom(meta, COLON, 0)], fields)
    ensures ReadFields(meta, fields) == None
  {
  }

  lemma {:induction false} TrailingColonRejected(meta: seq<byte>, fields: Fields)
    requires |meta| > 0 && meta[|meta| - 1] == COLON
    ensures CollectEntries(Split(meta, COLON), fields) == None
    decreases |meta|
  {
    hide EntryAccepted, IndexFrom, CollectEntries, Split;
    CollectUnfold(meta, fields);
    var stop := IndexFrom(meta, COLON, 0);
    var entry := meta[..stop];
    if EntryAccepted(entry, fields) {
      AcceptedIsLong(entry, fields);
      var rest, next := meta[stop + 1..], fields[entry[0] := entry[2..]];
      if |rest| == 0 {
        CollectUnfold(rest, next);
        EmptyEntryRefused(next);
        assert rest[..IndexFrom(rest, COLON, 0)] == [];
      } else {
        TrailingColonRejected(rest, next);
      }
    }
  }

  lemma AcceptedIsLong(entry: seq<byte>, fields: Fields)
    requires EntryAccepted(entry, fields)
    ensures |entry| > 2
  {
  }

  lemma EmptyEntryRefused(fields: Fields)
    ensures !EntryAccepted([], fields)
  {
  }

  /** The payload without the one colon that may end its metadata. */
  function DropColon(payload: seq<byte>): seq<byte> {
    match SplitNotification(payload)
    case None => payload
    case Some(n) =>
      WithoutColon(n.meta) + [SEMICOLON] + n.content
  }

  predicate EndsWithColon(payload: seq<byte>) {
    var n := SplitNotification(payload);
    n.Some? && |n.value.meta| > 0 && n.value.meta[|n.value.meta| - 1] == COLON
  }

  /** The terminal's side of the comparison: a nonzero owner's OSC 99 payload rings the bell. */
  ghost predicate Rings(owner: nat, payload: seq<byte>) {
    0 < |payload| <= MAX_NOTIFICATION && KittyEffect(owner, payload) == Some(Bell(owner))
  }

  /** Content the analyser does not look into: base64-flagged, or valid UTF-8. */
  ghost predicate FlaggedOrText(payload: seq<byte>) {
    match SplitNotification(payload)
    case None => false
    case Some(n) =>
      match ReadFields(n.meta, map[])
      case None => false
      case Some(fields) => KEY_E in fields || WellFormed(n.content)
  }

  lemma SplitOfParts(meta: seq<byte>, content: seq<byte>)
    requires SEMICOLON !in meta
    ensures SplitNotification(meta + [SEMICOLON] + content) == Some(Notification(meta, content))
  {
    hide IndexFrom;
    var payload := meta + [SEMICOLON] + content;
    IndexIs(payload, SEMICOLON, 0, |meta|);
    assert payload[..|meta|] == meta && payload[|meta| + 1..] == content;
  }

  lemma ContentAgrees(fields: Fields, content: seq<byte>)
    requires 0 < |content| <= MAX_NOTIFICATION
    ensures ContentShown(fields, content) <==>
            ContentCounts(fields, content) && (KEY_E in fields || WellFormed(content))
  {
    hide WellFormed;
    if KEY_E in fields {
      PatternIsPadding(content);
      hide TextPadding, PatternMatches;
    }
  }

  function WithoutColon(meta: seq<byte>): seq<byte> {
    if |meta| > 1 && meta[|meta| - 1] == COLON then meta[..|meta| - 1] else meta
  }

  /** How the two readings of the metadata correspond, colon included. */
  lemma MetadataAgrees(meta: seq<byte>)
    ensures FieldsOf(WithoutColon(meta)) == DropQueries(ReadFields(meta, map[]))
  {
    hide CollectEntries, ReadFields, Split;
    if |meta| == 0 {
      NoFields(map[]);
    } else if meta[|meta| - 1] != COLON {
      FieldsAgree(meta, map[]);
    } else if |meta| == 1 {
      assert meta == [COLON];
      LoneColon(map[]);
      TrailingColonRejected(meta, map[]);
    } else {
      ColonDropped(meta[..|meta| - 1]);
      assert meta == meta[..|meta| - 1] + [COLON];
    }
  }

  lemma ColonDropped(shorter: seq<byte>)
    requires |shorter| > 0
    ensures FieldsOf(shorter) == DropQueries(ReadFields(shorter + [COLON], map[]))
  {
    hide ReadFields, Split;
    TrailingColon(shorter, map[]);
    if shorter[|shorter| - 1] == COLON {
      TrailingColonRejected(shorter, map[]);
    } else {
      FieldsAgree(shorter, map[]);
    }
  }

  /** For every payload the terminal rings exactly when the analyser accepts it once a final metadata
      colon is dropped, and the content is base64-flagged or valid UTF-8. */
  lemma ParsersAgree(owner: nat, payload: seq<byte>)
    ensures Rings(owner, payload) <==>
            |payload| <= MAX_NOTIFICATION && Accepts(Some(DropColon(payload))) && FlaggedOrText(payload)
  {
    hide IndexFrom, ReadFields, FieldsOf, ContentShown, ContentCounts, WellFormed, SupportedNotification;
    var s := SplitNotification(payload);
    if s.Some? {
      var n := s.value;
      MetadataAgrees(n.meta);
      var shorter := WithoutColon(n.meta);
      NoSemicolon(payload);
      SplitOfParts(shorter, n.content);
      assert DropColon(payload) == shorter + [SEMICOLON] + n.content;
      var g := ReadFields(n.meta, map[]);
      if g.Some? {
        if 0 < |n.content| <= MAX_NOTIFICATION {
          ContentAgrees(g.value, n.content);
        }
        if Queries(g.value) {
          QueryUnsupported(g.value);
        }
      }
    }
  }

  lemma NoSemicolon(payload: seq<byte>)
    requires SplitNotification(payload).Some?
    ensures SEMICOLON !in SplitNotification(payload).value.meta
  {
  }

  lemma QueryUnsupported(fields: Fields)
    requires Queries(fields)
    ensures !SupportedNotification(fields)
  {
  }

  /** The two parsers give the same verdict exactly off the payloads whose metadata ends in a colon and which the
      analyser would take without it, with base64-flagged or UTF-8 content. */
  lemma AgreementExact(owner: nat, payload: seq<byte>)
    ensures (Rings(owner, payload) <==> Accepts(Some(payload)) && FlaggedOrText(payload))
            <==> !(EndsWithColon(payload) && |payload| <= MAX_NOTIFICATION
                   && Accepts(Some(DropColon(payload))) && FlaggedOrText(payload))
  {
    ParsersAgree(owner, payload);
    hide Rings, ReadFields, CollectEntries, SupportedNotification, ContentCounts;
    if EndsWithColon(payload) {
      TrailingColonRejected(SplitNotification(payload).value.meta, map[]);
      assert !Accepts(Some(payload));
    } else {
      UnchangedPayload(payload);
    }
  }

  lemma UnchangedPayload(payload: seq<byte>)
    requires !EndsWithColon(payload)
    ensures DropColon(payload) == payload
    ensures |payload| > MAX_NOTIFICATION ==> !Accepts(Some(payload))
  {
  }

  /** `i=a:;x` rings the bell although the analyser ignores it. */
  lemma TrailingColonExample()
    ensures var payload := [KEY_I, EQUALS, 97, COLON, SEMICOLON, 120];
            Rings(1, payload) && !Accepts(Some(payload))
  {
    var meta, content := [KEY_I, EQUALS, 97], [120];
    var payload := [KEY_I, EQUALS, 97, COLON, SEMICOLON, 120];
    assert payload == (meta + [COLON]) + [SEMICOLON] + content;
    SplitOfParts(meta + [COLON], content);
    assert EndsWithColon(payload);
    TrailingColonRejected(meta + [COLON], map[]);
    IndexIs(meta, COLON, 0, 3);
    assert meta[..3] == meta && meta[2..] == [97];
    assert FieldTaken(meta, map[]);
    NoFields(map[KEY_I := [97]]);
    ReadFieldsUnfold(meta, map[]);
    TrailingColon(meta, map[]);
    assert EncodeScalars([120]) == content by {
      assert [120][1..] == [];
      assert EncodeScalars([120]) == EncodeScalar(120) + EncodeScalars([]);
    }
  }
}
