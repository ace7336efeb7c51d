/** What the terminal's reactions mean: which sequences reach the clipboard, ring the bell, or are answered. */
module EffectLaws {
  import opened Basics
  import opened Utf8
  import opened Base64
  import opened TerminalEffects
  import TerminalOutput

  // ---- Clipboard (OSC 52) ----------------------------------------------------

  /** The clipboard is named by nothing or by `c`. */
  predicate ClipboardTarget(target: seq<byte>) {
    target == [] || target == Ascii("c")
  }

  lemma Parts(front: seq<byte>, rest: seq<byte>)
    requires SEMICOLON !in front
    ensures SplitNotification(front + [SEMICOLON] + rest) == Some(Notification(front, rest))
  {
    var payload := front + [SEMICOLON] + rest;
    assert payload[|front|] == SEMICOLON;
    assert forall k :: 0 <= k < |front| ==> payload[k] == front[k] && front[k] in front;
    IndexIs(payload, SEMICOLON, 0, |front|);
    assert payload[..|front|] == front && payload[|front| + 1..] == rest;
  }

  lemma PartsOf(payload: seq<byte>)
    requires SplitNotification(payload).Some?
    ensures SEMICOLON !in SplitNotification(payload).value.meta
  {
  }

  /** A sequence puts text on the clipboard exactly when it is an OSC 52 of the right target whose content is base64,
      within the limits, of that text, and the text is UTF-8. */
  lemma ClipboardExact(owner: nat, s: seq<byte>, o: nat, text: seq<byte>)
    ensures EffectOf(owner, s) == Some(Clipboard(o, text)) <==>
            && owner != 0 && o == owner
            && exists target, content, bel: bool :: IsClipboard(s, target, content, bel, text)
  {
    hide Frame, Acceptable, DecodeText, WellFormed, Sequence, ClipboardEffect, ClipboardTarget, Ascii;
    if EffectOf(owner, s) == Some(Clipboard(o, text)) {
      var osc := Frame(s).value;
      FrameExact(s, osc);
      var bel: bool :| s == Sequence(osc, bel);
      OnlyClipboard(owner, s);
      var n := ClipboardParts(owner, osc.payload);
      assert IsClipboard(s, n.meta, n.content, bel, text);
    }
    if exists target, content, bel: bool :: IsClipboard(s, target, content, bel, text) {
      var target, content, bel: bool :| IsClipboard(s, target, content, bel, text);
      CodesPlain();
      FrameExact(s, Osc(CODE_CLIPBOARD, target + [SEMICOLON] + content));
      ClipboardOf(owner, target, content);
    }
  }

  ghost predicate IsClipboard(s: seq<byte>, target: seq<byte>, content: seq<byte>, bel: bool, text: seq<byte>) {
    && s == Sequence(Osc(Ascii("52"), target + [SEMICOLON] + content), bel) && ClipboardTarget(target)
    && Acceptable(content) && DecodeText(content) == text && WellFormed(text)
  }

  lemma CodesPlain()
    ensures Ascii("52") == CODE_CLIPBOARD && SEMICOLON !in CODE_CLIPBOARD
    ensures Ascii("9") == CODE_NOTIFY && Ascii("99") == CODE_KITTY_NOTIFY && Ascii("777") == CODE_RXVT_NOTIFY
    ensures SEMICOLON !in CODE_NOTIFY && SEMICOLON !in CODE_KITTY_NOTIFY && SEMICOLON !in CODE_RXVT_NOTIFY
  {
    assert Ascii("52") == [53, 50];
    assert Ascii("9") == [57] && Ascii("99") == [57, 57];
    assert Ascii("777") == [55, 55, 55];
  }

  lemma OnlyClipboard(owner: nat, s: seq<byte>)
    requires EffectOf(owner, s).Some? && EffectOf(owner, s).value.Clipboard?
    ensures Frame(s).Some? && Frame(s).value.code == Ascii("52")
    ensures EffectOf(owner, s) == ClipboardEffect(owner, Frame(s).value.payload)
  {
    CodesPlain();
    hide Ascii, Frame;
  }

  lemma ClipboardParts(owner: nat, payload: seq<byte>) returns (n: Notification)
    requires ClipboardEffect(owner, payload).Some?
    ensures payload == n.meta + [SEMICOLON] + n.content && ClipboardTarget(n.meta) && Acceptable(n.content)
    ensures WellFormed(DecodeText(n.content))
    ensures ClipboardEffect(owner, payload) == Some(Clipboard(owner, DecodeText(n.content)))
  {
    n := SplitNotification(payload).value;
    assert Ascii("c") == [99];
  }

  lemma ClipboardOf(owner: nat, target: seq<byte>, content: seq<byte>)
    requires ClipboardTarget(target) && Acceptable(content) && WellFormed(DecodeText(content))
    ensures ClipboardEffect(owner, target + [SEMICOLON] + content) == Some(Clipboard(owner, DecodeText(content)))
  {
    assert Ascii("c") == [99];
    Parts(target, content);
  }

  /** Whatever UTF-8 text a program encodes, up to 1 MiB, is the text that reaches the clipboard. */
  lemma ClipboardOfEncoded(owner: nat, target: seq<byte>, text: seq<byte>, bel: bool)
    requires owner != 0 && ClipboardTarget(target) && WellFormed(text) && |text| <= 1024 * 1024
    ensures EffectOf(owner, Sequence(Osc(Ascii("52"), target + [SEMICOLON] + Encode(text)), bel))
            == Some(Clipboard(owner, text))
  {
    hide EffectOf, Ascii, ClipboardTarget, Sequence, Acceptable, Encode, DecodeText, TextPadding, WellFormed;
    ClipboardRoundTrip(text);
    var s := Sequence(Osc(Ascii("52"), target + [SEMICOLON] + Encode(text)), bel);
    assert IsClipboard(s, target, Encode(text), bel, text);
    ClipboardExact(owner, s, owner, text);
  }

  lemma {:induction false} AsciiIsUtf8(text: seq<byte>)
    requires forall k :: 0 <= k < |text| ==> text[k] < 128
    ensures WellFormed(text) && exists vs: seq<scalar> :: EncodeScalars(vs) == text
  {
    if |text| == 0 {
      assert EncodeScalars([]) == text;
    } else {
      AsciiIsUtf8(text[1..]);
      var vs: seq<scalar> :| EncodeScalars(vs) == text[1..];
      assert ([text[0] as scalar] + vs)[1..] == vs;
      assert EncodeScalars([text[0] as scalar] + vs) == text;
    }
  }

  /** `aGk=` is `hi`. */
  lemma ClipboardExample()
    ensures EffectOf(1, Ascii("\U{001b}]52;c;aGk=\U{0007}")) == Some(Clipboard(1, Ascii("hi")))
  {
    hide EffectOf, WellFormed;
    var text := Ascii("hi");
    assert text == [104, 105];
    AsciiIsUtf8(text);
    EncodedHi();
    hide Encode, EncodeGroup;
    ClipboardOfEncoded(1, Ascii("c"), text, true);
    HiSequence();
    hide Ascii, Sequence;
  }

  lemma HiSequence()
    ensures Sequence(Osc(Ascii("52"), Ascii("c") + [SEMICOLON] + [97, 71, 107, 61]), true)
            == Ascii("\U{001b}]52;c;aGk=\U{0007}")
  {
    assert Ascii("52") == [53, 50] && Ascii("c") == [99];
    assert Ascii("\U{001b}]52;c;aGk=\U{0007}") == [27, 93, 53, 50, 59, 99, 59, 97, 71, 107, 61, 7];
  }

  /** U+00E9, U+20AC and U+1F600 (RFC 3629, section 3), and `foobar` (RFC 4648, section 10). */
  lemma EncodingExamples()
    ensures EncodeScalar(0xE9) == [0xC3, 0xA9] && EncodeScalar(0x20AC) == [0xE2, 0x82, 0xAC]
    ensures EncodeScalar(0x1F600) == [0xF0, 0x9F, 0x98, 0x80]
    ensures Encode(Ascii("foobar")) == Ascii("Zm9vYmFy") && Encode(Ascii("f")) == Ascii("Zg==")
  {
    FoobarBytes();
    FirstGroups();
    hide Ascii, EncodeGroup;
    assert [102, 111, 111, 98, 97, 114][..3] == [102, 111, 111];
    assert [102, 111, 111, 98, 97, 114][3..] == [98, 97, 114];
    assert Encode([98, 97, 114]) == EncodeGroup([98, 97, 114]);
  }

  lemma FoobarBytes()
    ensures Ascii("foobar") == [102, 111, 111, 98, 97, 114] && Ascii("f") == [102]
    ensures Ascii("Zm9vYmFy") == [90, 109, 57, 118] + [89, 109, 70, 121] && Ascii("Zg==") == [90, 103, 61, 61]
  {
  }

  lemma FirstGroups()
    ensures EncodeGroup([102, 111, 111]) == [90, 109, 57, 118] && EncodeGroup([98, 97, 114]) == [89, 109, 70, 121]
    ensures EncodeGroup([102]) == [90, 103, 61, 61]
  {
    assert GroupOctets([102, 111, 111]) == 6713199 && GroupOctets([98, 97, 114]) == 6447474;
    assert GroupOctets([102]) == 6684672;
  }

  lemma EncodedHi()
    ensures Encode([104, 105]) == [97, 71, 107, 61]
  {
    assert GroupOctets([104, 105]) == 6842624;
  }

  // ---- OSC 99 metadata ---------------------------------------------------------

  datatype Entry = Entry(key: byte, value: seq<byte>)

  function Written(entries: seq<Entry>): seq<byte> {
    if |entries| == 0 then []
    else [entries[0].key, EQUALS] + entries[0].value + if |entries| == 1 then [] else [COLON] + Written(entries[1..])
  }

  function Filled(entries: seq<Entry>, fields: Fields): Fields {
    if |entries| == 0 then fields else Filled(entries[1..], fields[entries[0].key := entries[0].value])
  }

  /** The keys are `i`, `p`, `e` and `d`; a value is metadata text, or a question mark for `p`. */
  predicate ValidEntry(e: Entry) {
    e.key in Ascii("iped") && (MetadataValue(e.value) || (e.key == 'p' as int && e.value == Ascii("?")))
  }

  /** No key occurs twice, nor among the fields read before. */
  predicate ValidEntries(entries: seq<Entry>, fields: Fields) {
    |entries| > 0 ==>
      && ValidEntry(entries[0]) && entries[0].key !in fields
      && ValidEntries(entries[1..], fields[entries[0].key := entries[0].value])
  }

  lemma EntryTaken(e: Entry, fields: Fields)
    requires ValidEntry(e) && e.key !in fields
    ensures FieldTaken([e.key, EQUALS] + e.value, fields) && COLON !in [e.key, EQUALS] + e.value
    ensures ([e.key, EQUALS] + e.value)[2..] == e.value
  {
    QueryBytes();
    hide Ascii;
    if MetadataValue(e.value) {
      NoSemicolon(e.value);
    }
    hide MetadataValue;
  }

  lemma TakenIsEntry(entry: seq<byte>, fields: Fields)
    requires FieldTaken(entry, fields)
    ensures ValidEntry(Entry(entry[0], entry[2..])) && entry[0] !in fields
    ensures entry == [entry[0], EQUALS] + entry[2..]
  {
    assert Ascii("?") == [63];
    assert Ascii("iped") == [105, 112, 101, 100];
    assert entry[0] == Ascii("iped")[0] || entry[0] == Ascii("iped")[1] || entry[0] == Ascii("iped")[2]
           || entry[0] == Ascii("iped")[3];
  }

  /** The colon between two entries, or one behind the last. */
  lemma Unfolded(entry: seq<byte>, rest: seq<byte>, fields: Fields)
    requires FieldTaken(entry, fields) && COLON !in entry
    ensures ReadFields(entry, fields) == Some(fields[entry[0] := entry[2..]])
    ensures ReadFields(entry + [COLON] + rest, fields) == ReadFields(rest, fields[entry[0] := entry[2..]])
  {
    TakenShape(entry, fields);
    hide FieldTaken;
    NoFields(fields[entry[0] := entry[2..]]);
    assert forall k :: 0 <= k < |entry| ==> entry[k] in entry;
    IndexIs(entry, COLON, 0, |entry|);
    assert entry[..|entry|] == entry;
    var s := entry + [COLON] + rest;
    assert s[|entry|] == COLON && forall k :: 0 <= k < |entry| ==> s[k] == entry[k];
    IndexIs(s, COLON, 0, |entry|);
    assert s[..|entry|] == entry && s[|entry| + 1..] == rest;
  }

  lemma {:induction false} FieldsOfEntries(entries: seq<Entry>, fields: Fields, colon: bool)
    requires ValidEntries(entries, fields) && (colon ==> entries != [])
    ensures ReadFields(Written(entries) + (if colon then [COLON] else []), fields) == Some(Filled(entries, fields))
    decreases |entries|
  {
    hide ReadFields, FieldTaken, ValidEntry, COLON;
    var tail: seq<byte> := if colon then [COLON] else [];
    if |entries| == 0 {
      NoFields(fields);
      assert Written(entries) + tail == [];
    } else {
      var e := entries[0];
      var entry := [e.key, EQUALS] + e.value;
      var next := fields[e.key := e.value];
      EntryTaken(e, fields);
      NoFields(next);
      if |entries| == 1 {
        Unfolded(entry, [], fields);
        assert Written(entries) + tail == if colon then entry + [COLON] + [] else entry;
      } else {
        Unfolded(entry, Written(entries[1..]) + tail, fields);
        FieldsOfEntries(entries[1..], next, colon);
        assert Written(entries) + tail == entry + [COLON] + (Written(entries[1..]) + tail);
      }
    }
  }

  /** The metadata is a list of valid entries, perhaps with one more colon at its end. */
  ghost predicate Spells(meta: seq<byte>, fields: Fields, entries: seq<Entry>, colon: bool) {
    && ValidEntries(entries, fields) && (colon ==> entries != [])
    && meta == Written(entries) + (if colon then [COLON] else [])
  }

  /** Accepted metadata is such a list, and the fields are those of its entries. */
  lemma {:induction false} EntriesOfFields(meta: seq<byte>, fields: Fields) returns (entries: seq<Entry>, colon: bool)
    requires ReadFields(meta, fields).Some?
    ensures Spells(meta, fields, entries, colon) && ReadFields(meta, fields) == Some(Filled(entries, fields))
    decreases |meta|
  {
    hide ReadFields, FieldTaken, ValidEntry, IndexFrom, Spells, Filled, MetadataValue;
    if |meta| == 0 {
      NoFields(fields);
      NoEntries(fields);
      return [], false;
    }
    ReadFieldsUnfold(meta, fields);
    var stop := IndexFrom(meta, COLON, 0);
    var entry := meta[..stop];
    TakenShape(entry, fields);
    TakenIsEntry(entry, fields);
    var e := Entry(entry[0], entry[2..]);
    var rest := if stop < |meta| then meta[stop + 1..] else [];
    var more, tail := EntriesOfFields(rest, fields[e.key := e.value]);
    entries, colon := [e] + more, if stop < |meta| && rest == [] then true else tail;
    OneMore(e, more, fields);
    SpellsMore(meta, fields, stop, e, more, tail);
  }

  lemma SpellsMore(meta: seq<byte>, fields: Fields, stop: nat, e: Entry, more: seq<Entry>, tail: bool)
    requires stop <= |meta| && meta[..stop] == [e.key, EQUALS] + e.value && (stop < |meta| ==> meta[stop] == COLON)
    requires ValidEntry(e) && e.key !in fields
    requires Spells(if stop < |meta| then meta[stop + 1..] else [], fields[e.key := e.value], more, tail)
    ensures Spells(meta, fields, [e] + more, if stop < |meta| && meta[stop + 1..] == [] then true else tail)
  {
    hide ValidEntry, ValidEntries, Written;
    OneMore(e, more, fields);
    WrittenEmpty(more);
    var entry := [e.key, EQUALS] + e.value;
    var t: seq<byte> := if tail then [COLON] else [];
    CutAt(meta, stop, entry);
    Regroup(entry, Written(more), t);
    hide COLON, EQUALS;
  }

  lemma CutAt(meta: seq<byte>, stop: nat, entry: seq<byte>)
    requires stop <= |meta| && meta[..stop] == entry
    ensures meta == entry + if stop < |meta| then [meta[stop]] + meta[stop + 1..] else []
    ensures stop < |meta| && meta[stop + 1..] == [] ==> meta == entry + [meta[stop]]
  {
  }

  lemma Regroup(entry: seq<byte>, w: seq<byte>, t: seq<byte>)
    ensures entry + ([COLON] + (w + t)) == entry + ([COLON] + w) + t
    ensures w + t == [] ==> w == [] && t == []
  {
  }

  lemma WrittenEmpty(entries: seq<Entry>)
    ensures Written(entries) == [] <==> entries == []
  {
  }

  /** The terminal takes exactly such metadata, and reads from it exactly its entries. */
  lemma FieldsExact(meta: seq<byte>, fields: Fields)
    ensures ReadFields(meta, map[]) == Some(fields) <==>
            exists entries, colon: bool :: Spells(meta, map[], entries, colon) && fields == Filled(entries, map[])
  {
    hide ReadFields, ValidEntries, Filled, Written;
    if ReadFields(meta, map[]).Some? {
      var entries, colon := EntriesOfFields(meta, map[]);
      assert Spells(meta, map[], entries, colon);
    }
    if exists entries, colon: bool :: Spells(meta, map[], entries, colon) && fields == Filled(entries, map[]) {
      var entries, colon: bool :| Spells(meta, map[], entries, colon) && fields == Filled(entries, map[]);
      FieldsOfEntries(entries, map[], colon);
    }
  }

  /** Metadata values are visible ASCII without quotes, backslash, bar and the characters from colon to question
      mark. */
  lemma ValueAlphabet(c: byte)
    ensures MetadataByte(c) <==> 33 <= c <= 126 && c !in Ascii("\"'\\|") && !(':' as int <= c <= '?' as int)
  {
    var excluded := Ascii("\"'\\|");
    assert excluded == [34, 39, 92, 124];
    hide Ascii;
  }

  lemma NoEntries(fields: Fields)
    ensures Written([]) == [] && Filled([], fields) == fields && ValidEntries([], fields)
    ensures Spells([], fields, [], false)
  {
  }

  /** Putting an entry in front. */
  lemma OneMore(e: Entry, more: seq<Entry>, fields: Fields)
    ensures Filled([e] + more, fields) == Filled(more, fields[e.key := e.value])
    ensures ValidEntry(e) && e.key !in fields && ValidEntries(more, fields[e.key := e.value]) ==>
              ValidEntries([e] + more, fields)
    ensures Written([e] + more) == [e.key, EQUALS] + e.value + if more == [] then [] else [COLON] + Written(more)
  {
    hide ValidEntry;
    assert ([e] + more)[1..] == more;
  }

  lemma TakenShape(entry: seq<byte>, fields: Fields)
    requires FieldTaken(entry, fields)
    ensures |entry| >= 3
  {
  }

  // ---- The capability query (OSC 99) -----------------------------------------------

  /** An identifier, and a question for `p`, in either order; a colon at the end is tolerated. */
  function QueryMeta(id: seq<byte>, first: bool, colon: bool): seq<byte> {
    (if first then Ascii("i=") + id + Ascii(":p=?") else Ascii("p=?:i=") + id) + if colon then [COLON] else []
  }

  function Answer(id: seq<byte>): seq<byte> {
    Ascii("\U{001b}]99;i=") + id + Ascii(":p=?;p=title,body\U{001b}\\")
  }

  lemma QueryBytes()
    ensures Ascii("i=") == [105, 61] && Ascii(":p=?") == [58, 112, 61, 63]
    ensures Ascii("p=?:i=") == [112, 61, 63, 58, 105, 61] && Ascii("?") == [63] && Ascii("iped") == [105, 112, 101, 100]
    ensures Ascii("\U{001b}]99;i=") == REPLY_HEAD && Ascii(":p=?;p=title,body\U{001b}\\") == REPLY_TAIL
  {
  }

  function QueryEntries(id: seq<byte>, first: bool): seq<Entry> {
    if first then [Entry(KEY_I, id), Entry(KEY_P, [63])] else [Entry(KEY_P, [63]), Entry(KEY_I, id)]
  }

  lemma QueryWritten(id: seq<byte>, first: bool)
    ensures Written(QueryEntries(id, first)) == QueryMeta(id, first, false)
    ensures QueryMeta(id, first, true) == QueryMeta(id, first, false) + [COLON]
    ensures Filled(QueryEntries(id, first), map[]) == map[KEY_I := id, KEY_P := [63]]
    ensures MetadataValue(id) ==> ValidEntries(QueryEntries(id, first), map[])
  {
    QueryBytes();
    hide Ascii, MetadataValue;
    var entries := QueryEntries(id, first);
    assert entries[1..] == [entries[1]] && entries[1..][1..] == [];
    assert Written(entries[1..]) == [entries[1].key, EQUALS] + entries[1].value;
    assert Filled(entries[1..][1..], map[KEY_I := id, KEY_P := [63]]) == map[KEY_I := id, KEY_P := [63]];
    var once: Fields := map[entries[0].key := entries[0].value];
    assert once[entries[1].key := entries[1].value] == map[KEY_I := id, KEY_P := [63]];
    assert Filled(entries, map[]) == Filled(entries[1..], once) == Filled(entries[1..][1..],
                                                                          map[KEY_I := id, KEY_P := [63]]);
    assert ValidEntries(entries[1..][1..], map[KEY_I := id, KEY_P := [63]]);
  }

  lemma {:induction false} FilledKeys(entries: seq<Entry>, fields: Fields)
    requires ValidEntries(entries, fields)
    ensures |Filled(entries, fields).Keys| == |fields.Keys| + |entries|
    ensures forall key :: key in fields ==>
              key in Filled(entries, fields) && Filled(entries, fields)[key] == fields[key]
    ensures forall k :: 0 <= k < |entries| ==>
              entries[k].key in Filled(entries, fields) && Filled(entries, fields)[entries[k].key] == entries[k].value
              && ValidEntry(entries[k])
    decreases |entries|
  {
    hide ValidEntry;
    if |entries| > 0 {
      var next := fields[entries[0].key := entries[0].value];
      FilledKeys(entries[1..], next);
      assert next.Keys == fields.Keys + {entries[0].key};
      forall k | 0 <= k < |entries|
        ensures entries[k].key in Filled(entries, fields)
                && Filled(entries, fields)[entries[k].key] == entries[k].value && ValidEntry(entries[k])
      {
        if k > 0 {
          assert entries[k] == entries[1..][k - 1];
        } else {
          assert next[entries[0].key] == entries[0].value;
        }
      }
    }
  }

  /** Fields that ask what is supported come from a query. */
  lemma QueryOfFields(meta: seq<byte>) returns (id: seq<byte>, first: bool, colon: bool)
    requires ReadFields(meta, map[]).Some?
    requires var fields := ReadFields(meta, map[]).value; fields.Keys == {KEY_I, KEY_P} && fields[KEY_P] == QUERY
    ensures MetadataValue(id) && meta == QueryMeta(id, first, colon)
    ensures ReadFields(meta, map[]).value[KEY_I] == id
  {
    hide ReadFields, MetadataValue, QueryMeta;
    var entries;
    entries, colon := EntriesOfFields(meta, map[]);
    var fields := Filled(entries, map[]);
    FilledKeys(entries, map[]);
    assert |{KEY_I, KEY_P}| == 2;
    var a, b := entries[0], entries[1];
    assert ValidEntries(entries[1..], map[a.key := a.value]) && entries[1..][0] == b && a.key != b.key;
    assert a.key in fields.Keys && b.key in fields.Keys;
    id, first := fields[KEY_I], a.key == KEY_I;
    assert entries == QueryEntries(id, first);
    QueryWritten(id, first);
    assert ValidEntry(if first then a else b);
  }

  lemma FieldsOfQuery(id: seq<byte>, first: bool, colon: bool)
    requires MetadataValue(id)
    ensures ReadFields(QueryMeta(id, first, colon), map[]) == Some(map[KEY_I := id, KEY_P := [63]])
    ensures SEMICOLON !in QueryMeta(id, first, colon)
  {
    hide ReadFields, ValidEntries, MetadataValue, Ascii, Written, Filled;
    QueryWritten(id, first);
    FieldsOfEntries(QueryEntries(id, first), map[], colon);
    assert Written(QueryEntries(id, first)) + [] == Written(QueryEntries(id, first));
    QueryBytes();
    NoSemicolon(id);
  }

  lemma NoSemicolon(value: seq<byte>)
    requires MetadataValue(value)
    ensures SEMICOLON !in value && COLON !in value
  {
    assert forall k :: 0 <= k < |value| ==> MetadataByte(value[k]);
  }

  ghost predicate IsQuery(s: seq<byte>, id: seq<byte>, first: bool, colon: bool, bel: bool) {
    && s == Sequence(Osc(Ascii("99"), QueryMeta(id, first, colon) + [SEMICOLON]), bel)
    && MetadataValue(id) && |QueryMeta(id, first, colon)| < 1024
  }

  /** A sequence is answered exactly when it is a query, and the identifier comes back between fixed bytes. */
  lemma ReplyExact(owner: nat, s: seq<byte>, o: nat, text: seq<byte>)
    ensures EffectOf(owner, s) == Some(Reply(o, text)) <==>
            && owner != 0 && o == owner
            && exists id, first: bool, colon: bool, bel: bool :: IsQuery(s, id, first, colon, bel) && text == Answer(id)
  {
    hide Frame, Sequence, QueryMeta, MetadataValue, KittyEffect, ClipboardEffect, RxvtShape, Printable, Answer;
    CodesPlain();
    hide Ascii;
    if EffectOf(owner, s) == Some(Reply(o, text)) {
      var osc := Frame(s).value;
      FrameExact(s, osc);
      var bel: bool :| s == Sequence(osc, bel);
      ClipboardNoReply(owner, osc.payload);
      assert osc.code == CODE_KITTY_NOTIFY && KittyEffect(owner, osc.payload) == Some(Reply(o, text));
      var id, first, colon := QueryParts(owner, osc.payload);
      assert IsQuery(s, id, first, colon, bel) && text == Answer(id);
    }
    if exists id, first: bool, colon: bool, bel: bool :: IsQuery(s, id, first, colon, bel) && text == Answer(id) {
      var id, first: bool, colon: bool, bel: bool :| IsQuery(s, id, first, colon, bel) && text == Answer(id);
      FrameExact(s, Osc(CODE_KITTY_NOTIFY, QueryMeta(id, first, colon) + [SEMICOLON]));
      QueryAnswered(owner, id, first, colon);
    }
  }

  lemma ClipboardNoReply(owner: nat, payload: seq<byte>)
    ensures ClipboardEffect(owner, payload).Some? ==> ClipboardEffect(owner, payload).value.Clipboard?
  {
  }

  lemma QueryParts(owner: nat, payload: seq<byte>) returns (id: seq<byte>, first: bool, colon: bool)
    requires KittyEffect(owner, payload).Some? && KittyEffect(owner, payload).value.Reply?
    ensures MetadataValue(id) && payload == QueryMeta(id, first, colon) + [SEMICOLON]
    ensures KittyEffect(owner, payload) == Some(Reply(owner, Answer(id)))
  {
    hide ReadFields, MetadataValue, QueryMeta, Ascii;
    var n := SplitNotification(payload).value;
    id, first, colon := QueryOfFields(n.meta);
    QueryBytes();
    assert payload == n.meta + [SEMICOLON] + [];
  }

  lemma QueryAnswered(owner: nat, id: seq<byte>, first: bool, colon: bool)
    requires MetadataValue(id)
    ensures KittyEffect(owner, QueryMeta(id, first, colon) + [SEMICOLON]) == Some(Reply(owner, Answer(id)))
  {
    hide ReadFields, MetadataValue, QueryMeta, Ascii, SplitNotification;
    var meta := QueryMeta(id, first, colon);
    FieldsOfQuery(id, first, colon);
    Parts(meta, []);
    QueryBytes();
    assert meta + [SEMICOLON] == meta + [SEMICOLON] + [];
    assert map[KEY_I := id, KEY_P := [63]].Keys == {KEY_I, KEY_P};
  }

  // ---- Bells (OSC 9, 777 and 99) ----------------------------------------------------

  /** The key is absent or has one of two values. */
  predicate OneOf(fields: Fields, key: char, a: string, b: string)
    requires key as int < 128
    requires forall k :: 0 <= k < |a| ==> a[k] as int < 128
    requires forall k :: 0 <= k < |b| ==> b[k] as int < 128
  {
    key as int in fields ==> fields[key as int] == Ascii(a) || fields[key as int] == Ascii(b)
  }

  /** A notification with a title and a body. */
  predicate IsRxvt(payload: seq<byte>, title: seq<byte>, body: seq<byte>) {
    payload == Ascii("notify;") + title + Ascii(";") + body && title != [] && body != [] && SEMICOLON !in title
  }

  /** A notification with metadata the terminal supports and content in the announced form. */
  ghost predicate IsKitty(payload: seq<byte>, meta: seq<byte>, content: seq<byte>, fields: Fields) {
    && payload == meta + [SEMICOLON] + content && SEMICOLON !in meta && content != []
    && ReadFields(meta, map[]) == Some(fields)
    && OneOf(fields, 'p', "title", "body") && OneOf(fields, 'e', "1", "1") && OneOf(fields, 'd', "1", "1")
    && if 'e' as int in fields then Acceptable(content) else Printable(content)
  }

  ghost predicate Rings(osc: Osc) {
    && 1 <= |osc.payload| <= 1024
    && (|| (osc.code == Ascii("9") && Printable(osc.payload))
        || (osc.code == Ascii("777") && Printable(osc.payload)
            && exists title, body :: IsRxvt(osc.payload, title, body))
        || (osc.code == Ascii("99") && exists meta, content, fields :: IsKitty(osc.payload, meta, content, fields)))
  }

  /** The bell rings exactly for printable OSC 9 and OSC 777 notifications and for supported OSC 99 ones, up to
      1 KiB. */
  lemma BellExact(owner: nat, s: seq<byte>, o: nat)
    ensures EffectOf(owner, s) == Some(Bell(o)) <==>
            owner != 0 && o == owner && exists osc, bel: bool :: s == Sequence(osc, bel) && Rings(osc)
  {
    hide Frame, Sequence, KittyEffect, ClipboardEffect, RxvtShape, Printable, IsKitty, IsRxvt;
    CodesPlain();
    hide Ascii;
    if Frame(s).Some? {
      var osc := Frame(s).value;
      FrameExact(s, osc);
      ClipboardNoReply(owner, osc.payload);
      RxvtExact(osc.payload);
      KittyExact(owner, osc.payload);
    }
    if exists osc, bel: bool :: s == Sequence(osc, bel) && Rings(osc) {
      var osc, bel: bool :| s == Sequence(osc, bel) && Rings(osc);
      FrameExact(s, osc);
    }
  }

  lemma RxvtExact(payload: seq<byte>)
    ensures RxvtShape(payload) <==> exists title, body :: IsRxvt(payload, title, body)
  {
    assert Ascii("notify;") == RXVT_PREFIX && Ascii(";") == [SEMICOLON];
    hide Ascii;
    if RxvtShape(payload) {
      var split := IndexFrom(payload, SEMICOLON, 7);
      assert payload == payload[..7] + payload[7..split] + payload[split..split + 1] + payload[split + 1..];
      assert payload[split..split + 1] == [SEMICOLON];
      assert IsRxvt(payload, payload[7..split], payload[split + 1..]);
    }
    if exists title, body :: IsRxvt(payload, title, body) {
      var title, body :| IsRxvt(payload, title, body);
      var split := 7 + |title|;
      assert payload[split] == SEMICOLON && payload[..7] == RXVT_PREFIX;
      assert forall k :: 7 <= k < split ==> payload[k] == title[k - 7] && title[k - 7] in title;
      IndexIs(payload, SEMICOLON, 7, split);
    }
  }

  lemma KittyExact(owner: nat, payload: seq<byte>)
    ensures KittyEffect(owner, payload) == Some(Bell(owner)) <==>
            exists meta, content, fields :: IsKitty(payload, meta, content, fields)
    ensures KittyEffect(owner, payload).Some? ==>
              KittyEffect(owner, payload).value == Bell(owner) || KittyEffect(owner, payload).value.Reply?
  {
    hide ReadFields, Acceptable, Printable, IndexFrom, IsKitty, KittyEffect;
    if KittyEffect(owner, payload) == Some(Bell(owner)) {
      KittyRings(owner, payload);
    }
    if exists meta, content, fields :: IsKitty(payload, meta, content, fields) {
      var meta, content, fields :| IsKitty(payload, meta, content, fields);
      RingsKitty(owner, payload, meta, content, fields);
    }
    KittyKinds(owner, payload);
  }

  lemma KittyKinds(owner: nat, payload: seq<byte>)
    ensures KittyEffect(owner, payload).Some? ==>
              KittyEffect(owner, payload).value == Bell(owner) || KittyEffect(owner, payload).value.Reply?
  {
    hide ReadFields, Acceptable, Printable, SplitNotification;
  }

  lemma KittyRings(owner: nat, payload: seq<byte>)
    requires KittyEffect(owner, payload) == Some(Bell(owner))
    ensures exists meta, content, fields :: IsKitty(payload, meta, content, fields)
  {
    SupportedMeans();
    hide Ascii, ReadFields, Acceptable, Printable, IndexFrom, SupportedNotification;
    var n := SplitNotification(payload).value;
    PartsOf(payload);
    assert IsKitty(payload, n.meta, n.content, ReadFields(n.meta, map[]).value);
  }

  lemma RingsKitty(owner: nat, payload: seq<byte>, meta: seq<byte>, content: seq<byte>, fields: Fields)
    requires IsKitty(payload, meta, content, fields)
    ensures KittyEffect(owner, payload) == Some(Bell(owner))
  {
    SupportedMeans();
    hide Ascii, ReadFields, Acceptable, Printable, IndexFrom, SupportedNotification, SplitNotification;
    Parts(meta, content);
  }

  lemma SupportedMeans()
    ensures forall fields :: SupportedNotification(fields) <==>
              OneOf(fields, 'p', "title", "body") && OneOf(fields, 'e', "1", "1") && OneOf(fields, 'd', "1", "1")
  {
    assert Ascii("title") == TITLE && Ascii("body") == BODY && Ascii("1") == ONE;
    hide Ascii;
  }

  // ---- Nothing too long has an effect ------------------------------------------------

  /** A sequence the collector drops for its length would have had no effect. */
  lemma EffectIsShort(owner: nat, s: seq<byte>)
    requires EffectOf(owner, s).Some?
    ensures |s| <= (1024 * 1024 + 2) / 3 * 4 + 16
    ensures TerminalOutput.Kept(s)
  {
    hide DecodeText, TextPadding, WellFormed, KittyEffect, Printable, RxvtShape, IndexFrom;
    var osc := Frame(s).value;
    FrameExact(s, osc);
    var bel: bool :| s == Sequence(osc, bel);
    assert s[..2] == OSC_START;
    if osc.code == CODE_CLIPBOARD {
      var n := ClipboardParts(owner, osc.payload);
      assert |n.meta| <= 1;
    }
  }
}
