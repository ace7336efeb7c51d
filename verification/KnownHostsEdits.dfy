/** What removal does to a file, seen by later searches. */
module KnownHostsEdits {
  import opened Basics
  import opened KnownHosts

  const NEWLINE: char := '\n'

  // ---- Lines in, lines out -------------------------------------------------

  /** A complete line: not empty, with a newline at most at its end. */
  predicate IsLine(line: string) {
    |line| > 0 && forall k :: 0 <= k < |line| - 1 ==> line[k] != NEWLINE
  }

  predicate Terminated(line: string) {
    |line| > 0 && line[|line| - 1] == NEWLINE
  }

  /** Complete lines, of which only the last may lack its newline. */
  ghost predicate AreLines(lines: seq<string>) {
    && (forall i :: 0 <= i < |lines| ==> IsLine(lines[i]))
    && forall i :: 0 <= i < |lines| - 1 ==> Terminated(lines[i])
  }

  lemma {:induction false} LinesAreLines(content: string)
    ensures AreLines(Lines(content)) && Concat(Lines(content)) == content
    decreases |content|
  {
    hide IndexFrom;
    if |content| > 0 {
      var i := IndexFrom(content, '\n', 0);
      if i == |content| {
        ConcatSnoc([], content);
        assert [] + [content] == [content];
      } else {
        var first, rest := content[..i + 1], content[i + 1..];
        LinesAreLines(rest);
        assert Lines(content) == [first] + Lines(rest);
        assert ([first] + Lines(rest))[1..] == Lines(rest);
        assert content == first + rest;
      }
    }
  }

  lemma {:induction false} LinesOfConcat(lines: seq<string>)
    requires AreLines(lines)
    ensures Lines(Concat(lines)) == lines
  {
    hide IndexFrom;
    if |lines| > 0 {
      var first, rest := lines[0], Concat(lines[1..]);
      var content := first + rest;
      LinesOfConcat(lines[1..]);
      if Terminated(first) {
        IndexIs(content, '\n', 0, |first| - 1);
        assert content[..|first|] == first && content[|first|..] == rest;
      } else {
        assert |lines| == 1;
        assert lines[1..] == [] && content == first;
        assert forall k :: 0 <= k < |content| ==> content[k] != '\n';
        IndexIs(content, '\n', 0, |content|);
      }
      assert lines == [first] + lines[1..];
    }
  }

  function EmittedLines(check: HashCheck, lines: seq<string>, target: string): seq<string> {
    if |lines| == 0 then []
    else
      var e := Emit(check, lines[0], target);
      (if e == "" then [] else [e]) + EmittedLines(check, lines[1..], target)
  }

  lemma {:induction false} EmitAllConcat(check: HashCheck, lines: seq<string>, target: string)
    ensures EmitAll(check, lines, target) == Concat(EmittedLines(check, lines, target))
  {
    hide Emit;
    if |lines| > 0 {
      EmitAllConcat(check, lines[1..], target);
      var e, rest := Emit(check, lines[0], target), EmittedLines(check, lines[1..], target);
      assert ([e] + rest)[1..] == rest && [] + rest == rest;
      assert "" + Concat(rest) == Concat(rest);
      assert EmittedLines(check, lines, target) == if e == "" then rest else [e] + rest;
    }
  }

  lemma BodyOfLine(line: string)
    requires IsLine(line)
    ensures NEWLINE !in Body(line)
    ensures SplitLineEnding(line).ending == "" <==> !Terminated(line)
    ensures var e := SplitLineEnding(line).ending; e == "" || e == "\n" || e == "\r\n"
  {
    var n, body := |line|, Body(line);
    assert forall k :: 0 <= k < |body| ==> body[k] == line[k];
  }

  /** The retained patterns of an edited line: host-field text, comma-free and without whitespace. */
  lemma RetainedText(check: HashCheck, line: string, target: string)
    requires HostField(line).Some?
    ensures var retained := Retained(check, Patterns(line), target);
            && Separated(retained, ',')
            && (|retained| > 0 ==> forall k :: 0 <= k < |Join(retained, ',')| ==> !IsWhitespace(Join(retained, ',')[k]))
  {
    hide PatternMatches, Split, Join, HostField;
    var b := HostField(line).value;
    var field := line[b.start..b.end];
    var retained := Retained(check, Patterns(line), target);
    JoinSplit(field, ',');
    RetainedLess(check, Patterns(line), target);
    forall i | 0 <= i < |retained| ensures ',' !in retained[i] {
      assert retained[i] in Patterns(line);
    }
    if |retained| > 0 {
      var text := Join(retained, ',');
      forall k | 0 <= k < |text| ensures !IsWhitespace(text[k]) {
        JoinChars(retained, ',', text[k]);
        if text[k] != ',' {
          var i :| 0 <= i < |retained| && text[k] in retained[i];
          assert retained[i] in Patterns(line);
          var j :| 0 <= j < |Patterns(line)| && Patterns(line)[j] == retained[i];
          PartChars(Patterns(line), ',', j, text[k]);
          assert text[k] in field;
        }
      }
    }
  }

  /** An edited line is still one line with the same ending; only an empty last one disappears. */
  lemma EmitIsLine(check: HashCheck, line: string, target: string)
    requires IsLine(line)
    ensures var e := Emit(check, line, target); e == "" || (IsLine(e) && (Terminated(e) <==> Terminated(line)))
  {
    hide EditLine, SplitLineEnding, IsLine;
    BodyOfLine(line);
    var edit := EditLine(check, Body(line), target);
    if edit.Replaced? {
      EditShape(check, Body(line), target);
      NewlineAtEnd(edit.line, SplitLineEnding(line).ending);
    }
  }

  /** A replacement keeps what precedes and follows the host field and adds no whitespace. */
  lemma EditShape(check: HashCheck, body: string, target: string)
    requires EditLine(check, body, target).Replaced?
    ensures HostField(body).Some?
    ensures var b, text := HostField(body).value, NewField(check, body, target);
            && EditLine(check, body, target).line == body[..b.start] + text + body[b.end..]
            && (forall k :: 0 <= k < |text| ==> !IsWhitespace(text[k]))
    ensures NEWLINE !in body ==> NEWLINE !in EditLine(check, body, target).line
  {
    hide HostField, Retained, Patterns, LineMatches, Join, PatternMatches;
    RetainedText(check, body, target);
    var b, text := HostField(body).value, NewField(check, body, target);
    if NEWLINE !in body {
      assert forall k :: 0 <= k < |text| ==> text[k] != NEWLINE;
      assert forall k :: 0 <= k < |body| ==> body[k] != NEWLINE;
    }
  }

  /** The host field an edit writes. */
  function NewField(check: HashCheck, body: string, target: string): string {
    var retained := Retained(check, Patterns(body), target);
    if |retained| == 0 then "" else Join(retained, ',')
  }

  lemma NewlineAtEnd(body: string, ending: string)
    requires NEWLINE !in body && (ending == "" || ending == "\n" || ending == "\r\n")
    ensures var e := body + ending; e == "" || (IsLine(e) && (Terminated(e) <==> ending != ""))
  {
  }

  lemma {:induction false} EmittedAreLines(check: HashCheck, lines: seq<string>, target: string)
    requires AreLines(lines)
    ensures AreLines(EmittedLines(check, lines, target))
  {
    hide Emit, IsLine, Terminated;
    if |lines| > 0 {
      var e, rest := Emit(check, lines[0], target), EmittedLines(check, lines[1..], target);
      EmittedAreLines(check, lines[1..], target);
      EmitIsLine(check, lines[0], target);
      if |lines| == 1 {
        assert rest == [];
      }
      if e != "" {
        assert forall i :: 0 <= i < |rest| ==> ([e] + rest)[i + 1] == rest[i];
      }
    }
  }

  /** The lines of the result are the edited lines, in order: an unmatched one byte for byte, a matched one
      shortened or gone. */
  lemma RemovalKeepsLines(check: HashCheck, content: string, target: string)
    ensures Lines(EmitAll(check, Lines(content), target)) == EmittedLines(check, Lines(content), target)
  {
    hide Lines, EmitAll, EmittedLines;
    LinesAreLines(content);
    EmittedAreLines(check, Lines(content), target);
    EmitAllConcat(check, Lines(content), target);
    LinesOfConcat(EmittedLines(check, Lines(content), target));
  }

  lemma UnmatchedUnchanged(check: HashCheck, line: string, target: string)
    ensures !LineMatches(check, Body(line), target) ==> Emit(check, line, target) == line
    ensures EditLine(check, Body(line), target).Removed? ==> Emit(check, line, target) == ""
  {
    var _ := EditLine(check, Body(line), target);
    hide LineMatches;
  }

  // ---- What a line matches after an edit -----------------------------------

  lemma WhitespaceEndsAt(line: string, from: nat, i: nat)
    requires from <= i <= |line|
    requires forall k :: from <= k < i ==> IsWhitespace(line[k])
    requires i < |line| ==> !IsWhitespace(line[i])
    ensures SkipWhitespace(line, from) == i
  {
    var j := SkipWhitespace(line, from);
    assert !(j < i) && !(i < j);
  }

  lemma TokenEndsAt(line: string, from: nat, i: nat)
    requires from <= i <= |line|
    requires forall k :: from <= k < i ==> !IsWhitespace(line[k])
    requires i < |line| ==> IsWhitespace(line[i])
    ensures SkipToken(line, from) == i
  {
    var j := SkipToken(line, from);
    assert !(j < i) && !(i < j);
  }

  /** The patterns of the token that follows position `at`. */
  function NextTokenPatterns(line: string, at: nat): seq<string>
    requires at <= |line|
  {
    var start := SkipWhitespace(line, at);
    if start == |line| then [] else Split(line[start..SkipToken(line, start)], ',')
  }

  /** Whitespace at the end of a line changes no token. */
  lemma NextTokenTrimmed(line: string, w: char, at: nat)
    requires at <= |line| && IsWhitespace(w)
    ensures NextTokenPatterns(line + [w], at) == NextTokenPatterns(line, at)
  {
    hide SkipWhitespace, SkipToken, Split;
    var longer := line + [w];
    var start := SkipWhitespace(line, at);
    if start == |line| {
      WhitespaceEndsAt(longer, at, |longer|);
    } else {
      WhitespaceEndsAt(longer, at, start);
      var end := SkipToken(line, start);
      TokenEndsAt(longer, start, end);
      assert longer[start..end] == line[start..end];
    }
  }

  lemma PatternsByToken(line: string)
    ensures var first := SkipWhitespace(line, 0);
            Patterns(line) ==
            if first == |line| || line[first] == '#' then []
            else if line[first] != '@' then NextTokenPatterns(line, 0)
            else NextTokenPatterns(line, SkipToken(line, first))
  {
  }

  lemma PatternsTrimmed(line: string, w: char)
    requires IsWhitespace(w)
    ensures Patterns(line + [w]) == Patterns(line)
  {
    hide SkipWhitespace, SkipToken, Split, Patterns, NextTokenPatterns, IsWhitespace;
    var longer := line + [w];
    PatternsByToken(line);
    PatternsByToken(longer);
    var first := SkipWhitespace(line, 0);
    if first == |line| {
      WhitespaceEndsAt(longer, 0, |longer|);
    } else {
      WhitespaceEndsAt(longer, 0, first);
      var end := SkipToken(line, first);
      TokenEndsAt(longer, first, end);
      NextTokenTrimmed(line, w, 0);
      NextTokenTrimmed(line, w, end);
    }
  }

  /** The ending put back after an edit may swallow a carriage return, never a pattern. */
  lemma BodyPatterns(body: string, ending: string)
    requires NEWLINE !in body && (ending == "" || ending == "\n" || ending == "\r\n")
    ensures Patterns(Body(body + ending)) == Patterns(body)
  {
    hide Patterns;
    var line := body + ending;
    if ending == "\n" && |body| > 0 && body[|body| - 1] == '\r' {
      var shorter := body[..|body| - 1];
      assert body == shorter + ['\r'];
      assert Body(line) == shorter;
      PatternsTrimmed(shorter, '\r');
    } else if ending == "" {
      assert line == body;
      assert Body(line) == body by {
        assert |body| > 0 ==> body[|body| - 1] in body;
      }
    } else {
      assert line[|line| - 1] == '\n';
      assert Body(line) == body;
    }
  }

  /** A token moves with what precedes it. */
  lemma NextTokenShifted(line: string, at: nat, other: string, there: nat)
    requires at <= |line| && there <= |other| && line[at..] == other[there..]
    ensures NextTokenPatterns(line, at) == NextTokenPatterns(other, there)
  {
    hide SkipWhitespace, SkipToken, Split;
    assert |line| - at == |other| - there;
    assert forall k :: at <= k < |line| ==>
           line[k] == line[at..][k - at] == other[there..][k - at] == other[there + (k - at)];
    var start := SkipWhitespace(line, at);
    var moved := there + (start - at);
    assert forall k :: there <= k < |other| ==> other[k] == line[at + (k - there)];
    WhitespaceEndsAt(other, there, moved);
    if start < |line| {
      var end := SkipToken(line, start);
      TokenEndsAt(other, moved, there + (end - at));
      assert other[moved..there + (end - at)] == line[start..end];
    }
  }

  predicate HasMarker(line: string) {
    var first := SkipWhitespace(line, 0); first < |line| && line[first] == '@'
  }

  function Replace(line: string, b: Bounds, text: string): string
    requires b.start <= b.end <= |line|
  {
    line[..b.start] + text + line[b.end..]
  }

  /** Where the host field lies between whitespace and, perhaps, a marker. */
  lemma FieldPosition(line: string)
    requires HostField(line).Some?
    ensures var b, first := HostField(line).value, SkipWhitespace(line, 0);
            && (HasMarker(line) ==>
                first < SkipToken(line, first) <= b.start && b.start == SkipWhitespace(line, SkipToken(line, first)))
            && (!HasMarker(line) ==> b.start == first && line[first] != '#')
            && Patterns(line) == Split(line[b.start..b.end], ',') == NextTokenPatterns(line, b.start)
            && b.end == SkipToken(line, b.start)
  {
    var b := HostField(line).value;
    WhitespaceEndsAt(line, b.start, b.start);
  }

  /** Behind a marker the second token is the host field, whatever text it is; without text, the next one is. */
  lemma MarkedEdit(line: string, text: string)
    requires HostField(line).Some? && HasMarker(line)
    requires forall k :: 0 <= k < |text| ==> !IsWhitespace(text[k])
    ensures var b := HostField(line).value;
            Patterns(Replace(line, b, text)) == if text == "" then NextTokenPatterns(line, b.end) else Split(text, ',')
  {
    hide SkipWhitespace, SkipToken, Split, Patterns, IsWhitespace, HostField;
    FieldPosition(line);
    var b, first := HostField(line).value, SkipWhitespace(line, 0);
    var edited := Replace(line, b, text);
    var markerEnd := SkipToken(line, first);
    assert forall k :: 0 <= k < b.start ==> edited[k] == line[k];
    HostFieldIsToken(line);
    WhitespaceEndsAt(edited, 0, first);
    MarkerSeparated(line);
    TokenEndsAt(edited, first, markerEnd);
    PatternsByToken(edited);
    if text == "" {
      assert edited[b.start..] == line[b.end..];
      SkipOver(edited, markerEnd, b.start);
      NextTokenShifted(edited, b.start, line, b.end);
    } else {
      ReplacedToken(line, b, text);
      SkipOver(edited, markerEnd, b.start);
    }
  }

  lemma HostFieldIsToken(line: string)
    requires HostField(line).Some?
    ensures var b := HostField(line).value; b.start < b.end <= |line| && !IsWhitespace(line[b.start])
    ensures var b := HostField(line).value; b.end < |line| ==> IsWhitespace(line[b.end])
  {
  }

  /** A marker and the host field have whitespace between them. */
  lemma MarkerSeparated(line: string)
    requires HostField(line).Some? && HasMarker(line)
    ensures var b, end := HostField(line).value, SkipToken(line, SkipWhitespace(line, 0));
            end < b.start && forall k :: end <= k < b.start ==> IsWhitespace(line[k])
  {
    var b, end := HostField(line).value, SkipToken(line, SkipWhitespace(line, 0));
    assert !IsWhitespace(line[b.start]);
  }

  /** Whitespace in front of a token does not change it. */
  lemma SkipOver(line: string, from: nat, to: nat)
    requires from <= to <= |line| && forall k :: from <= k < to ==> IsWhitespace(line[k])
    ensures NextTokenPatterns(line, from) == NextTokenPatterns(line, to)
  {
    hide SkipToken, Split, IsWhitespace;
    WhitespaceEndsAt(line, from, SkipWhitespace(line, to));
  }

  /** The replaced text is a token of its own: whitespace or the end follows it. */
  lemma ReplacedToken(line: string, b: Bounds, text: string)
    requires b.start <= b.end <= |line| && (b.end < |line| ==> IsWhitespace(line[b.end]))
    requires text != "" && forall k :: 0 <= k < |text| ==> !IsWhitespace(text[k])
    ensures NextTokenPatterns(Replace(line, b, text), b.start) == Split(text, ',')
    ensures SkipToken(Replace(line, b, text), b.start) == b.start + |text|
  {
    hide SkipWhitespace, SkipToken, Split, IsWhitespace;
    var edited := Replace(line, b, text);
    assert forall k :: b.start <= k < b.start + |text| ==> edited[k] == text[k - b.start];
    WhitespaceEndsAt(edited, b.start, b.start);
    assert b.start + |text| < |edited| ==> edited[b.start + |text|] == line[b.end];
    TokenEndsAt(edited, b.start, b.start + |text|);
    assert edited[b.start..b.start + |text|] == text;
  }

  /** Without a marker the first token counts, unless the edit makes it a comment or a marker. */
  lemma PlainEdit(line: string, text: string)
    requires HostField(line).Some? && !HasMarker(line)
    requires forall k :: 0 <= k < |text| ==> !IsWhitespace(text[k])
    ensures var b := HostField(line).value;
            Patterns(Replace(line, b, text)) ==
            if text == "" then Patterns(line[b.end..])
            else if text[0] == '#' then []
            else if text[0] == '@' then NextTokenPatterns(line, b.end)
            else Split(text, ',')
  {
    hide *;
    FieldPosition(line);
    HostFieldIsToken(line);
    var b := HostField(line).value;
    if text == "" {
      ReplaceParts(line, b, text);
      BlankInFront(line[..b.start], line[b.end..]);
    } else {
      ReplaceParts(line, b, text);
      ReplacedToken(line, b, text);
      FieldStarts(Replace(line, b, text), line, b.start, text[0]);
      PatternsByToken(Replace(line, b, text));
      EditedTail(line, b, text);
    }
  }

  lemma ReplaceParts(line: string, b: Bounds, text: string)
    requires b.start <= b.end <= |line|
    ensures var edited := Replace(line, b, text);
            && |edited| == b.start + |text| + |line| - b.end
            && edited[..b.start] == line[..b.start]
            && (text == "" ==> edited == line[..b.start] + line[b.end..])
            && (text != "" ==> edited[b.start] == text[0])
  {
  }

  lemma FieldStarts(edited: string, line: string, start: nat, c: char)
    requires start < |edited| && start <= |line| && edited[..start] == line[..start] && edited[start] == c
             && !IsWhitespace(c)
    requires forall k :: 0 <= k < start ==> IsWhitespace(line[k])
    ensures SkipWhitespace(edited, 0) == start
    ensures NextTokenPatterns(edited, 0) == NextTokenPatterns(edited, start)
  {
    hide SkipWhitespace, SkipToken, Split, IsWhitespace, NextTokenPatterns;
    forall k | 0 <= k < start ensures IsWhitespace(edited[k]) {
      assert edited[k] == edited[..start][k] == line[..start][k] == line[k];
    }
    WhitespaceEndsAt(edited, 0, start);
    SkipOver(edited, 0, start);
  }

  lemma EditedTail(line: string, b: Bounds, text: string)
    requires b.start <= b.end <= |line|
    ensures NextTokenPatterns(Replace(line, b, text), b.start + |text|) == NextTokenPatterns(line, b.end)
  {
    hide SkipWhitespace, SkipToken, Split, NextTokenPatterns;
    assert Replace(line, b, text)[b.start + |text|..] == line[b.end..];
    NextTokenShifted(Replace(line, b, text), b.start + |text|, line, b.end);
  }

  /** Skipping depends only on what lies ahead. */
  lemma SkipsShifted(line: string, at: nat, other: string, there: nat)
    requires at <= |line| && there <= |other| && line[at..] == other[there..]
    ensures SkipWhitespace(other, there) - there == SkipWhitespace(line, at) - at
    ensures SkipToken(other, there) - there == SkipToken(line, at) - at
  {
    hide SkipWhitespace, SkipToken, IsWhitespace;
    assert |line| - at == |other| - there;
    forall k | there <= k < |other| ensures other[k] == line[at + (k - there)] {
      assert other[k] == other[there..][k - there] == line[at..][k - there];
    }
    WhitespaceEndsAt(other, there, there + (SkipWhitespace(line, at) - at));
    TokenEndsAt(other, there, there + (SkipToken(line, at) - at));
  }

  /** Leading whitespace moves the first token and leaves its text. */
  lemma FirstTokenMoved(blank: string, line: string)
    requires forall k :: 0 <= k < |blank| ==> IsWhitespace(blank[k])
    ensures SkipWhitespace(blank + line, 0) == |blank| + SkipWhitespace(line, 0)
    ensures NextTokenPatterns(blank + line, 0) == NextTokenPatterns(line, 0)
  {
    hide SkipWhitespace, SkipToken, Split, IsWhitespace, NextTokenPatterns;
    var longer, n := blank + line, |blank|;
    assert line[0..] == line && longer[n..] == line;
    SkipsShifted(line, 0, longer, n);
    NextTokenShifted(line, 0, longer, n);
    assert forall k :: 0 <= k < n ==> longer[k] == blank[k];
    SkipOver(longer, 0, n);
    SkipsAhead(longer, 0, n);
  }

  lemma SkipsAhead(line: string, from: nat, to: nat)
    requires from <= to <= |line| && forall k :: from <= k < to ==> IsWhitespace(line[k])
    ensures SkipWhitespace(line, from) == SkipWhitespace(line, to)
  {
    hide IsWhitespace;
    WhitespaceEndsAt(line, from, SkipWhitespace(line, to));
  }

  /** The token after position `at` of the line, and where the one at `at` ends, are found again behind `front`. */
  lemma TailMoved(front: string, line: string, at: nat)
    requires at <= |line|
    ensures NextTokenPatterns(front + line, |front| + at) == NextTokenPatterns(line, at)
    ensures SkipToken(front + line, |front| + at) == |front| + SkipToken(line, at)
  {
    hide SkipWhitespace, SkipToken, Split, NextTokenPatterns;
    assert (front + line)[|front| + at..] == line[at..];
    SkipsShifted(line, at, front + line, |front| + at);
    NextTokenShifted(line, at, front + line, |front| + at);
  }

  /** Leading whitespace does not change a line's patterns. */
  lemma BlankInFront(blank: string, line: string)
    requires forall k :: 0 <= k < |blank| ==> IsWhitespace(blank[k])
    ensures Patterns(blank + line) == Patterns(line)
  {
    hide SkipWhitespace, SkipToken, Split, Patterns, IsWhitespace, NextTokenPatterns;
    var first := SkipWhitespace(line, 0);
    FirstTokenMoved(blank, line);
    PatternsByToken(line);
    PatternsByToken(blank + line);
    if first < |line| {
      assert (blank + line)[|blank| + first] == line[first];
      TailMoved(blank, line, first);
      TailMoved(blank, line, SkipToken(line, first));
    }
  }
}
