/** Searching a known_hosts file after a removal: what is found again, and exactly when. */
module KnownHostsSearch {
  import opened Basics
  import opened KnownHosts
  import opened KnownHostsEdits

  // ---- One line ------------------------------------------------------------

  predicate MatchesAny(check: HashCheck, patterns: seq<string>, target: string) {
    exists p :: p in patterns && PatternMatches(check, target, p)
  }

  /** The patterns later searches see in a line that was rewritten. */
  function PatternsAfter(check: HashCheck, body: string, target: string): seq<string>
    requires HostField(body).Some?
  {
    var b, retained, text :=
        HostField(body).value, Retained(check, Patterns(body), target), NewField(check, body, target);
    if HasMarker(body) then
      if text == "" then NextTokenPatterns(body, b.end) else retained
    else if text == "" then Patterns(body[b.end..])
    else if text[0] == '#' then []
    else if text[0] == '@' then NextTokenPatterns(body, b.end)
    else retained
  }

  lemma FieldWritten(check: HashCheck, body: string, target: string)
    requires EditLine(check, body, target).Replaced?
    ensures HostField(body).Some?
    ensures var retained := Retained(check, Patterns(body), target);
            |retained| > 0 && NewField(check, body, target) == Join(retained, ',')
    ensures EditLine(check, body, target).line == Replace(body, HostField(body).value, NewField(check, body, target))
  {
    hide HostField, Retained, Patterns, LineMatches, Join, PatternMatches;
  }

  lemma EditedPatterns(check: HashCheck, body: string, target: string)
    requires EditLine(check, body, target).Replaced?
    ensures HostField(body).Some?
    ensures Patterns(EditLine(check, body, target).line) == PatternsAfter(check, body, target)
  {
    hide HostField, Retained, Patterns, Join, PatternMatches, EditLine, NewField, Split, NextTokenPatterns, Replace,
        HasMarker, IsWhitespace;
    EditShape(check, body, target);
    RetainedText(check, body, target);
    FieldWritten(check, body, target);
    SplitJoin(Retained(check, Patterns(body), target), ',');
    if HasMarker(body) {
      MarkedEdit(body, NewField(check, body, target));
    } else {
      PlainEdit(body, NewField(check, body, target));
    }
  }

  /** What a later search sees in the place of a line. */
  lemma EmittedPatterns(check: HashCheck, line: string, target: string)
    requires IsLine(line)
    ensures EditLine(check, Body(line), target).Replaced? ==> HostField(Body(line)).Some?
    ensures var edit := EditLine(check, Body(line), target);
            Patterns(Body(Emit(check, line, target))) ==
            if edit.Unchanged? then Patterns(Body(line))
            else if edit.Removed? then []
            else PatternsAfter(check, Body(line), target)
  {
    hide EditLine, PatternsAfter, Patterns, Body, IsLine, SplitLineEnding;
    var body, edit := Body(line), EditLine(check, Body(line), target);
    NoPatterns();
    if edit.Replaced? {
      BodyOfLine(line);
      EditShape(check, body, target);
      EditedPatterns(check, body, target);
      BodyPatterns(edit.line, SplitLineEnding(line).ending);
    }
  }

  lemma NoPatterns()
    ensures Body("") == "" && Patterns("") == []
  {
  }

  /** Some pattern of the line belongs to `other` and not to `target`. */
  predicate KeepsPattern(check: HashCheck, body: string, target: string, other: string) {
    exists p :: p in Patterns(body) && PatternMatches(check, other, p) && !PatternMatches(check, target, p)
  }

  /** No host pattern is empty or begins like a comment or a marker. */
  predicate Clean(body: string) {
    forall p :: p in Patterns(body) ==> p != "" && p[0] != '@' && p[0] != '#'
  }

  /** Removing the target's patterns turns later text of the line into host patterns, and they match again:
      either all that stays of the host field is one empty pattern, so the next token takes its place, or a first
      pattern beginning with `@` stays and reads as a marker. */
  predicate Exposed(check: HashCheck, body: string, target: string) {
    && HostField(body).Some?
    && LineMatches(check, body, target)
    && |Retained(check, Patterns(body), target)| > 0
    && var b, text := HostField(body).value, NewField(check, body, target);
       if text == "" then
         MatchesAny(check, if HasMarker(body) then NextTokenPatterns(body, b.end) else Patterns(body[b.end..]), target)
       else !HasMarker(body) && text[0] == '@' && MatchesAny(check, NextTokenPatterns(body, b.end), target)
  }

  lemma LineMatchesAny(check: HashCheck, line: string, target: string)
    ensures LineMatches(check, line, target) == MatchesAny(check, Patterns(line), target)
  {
    hide Patterns, PatternMatches;
  }

  lemma EditCases(check: HashCheck, body: string, target: string)
    ensures var edit := EditLine(check, body, target);
            && (edit.Unchanged? <==> !LineMatches(check, body, target))
            && (edit.Removed? ==> HostField(body).Some? && |Retained(check, Patterns(body), target)| == 0)
            && (edit.Replaced? ==> HostField(body).Some? && |Retained(check, Patterns(body), target)| > 0)
  {
    hide HostField, Retained, Patterns, Join, PatternMatches, LineMatches;
    var _ := EditLine(check, body, target);
  }

  /** A later search for the same target finds a line again exactly when the edit exposed a match in it. */
  lemma FoundAgain(check: HashCheck, line: string, target: string)
    requires IsLine(line)
    ensures LineMatches(check, Body(Emit(check, line, target)), target) <==> Exposed(check, Body(line), target)
  {
    hide EditLine, HostField, Retained, Patterns, NewField, NextTokenPatterns, HasMarker, LineMatches, PatternMatches,
        IsLine, Emit, Body;
    var body := Body(line);
    LineMatchesAny(check, Body(Emit(check, line, target)), target);
    LineMatchesAny(check, body, target);
    EmittedPatterns(check, line, target);
    EditCases(check, body, target);
    RetainedLess(check, Patterns(body), target);
  }

  /** In a clean line the text that stays is the host field again. */
  lemma CleanKept(check: HashCheck, body: string, target: string)
    requires Clean(body) && EditLine(check, body, target).Replaced?
    ensures HostField(body).Some? && PatternsAfter(check, body, target) == Retained(check, Patterns(body), target)
  {
    hide EditLine, HostField, Retained, Patterns, NewField, NextTokenPatterns, HasMarker, LineMatches, PatternMatches;
    FieldWritten(check, body, target);
    var retained := Retained(check, Patterns(body), target);
    RetainedLess(check, Patterns(body), target);
    assert retained[0] in retained;
  }

  /** In a clean line a pattern is found later exactly when it was not removed. */
  lemma FoundElsewhere(check: HashCheck, line: string, target: string, other: string)
    requires IsLine(line) && Clean(Body(line))
    ensures LineMatches(check, Body(Emit(check, line, target)), other) <==>
            KeepsPattern(check, Body(line), target, other)
  {
    hide EditLine, HostField, Retained, Patterns, PatternsAfter, Clean, LineMatches, PatternMatches, IsLine, Emit, Body;
    var body := Body(line);
    var edit := EditLine(check, body, target);
    LineMatchesAny(check, Body(Emit(check, line, target)), other);
    LineMatchesAny(check, body, target);
    EmittedPatterns(check, line, target);
    EditCases(check, body, target);
    RetainedLess(check, Patterns(body), target);
    if edit.Replaced? {
      CleanKept(check, body, target);
    }
  }

  // ---- Whole files ---------------------------------------------------------

  predicate CleanFile(content: string) {
    forall line :: line in Lines(content) ==> Clean(Body(line))
  }

  function CountExposed(check: HashCheck, lines: seq<string>, target: string): nat {
    if |lines| == 0 then 0
    else (if Exposed(check, Body(lines[0]), target) then 1 else 0) + CountExposed(check, lines[1..], target)
  }

  function CountKeeping(check: HashCheck, lines: seq<string>, target: string, other: string): nat {
    if |lines| == 0 then 0
    else
      (if KeepsPattern(check, Body(lines[0]), target, other) then 1 else 0)
      + CountKeeping(check, lines[1..], target, other)
  }

  function AfterRemoval(check: HashCheck, content: string, target: string): string {
    EmitAll(check, Lines(content), target)
  }

  /** One line more: its emitted text counts when it matches. */
  lemma CountEmitted(check: HashCheck, lines: seq<string>, target: string, other: string)
    requires |lines| > 0
    ensures CountMatches(check, EmittedLines(check, lines, target), other) ==
            (if LineMatches(check, Body(Emit(check, lines[0], target)), other) then 1 else 0)
            + CountMatches(check, EmittedLines(check, lines[1..], target), other)
  {
    hide Emit, LineMatches, Body;
    var e, rest := Emit(check, lines[0], target), EmittedLines(check, lines[1..], target);
    NoPatterns();
    LineMatchesAny(check, "", other);
    assert ([e] + rest)[1..] == rest && [] + rest == rest;
  }

  lemma {:induction false} CountFoundAgain(check: HashCheck, lines: seq<string>, target: string)
    requires AreLines(lines)
    ensures CountMatches(check, EmittedLines(check, lines, target), target) == CountExposed(check, lines, target)
  {
    hide Emit, LineMatches, Body, Exposed, IsLine, Terminated;
    if |lines| > 0 {
      CountEmitted(check, lines, target, target);
      FoundAgain(check, lines[0], target);
      CountFoundAgain(check, lines[1..], target);
    }
  }

  /** Finding after removing finds exactly the lines in which the removal exposed a match. */
  lemma RemainingEntries(check: HashCheck, content: string, target: string)
    ensures CountMatches(check, Lines(AfterRemoval(check, content, target)), target)
            == CountExposed(check, Lines(content), target)
  {
    hide Lines, EmitAll, EmittedLines, CountMatches, CountExposed;
    LinesAreLines(content);
    RemovalKeepsLines(check, content, target);
    CountFoundAgain(check, Lines(content), target);
  }

  lemma {:induction false} NoneExposed(check: HashCheck, lines: seq<string>, target: string)
    ensures CountExposed(check, lines, target) == 0 <==>
            forall line :: line in lines ==> !Exposed(check, Body(line), target)
  {
    hide Exposed, Body;
    if |lines| > 0 {
      NoneExposed(check, lines[1..], target);
      assert lines == [lines[0]] + lines[1..];
    }
  }

  /** Nothing is found after a removal if and only if no line of the file is exposed. */
  lemma NothingRemains(check: HashCheck, content: string, target: string)
    ensures CountMatches(check, Lines(AfterRemoval(check, content, target)), target) == 0
            <==> forall line :: line in Lines(content) ==> !Exposed(check, Body(line), target)
  {
    hide *;
    RemainingEntries(check, content, target);
    NoneExposed(check, Lines(content), target);
  }

  lemma CleanNotExposed(check: HashCheck, body: string, target: string)
    requires Clean(body)
    ensures !Exposed(check, body, target)
  {
    hide EditLine, HostField, Retained, Patterns, NextTokenPatterns, HasMarker, LineMatches, PatternMatches, Join;
    var retained := Retained(check, Patterns(body), target);
    RetainedLess(check, Patterns(body), target);
    if |retained| > 0 {
      assert retained[0] in retained;
      JoinStart(retained);
    }
  }

  lemma JoinStart(parts: seq<string>)
    requires |parts| > 0 && parts[0] != ""
    ensures Join(parts, ',') != "" && Join(parts, ',')[0] == parts[0][0]
  {
  }

  /** In a clean file, removal leaves nothing of the target. */
  lemma CleanFileForgets(check: HashCheck, content: string, target: string)
    requires CleanFile(content)
    ensures CountMatches(check, Lines(AfterRemoval(check, content, target)), target) == 0
  {
    hide Clean, Exposed, Lines, AfterRemoval, CountMatches, Body;
    NothingRemains(check, content, target);
    forall line | line in Lines(content) ensures !Exposed(check, Body(line), target) {
      CleanNotExposed(check, Body(line), target);
    }
  }

  lemma {:induction false} CountFoundElsewhere(check: HashCheck, lines: seq<string>, target: string, other: string)
    requires AreLines(lines) && forall line :: line in lines ==> Clean(Body(line))
    ensures CountMatches(check, EmittedLines(check, lines, target), other) == CountKeeping(check, lines, target, other)
  {
    hide Emit, LineMatches, Body, KeepsPattern, Clean, IsLine, Terminated;
    if |lines| > 0 {
      CountEmitted(check, lines, target, other);
      FoundElsewhere(check, lines[0], target, other);
      CountFoundElsewhere(check, lines[1..], target, other);
    }
  }

  /** In a clean file, another target is found afterwards in exactly the lines where one of its patterns does not
      also match the removed target. */
  lemma OtherTargetsSurvive(check: HashCheck, content: string, target: string, other: string)
    requires CleanFile(content)
    ensures CountMatches(check, Lines(AfterRemoval(check, content, target)), other)
            == CountKeeping(check, Lines(content), target, other)
  {
    hide Lines, EmitAll, EmittedLines, CountMatches, CountKeeping, Clean, Body;
    LinesAreLines(content);
    RemovalKeepsLines(check, content, target);
    CountFoundElsewhere(check, Lines(content), target, other);
  }

  // ---- Removing twice ------------------------------------------------------

  /** Characters of the joined pieces, one comma charged to each. */
  function Weight(parts: seq<string>): nat {
    if |parts| == 0 then 0 else |parts[0]| + 1 + Weight(parts[1..])
  }

  lemma {:induction false} JoinWeight(parts: seq<string>)
    requires |parts| > 0
    ensures |Join(parts, ',')| + 1 == Weight(parts)
  {
    if |parts| > 1 {
      JoinWeight(parts[1..]);
    }
  }

  lemma {:induction false} RetainedWeight(check: HashCheck, patterns: seq<string>, target: string)
    ensures Weight(Retained(check, patterns, target)) <= Weight(patterns)
    ensures Retained(check, patterns, target) != patterns ==>
            Weight(Retained(check, patterns, target)) < Weight(patterns)
  {
    hide PatternMatches;
    if |patterns| > 0 {
      RetainedWeight(check, patterns[1..], target);
      var rest := Retained(check, patterns[1..], target);
      assert [] + rest == rest && ([patterns[0]] + rest)[1..] == rest;
      assert patterns == [patterns[0]] + patterns[1..];
    }
  }

  /** A matching line gets strictly shorter. */
  lemma MatchedShrinks(check: HashCheck, line: string, target: string)
    requires IsLine(line)
    ensures |Emit(check, line, target)| <= |line|
    ensures LineMatches(check, Body(line), target) ==> |Emit(check, line, target)| < |line|
  {
    hide HostField, Retained, Patterns, Join, PatternMatches, LineMatches, SplitLineEnding, Split, Weight;
    var body := Body(line);
    EditCases(check, body, target);
    if EditLine(check, body, target).Replaced? {
      FieldWritten(check, body, target);
      var patterns := Patterns(body);
      RetainedWeight(check, patterns, target);
      JoinWeight(Retained(check, patterns, target));
      FieldWeight(body);
    }
  }

  lemma FieldWeight(body: string)
    requires HostField(body).Some?
    ensures |Patterns(body)| > 0
    ensures var b := HostField(body).value; Weight(Patterns(body)) == b.end - b.start + 1
  {
    hide HostField, Split, Join, Weight;
    var b := HostField(body).value;
    JoinSplit(body[b.start..b.end], ',');
    JoinWeight(Patterns(body));
  }

  lemma {:induction false} EmitAllShrinks(check: HashCheck, lines: seq<string>, target: string)
    requires AreLines(lines)
    ensures |EmitAll(check, lines, target)| <= |Concat(lines)|
    ensures CountMatches(check, lines, target) > 0 ==> |EmitAll(check, lines, target)| < |Concat(lines)|
    ensures CountMatches(check, lines, target) == 0 ==> EmitAll(check, lines, target) == Concat(lines)
  {
    hide Emit, LineMatches, Body, IsLine, Terminated;
    if |lines| > 0 {
      EmitAllShrinks(check, lines[1..], target);
      MatchedShrinks(check, lines[0], target);
      UnmatchedUnchanged(check, lines[0], target);
    }
  }

  /** Removal changes a file exactly when it finds something to remove. */
  lemma ChangesIffFound(check: HashCheck, content: string, target: string)
    ensures AfterRemoval(check, content, target) == content <==> CountMatches(check, Lines(content), target) == 0
  {
    hide Lines, EmitAll, CountMatches;
    LinesAreLines(content);
    EmitAllShrinks(check, Lines(content), target);
  }

  /** Removing twice is removing once, exactly when the first removal exposes nothing. */
  lemma RemovalIdempotent(check: HashCheck, content: string, target: string)
    ensures var once := AfterRemoval(check, content, target);
            AfterRemoval(check, once, target) == once
            <==> forall line :: line in Lines(content) ==> !Exposed(check, Body(line), target)
  {
    hide *;
    ChangesIffFound(check, AfterRemoval(check, content, target), target);
    NothingRemains(check, content, target);
  }

  // ---- What is not touched -------------------------------------------------

  function Unmatched(check: HashCheck, lines: seq<string>, target: string): seq<string> {
    if |lines| == 0 then []
    else (if LineMatches(check, Body(lines[0]), target) then [] else [lines[0]]) + Unmatched(check, lines[1..], target)
  }

  lemma SubsequenceSkips<T>(sub: seq<T>, s: seq<T>, x: T)
    requires IsSubsequence(sub, s)
    ensures IsSubsequence(sub, [x] + s) && IsSubsequence([x] + sub, [x] + s)
  {
    var at: seq<nat> :| Embeds(sub, s, at);
    var moved: seq<nat> := seq(|at|, i requires 0 <= i < |at| => at[i] + 1);
    assert Embeds(sub, [x] + s, moved);
    var first: seq<nat> := [0] + moved;
    assert Embeds([x] + sub, [x] + s, first);
  }

  lemma {:induction false} UnmatchedEmitted(check: HashCheck, lines: seq<string>, target: string)
    requires AreLines(lines)
    ensures IsSubsequence(Unmatched(check, lines, target), EmittedLines(check, lines, target))
  {
    hide Emit, LineMatches, Body, IsLine, Terminated, IsSubsequence;
    if |lines| == 0 {
      EmptySubsequence();
    } else {
      var e, rest, kept :=
          Emit(check, lines[0], target), EmittedLines(check, lines[1..], target), Unmatched(check, lines[1..], target);
      UnmatchedEmitted(check, lines[1..], target);
      UnmatchedUnchanged(check, lines[0], target);
      LineNotEmpty(lines[0]);
      SubsequenceSkips(kept, rest, e);
      assert [] + kept == kept && [] + rest == rest;
    }
  }

  lemma LineNotEmpty(line: string)
    requires IsLine(line)
    ensures line != ""
  {
  }

  lemma EmptySubsequence()
    ensures IsSubsequence<string>([], [])
  {
    assert Embeds<string>([], [], []);
  }

  /** Lines that do not match survive a removal byte for byte and in order. */
  lemma UnmatchedSurvive(check: HashCheck, content: string, target: string)
    ensures IsSubsequence(Unmatched(check, Lines(content), target), Lines(AfterRemoval(check, content, target)))
  {
    hide Lines, EmitAll, EmittedLines, Unmatched, IsSubsequence;
    LinesAreLines(content);
    RemovalKeepsLines(check, content, target);
    UnmatchedEmitted(check, Lines(content), target);
  }

  // ---- A file that keeps its entry ------------------------------------------

  lemma ExamplePatterns()
    ensures HostField("h, h") == Some(Bounds(0, 2)) && Patterns("h, h") == ["h", ""]
    ensures HostField(" h") == Some(Bounds(1, 2)) && Patterns(" h") == ["h"]
  {
    hide HostField, Split;
    TokenOf("h, h", 0, 2);
    TokenOf(" h", 1, 2);
    assert "h, h"[0..2] == "h" + [','] + "" && " h"[1..2] == "h";
    SplitCons("h", ',', "");
    SplitOne("");
    SplitOne("h");
    assert ["h"] + [""] == ["h", ""];
  }

  lemma ExampleRetained(check: HashCheck)
    ensures Retained(check, ["h", ""], "h") == [""]
    ensures PatternMatches(check, "h", "h")
  {
    assert ["h", ""][1..] == [""] && [""][1..] == [];
  }

  lemma ExampleEdit(check: HashCheck)
    ensures EditLine(check, "h, h", "h") == Replaced(" h")
    ensures LineMatches(check, "h, h", "h") && LineMatches(check, " h", "h")
  {
    hide HostField, Split, Patterns, Retained, PatternMatches, Join;
    ExamplePatterns();
    ExampleRetained(check);
    JoinOne("", ',');
    assert "h, h"[..0] + "" + "h, h"[2..] == " h";
    assert "h" in ["h", ""] && "h" in ["h"];
    assert ["h", ""] != [""];
  }

  /** Removing `h` from `h, h` leaves the empty pattern, so the key type `h` becomes the host field and is found. */
  lemma ExposedExample(check: HashCheck)
    ensures var content := "h, h\n";
            && CountMatches(check, Lines(content), "h") == 1
            && AfterRemoval(check, content, "h") == " h\n"
            && CountMatches(check, Lines(AfterRemoval(check, content, "h")), "h") == 1
  {
    hide CountMatches, Lines, AfterRemoval, LineMatches, SplitLineEnding, EditLine;
    ExampleEdit(check);
    assert "h, h" + "\n" == "h, h\n" && " h" + "\n" == " h\n";
    OneLineFile(check, "h, h", "h");
    OneLineFile(check, " h", "h");
  }

  lemma TokenOf(line: string, start: nat, end: nat)
    requires start < end <= |line| && (forall k :: 0 <= k < start ==> IsWhitespace(line[k]))
    requires (forall k :: start <= k < end ==> !IsWhitespace(line[k])) && (end < |line| ==> IsWhitespace(line[end]))
    requires line[start] != '#' && line[start] != '@'
    ensures HostField(line) == Some(Bounds(start, end))
  {
    WhitespaceEndsAt(line, 0, start);
    TokenEndsAt(line, start, end);
  }

  lemma SplitOne(s: string)
    requires ',' !in s
    ensures Split(s, ',') == [s]
  {
    IndexIs(s, ',', 0, |s|);
  }

  /** A file of one line. */
  lemma OneLineFile(check: HashCheck, body: string, target: string)
    requires NEWLINE !in body && body != "" && body[|body| - 1] != '\r'
    ensures var content := body + "\n";
            && CountMatches(check, Lines(content), target) == (if LineMatches(check, body, target) then 1 else 0)
            && AfterRemoval(check, content, target) == Emit(check, content, target)
            && Body(content) == body && SplitLineEnding(content).ending == "\n"
  {
    hide LineMatches, Emit;
    var content := body + "\n";
    IndexIs(content, NEWLINE, 0, |body|);
    assert content[..|body| + 1] == content && content[|body| + 1..] == "";
    assert Lines(content) == [content] + Lines("");
    assert Lines(content) == [content];
    assert Body(content) == body;
    assert [content][1..] == [];
    assert EmitAll(check, [content], target) == Emit(check, content, target) + "";
  }

  // ---- The tools together --------------------------------------------------

  datatype Round = Round(before: nat, removed: nat, after: nat, content: string)

  /** Find, remove, find again: the counts agree, and what is found again is what the edits exposed. */
  method FindRemoveFind(check: HashCheck, content: string, host: string, port: nat) returns (r: Result<Round, string>)
    ensures r.Ok? <==> ValidHost(host)
    ensures r.Ok? ==> r.value.before == r.value.removed == CountMatches(check, Lines(content), FormatTarget(host, port))
    ensures r.Ok? ==> r.value.content == AfterRemoval(check, content, FormatTarget(host, port))
    ensures r.Ok? ==> r.value.after == CountExposed(check, Lines(content), FormatTarget(host, port))
    ensures r.Ok? && CleanFile(content) ==> r.value.after == 0
  {
    hide *;
    var first := FindKnownHostEntries(check, content, host, port);
    var removal := RemoveKnownHostEntries(check, content, host, port);
    if first.Err? || removal.Err? {
      return Err("invalid known_hosts host");
    }
    var target := FormatTarget(host, port);
    AfterIs(check, content, target);
    RemainingEntries(check, content, target);
    if CleanFile(content) {
      CleanFileForgets(check, content, target);
    }
    var second := FindKnownHostEntries(check, removal.value.content, host, port);
    if second.Err? {
      assert false;
      return Err("invalid known_hosts host");
    }
    return Ok(Round(first.value.found, removal.value.removed, second.value.found, removal.value.content));
  }

  lemma AfterIs(check: HashCheck, content: string, target: string)
    ensures AfterRemoval(check, content, target) == EmitAll(check, Lines(content), target)
  {
  }
}
