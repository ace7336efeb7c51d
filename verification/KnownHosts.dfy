/** Finding and removing the entries of a known_hosts file. */
module KnownHosts {
  import opened Basics
  import opened Decimals

  /** Whether salt and digest text of a hashed pattern belong to a target: base64 decoding and HMAC-SHA1. */
  type HashCheck = (string, string, string) -> bool

  predicate IsWhitespace(c: char) {
    c == ' ' || c == '\t' || c == '\n' || c == '\r' || c as int == 12
  }

  predicate ValidHost(host: string) {
    |host| > 0 && forall k :: 0 <= k < |host| ==> !IsControl(host[k])
  }

  lemma HostRefused(host: string)
    ensures !ValidHost(host) <==> host == "" || exists c :: c in host && (c as int < 32 || 127 <= c as int <= 159)
  {
    if host != "" && !ValidHost(host) {
      var k :| 0 <= k < |host| && IsControl(host[k]);
      assert host[k] in host;
    }
  }

  function FormatTarget(host: string, port: nat): string {
    if port == 22 then host else "[" + host + "]:" + Decimal(port)
  }

  // ---- Patterns ------------------------------------------------------------

  /** A plain pattern matches itself; a hashed one has exactly a salt and a digest, and the check decides. */
  predicate PatternMatches(check: HashCheck, target: string, pattern: string) {
    if !("|1|" <= pattern) then target == pattern
    else
      var parts := Split(pattern, '|');
      |parts| == 4 && check(parts[2], parts[3], target)
  }

  // ---- The host field of a line --------------------------------------------

  function SkipWhitespace(line: string, from: nat): (i: nat)
    requires from <= |line|
    ensures from <= i <= |line|
    ensures forall k :: from <= k < i ==> IsWhitespace(line[k])
    ensures i < |line| ==> !IsWhitespace(line[i])
    decreases |line| - from
  {
    if from < |line| && IsWhitespace(line[from]) then SkipWhitespace(line, from + 1) else from
  }

  function SkipToken(line: string, from: nat): (i: nat)
    requires from <= |line|
    ensures from <= i <= |line|
    ensures forall k :: from <= k < i ==> !IsWhitespace(line[k])
    ensures i < |line| ==> IsWhitespace(line[i])
    decreases |line| - from
  {
    if from < |line| && !IsWhitespace(line[from]) then SkipToken(line, from + 1) else from
  }

  method SkipAsciiWhitespace(bytes: string, start: nat) returns (offset: nat)
    requires start <= |bytes|
    ensures offset == SkipWhitespace(bytes, start)
  {
    offset := start;
    while offset < |bytes| && IsWhitespace(bytes[offset])
      invariant start <= offset <= |bytes| && SkipWhitespace(bytes, start) == SkipWhitespace(bytes, offset)
    {
      offset := offset + 1;
    }
  }

  method SkipAsciiNonWhitespace(bytes: string, start: nat) returns (offset: nat)
    requires start <= |bytes|
    ensures offset == SkipToken(bytes, start)
  {
    offset := start;
    while offset < |bytes| && !IsWhitespace(bytes[offset])
      invariant start <= offset <= |bytes| && SkipToken(bytes, start) == SkipToken(bytes, offset)
    {
      offset := offset + 1;
    }
  }

  datatype Bounds = Bounds(start: nat, end: nat)

  /** The second token after a marker, the first one otherwise; none for blank lines, comments and lone markers. */
  function HostField(line: string): (r: Option<Bounds>)
    ensures r.Some? ==> r.value.start < r.value.end <= |line|
    ensures r.Some? ==> forall k :: r.value.start <= k < r.value.end ==> !IsWhitespace(line[k])
    ensures r.Some? && r.value.end < |line| ==> IsWhitespace(line[r.value.end])
  {
    var first := SkipWhitespace(line, 0);
    if first == |line| || line[first] == '#' then None
    else
      var firstEnd := SkipToken(line, first);
      if line[first] != '@' then Some(Bounds(first, firstEnd))
      else
        var second := SkipWhitespace(line, firstEnd);
        if second == |line| then None else Some(Bounds(second, SkipToken(line, second)))
  }

  method HostFieldBounds(line: string) returns (r: Option<Bounds>)
    ensures r == HostField(line)
  {
    var offset := SkipAsciiWhitespace(line, 0);
    if offset >= |line| || line[offset] == '#' {
      return None;
    }
    var firstStart := offset;
    offset := SkipAsciiNonWhitespace(line, offset);
    var firstEnd := offset;
    if "@" <= line[firstStart..firstEnd] {
      offset := SkipAsciiWhitespace(line, offset);
      if offset >= |line| {
        return None;
      }
      var hostEnd := SkipAsciiNonWhitespace(line, offset);
      return Some(Bounds(offset, hostEnd));
    }
    return Some(Bounds(firstStart, firstEnd));
  }

  /** The comma-separated patterns of a line. */
  function Patterns(line: string): seq<string> {
    match HostField(line)
    case None => []
    case Some(b) => Split(line[b.start..b.end], ',')
  }

  predicate LineMatches(check: HashCheck, line: string, target: string) {
    exists p :: p in Patterns(line) && PatternMatches(check, target, p)
  }

  function Retained(check: HashCheck, patterns: seq<string>, target: string): (r: seq<string>) {
    if |patterns| == 0 then []
    else
      (if PatternMatches(check, target, patterns[0]) then [] else [patterns[0]])
      + Retained(check, patterns[1..], target)
  }

  datatype LineEdit = Unchanged | Removed | Replaced(line: string)

  function EditLine(check: HashCheck, line: string, target: string): (r: LineEdit)
    ensures r.Unchanged? <==> !LineMatches(check, line, target)
  {
    match HostField(line)
    case None => Unchanged
    case Some(b) =>
      var retained := Retained(check, Patterns(line), target);
      RetainedLess(check, Patterns(line), target);
      if retained == Patterns(line) then Unchanged
      else if |retained| == 0 then Removed
      else Replaced(line[..b.start] + Join(retained, ',') + line[b.end..])
  }

  /** Nothing is dropped exactly when nothing matches. */
  lemma {:induction false} RetainedLess(check: HashCheck, patterns: seq<string>, target: string)
    ensures |Retained(check, patterns, target)| <= |patterns|
    ensures Retained(check, patterns, target) == patterns <==>
            forall p :: p in patterns ==> !PatternMatches(check, target, p)
    ensures forall p :: p in Retained(check, patterns, target) <==> p in patterns && !PatternMatches(check, target, p)
  {
    hide PatternMatches;
    if |patterns| > 0 {
      RetainedLess(check, patterns[1..], target);
      assert patterns == [patterns[0]] + patterns[1..];
    }
  }

  lemma OnePattern(check: HashCheck, patterns: seq<string>, k: nat, target: string, retained: seq<string>)
    requires k < |patterns|
    ensures retained + Retained(check, patterns[k..], target) ==
            (if PatternMatches(check, target, patterns[k]) then retained else retained + [patterns[k]])
            + Retained(check, patterns[k + 1..], target)
  {
    hide PatternMatches;
    assert patterns[k..][1..] == patterns[k + 1..];
  }

  /** The edit is decided by the patterns that stay. */
  lemma EditIs(check: HashCheck, line: string, target: string)
    ensures HostField(line).None? ==> EditLine(check, line, target) == Unchanged
    ensures HostField(line).Some? ==>
              var b := HostField(line).value;
              var retained := Retained(check, Split(line[b.start..b.end], ','), target);
              EditLine(check, line, target) ==
              if retained == Split(line[b.start..b.end], ',') then Unchanged
              else if |retained| == 0 then Removed
              else Replaced(line[..b.start] + Join(retained, ',') + line[b.end..])
  {
    hide HostField, Split, Join, Retained, LineMatches;
  }

  method RemoveTargetFromLine(check: HashCheck, line: string, target: string) returns (r: LineEdit)
    ensures r == EditLine(check, line, target)
  {
    hide PatternMatches, HostField, Split, Join, EditLine, LineMatches, Retained;
    EditIs(check, line, target);
    var bounds := HostFieldBounds(line);
    if bounds == None {
      return Unchanged;
    }
    var start, end := bounds.value.start, bounds.value.end;
    var patterns := Split(line[start..end], ',');
    var retained: seq<string> := [];
    var matched := false;
    assert patterns[0..] == patterns;
    for k := 0 to |patterns|
      invariant Retained(check, patterns, target) == retained + Retained(check, patterns[k..], target)
      invariant if matched then |retained| < k else retained == patterns[..k]
    {
      OnePattern(check, patterns, k, target, retained);
      if PatternMatches(check, target, patterns[k]) {
        matched := true;
      } else {
        retained := retained + [patterns[k]];
      }
    }
    assert patterns[|patterns|..] == [] && patterns[..|patterns|] == patterns;
    RetainedLess(check, [], target);
    assert Retained(check, patterns, target) == retained;
    if !matched {
      return Unchanged;
    }
    if |retained| == 0 {
      return Removed;
    }
    return Replaced(line[..start] + Join(retained, ',') + line[end..]);
  }

  // ---- Which lines belong to a host ------------------------------------------

  /** How a host is written: plainly for port 22, else in brackets and with the port in decimal. */
  predicate NamesHost(name: string, host: string, port: nat) {
    if port == 22 then name == host
    else
      var front := "[" + host + "]:";
      && front < name && name[..|front|] == front
      && AllDigits(name[|front|..]) && Value(name[|front|..]) == port
      && (name[|front|..] == "0" || name[|front|] != '0')
  }

  /** The pattern is the host's name, or its hash under a salt. */
  ghost predicate PatternNames(check: HashCheck, pattern: string, host: string, port: nat) {
    if pattern[..if |pattern| < 3 then |pattern| else 3] != "|1|" then NamesHost(pattern, host, port)
    else
      exists salt: string, digest: string, name: string ::
        && pattern == "|1|" + salt + "|" + digest && '|' !in salt && '|' !in digest
        && NamesHost(name, host, port) && check(salt, digest, name)
  }

  ghost predicate LineNames(check: HashCheck, line: string, host: string, port: nat) {
    exists p :: p in Patterns(line) && PatternNames(check, p, host, port)
  }

  ghost function CountNames(check: HashCheck, lines: seq<string>, host: string, port: nat): nat {
    if |lines| == 0 then 0
    else (if LineNames(check, Body(lines[0]), host, port) then 1 else 0) + CountNames(check, lines[1..], host, port)
  }

  /** A host and port have exactly one name. */
  lemma NameExact(name: string, host: string, port: nat)
    ensures NamesHost(name, host, port) <==> name == FormatTarget(host, port)
  {
    if port != 22 {
      var front := "[" + host + "]:";
      ValueOfDecimal(port);
      hide Decimal, Value;
      if name == FormatTarget(host, port) {
        assert name == front + Decimal(port) && name[|front|..] == Decimal(port);
        if port == 0 {
          ZeroPrints(0);
        }
      }
      if NamesHost(name, host, port) {
        DecimalOfValue(name[|front|..]);
        assert name == front + name[|front|..];
      }
    }
  }

  lemma PatternExact(check: HashCheck, pattern: string, host: string, port: nat)
    ensures PatternNames(check, pattern, host, port) <==> PatternMatches(check, FormatTarget(host, port), pattern)
  {
    hide NamesHost, FormatTarget;
    forall name ensures NamesHost(name, host, port) <==> name == FormatTarget(host, port) {
      NameExact(name, host, port);
    }
    if "|1|" <= pattern {
      assert pattern[..3] == "|1|";
      if PatternMatches(check, FormatTarget(host, port), pattern) {
        var parts := Split(pattern, '|');
        FourParts(pattern);
        assert NamesHost(FormatTarget(host, port), host, port);
      }
      forall salt: string, digest: string |
        pattern == "|1|" + salt + "|" + digest && '|' !in salt && '|' !in digest
        ensures Split(pattern, '|') == ["", "1", salt, digest]
      {
        PartsFour(salt, digest);
      }
    } else if |pattern| >= 3 {
      assert pattern[..3] != "|1|";
    }
  }

  lemma JoinFour(a: string, b: string, c: string, d: string)
    ensures Join([a, b, c, d], '|') == a + "|" + (b + "|" + (c + "|" + d))
  {
    hide Join;
    JoinOne(d, '|');
    JoinCons(c, [d], '|');
    JoinCons(b, [c, d], '|');
    JoinCons(a, [b, c, d], '|');
    assert [c] + [d] == [c, d] && [b] + [c, d] == [b, c, d] && [a] + [b, c, d] == [a, b, c, d];
  }

  /** A hashed pattern of four parts is a salt and a digest behind the fixed beginning. */
  lemma FourParts(pattern: string)
    requires "|1|" <= pattern && |Split(pattern, '|')| == 4
    ensures var parts := Split(pattern, '|');
            pattern == "|1|" + parts[2] + "|" + parts[3] && '|' !in parts[2] && '|' !in parts[3]
  {
    hide Split, Join;
    var parts := Split(pattern, '|');
    JoinSplit(pattern, '|');
    assert parts == [parts[0], parts[1], parts[2], parts[3]];
    JoinFour(parts[0], parts[1], parts[2], parts[3]);
    BarFree(parts);
    FixedFront(pattern, parts[0], parts[1], parts[2] + "|" + parts[3]);
  }

  predicate NoBar(s: string) {
    '|' !in s
  }

  lemma BarFree(parts: seq<string>)
    requires Separated(parts, '|')
    ensures forall i :: 0 <= i < |parts| ==> NoBar(parts[i])
  {
  }

  lemma FixedFront(pattern: string, a: string, b: string, rest: string)
    requires "|1|" <= pattern && pattern == a + "|" + (b + "|" + rest) && NoBar(a) && NoBar(b)
    ensures pattern == "|1|" + rest
  {
    IndexIs(pattern, '|', 0, 0);
    IndexIs(pattern, '|', 0, |a|);
    var tail := pattern[1..];
    assert tail == b + "|" + rest;
    IndexIs(tail, '|', 0, 1);
    IndexIs(tail, '|', 0, |b|);
    assert b[0] == tail[0] && b == "1";
  }

  lemma PartsFour(salt: string, digest: string)
    requires '|' !in salt && '|' !in digest
    ensures Split("|1|" + salt + "|" + digest, '|') == ["", "1", salt, digest]
  {
    hide Split, Join;
    var parts := ["", "1", salt, digest];
    JoinFour("", "1", salt, digest);
    assert "" + "|" + ("1" + "|" + (salt + "|" + digest)) == "|1|" + salt + "|" + digest;
    SplitJoin(parts, '|');
  }

  lemma LineExact(check: HashCheck, line: string, host: string, port: nat)
    ensures LineNames(check, line, host, port) <==> LineMatches(check, line, FormatTarget(host, port))
  {
    hide PatternNames, PatternMatches, FormatTarget, Patterns;
    forall p ensures PatternNames(check, p, host, port) <==> PatternMatches(check, FormatTarget(host, port), p) {
      PatternExact(check, p, host, port);
    }
  }

  lemma {:induction false} CountExact(check: HashCheck, lines: seq<string>, host: string, port: nat)
    ensures CountNames(check, lines, host, port) == CountMatches(check, lines, FormatTarget(host, port))
  {
    hide LineNames, LineMatches, FormatTarget;
    if |lines| > 0 {
      LineExact(check, Body(lines[0]), host, port);
      CountExact(check, lines[1..], host, port);
    }
  }

  // ---- Whole files ---------------------------------------------------------

  /** The lines of a file with their endings; the last one may lack it. */
  function Lines(content: string): seq<string>
    decreases |content|
  {
    if |content| == 0 then []
    else
      var i := IndexFrom(content, '\n', 0);
      if i == |content| then [content] else [content[..i + 1]] + Lines(content[i + 1..])
  }

  datatype Parts = Parts(body: string, ending: string)

  function SplitLineEnding(line: string): (r: Parts)
    ensures r.body + r.ending == line
  {
    var n := |line|;
    if n >= 2 && line[n - 2] == '\r' && line[n - 1] == '\n' then Parts(line[..n - 2], "\r\n")
    else if n >= 1 && line[n - 1] == '\n' then Parts(line[..n - 1], "\n")
    else Parts(line, "")
  }

  function Body(line: string): string {
    SplitLineEnding(line).body
  }

  /** What removal writes for one complete line. */
  function Emit(check: HashCheck, line: string, target: string): string {
    match EditLine(check, Body(line), target)
    case Unchanged => line
    case Removed => ""
    case Replaced(replacement) => replacement + SplitLineEnding(line).ending
  }

  function EmitAll(check: HashCheck, lines: seq<string>, target: string): string {
    if |lines| == 0 then "" else Emit(check, lines[0], target) + EmitAll(check, lines[1..], target)
  }

  function CountMatches(check: HashCheck, lines: seq<string>, target: string): nat {
    if |lines| == 0 then 0
    else (if LineMatches(check, Body(lines[0]), target) then 1 else 0) + CountMatches(check, lines[1..], target)
  }

  /** What find prints for a matching line. */
  function Entry(target: string, number: nat, body: string): string {
    Header(target, number) + body + "\n"
  }

  function Header(target: string, number: nat): string {
    "# Host " + target + " found: line " + Decimal(number) + "\n"
  }

  function Report(check: HashCheck, lines: seq<string>, target: string, number: nat): string {
    if |lines| == 0 then ""
    else
      (if LineMatches(check, Body(lines[0]), target) then Entry(target, number, Body(lines[0])) else "")
      + Report(check, lines[1..], target, number + 1)
  }

  datatype Removal = Removal(content: string, removed: nat)

  datatype Query = Query(output: string, found: nat)

  /** What one more line adds to the content and to the count. */
  lemma OneLine(check: HashCheck, lines: seq<string>, k: nat, target: string)
    requires k < |lines|
    ensures EmitAll(check, lines[k..], target) == Emit(check, lines[k], target) + EmitAll(check, lines[k + 1..], target)
    ensures CountMatches(check, lines[k..], target) ==
            (if EditLine(check, Body(lines[k]), target).Unchanged? then 0 else 1)
                + CountMatches(check, lines[k + 1..], target)
  {
    hide EditLine, LineMatches, Emit;
    assert lines[k..][1..] == lines[k + 1..];
    var _ := EditLine(check, Body(lines[k]), target);
  }

  /** What one more line adds to the report and to the count. */
  lemma OneReport(check: HashCheck, lines: seq<string>, k: nat, target: string, output: string, printed: string)
    requires k < |lines|
    requires printed == if LineMatches(check, Body(lines[k]), target) then Entry(target, k + 1, Body(lines[k])) else ""
    ensures output + Report(check, lines[k..], target, k + 1) ==
            output + printed + Report(check, lines[k + 1..], target, k + 2)
    ensures CountMatches(check, lines[k..], target) ==
            (if LineMatches(check, Body(lines[k]), target) then 1 else 0) + CountMatches(check, lines[k + 1..], target)
  {
    hide LineMatches, Entry, Body;
    assert lines[k..][1..] == lines[k + 1..];
  }

  lemma AppendThree(a: string, b: string, c: string, d: string)
    ensures a + b + c + d == a + (b + c + d)
  {
  }

  lemma NoLines(check: HashCheck, lines: seq<string>, target: string)
    ensures EmitAll(check, lines[|lines|..], target) == ""
    ensures CountMatches(check, lines[|lines|..], target) == 0
    ensures Report(check, lines[|lines|..], target, |lines| + 1) == ""
  {
  }

  method RemoveKnownHostEntries(check: HashCheck, content: string, host: string, port: nat)
    returns (r: Result<Removal, string>)
    ensures r.Ok? <==> ValidHost(host)
    ensures r.Ok? ==> r.value.content == EmitAll(check, Lines(content), FormatTarget(host, port))
    ensures r.Ok? ==> r.value.removed == CountMatches(check, Lines(content), FormatTarget(host, port))
    ensures r.Ok? ==> r.value.removed == CountNames(check, Lines(content), host, port)
    ensures r.Err? <==> host == "" || exists c :: c in host && (c as int < 32 || 127 <= c as int <= 159)
  {
    hide EditLine, LineMatches, Lines, EmitAll, CountMatches, SplitLineEnding, ValidHost, FormatTarget;
    HostRefused(host);
    if !ValidHost(host) {
      return Err("invalid known_hosts host");
    }
    var target := FormatTarget(host, port);
    var lines := Lines(content);
    CountExact(check, lines, host, port);
    var output, removed := "", 0;
    assert lines[0..] == lines;
    for k := 0 to |lines|
      invariant EmitAll(check, lines, target) == output + EmitAll(check, lines[k..], target)
      invariant CountMatches(check, lines, target) == removed + CountMatches(check, lines[k..], target)
    {
      OneLine(check, lines, k, target);
      var parts := SplitLineEnding(lines[k]);
      var edit := RemoveTargetFromLine(check, parts.body, target);
      match edit {
        case Unchanged => output := output + lines[k];
        case Removed => removed := removed + 1;
        case Replaced(replacement) =>
          removed := removed + 1;
          AppendThree(output, replacement, parts.ending, EmitAll(check, lines[k + 1..], target));
          output := output + replacement;
          output := output + parts.ending;
      }
    }
    NoLines(check, lines, target);
    return Ok(Removal(output, removed));
  }

  method MatchesTarget(check: HashCheck, line: string, target: string) returns (r: bool)
    ensures r == LineMatches(check, line, target)
  {
    hide PatternMatches, HostField, Split;
    var bounds := HostFieldBounds(line);
    if bounds == None {
      return false;
    }
    var patterns := Split(line[bounds.value.start..bounds.value.end], ',');
    assert patterns == Patterns(line);
    for k := 0 to |patterns|
      invariant forall j :: 0 <= j < k ==> !PatternMatches(check, target, patterns[j])
    {
      if PatternMatches(check, target, patterns[k]) {
        return true;
      }
    }
    return false;
  }

  method FindKnownHostEntries(check: HashCheck, content: string, host: string, port: nat)
    returns (r: Result<Query, string>)
    ensures r.Ok? <==> ValidHost(host)
    ensures r.Ok? ==> r.value.output == Report(check, Lines(content), FormatTarget(host, port), 1)
    ensures r.Ok? ==> r.value.found == CountMatches(check, Lines(content), FormatTarget(host, port))
    ensures r.Ok? ==> r.value.found == CountNames(check, Lines(content), host, port)
    ensures r.Err? <==> host == "" || exists c :: c in host && (c as int < 32 || 127 <= c as int <= 159)
  {
    hide LineMatches, Lines, Header, Entry, Report, CountMatches, SplitLineEnding, ValidHost, FormatTarget;
    HostRefused(host);
    if !ValidHost(host) {
      return Err("invalid known_hosts host");
    }
    var target := FormatTarget(host, port);
    var lines := Lines(content);
    CountExact(check, lines, host, port);
    var output, found := "", 0;
    assert lines[0..] == lines;
    for k := 0 to |lines|
      invariant Report(check, lines, target, 1) == output + Report(check, lines[k..], target, k + 1)
      invariant CountMatches(check, lines, target) == found + CountMatches(check, lines[k..], target)
    {
      var parts := SplitLineEnding(lines[k]);
      var matches := MatchesTarget(check, parts.body, target);
      var printed := "";
      if matches {
        found := found + 1;
        printed := Entry(target, k + 1, parts.body);
      }
      OneReport(check, lines, k, target, output, printed);
      output := output + printed;
    }
    NoLines(check, lines, target);
    return Ok(Query(output, found));
  }
}
