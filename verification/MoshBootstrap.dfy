/** The Mosh bootstrap command: its printer in the client and its parser on the server side. */
module MoshBootstrap {
  import opened Basics
  import opened Decimals
  import Utf8

  const TEST := "[ -n \"$SSH_CONNECTION\" ] && "
  const FORMAT := "printf \"\\nMOSH SSH_CONNECTION %s\\n\" "
  const OPERAND := "\"$SSH_CONNECTION\"; exec "
  const PREFIX := "sh -c '" + (TEST + FORMAT + OPERAND)
  const DEFAULT_SERVER := "mosh-server"
  const ARGUMENTS := " new -s -c 256"
  const PATH_MAX_BYTES := 1024
  const PORT_MAX := 65535

  datatype PortRange = PortRange(start: nat, end: nat)

  datatype Request = Request(path: Option<string>, port: Option<PortRange>)

  // ---- Text and bytes ------------------------------------------------------

  function Scalars(s: string): seq<Utf8.scalar> {
    seq(|s|, i requires 0 <= i < |s| => s[i] as int)
  }

  function Utf8Bytes(s: string): seq<byte> {
    Utf8.EncodeScalars(Scalars(s))
  }

  function Utf8Text(data: seq<byte>): Option<string> {
    match Utf8.Decode(data)
    case None => None
    case Some(vs) => Some(seq(|vs|, i requires 0 <= i < |vs| => vs[i] as char))
  }

  lemma TextOfBytes(s: string)
    ensures Utf8Text(Utf8Bytes(s)) == Some(s)
  {
    hide Utf8.Decode, Utf8.EncodeScalars;
    Utf8.DecodeOfEncoding(Scalars(s));
    assert Utf8Text(Utf8Bytes(s)).value == s;
  }

  lemma BytesOfText(data: seq<byte>)
    requires Utf8Text(data).Some?
    ensures Utf8Bytes(Utf8Text(data).value) == data
  {
    hide Utf8.Decode, Utf8.EncodeScalars;
    Utf8.EncodingOfDecode(data);
    assert Scalars(Utf8Text(data).value) == Utf8.Decode(data).value;
  }

  /** Where `pattern` first occurs in `s` at or after `from`. */
  function FindText(s: string, pattern: string, from: nat): (r: Option<nat>)
    requires from <= |s|
    ensures r.Some? ==> from <= r.value <= |s| - |pattern| && s[r.value..r.value + |pattern|] == pattern
    decreases |s| - from
  {
    if from + |pattern| > |s| then None
    else if s[from..from + |pattern|] == pattern then Some(from)
    else if from == |s| then None
    else FindText(s, pattern, from + 1)
  }

  /** The text before and after the first occurrence of `separator`. */
  function SplitOnce(s: string, separator: string): (r: Option<(string, string)>)
    ensures r.Some? ==> r.value.0 + separator + r.value.1 == s
  {
    match FindText(s, separator, 0)
    case None => None
    case Some(at) =>
      assert s == s[..at] + s[at..at + |separator|] + s[at + |separator|..];
      Some((s[..at], s[at + |separator|..]))
  }

  function StripPrefix(s: string, prefix: string): (r: Option<string>)
    ensures r.Some? ==> prefix + r.value == s
  {
    if prefix <= s then Some(s[|prefix|..]) else None
  }

  function StripSuffix(s: string, suffix: string): (r: Option<string>)
    ensures r.Some? ==> r.value + suffix == s
  {
    if |suffix| <= |s| && s[|s| - |suffix|..] == suffix then Some(s[..|s| - |suffix|]) else None
  }

  lemma {:induction false} FindsFirst(front: string, pattern: string, rest: string, from: nat)
    requires |pattern| > 0 && pattern[0] !in front && from <= |front|
    ensures FindText(front + pattern + rest, pattern, from) == Some(|front|)
    decreases |front| - from
  {
    var s := front + pattern + rest;
    if from < |front| {
      assert s[from..from + |pattern|][0] == front[from];
      FindsFirst(front, pattern, rest, from + 1);
    } else {
      assert s[from..from + |pattern|] == pattern;
    }
  }

  lemma SplitOnceOf(front: string, separator: string, rest: string)
    requires |separator| > 0 && separator[0] !in front
    ensures SplitOnce(front + separator + rest, separator) == Some((front, rest))
  {
    FindsFirst(front, separator, rest, 0);
    assert (front + separator + rest)[..|front|] == front;
    assert (front + separator + rest)[|front + separator|..] == rest;
  }

  lemma StripsPrefix(prefix: string, rest: string)
    ensures StripPrefix(prefix + rest, prefix) == Some(rest)
  {
  }

  lemma StripsSuffix(front: string, suffix: string)
    ensures StripSuffix(front + suffix, suffix) == Some(front)
  {
    assert (front + suffix)[|front|..] == suffix && (front + suffix)[..|front|] == front;
  }

  // ---- The client: validation and printing ---------------------------------

  predicate AsciiAlphanumeric(c: char) {
    '0' <= c <= '9' || 'A' <= c <= 'Z' || 'a' <= c <= 'z'
  }

  predicate PathCharacter(c: char) {
    AsciiAlphanumeric(c) || c == '.' || c == '_' || c == '+' || c == '-'
  }

  predicate BadSegment(segment: string) {
    segment == "" || segment == "." || segment == ".." || exists k :: 0 <= k < |segment| && !PathCharacter(segment[k])
  }

  function MoshServerPath(value: string): Result<Option<string>, string> {
    if value == "" then Ok(None)
    else if |Utf8Bytes(value)| > PATH_MAX_BYTES || value[0] != '/' || value[|value| - 1] == '/' then
      Err("Mosh server path must be an absolute POSIX path of at most 1024 bytes")
    else if exists segment :: segment in Split(value, '/')[1..] && BadSegment(segment) then
      Err("Mosh server path contains an empty, relative or unsupported path segment")
    else Ok(Some(value))
  }

  /** The bounds arrive as unsigned 32-bit numbers. */
  function MoshUdpPortRange(start: nat, end: nat): Result<Option<PortRange>, string> {
    if start == 0 && end == 0 then Ok(None)
    else if start == 0 || end == 0 || start > PORT_MAX || end > PORT_MAX then
      Err("Mosh UDP port bounds must both be zero or between 1 and 65535")
    else if start > end then Err("Mosh UDP port range start must not exceed its end")
    else Ok(Some(PortRange(start, end)))
  }

  function Argument(range: PortRange): string {
    if range.start == range.end then Decimal(range.start) else Decimal(range.start) + ":" + Decimal(range.end)
  }

  function PortArgument(port: Option<PortRange>): string {
    if port.None? then "" else " -p " + Argument(port.value)
  }

  function Server(path: Option<string>): string {
    if path.None? then DEFAULT_SERVER else path.value
  }

  function BootstrapCommand(path: Option<string>, port: Option<PortRange>): string {
    PREFIX + Server(path) + ARGUMENTS + PortArgument(port) + "'"
  }

  // ---- The server side: parsing ---------------------------------------------

  predicate ValidMoshServerPath(value: string) {
    && value != ""
    && |Utf8Bytes(value)| <= 1024
    && value[0] == '/'
    && value[|value| - 1] != '/'
    && !exists segment :: segment in Split(value, '/')[1..] && BadSegment(segment)
  }

  function ParseServer(server: string): Option<Option<string>> {
    if server == DEFAULT_SERVER then Some(None)
    else if ValidMoshServerPath(server) then Some(Some(server))
    else None
  }

  /** Digits as a positive 16-bit number. */
  function ParsePort(text: string): (r: Option<nat>)
    ensures r.Some? ==> 0 < r.value <= PORT_MAX && AllDigits(text) && text != "" && r.value == Value(text)
  {
    if text == "" || !AllDigits(text) then None
    else if 0 < Value(text) <= PORT_MAX then Some(Value(text))
    else None
  }

  function ParsePorts(request: string): Option<PortRange> {
    var fields := Split(request, ':');
    if |fields| > 2 then None
    else
      match ParsePort(fields[0])
      case None => None
      case Some(start) =>
        match if |fields| == 1 then Some(start) else ParsePort(fields[1])
        case None => None
        case Some(end) => if start <= end then Some(PortRange(start, end)) else None
  }

  /** What follows the fixed arguments: a closing quote, perhaps after a port request. */
  function ParseTail(arguments: string): Option<Option<PortRange>> {
    if arguments == "'" then Some(None)
    else
      match StripPrefix(arguments, " -p ")
      case None => None
      case Some(quoted) =>
        match StripSuffix(quoted, "'")
        case None => None
        case Some(request) =>
          match ParsePorts(request)
          case None => None
          case Some(range) => Some(Some(range))
  }

  function ParseCommand(command: string): Option<Request> {
    match StripPrefix(command, PREFIX)
    case None => None
    case Some(suffix) =>
      match SplitOnce(suffix, ARGUMENTS)
      case None => None
      case Some(parts) =>
        match ParseServer(parts.0)
        case None => None
        case Some(path) =>
          match ParseTail(parts.1)
          case None => None
          case Some(port) => Some(Request(path, port))
  }

  function ParseBootstrapRequest(data: seq<byte>): Option<Request> {
    match Utf8Text(data)
    case None => None
    case Some(command) => ParseCommand(command)
  }

  // ---- Both sides agree ------------------------------------------------------

  /** What the client's two validators let through. */
  predicate ValidPath(path: Option<string>) {
    path.None? || MoshServerPath(path.value) == Ok(path)
  }

  predicate ValidRange(port: Option<PortRange>) {
    port.None? || MoshUdpPortRange(port.value.start, port.value.end) == Ok(port)
  }

  lemma PathValidatorsAgree(value: string)
    ensures ValidMoshServerPath(value) <==> MoshServerPath(value) == Ok(Some(value))
  {
  }

  /** An accepted path is made of path characters and slashes. */
  lemma PathCharacters(value: string)
    requires ValidMoshServerPath(value)
    ensures forall k :: 0 <= k < |value| ==> value[k] == '/' || PathCharacter(value[k])
  {
    hide Split, Utf8Bytes, PathCharacter, Join;
    var segments := Split(value, '/');
    JoinSplit(value, '/');
    FirstSegment(value);
    forall k | 0 <= k < |value| ensures value[k] == '/' || PathCharacter(value[k]) {
      JoinChars(segments, '/', value[k]);
      if value[k] != '/' {
        var i :| 0 <= i < |segments| && value[k] in segments[i];
        assert segments[i] == segments[1..][i - 1];
        assert segments[i] in segments[1..];
      }
    }
  }

  lemma FirstSegment(value: string)
    requires value != "" && value[0] == '/'
    ensures Split(value, '/')[0] == ""
  {
  }

  lemma ServerCharacters(path: Option<string>)
    requires ValidPath(path)
    ensures |ARGUMENTS| > 0 && ARGUMENTS[0] !in Server(path) && '\'' !in Server(path)
    ensures ParseServer(Server(path)) == Some(path)
  {
    hide Utf8Bytes, Split, BadSegment, ValidMoshServerPath;
    if path.Some? {
      PathValidatorsAgree(path.value);
      PathCharacters(path.value);
      assert ValidMoshServerPath(path.value) ==> path.value[0] == '/' by {
        AcceptedStart(path.value);
      }
    }
  }

  lemma AcceptedStart(value: string)
    ensures ValidMoshServerPath(value) ==> value != "" && value[0] == '/'
  {
  }

  lemma ParsesPort(n: nat)
    requires 0 < n <= PORT_MAX
    ensures ParsePort(Decimal(n)) == Some(n)
    ensures ':' !in Decimal(n) && '\'' !in Decimal(n)
  {
    hide Decimal;
    ValueOfDecimal(n);
  }

  lemma SplitWhole(s: string)
    requires ':' !in s
    ensures Split(s, ':') == [s]
  {
    hide IndexFrom;
    IndexIs(s, ':', 0, |s|);
  }

  /** The port request that is printed is the port request that is read. */
  lemma ParsesArgument(range: PortRange)
    requires ValidRange(Some(range))
    ensures ParsePorts(Argument(range)) == Some(range)
    ensures '\'' !in Argument(range)
  {
    hide Decimal, ParsePort, Split;
    ParsesPort(range.start);
    ParsesPort(range.end);
    SplitWhole(Decimal(range.start));
    SplitWhole(Decimal(range.end));
    assert Decimal(range.start) + ":" + Decimal(range.end) == Decimal(range.start) + [':'] + Decimal(range.end);
    SplitCons(Decimal(range.start), ':', Decimal(range.end));
  }

  lemma ParsesTail(port: Option<PortRange>)
    requires ValidRange(port)
    ensures ParseTail(PortArgument(port) + "'") == Some(port)
    ensures '\'' !in PortArgument(port)
  {
    hide ParsePorts, Argument, StripPrefix, StripSuffix, MoshUdpPortRange;
    if port.Some? {
      var range := port.value;
      ParsesArgument(range);
      assert " -p " + Argument(range) + "'" == " -p " + (Argument(range) + "'");
      assert (" -p " + (Argument(range) + "'"))[0] == ' ';
      StripsPrefix(" -p ", Argument(range) + "'");
      StripsSuffix(Argument(range), "'");
    } else {
      assert "" + "'" == "'";
    }
  }

  /** Every command the client prints is read back as the path and the ports it was printed from. */
  lemma ParseOfCommand(path: Option<string>, port: Option<PortRange>)
    requires ValidPath(path) && ValidRange(port)
    ensures ParseBootstrapRequest(Utf8Bytes(BootstrapCommand(path, port))) == Some(Request(path, port))
  {
    hide *;
    TextOfBytes(BootstrapCommand(path, port));
    ServerCharacters(path);
    ParsesTail(port);
    CommandParts(path, port);
    StripsPrefix(PREFIX, Server(path) + ARGUMENTS + (PortArgument(port) + "'"));
    SplitOnceOf(Server(path), ARGUMENTS, PortArgument(port) + "'");
    ParseSteps(Utf8Bytes(BootstrapCommand(path, port)), Server(path), path, PortArgument(port) + "'", port);
  }

  lemma CommandParts(path: Option<string>, port: Option<PortRange>)
    ensures BootstrapCommand(path, port) == PREFIX + (Server(path) + ARGUMENTS + (PortArgument(port) + "'"))
  {
    hide Server, PortArgument;
  }

  lemma ParseSteps(data: seq<byte>, server: string, path: Option<string>, tail: string, port: Option<PortRange>)
    requires Utf8Text(data) == Some(PREFIX + (server + ARGUMENTS + tail))
    requires StripPrefix(PREFIX + (server + ARGUMENTS + tail), PREFIX) == Some(server + ARGUMENTS + tail)
    requires SplitOnce(server + ARGUMENTS + tail, ARGUMENTS) == Some((server, tail))
    requires ParseServer(server) == Some(path) && ParseTail(tail) == Some(port)
    ensures ParseBootstrapRequest(data) == Some(Request(path, port))
  {
    hide Utf8Text, StripPrefix, SplitOnce, ParseServer, ParseTail;
  }

  lemma ParsedRange(request: string)
    requires ParsePorts(request).Some?
    ensures ValidRange(Some(ParsePorts(request).value))
  {
    hide Split, ParsePort;
  }

  lemma ParsedTail(arguments: string)
    requires ParseTail(arguments).Some?
    ensures ValidRange(ParseTail(arguments).value)
  {
    hide ParsePorts, ValidRange, StripPrefix, StripSuffix;
    assert ValidRange(None) by {
      NoRange();
    }
    if arguments != "'" {
      ParsedRange(StripSuffix(StripPrefix(arguments, " -p ").value, "'").value);
    }
  }

  lemma NoRange()
    ensures ValidRange(None)
  {
  }

  /** Whatever the parser accepts, the client could have been asked for. */
  lemma ParsedIsValid(data: seq<byte>)
    ensures match ParseBootstrapRequest(data)
            case None => true
            case Some(r) => ValidPath(r.path) && ValidRange(r.port)
  {
    hide Utf8Text, StripPrefix, SplitOnce, ParseTail, ValidRange, ValidMoshServerPath, MoshServerPath;
    if ParseBootstrapRequest(data).Some? {
      var parts := SplitOnce(StripPrefix(Utf8Text(data).value, PREFIX).value, ARGUMENTS).value;
      ParsedTail(parts.1);
      PathValidatorsAgree(parts.0);
    }
  }

  /** A port request in the form the client prints: no leading zeros, and two bounds only when they differ. */
  predicate PrintedForm(request: string) {
    var fields := Split(request, ':');
    (forall i :: 0 <= i < |fields| ==> fields[i] != "" && fields[i][0] != '0')
        && (|fields| == 2 ==> fields[0] != fields[1])
  }

  lemma PrintsBack(text: string)
    requires ParsePort(text).Some?
    ensures Decimal(ParsePort(text).value) == text <==> text[0] != '0'
  {
    hide Decimal;
    DecimalOfValue(text);
    ZeroHasNoValue();
  }

  lemma ZeroHasNoValue()
    ensures ParsePort("0").None?
  {
    ValueSnoc("", '0');
    assert "" + ['0'] == "0";
  }

  /** Printing a parsed port request gives its text back exactly when it has the printed form. */
  lemma ArgumentOfParse(request: string)
    requires ParsePorts(request).Some?
    ensures Argument(ParsePorts(request).value) == request <==> PrintedForm(request)
  {
    hide Decimal, Split, Join, ParsePort;
    var fields, range := Split(request, ':'), ParsePorts(request).value;
    JoinSplit(request, ':');
    PrintsBack(fields[0]);
    ParsesPort(range.start);
    ParsesPort(range.end);
    if |fields| == 1 {
      assert fields == [fields[0]];
      JoinOne(fields[0], ':');
    } else {
      PrintsBack(fields[1]);
      assert fields == [fields[0], fields[1]] == [fields[0]] + [fields[1]];
      JoinOne(fields[1], ':');
      JoinCons(fields[0], [fields[1]], ':');
      assert request == fields[0] + ":" + fields[1];
      if range.start == range.end {
        assert ':' in request;
      } else {
        TwoBounds(fields[0], fields[1], range);
      }
    }
  }

  lemma TwoBounds(first: string, second: string, range: PortRange)
    requires ParsePort(first) == Some(range.start) && ParsePort(second) == Some(range.end)
    requires range.start != range.end
    ensures Argument(range) == first + ":" + second <==> Decimal(range.start) == first && Decimal(range.end) == second
  {
    hide Decimal, ParsePort;
    ParsesPort(range.start);
    ParsesPort(range.end);
    var a, b := Decimal(range.start), Decimal(range.end);
    if a + ":" + b == first + ":" + second {
      assert ':' !in first && ':' !in second by {
        PortText(first);
        PortText(second);
      }
      SplitCons(a, ':', b);
      SplitCons(first, ':', second);
      SplitWhole(b);
      SplitWhole(second);
      assert a + [':'] + b == first + [':'] + second;
      assert ([a] + [b])[0] == ([first] + [second])[0] && ([a] + [b])[1] == ([first] + [second])[1];
    }
  }

  lemma PortText(text: string)
    requires ParsePort(text).Some?
    ensures ':' !in text
  {
  }

  /** The text after the fixed arguments of a command, if it has them. */
  function Tail(data: seq<byte>): Option<string> {
    match Utf8Text(data)
    case None => None
    case Some(command) =>
      match StripPrefix(command, PREFIX)
      case None => None
      case Some(suffix) =>
        match SplitOnce(suffix, ARGUMENTS)
        case None => None
        case Some(parts) => Some(parts.1)
  }

  predicate PrintedTail(arguments: string) {
    || arguments == "'"
    || match StripPrefix(arguments, " -p ")
       case None => false
       case Some(quoted) =>
         match StripSuffix(quoted, "'")
         case None => false
         case Some(request) => PrintedForm(request)
  }

  lemma TailOfParse(arguments: string)
    requires ParseTail(arguments).Some?
    ensures PortArgument(ParseTail(arguments).value) + "'" == arguments <==> PrintedTail(arguments)
  {
    hide ParsePorts, Argument, PrintedForm, StripPrefix, StripSuffix;
    if arguments == "'" {
      assert "" + "'" == "'";
    } else {
      var quoted := StripPrefix(arguments, " -p ").value;
      var request := StripSuffix(quoted, "'").value;
      var argument := Argument(ParsePorts(request).value);
      ArgumentOfParse(request);
      assert arguments == " -p " + request + "'";
      if " -p " + argument + "'" == " -p " + request + "'" {
        SameMiddle(" -p ", argument, request, "'");
      }
    }
  }

  lemma SameMiddle(front: string, a: string, b: string, back: string)
    requires front + a + back == front + b + back
    ensures a == b
  {
    assert |a| == |b|;
    assert (front + a + back)[|front|..|front| + |a|] == a;
    assert (front + b + back)[|front|..|front| + |b|] == b;
  }

  lemma Regroup(a: string, b: string, c: string, d: string)
    ensures a + (b + c + d) == a + (b + c) + d + ""
  {
  }

  /** An accepted command is one the client prints exactly when its port request has the printed form. */
  lemma CommandOfParse(data: seq<byte>)
    ensures match ParseBootstrapRequest(data)
            case None => true
            case Some(r) =>
              && Tail(data).Some?
              && (Utf8Bytes(BootstrapCommand(r.path, r.port)) == data <==> PrintedTail(Tail(data).value))
  {
    hide Utf8Text, StripPrefix, SplitOnce, ParseTail, PrintedTail, ValidMoshServerPath, PortArgument, Utf8Bytes, PREFIX,
        ARGUMENTS;
    if ParseBootstrapRequest(data).Some? {
      var command := Utf8Text(data).value;
      var parts := SplitOnce(StripPrefix(command, PREFIX).value, ARGUMENTS).value;
      var r := ParseBootstrapRequest(data).value;
      BytesOfText(data);
      TailOfParse(parts.1);
      assert Server(r.path) == parts.0;
      assert command == PREFIX + (parts.0 + ARGUMENTS + parts.1);
      var printed := BootstrapCommand(r.path, r.port);
      CommandParts(r.path, r.port);
      TextOfBytes(printed);
      TextOfBytes(command);
      if Utf8Bytes(printed) == data {
        assert printed == command;
        Regroup(PREFIX, parts.0, ARGUMENTS, PortArgument(r.port) + "'");
        Regroup(PREFIX, parts.0, ARGUMENTS, parts.1);
        SameMiddle(PREFIX + (parts.0 + ARGUMENTS), PortArgument(r.port) + "'", parts.1, "");
      }
    }
  }

  // ---- The command as one shell word ------------------------------------------

  lemma ScriptQuotes()
    ensures '\'' !in TEST && '\'' !in FORMAT && '\'' !in OPERAND && '\'' !in ARGUMENTS
  {
  }

  lemma PrefixQuotes()
    ensures |PREFIX| > 7 && PREFIX[6] == '\'' && forall k :: 0 <= k < |PREFIX| && PREFIX[k] == '\'' ==> k == 6
  {
    ScriptQuotes();
    hide TEST, FORMAT, OPERAND;
    assert |TEST| > 0 by {
      TestIsThere();
    }
  }

  lemma TestIsThere()
    ensures |TEST| > 0
  {
  }

  /** The script handed to `sh -c` is one single-quoted word: no accepted path or range can end it early. */
  lemma OneQuotedWord(path: Option<string>, port: Option<PortRange>)
    requires ValidPath(path) && ValidRange(port)
    ensures var command := BootstrapCommand(path, port);
            && |command| > 7
            && forall k :: 0 <= k < |command| ==> (command[k] == '\'' <==> k == 6 || k == |command| - 1)
  {
    hide Server, PortArgument, ValidPath, ValidRange, PREFIX, ARGUMENTS, TEST, FORMAT, OPERAND;
    PrefixQuotes();
    ScriptQuotes();
    ServerCharacters(path);
    ParsesTail(port);
    var a, b, c, d := PREFIX, Server(path), ARGUMENTS, PortArgument(port);
    var command := BootstrapCommand(path, port);
    assert command == a + b + c + d + "'";
    forall k | 0 <= k < |command| ensures command[k] == '\'' <==> k == 6 || k == |command| - 1 {
      QuoteAt(a, b, c, d, k);
    }
  }

  lemma QuoteAt(a: string, b: string, c: string, d: string, k: nat)
    requires k < |a + b + c + d + "'"| && |a| > 7
    requires '\'' !in b && '\'' !in c && '\'' !in d
    requires a[6] == '\'' && forall k :: 0 <= k < |a| && a[k] == '\'' ==> k == 6
    ensures (a + b + c + d + "'")[k] == '\'' <==> k == 6 || k == |a + b + c + d + "'"| - 1
  {
  }
}
