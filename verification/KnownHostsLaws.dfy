/** Which entries of a known_hosts file belong to a host, line by line. */
module KnownHostsLaws {
  import opened Basics
  import opened Decimals
  import opened KnownHosts
  import opened KnownHostsEdits
  import opened KnownHostsSearch

  predicate Blank(s: string) {
    forall k :: 0 <= k < |s| ==> s[k] in " \t\n\r\U{000c}"
  }

  predicate Word(s: string) {
    s != "" && forall k :: 0 <= k < |s| ==> s[k] !in " \t\n\r\U{000c}"
  }

  lemma WhitespaceIs(c: char)
    ensures IsWhitespace(c) <==> c in " \t\n\r\U{000c}"
  {
    var all := " \t\n\r\U{000c}";
    assert all[0] == ' ' && all[1] == '\t' && all[2] == '\n' && all[3] == '\r' && all[4] as int == 12;
  }

  lemma BlankIs(s: string)
    ensures Blank(s) <==> forall k :: 0 <= k < |s| ==> IsWhitespace(s[k])
    ensures Word(s) <==> s != "" && forall k :: 0 <= k < |s| ==> !IsWhitespace(s[k])
  {
    hide IsWhitespace;
    forall k | 0 <= k < |s| ensures IsWhitespace(s[k]) <==> s[k] in " \t\n\r\U{000c}" {
      WhitespaceIs(s[k]);
    }
  }

  lemma SliceIs(line: string, from: nat, to: nat)
    requires from <= to <= |line|
    ensures Blank(line[from..to]) <==> forall k :: from <= k < to ==> IsWhitespace(line[k])
    ensures Word(line[from..to]) <==> from < to && forall k :: from <= k < to ==> !IsWhitespace(line[k])
  {
    hide IsWhitespace, Blank, Word;
    var s := line[from..to];
    BlankIs(s);
    assert forall k :: from <= k < to ==> line[k] == s[k - from];
  }

  /** The word at `start..end` is the first one of the line. */
  predicate FirstWord(line: string, start: nat, end: nat) {
    && start <= end <= |line| && Blank(line[..start]) && Word(line[start..end])
    && (end < |line| ==> Blank(line[end..end + 1]))
  }

  /** The word at `start..end` is the second one of the line, behind the one at `first..firstEnd`. */
  predicate SecondWord(line: string, first: nat, firstEnd: nat, start: nat, end: nat) {
    && FirstWord(line, first, firstEnd) && firstEnd < start <= end <= |line|
    && Blank(line[firstEnd..start]) && Word(line[start..end]) && (end < |line| ==> Blank(line[end..end + 1]))
  }

  /** The first word of a line holds the patterns, between commas. */
  lemma PatternsOfLine(line: string, start: nat, end: nat)
    requires FirstWord(line, start, end) && line[start] != '#' && line[start] != '@'
    ensures Patterns(line) == Split(line[start..end], ',')
  {
    hide IsWhitespace, Blank, Word;
    SliceIs(line, 0, start);
    SliceIs(line, start, end);
    if end < |line| {
      SliceIs(line, end, end + 1);
    }
    TokenOf(line, start, end);
  }

  /** Behind a marker it is the second word. */
  lemma PatternsOfMarked(line: string, first: nat, firstEnd: nat, start: nat, end: nat)
    requires SecondWord(line, first, firstEnd, start, end) && line[first] == '@'
    ensures Patterns(line) == Split(line[start..end], ',')
  {
    hide IsWhitespace, Blank, Word;
    SliceIs(line, 0, first);
    SliceIs(line, first, firstEnd);
    SliceIs(line, firstEnd, start);
    SliceIs(line, start, end);
    if end < |line| {
      SliceIs(line, end, end + 1);
    }
    MarkedAt(line, first, firstEnd, start, end);
  }

  lemma MarkedAt(line: string, first: nat, firstEnd: nat, start: nat, end: nat)
    requires first < firstEnd < start < end <= |line| && line[first] == '@'
    requires forall k :: 0 <= k < first || firstEnd <= k < start ==> IsWhitespace(line[k])
    requires forall k :: first <= k < firstEnd || start <= k < end ==> !IsWhitespace(line[k])
    requires end < |line| ==> IsWhitespace(line[end])
    ensures HostField(line) == Some(Bounds(start, end))
  {
    hide IsWhitespace;
    WhitespaceEndsAt(line, 0, first);
    TokenEndsAt(line, first, firstEnd);
    WhitespaceEndsAt(line, firstEnd, start);
    TokenEndsAt(line, start, end);
  }

  /** Blank lines, comments and lone markers have none. */
  lemma NoPatterns(pad: string, rest: string, marker: string)
    requires Blank(pad) && Word(marker) && marker[0] == '@'
    ensures Patterns(pad) == [] && Patterns(pad + "#" + rest) == [] && Patterns(marker + pad) == []
  {
    hide IsWhitespace, Blank, Word;
    BlankIs(pad);
    BlankIs(marker);
    WhitespaceEndsAt(pad, 0, |pad|);
    var comment, lone := pad + "#" + rest, marker + pad;
    assert forall k :: 0 <= k < |pad| ==> comment[k] == pad[k];
    WhitespaceIs('#');
    WhitespaceEndsAt(comment, 0, |pad|);
    assert forall k :: 0 <= k < |marker| ==> lone[k] == marker[k];
    assert forall k :: |marker| <= k < |lone| ==> lone[k] == pad[k - |marker|];
    WhitespaceEndsAt(lone, 0, 0);
    TokenEndsAt(lone, 0, |marker|);
    WhitespaceEndsAt(lone, |marker|, |lone|);
  }

  /** A line with one plain pattern belongs to a host exactly when the pattern is its name: the host itself for port
      22, and for any other port the host in brackets, a colon and the port's numeral. */
  lemma OnePlainPattern(check: HashCheck, line: string, start: nat, end: nat, host: string, port: nat)
    requires FirstWord(line, start, end) && line[start] != '#' && line[start] != '@'
    requires ',' !in line[start..end] && !("|1|" <= line[start..end])
    ensures LineMatches(check, line, FormatTarget(host, port)) <==>
            if port == 22 then line[start..end] == host
            else
              exists digits: string ::
                && line[start..end] == "[" + host + "]:" + digits && digits != "" && AllDigits(digits)
                && Value(digits) == port && (digits == "0" || digits[0] != '0')
  {
    var word := line[start..end];
    hide Patterns, Split, FirstWord, Value, NamesHost, FormatTarget;
    PatternsOfLine(line, start, end);
    SplitOne(word);
    assert Patterns(line) == [word] && word in [word];
    NameExact(word, host, port);
    NumeralName(word, host, port);
  }

  lemma NumeralName(word: string, host: string, port: nat)
    ensures port == 22 ==> (NamesHost(word, host, port) <==> word == host)
    ensures port != 22 ==> (NamesHost(word, host, port) <==>
            exists digits: string ::
              && word == "[" + host + "]:" + digits && digits != "" && AllDigits(digits) && Value(digits) == port
              && (digits == "0" || digits[0] != '0'))
  {
    hide Value, AllDigits;
    var front := "[" + host + "]:";
    if port != 22 && NamesHost(word, host, port) {
      assert word == front + word[|front|..] && word[|front|..][0] == word[|front|];
    }
    forall digits: string | word == front + digits ensures word[|front|..] == digits && word[..|front|] == front {
    }
  }

  /** One host on different ports has different names. */
  lemma NamesDiffer(host: string, port: nat, other: nat)
    requires port != other
    ensures FormatTarget(host, port) != FormatTarget(host, other)
  {
    hide Decimal;
    ValueOfDecimal(port);
    ValueOfDecimal(other);
    var front := "[" + host + "]:";
    if port != 22 && other != 22 {
      assert FormatTarget(host, port)[|front|..] == Decimal(port);
      assert FormatTarget(host, other)[|front|..] == Decimal(other);
    } else {
      assert |front| > |host|;
    }
  }

  // ---- An example -----------------------------------------------------------------

  const PLAIN := "h ssh-ed25519 A"
  const PORTED := "[h]:2222,b ssh-rsa B"

  lemma ExampleNumerals()
    ensures Decimal(2222) == "2222" && Decimal(2) == "2" && FormatTarget("h", 2222) == "[h]:2222"
    ensures FormatTarget("h", 22) == "h"
  {
    assert Decimal(22) == Decimal(2) + "2" && Decimal(222) == Decimal(22) + "2" && Decimal(2222) == Decimal(222) + "2";
  }

  lemma ExampleLines()
    ensures Lines(PLAIN + "\n" + PORTED + "\r\n") == [PLAIN + "\n", PORTED + "\r\n"]
    ensures Body(PLAIN + "\n") == PLAIN && Body(PORTED + "\r\n") == PORTED
    ensures SplitLineEnding(PORTED + "\r\n").ending == "\r\n"
  {
    var content, first, second := PLAIN + "\n" + PORTED + "\r\n", PLAIN + "\n", PORTED + "\r\n";
    assert forall k :: 0 <= k < 15 ==> PLAIN[k] != '\n';
    IndexIs(content, '\n', 0, 15);
    assert content[..16] == first && content[16..] == second;
    assert forall k :: 0 <= k < 20 ==> PORTED[k] != '\n';
    forall k | 0 <= k < 21 ensures second[k] != '\n' {
      if k < 20 {
        assert second[k] == PORTED[k];
      }
    }
    IndexIs(second, '\n', 0, 21);
    assert second[..22] == second && second[22..] == "";
    assert Lines(second) == [second] + Lines("") == [second];
    assert Body(first) == PLAIN;
    assert Body(second) == PORTED;
  }

  lemma ExamplePatterns()
    ensures HostField(PLAIN) == Some(Bounds(0, 1)) && Patterns(PLAIN) == ["h"]
    ensures HostField(PORTED) == Some(Bounds(0, 10)) && Patterns(PORTED) == ["[h]:2222", "b"]
  {
    TokenOf(PLAIN, 0, 1);
    SplitOne("h");
    assert PLAIN[0..1] == "h";
    TokenOf(PORTED, 0, 10);
    assert PORTED[0..10] == "[h]:2222" + [','] + "b";
    SplitOne("b");
    SplitCons("[h]:2222", ',', "b");
  }

  lemma NotHashed(s: string)
    requires s != "" && s[0] != '|'
    ensures !("|1|" <= s)
  {
    assert "|1|"[0] == '|';
  }

  lemma ExampleEdits(check: HashCheck)
    ensures !LineMatches(check, PLAIN, "[h]:2222") && EditLine(check, PLAIN, "[h]:2222") == Unchanged
    ensures LineMatches(check, PORTED, "[h]:2222") && EditLine(check, PORTED, "[h]:2222") == Replaced("b ssh-rsa B")
  {
    ExamplePatterns();
    hide HostField, Patterns, Split;
    NotHashed("[h]:2222");
    NotHashed("b");
    NotHashed("h");
    assert PatternMatches(check, "[h]:2222", "[h]:2222") && "[h]:2222" in ["[h]:2222", "b"];
    assert ["[h]:2222", "b"][1..] == ["b"] && ["b"][1..] == [];
    assert Retained(check, ["b"], "[h]:2222") == ["b"] + Retained(check, [], "[h]:2222") == ["b"];
    assert Retained(check, ["[h]:2222", "b"], "[h]:2222") == [] + ["b"] == ["b"];
    JoinOne("b", ',');
    assert PORTED[..0] + "b" + PORTED[10..] == "b ssh-rsa B";
  }

  /** Finding and removing `h` on port 2222 in a file that also holds `h` on port 22. */
  method PortExample(check: HashCheck) returns (query: Result<Query, string>, removal: Result<Removal, string>)
    ensures query == Ok(Query("# Host [h]:2222 found: line 2\n[h]:2222,b ssh-rsa B\n", 1))
    ensures removal == Ok(Removal("h ssh-ed25519 A\nb ssh-rsa B\r\n", 1))
  {
    hide *;
    ExampleNumerals();
    ExampleLines();
    ExampleResult(check);
    ExampleContent();
    var content := "h ssh-ed25519 A\n[h]:2222,b ssh-rsa B\r\n";
    query := FindKnownHostEntries(check, content, "h", 2222);
    removal := RemoveKnownHostEntries(check, content, "h", 2222);
  }

  lemma ExampleContent()
    ensures "h ssh-ed25519 A\n[h]:2222,b ssh-rsa B\r\n" == PLAIN + "\n" + PORTED + "\r\n"
    ensures ValidHost("h")
  {
  }

  lemma ExampleResult(check: HashCheck)
    ensures var lines := [PLAIN + "\n", PORTED + "\r\n"];
            && Report(check, lines, "[h]:2222", 1) == "# Host [h]:2222 found: line 2\n[h]:2222,b ssh-rsa B\n"
            && CountMatches(check, lines, "[h]:2222") == 1
            && EmitAll(check, lines, "[h]:2222") == "h ssh-ed25519 A\nb ssh-rsa B\r\n"
  {
    ExampleNumerals();
    ExampleLines();
    ExampleEdits(check);
    hide Decimal, LineMatches, EditLine, Body, SplitLineEnding, PLAIN, PORTED;
    var first, second := PLAIN + "\n", PORTED + "\r\n";
    assert [first, second][1..] == [second] && [second][1..] == [];
    assert Report(check, [second], "[h]:2222", 2) == Entry("[h]:2222", 2, PORTED) + Report(check, [], "[h]:2222", 3);
    assert CountMatches(check, [second], "[h]:2222") == 1 + CountMatches(check, [], "[h]:2222");
    assert EmitAll(check, [second], "[h]:2222") == "b ssh-rsa B" + "\r\n" + EmitAll(check, [], "[h]:2222");
    ExampleTexts();
  }

  lemma ExampleTexts()
    ensures "" + (Entry("[h]:2222", 2, PORTED) + "") == "# Host [h]:2222 found: line 2\n[h]:2222,b ssh-rsa B\n"
    ensures PLAIN + "\n" + ("b ssh-rsa B" + "\r\n" + "") == "h ssh-ed25519 A\nb ssh-rsa B\r\n"
  {
    ExampleNumerals();
    hide Decimal;
    assert Header("[h]:2222", 2) == "# Host [h]:2222 found: line 2\n";
  }
}
