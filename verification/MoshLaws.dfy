/** What the bootstrap command's validators accept, and what the command says. */
module MoshLaws {
  import opened Basics
  import opened Decimals
  import opened MoshBootstrap
  import Utf8

  /** One name of a server path: letters, digits and the four signs `.`, `_`, `+`, `-`, but not `.` or `..`. */
  predicate PathName(segment: string) {
    && segment != "" && segment != "." && segment != ".."
    && forall k :: 0 <= k < |segment| ==>
         || '0' <= segment[k] <= '9' || 'A' <= segment[k] <= 'Z' || 'a' <= segment[k] <= 'z'
         || segment[k] in "._+-"
  }

  /** The names of a path, each behind a slash. */
  function PathOf(names: seq<string>): string {
    if |names| == 0 then "" else "/" + names[0] + PathOf(names[1..])
  }

  lemma NameIs(segment: string)
    ensures PathName(segment) <==> !BadSegment(segment)
  {
    forall k | 0 <= k < |segment|
      ensures PathCharacter(segment[k]) <==>
              || '0' <= segment[k] <= '9' || 'A' <= segment[k] <= 'Z' || 'a' <= segment[k] <= 'z'
              || segment[k] in "._+-"
    {
      assert "._+-"[0] == '.' && "._+-"[1] == '_' && "._+-"[2] == '+' && "._+-"[3] == '-';
    }
  }

  lemma {:induction false} PathIsJoin(names: seq<string>)
    requires |names| > 0
    ensures PathOf(names) == "/" + Join(names, '/')
  {
    if |names| > 1 {
      PathIsJoin(names[1..]);
      assert names == [names[0]] + names[1..];
      JoinCons(names[0], names[1..], '/');
    } else {
      JoinOne(names[0], '/');
      assert names == [names[0]] && PathOf(names[1..]) == "";
    }
  }

  /** ASCII text has as many bytes as characters. */
  lemma {:induction false} AsciiLength(s: string)
    requires forall k :: 0 <= k < |s| ==> s[k] as int < 128
    ensures |Utf8Bytes(s)| == |s|
  {
    if |s| > 0 {
      AsciiLength(s[1..]);
      assert Scalars(s)[1..] == Scalars(s[1..]);
      assert Utf8.EncodeScalar(Scalars(s)[0]) == [s[0] as int];
    } else {
      assert Scalars(s) == [];
    }
  }

  lemma {:induction false} PathText(names: seq<string>)
    requires |names| > 0 && forall i :: 0 <= i < |names| ==> PathName(names[i])
    ensures forall k :: 0 <= k < |PathOf(names)| ==> PathOf(names)[k] as int < 128
    ensures |PathOf(names)| > 0 && PathOf(names)[0] == '/' && PathOf(names)[|PathOf(names)| - 1] != '/'
  {
    NameText(names[0]);
    if |names| > 1 {
      PathText(names[1..]);
    } else {
      assert PathOf(names[1..]) == "";
    }
  }

  lemma NameText(segment: string)
    requires PathName(segment)
    ensures '/' !in segment && forall k :: 0 <= k < |segment| ==> segment[k] as int < 128
  {
    assert "._+-"[0] == '.' && "._+-"[1] == '_' && "._+-"[2] == '+' && "._+-"[3] == '-';
  }

  lemma SplitPath(names: seq<string>)
    requires |names| > 0 && forall i :: 0 <= i < |names| ==> PathName(names[i])
    ensures Split(PathOf(names), '/') == [""] + names
  {
    hide PathName, Join, Split;
    forall i | 0 <= i < |names| ensures '/' !in names[i] {
      NameText(names[i]);
    }
    PathIsJoin(names);
    SplitJoin(names, '/');
    SplitCons("", '/', Join(names, '/'));
    assert "" + ['/'] + Join(names, '/') == PathOf(names);
  }

  /** The empty path means the default server; any other is accepted exactly when it is a slash before each of its
      names, and at most 1024 characters long. */
  lemma PathExact(value: string)
    ensures MoshServerPath("") == Ok(None)
    ensures value != "" ==> (MoshServerPath(value).Ok? <==>
              && |value| <= 1024
              && exists names: seq<string> ::
                   |names| > 0 && value == PathOf(names) && forall i :: 0 <= i < |names| ==> PathName(names[i]))
    ensures value != "" && MoshServerPath(value).Ok? ==> MoshServerPath(value) == Ok(Some(value))
  {
    hide PathName, BadSegment, Split, Utf8Bytes, PathOf, Join;
    if value != "" && MoshServerPath(value).Ok? {
      PathNames(value);
    }
    if names: seq<string> :|
      |names| > 0 && value == PathOf(names) && forall i :: 0 <= i < |names| ==> PathName(names[i])
    {
      NamesAccepted(names);
    }
  }

  lemma PathNames(value: string)
    requires value != "" && MoshServerPath(value).Ok?
    ensures |value| <= 1024
    ensures exists names: seq<string> ::
              |names| > 0 && value == PathOf(names) && forall i :: 0 <= i < |names| ==> PathName(names[i])
  {
    hide PathName, BadSegment, Split, Utf8Bytes, PathOf, Join, Separated;
    var segments := Split(value, '/');
    var names := segments[1..];
    JoinSplit(value, '/');
    FirstSegment(value);
    SlashSplits(value);
    forall i | 0 <= i < |names| ensures PathName(names[i]) {
      assert names[i] in segments[1..];
      NameIs(names[i]);
    }
    assert segments == [""] + names;
    JoinCons("", names, '/');
    PathIsJoin(names);
    assert value == "" + ['/'] + Join(names, '/') == PathOf(names);
    PathText(names);
    AsciiLength(value);
  }

  lemma SlashSplits(value: string)
    requires value != "" && value[0] == '/'
    ensures |Split(value, '/')| >= 2
  {
    IndexIs(value, '/', 0, 0);
  }

  lemma NamesAccepted(names: seq<string>)
    requires |names| > 0 && forall i :: 0 <= i < |names| ==> PathName(names[i])
    ensures PathOf(names) != ""
    ensures |PathOf(names)| <= 1024 ==> MoshServerPath(PathOf(names)) == Ok(Some(PathOf(names)))
  {
    hide PathName, BadSegment, Split, Utf8Bytes, PathOf;
    SplitPath(names);
    PathText(names);
    AsciiLength(PathOf(names));
    assert ([""] + names)[1..] == names;
    forall segment | segment in names ensures !BadSegment(segment) {
      NameIs(segment);
    }
  }

  /** Zero bounds mean no request; otherwise both lie between 1 and 65535, in order. */
  lemma RangeExact(start: nat, end: nat)
    ensures MoshUdpPortRange(0, 0) == Ok(None)
    ensures (start, end) != (0, 0) ==>
              if 1 <= start <= end <= 65535 then MoshUdpPortRange(start, end) == Ok(Some(PortRange(start, end)))
              else MoshUdpPortRange(start, end).Err?
  {
  }

  const FRONT_TEST := "sh -c '[ -n \"$SSH_CONNECTION\" ] && "
  const FRONT_PRINT := "printf \"\\nMOSH SSH_CONNECTION %s\\n\" "
  const FRONT_EXEC := "\"$SSH_CONNECTION\"; exec "
  const FRONT := FRONT_TEST + FRONT_PRINT + FRONT_EXEC

  lemma FrontIs()
    ensures PREFIX == FRONT
  {
    FrontStart();
    FrontRest();
    hide FORMAT, OPERAND, TEST, FRONT_TEST, FRONT_PRINT, FRONT_EXEC;
    assert "sh -c '" + (TEST + FORMAT + OPERAND) == "sh -c '" + TEST + FORMAT + OPERAND;
  }

  lemma FrontStart()
    ensures "sh -c '" + TEST == FRONT_TEST
  {
  }

  lemma FrontRest()
    ensures FORMAT == FRONT_PRINT && OPERAND == FRONT_EXEC
  {
  }

  /** The command for a server path and ports, for ports only, and for neither. */
  lemma CommandExamples()
    ensures BootstrapCommand(None, None) == FRONT + "mosh-server new -s -c 256'"
    ensures BootstrapCommand(Some("/opt/m"), Some(PortRange(80, 81))) == FRONT + "/opt/m new -s -c 256 -p 80:81'"
    ensures BootstrapCommand(None, Some(PortRange(80, 80))) == FRONT + "mosh-server new -s -c 256 -p 80'"
  {
    FrontIs();
    PortTexts();
    hide PREFIX, FRONT, PortArgument, ARGUMENTS;
    PlainTail();
    PathTail();
    PortTail();
    Tail(FRONT, "mosh-server", "", "mosh-server new -s -c 256'");
    Tail(FRONT, "/opt/m", " -p 80:81", "/opt/m new -s -c 256 -p 80:81'");
    Tail(FRONT, "mosh-server", " -p 80", "mosh-server new -s -c 256 -p 80'");
  }

  lemma PlainTail()
    ensures "mosh-server" + ARGUMENTS + "" + "'" == "mosh-server new -s -c 256'"
  {
  }

  lemma PathTail()
    ensures "/opt/m" + ARGUMENTS + " -p 80:81" + "'" == "/opt/m new -s -c 256 -p 80:81'"
  {
  }

  lemma PortTail()
    ensures "mosh-server" + ARGUMENTS + " -p 80" + "'" == "mosh-server new -s -c 256 -p 80'"
  {
  }

  lemma PortTexts()
    ensures PortArgument(Some(PortRange(80, 81))) == " -p 80:81" && PortArgument(Some(PortRange(80, 80))) == " -p 80"
    ensures PortArgument(None) == ""
  {
    TwoDigits();
    hide Decimal;
  }

  lemma TwoDigits()
    ensures Decimal(80) == "80" && Decimal(81) == "81"
  {
    assert Decimal(8) == "8";
  }

  lemma Tail(front: string, server: string, ports: string, all: string)
    requires server + ARGUMENTS + ports + "'" == all
    ensures front + server + ARGUMENTS + ports + "'" == front + all
  {
  }
}
