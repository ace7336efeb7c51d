/** Captures put together from plain bytes and complete strings, and what the scanner finds in them. */
module AttentionRendering {
  import opened Basics
  import opened TerminalEffects
  import opened AttentionObserver

  /** A plain byte, or a string from its introducer to its terminator. */
  datatype Segment = Plain(value: byte) | Text(kind: byte, body: seq<byte>, bel: bool)

  const INTRODUCERS: set<byte> := {93, 80, 88, 94, 95}

  /** A string's body holds no ESC backslash, an OSC's no BEL either; only an OSC ends with BEL. */
  predicate WellMade(s: Segment) {
    match s
    case Plain(_) => true
    case Text(kind, body, bel) =>
      && kind in INTRODUCERS && (forall k :: 0 <= k < |body| - 1 ==> !(body[k] == ESC && body[k + 1] == BACKSLASH))
      && (kind == CLOSE_BRACKET ==> BEL !in body) && (bel ==> kind == CLOSE_BRACKET)
  }

  /** A plain ESC does not begin a string with the bytes after it. */
  predicate Separate(s: Segment, after: seq<byte>) {
    s == Plain(ESC) ==> after == [] || after[0] !in INTRODUCERS
  }

  ghost predicate AllWellMade(segments: seq<Segment>) {
    forall i :: 0 <= i < |segments| ==> WellMade(segments[i]) && Separate(segments[i], RenderAll(segments[i + 1..]))
  }

  function Render(s: Segment): (bytes: seq<byte>)
    ensures |bytes| > 0
  {
    match s
    case Plain(b) => [b]
    case Text(kind, body, bel) => [ESC, kind] + body + if bel then [BEL] else STRING_TERMINATOR
  }

  function RenderAll(segments: seq<Segment>): seq<byte> {
    if |segments| == 0 then [] else Render(segments[0]) + RenderAll(segments[1..])
  }

  /** A plain BEL counts, an OSC counts when it asks for attention, and nothing inside a string counts. */
  function Counted(s: Segment, at: nat): seq<AttentionEvent> {
    match s
    case Plain(b) => if b == BEL then [AttentionEvent(StandaloneBell, at, at + 1)] else []
    case Text(kind, body, bel) =>
      if kind == CLOSE_BRACKET && IsAttention(Render(s))
      then [AttentionEvent(Kind.Osc(MatchOsc(Render(s)).value.code), at, at + |Render(s)|)] else []
  }

  function CountedAll(segments: seq<Segment>, at: nat): seq<AttentionEvent> {
    if |segments| == 0 then [] else Counted(segments[0], at) + CountedAll(segments[1..], at + |Render(segments[0])|)
  }

  /** The first terminator at or after `from` is the one at `at`. */
  lemma {:induction false} TerminatorIs(data: seq<byte>, from: nat, osc: bool, at: nat, bel: bool)
    requires from <= at < |data| && (bel ==> osc && data[at] == BEL)
    requires !bel ==> at + 1 < |data| && data[at] == ESC && data[at + 1] == BACKSLASH
    requires forall k :: from <= k < at ==> !(data[k] == ESC && data[k + 1] == BACKSLASH) && (osc ==> data[k] != BEL)
    ensures TerminatorEnd(data, from, osc) == Some(if bel then at + 1 else at + 2)
    decreases at - from
  {
    if from < at {
      TerminatorIs(data, from + 1, osc, at, bel);
    }
  }

  /** Where the bytes of a rendered string stand. */
  lemma TextBytes(before: seq<byte>, kind: byte, body: seq<byte>, bel: bool, after: seq<byte>)
    ensures var frame, n := Render(Text(kind, body, bel)), |before|;
            var data, at := before + frame + after, n + 2 + |body|;
            && |frame| == 2 + |body| + (if bel then 1 else 2) && data[n..n + |frame|] == frame
            && data[n] == ESC && data[n + 1] == kind && data[n + 2..at] == body
            && (bel ==> data[at] == BEL) && (!bel ==> data[at] == ESC && data[at + 1] == BACKSLASH)
  {
    var frame, n := Render(Text(kind, body, bel)), |before|;
    var data, at := before + frame + after, n + 2 + |body|;
    assert data[n..n + |frame|] == frame;
    assert data[n + 2..at] == frame[2..2 + |body|] == body;
  }

  lemma OutsideSlice(data: seq<byte>, from: nat, to: nat, x: byte)
    requires from <= to <= |data| && x !in data[from..to]
    ensures forall k :: from <= k < to ==> data[k] != x
  {
    forall k | from <= k < to ensures data[k] != x {
      assert data[k] == data[from..to][k - from];
    }
  }

  /** Nothing in the body, nor its last byte with the terminator's first, is ESC backslash. */
  lemma NoTerminatorInside(data: seq<byte>, from: nat, body: seq<byte>)
    requires from + |body| < |data| && data[from..from + |body|] == body && data[from + |body|] != BACKSLASH
    requires forall k :: 0 <= k < |body| - 1 ==> !(body[k] == ESC && body[k + 1] == BACKSLASH)
    ensures forall k :: from <= k < from + |body| ==> !(data[k] == ESC && data[k + 1] == BACKSLASH)
  {
    forall k | from <= k < from + |body| ensures !(data[k] == ESC && data[k + 1] == BACKSLASH) {
      assert data[k] == data[from..from + |body|][k - from] == body[k - from];
      if k + 1 < from + |body| {
        assert data[k + 1] == data[from..from + |body|][k + 1 - from] == body[k + 1 - from];
      }
    }
  }

  lemma StepOverText(before: seq<byte>, kind: byte, body: seq<byte>, bel: bool, after: seq<byte>)
    requires WellMade(Text(kind, body, bel))
    ensures var s := Text(kind, body, bel);
            Step(before + Render(s) + after, |before|) == Some((Counted(s, |before|), |before| + |Render(s)|))
  {
    hide TerminatorEnd, IsAttention, MatchOsc, Render;
    var data, n := before + Render(Text(kind, body, bel)) + after, |before|;
    TextBytes(before, kind, body, bel, after);
    var at := n + 2 + |body|;
    NoTerminatorInside(data, n + 2, body);
    if kind == CLOSE_BRACKET {
      OutsideSlice(data, n + 2, at, BEL);
    }
    TerminatorIs(data, n + 2, kind == CLOSE_BRACKET, at, bel);
  }

  /** One step over a rendered segment, wherever it stands. */
  lemma StepOverSegment(before: seq<byte>, s: Segment, after: seq<byte>)
    requires WellMade(s) && Separate(s, after)
    ensures Step(before + Render(s) + after, |before|) == Some((Counted(s, |before|), |before| + |Render(s)|))
  {
    hide TerminatorEnd, IsAttention, MatchOsc;
    match s {
      case Plain(b) =>
        assert (before + Render(s) + after)[|before|] == b;
        assert after != [] ==> (before + Render(s) + after)[|before| + 1] == after[0];
      case Text(kind, body, bel) =>
        StepOverText(before, kind, body, bel, after);
    }
  }

  /** Of a capture put together from segments the scanner finds exactly the counted ones, at their places. */
  lemma {:induction false} ScanOfRendering(before: seq<byte>, segments: seq<Segment>)
    requires AllWellMade(segments)
    ensures Scan(before + RenderAll(segments), |before|) == CountedAll(segments, |before|)
    decreases |segments|
  {
    hide Step, Counted, Scan, Render, WellMade, Separate;
    var data := before + RenderAll(segments);
    if |segments| == 0 {
      ScanDone(data, |before|);
    } else {
      var first, rest := Render(segments[0]), segments[1..];
      assert data == before + first + RenderAll(rest);
      StepOverSegment(before, segments[0], RenderAll(rest));
      ScanUnfold(data, |before|);
      assert forall i :: 0 <= i < |rest| ==> rest[i] == segments[i + 1] && rest[i + 1..] == segments[i + 1 + 1..];
      ScanOfRendering(before + first, rest);
      assert (before + first) + RenderAll(rest) == data;
    }
  }
}
